/**
 The sector-loading loop of the boot loader (bootsect.S), in 16-bit arithmetic with carries, on a
 1.44 MB floppy: 80 tracks, two heads, 18 sectors of 512 bytes a track.
 */
module BootLoader {
  import opened Memory

  const SYSSEG: nat := 0x1000
  const SECTORS: nat := 18
  const TRACKS: nat := 80

  function Add16(a: nat, b: nat): nat { (a + b) % 0x10000 }
  predicate Carry16(a: nat, b: nat) { a + b >= 0x10000 }
  function Sub16(a: nat, b: nat): nat { (a - b) % 0x10000 }
  function Shl9(a: nat): nat { a * 512 % 0x10000 }

  /** The 64 kB segments read for a system of `syssize` 16-byte paragraphs. */
  function Segments(syssize: nat): nat { syssize / 0x1000 + 1 }

  /** They hold the whole system, and the last of them is needed or just begun. */
  lemma SegmentsSuffice(syssize: nat)
    ensures 0x10000 * (Segments(syssize) - 1) <= 16 * syssize < 0x10000 * Segments(syssize)
  {
  }

  /** A 1.44 MB floppy. */
  lemma DiskSize()
    ensures SECTORS == 18 && TRACKS * 2 * SECTORS * 512 == 1474560
  {
  }

  class Loader {
    const disk: seq<Byte>
    const mem: array<Byte>
    var sread: nat
    var head: nat
    var track: nat
    var es: nat
    var bx: nat

    ghost predicate Shape() {
      |disk| == TRACKS * 2 * SECTORS * 512 && mem.Length == 0x100000
    }

    /** The sector, counted from the start of the disk, that is read next. */
    ghost function Lba(): int
      reads this
    {
      (track * 2 + head) * SECTORS + sread
    }

    /** The real-mode address es:bx. */
    ghost function Target(): nat
      reads this
    {
      es * 16 + bx
    }

    constructor (disk: seq<Byte>, mem: array<Byte>)
      requires |disk| == TRACKS * 2 * SECTORS * 512 && mem.Length == 0x100000
      ensures this.disk == disk && this.mem == mem && Shape()
      ensures sread == 0 && head == 0 && track == 0 && es == SYSSEG && bx == 0
    {
      this.disk, this.mem := disk, mem;
      sread, head, track, es, bx := 0, 0, 0, SYSSEG, 0;
    }

    /**
     read_track: `n` sectors by one BIOS call. The BIOS needs at least one sector, cannot pass the end of the
     track, and its DMA cannot cross a 64 kB boundary.
     */
    method ReadTrack(n: nat)
      requires Shape() && 1 <= n && sread + n <= SECTORS && head < 2 && track < TRACKS
      requires es % 0x1000 == 0 && bx + 512 * n <= 0x10000 && Target() + 512 * n <= mem.Length
      modifies mem
      ensures forall i :: 0 <= i < mem.Length ==>
        mem[i] == if Target() <= i < Target() + 512 * n then disk[512 * Lba() + (i - Target())] else old(mem[i])
    {
      var from, to := 512 * ((track * 2 + head) * SECTORS + sread), es * 16 + bx;
      forall i | to <= i < to + 512 * n {
        mem[i] := disk[from + (i - to)];
      }
    }

    /** ok1_read: to the end of the track, or only to the end of the segment if that is nearer. */
    method SectorsToRead() returns (ax: nat)
      requires sread < SECTORS && bx % 512 == 0 && bx < 0x10000
      ensures 1 <= ax && sread + ax <= SECTORS && bx + 512 * ax <= 0x10000
      ensures sread + ax == SECTORS || bx + 512 * ax == 0x10000
    {
      ghost var k := bx / 512;
      assert bx == 512 * k;
      ax := Sub16(SECTORS, sread);
      assert ax == SECTORS - sread;
      var cx := Shl9(ax);
      assert cx == 512 * ax;
      if Carry16(cx, bx) && Add16(cx, bx) != 0 {
        assert Sub16(0, bx) == 512 * (128 - k);
        ax := Sub16(0, bx) / 512;
      }
    }

    /** ok2_read to ok3_read: on to the next head or track when the track is done. */
    method AdvanceDisk(n: nat)
      requires sread + n <= SECTORS && head < 2
      modifies this`sread, this`head, this`track
      ensures sread < SECTORS && head < 2 && Lba() == old(Lba()) + n
    {
      var ax := Add16(n, sread);
      if ax == SECTORS {
        ax := Sub16(1, head);
        if ax == 0 {
          track := track + 1;
        }
        head := ax;
        ax := 0;
      }
      sread := ax;
    }

    /** ok3_read: on in memory, to the next segment on a carry. */
    method AdvanceMemory(n: nat)
      requires 1 <= n <= SECTORS && bx % 512 == 0 && bx + 512 * n <= 0x10000
      modifies this`es, this`bx
      ensures Target() == old(Target()) + 512 * n
      ensures if old(bx) + 512 * n == 0x10000 then es == old(es) + 0x1000 && bx == 0
              else es == old(es) && bx == old(bx) + 512 * n
    {
      var cx := Shl9(n);
      var carry := Carry16(bx, cx);
      bx := Add16(bx, cx);
      if carry {
        es := es + 0x1000;
        bx := 0;
      }
    }

    /** One round of rp_read: `n` sectors by one BIOS call, and on to the next. */
    method ReadMore() returns (n: nat)
      requires Shape() && sread < SECTORS && head < 2 && track < TRACKS
      requires es % 0x1000 == 0 && bx % 512 == 0 && bx < 0x10000 && es * 16 + 0x10000 <= mem.Length
      modifies this`sread, this`head, this`track, this`es, this`bx, mem
      ensures 1 <= n && old(sread) + n <= SECTORS && sread < SECTORS && head < 2
      ensures Lba() == old(Lba()) + n && Target() == old(Target()) + 512 * n
      ensures if old(bx) + 512 * n == 0x10000 then es == old(es) + 0x1000 && bx == 0
              else es == old(es) && bx == old(bx) + 512 * n < 0x10000
      ensures forall i :: 0 <= i < mem.Length ==>
        mem[i] == if old(Target()) <= i < Target() then disk[512 * old(Lba()) + (i - old(Target()))] else old(mem[i])
    {
      n := SectorsToRead();
      ReadTrack(n);
      AdvanceDisk(n);
      AdvanceMemory(n);
    }

    /**
     read_it: loads the system at 0x10000. It stops for every size, fills exactly the segments needed with the
     consecutive sectors behind the boot sector, and stays below 0x90000.
     */
    method ReadIt(syssize: nat)
      requires Shape() && syssize < 0x8000 && es == SYSSEG && sread == 0 && head == 0 && track == 0
      modifies this, mem
      ensures es == 0x1000 + 0x1000 * (syssize / 0x1000 + 1) && bx == 0 && Target() <= 0x90000
      ensures forall i :: 0x10000 <= i < 0x10000 + 16 * syssize ==> mem[i] == disk[512 + (i - 0x10000)]
      ensures forall i :: 0 <= i < mem.Length ==>
        mem[i] == if 0x10000 <= i < 0x10000 + 0x10000 * Segments(syssize) then disk[512 + (i - 0x10000)]
                  else old(mem[i])
    {
      sread := 0 + 1;
      bx := 0;
      ghost var segment, sector := 0, 0;
      while Sub16(es, SYSSEG) <= syssize
        invariant 0 <= segment <= Segments(syssize) && es == SYSSEG + 0x1000 * segment
        invariant 0 <= sector < 128 && bx == 512 * sector && (sector > 0 ==> segment < Segments(syssize))
        invariant sread < SECTORS && head < 2 && Lba() == 128 * segment + sector + 1
        invariant forall i :: 0 <= i < mem.Length ==>
          mem[i] == if 0x10000 <= i < Target() then disk[512 + (i - 0x10000)] else old(mem[i])
        decreases 0x10000 * (Segments(syssize) - segment) - bx
      {
        assert segment < Segments(syssize) <= 8;
        var n := ReadMore();
        sector := sector + n;
        if sector == 128 { segment, sector := segment + 1, 0; }
      }
    }
  }
}
