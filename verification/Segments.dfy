/** segment.c: twelve append areas, opened when first used and rolled over when full, fed by an
    allocator that only moves forward and skips bad segments. */
module Segments {
  import opened Bytes
  import opened Disk
  import opened Allocation

  class Device {
    const bad: nat -> bool   // segments that cannot be erased, by offset
    var bytes: seq<byte>
    ghost var failed: nat    // writes that failed

    constructor (size: nat, bad: nat -> bool)
      ensures |bytes| == size && this.bad == bad && failed == 0
    {
      this.bad := bad;
      bytes, failed := seq(size, _ => 0), 0;
    }

    /** `safe_pwrite`: on failure any prefix may have been written. */
    method Write(ofs: nat, buf: seq<byte>) returns (err: bool)
      requires ofs + |buf| <= |bytes|
      modifies this
      ensures SameOutside(old(bytes), bytes, ofs, ofs + |buf|)
      ensures failed == old(failed) + if err then 1 else 0
      ensures !err ==> bytes[ofs..ofs + |buf|] == buf
    {
      var n: nat := |buf|;
      err := false;
      if * {
        n :| 0 <= n <= |buf|;
        err := true;
        failed := failed + 1;
      }
      bytes := bytes[..ofs] + buf[..n] + bytes[ofs + n..];
    }

    /** Erasing fails on a bad segment, and on no other. */
    method Erase(ofs: nat, size: nat) returns (err: bool)
      requires ofs + size <= |bytes|
      modifies this`bytes
      ensures SameOutside(old(bytes), bytes, ofs, ofs + size)
      ensures err <==> bad(ofs)
      ensures !err ==> forall i :: ofs <= i < ofs + size ==> bytes[i] == 0xff
    {
      var ff: seq<byte> := seq(size, _ => 0xff);
      err := bad(ofs);
      var n: nat := size;
      if err {
        n :| 0 <= n <= size;
      }
      bytes := bytes[..ofs] + ff[..n] + bytes[ofs + n..];
      if !err {
        assert bytes[ofs..ofs + size] == ff;
        forall i | ofs <= i < ofs + size
          ensures bytes[i] == 0xff
        {
          assert bytes[ofs..ofs + size][i - ofs] == ff[i - ofs];
        }
      }
    }
  }

  class Area {
    var segno: nat
    var used: nat
    var buf: array?<byte>

    constructor ()
      ensures buf == null
    {
      segno, used, buf := 0, 0, null;
    }

    ghost function Snap(): Pool
      reads this, buf
    {
      if buf == null then Idle else Active(segno, used, buf[..])
    }

    /** `copybuf`. */
    method CopyBuf(data: seq<byte>)
      requires buf != null && used + |data| <= buf.Length
      modifies this, buf
      ensures buf == old(buf) && segno == old(segno) && used == old(used) + |data|
      ensures buf[..] == old(buf[..])[..old(used)] + data + old(buf[..])[old(used) + |data|..]
    {
      ghost var b := buf[..];
      Blit(buf, used, data);
      used := used + |data|;
    }

    /** The two `copybuf` calls of `logfs_segment_write`. */
    method CopyTwo(head: seq<byte>, data: seq<byte>)
      requires buf != null && used + |head| + |data| <= buf.Length
      modifies this, buf
      ensures buf == old(buf) && segno == old(segno) && used == old(used) + |head + data|
      ensures buf[..] == old(buf[..])[..old(used)] + (head + data) + old(buf[..])[old(used) + |head + data|..]
    {
      ghost var b, u := buf[..], used;
      TwoBlits(b, u, head, data);
      CopyBuf(head);
      CopyBuf(data);
    }

    /** The new contents of the buffer of a segment that was just taken: 0xff but for the header. */
    method Reset(segno: nat, head: seq<byte>)
      requires buf != null && |head| == SEG_HEADER <= buf.Length
      modifies this, buf
      ensures buf == old(buf) && this.segno == segno && used == SEG_HEADER
      ensures |buf[..]| == buf.Length && buf[..SEG_HEADER] == head && forall i :: SEG_HEADER <= i < buf.Length ==>
        buf[i] == 0xff
    {
      var i := 0;
      while i < buf.Length
        invariant i <= buf.Length && buf == old(buf)
        invariant forall j :: 0 <= j < i ==> buf[j] == 0xff
        modifies buf
      {
        buf[i] := 0xff;
        i := i + 1;
      }
      Blit(buf, 0, head);
      this.segno := segno;
      used := SEG_HEADER;
      assert forall i :: SEG_HEADER <= i < buf.Length ==> buf[i] == buf[..][i];
    }
  }

  /** `memcpy` into a buffer. */
  method Blit(buf: array<byte>, at: nat, data: seq<byte>)
    requires at + |data| <= buf.Length
    modifies buf
    ensures buf[..] == old(buf[..])[..at] + data + old(buf[..])[at + |data|..]
  {
    ghost var b := buf[..];
    var i := 0;
    while i < |data|
      invariant i <= |data|
      invariant buf[..] == b[..at] + data[..i] + b[at + i..]
    {
      buf[at + i] := data[i];
      assert buf[..] == (b[..at] + data[..i] + b[at + i..])[at + i := data[i]];
      i := i + 1;
    }
    assert data[..|data|] == data;
  }

  /** The segments set aside, for the first superblock and for the journal (`journal_seg`). */
  class ReservedSegs {
    var segs: seq<nat>

    constructor ()
      ensures segs == []
    {
      segs := [];
    }
  }

  /** What `logfs_segment_write` returns. The original does not tell `Wrapped` from `Done`: an offset
      that did not fit 32 bits looks like any other. */
  datatype Result = Done(ofs: nat) | Wrapped(ofs: nat) | Failed | Exit

  /** The object was written at `pos`, whatever offset was returned. */
  predicate Written32(r: Result, pos: nat) {
    match r
    case Done(ofs) => ofs == pos < 0x1_0000_0000
    case Wrapped(ofs) => ofs == pos % 0x1_0000_0000 && 0x1_0000_0000 <= pos
    case _ => false
  }

  class Super {
    const segsize: nat
    const noSegs: nat
    const crc: seq<byte> -> nat
    const dev: Device
    const area: seq<Area>
    const reserved: ReservedSegs
    const calloc: Calloc
    var lastseg: nat
    var entries: seq<Entry>
    var usedBytes: nat
    var used: map<nat, nat>           // di_used_bytes of every inode
    ghost var pieces: map<nat, Piece>
    ghost var objs: map<nat, Object>  // every object written, by the place where it begins
    ghost var wraps: nat              // objects whose offset did not fit 32 bits

    ghost function Bufs(): set<object>
      reads area
    {
      set a | a in area && a.buf != null :: a.buf
    }

    ghost function Pools(): (p: seq<Pool>)
      reads area, Bufs()
      ensures |p| == |area|
    {
      seq(|area|, i requires 0 <= i < |area| reads area, Bufs() => area[i].Snap())
    }

    ghost function Snap(): Disk
      reads this`lastseg, this`entries, this`pieces, dev`bytes, area, Bufs()
    {
      Disk(segsize, noSegs, lastseg, entries, dev.bytes, Pools(), pieces)
    }

    /** Areas and their buffers are objects of their own. */
    ghost predicate Separate()
      reads area
    {
      && |area| == AREAS
      && (forall i, j :: 0 <= i < j < |area| ==> area[i] != area[j])
      && (forall i, j :: 0 <= i < j < |area| && area[i].buf != null ==> area[i].buf != area[j].buf)
      && (forall i :: 0 <= i < |area| && area[i].buf != null ==> area[i].buf.Length == segsize)
    }

    ghost predicate Valid()
      reads this`lastseg, this`entries, this`pieces, this`objs, reserved, dev`bytes, area, Bufs()
    {
      Separate() && Ok(Snap()) && Logged(crc, objs, pieces, segsize) && Tidy(crc, dev.bad, reserved.segs, Snap())
    }

    /** What has gone wrong so far: writes that failed, allocations that were refused, and whether
        the segments have run out. */
    ghost function Faults(): nat
      reads this, dev, calloc
    {
      dev.failed + calloc.refused + if lastseg > noSegs then 1 else 0
    }

    /** The same, and the offsets that did not fit. */
    ghost function Trouble(): nat
      reads this, dev, calloc
    {
      Faults() + wraps
    }

    constructor (segsize: nat, noSegs: nat, crc: seq<byte> -> nat, bad: nat -> bool)
      requires SEG_HEADER + OBJ_HEADER + BLOCKSIZE <= segsize < 0x1_0000_0000 && noSegs < 0xffff_ffff
      ensures Valid() && fresh(dev) && fresh(area) && fresh(reserved) && Bufs() == {} && objs == map[] &&
        reserved.segs == []
      ensures Accounted(Snap(), usedBytes, used) && usedBytes == 0 && used == map[]
      ensures this.segsize == segsize && this.noSegs == noSegs && this.crc == crc && dev.bad == bad
      ensures fresh(calloc) && Trouble() == 0
    {
      this.segsize, this.noSegs, this.crc := segsize, noSegs, crc;
      var all: seq<Area> := [];
      while |all| < AREAS
        invariant |all| <= AREAS && fresh(all)
        invariant forall i :: 0 <= i < |all| ==> all[i].buf == null
        invariant forall i, j :: 0 <= i < j < |all| ==> all[i] != all[j]
      {
        var a := new Area();
        all := all + [a];
      }
      area := all;
      reserved := new ReservedSegs();
      calloc := new Calloc();
      dev := new Device(noSegs * segsize, bad);
      lastseg, usedBytes, used, wraps := 0, 0, map[], 0;
      entries := seq(noSegs, _ => Entry(0, 0));
      pieces, objs := map[], map[];
      new;
      Starts();
    }

    /** A new superblock is well formed. */
    lemma Starts()
      requires SEG_HEADER + OBJ_HEADER + BLOCKSIZE <= segsize < 0x1_0000_0000 && noSegs < 0xffff_ffff
      requires |area| == AREAS && (forall i :: 0 <= i < |area| ==> area[i].buf == null) && forall i, j ::
        0 <= i < j < |area| ==> area[i] != area[j]
      requires |dev.bytes| == noSegs * segsize && lastseg == 0 && usedBytes == 0 && used == map[] &&
        pieces == map[] && objs == map[] && reserved.segs == []
      requires |entries| == noSegs && forall s :: 0 <= s < |entries| ==> entries[s] == Entry(0, 0)
      ensures Valid() && Bufs() == {} && Accounted(Snap(), usedBytes, used)
    {
      var d := Snap();
      assert forall i :: 0 <= i < |d.pools| ==> d.pools[i] == Idle;
      EmptyOk(d);
      EmptyTidy(crc, dev.bad, d);
      hide Tidy, Ok;
      AccountStart(d);
    }

    /** `get_segment`: the next good segment. Running out of segments ends the program. */
    method GetSegment() returns (segno: nat, ok: bool)
      requires Valid()
      modifies this`lastseg, this`entries, dev`bytes
      ensures ok ==>
        Allocated(old(Snap()), Snap(), segno) && Valid() && lastseg <= noSegs && !dev.bad(SegAt(segno, segsize))
      ensures !ok ==> Skipped(old(Snap()), Snap(), noSegs) && lastseg > noSegs
    {
      hide Tidy, Ok, Allocating, Allocated, Logged, SameOutside, Found, Skipped;
      ghost var d := Snap();
      AllocStart(d);
      AllocRange(d, d);
      ok := true;
      var err := true;
      segno := 0;
      while err
        invariant lastseg <= noSegs && Allocating(d, Snap())
        invariant if err then Skipped(d, Snap(), lastseg)
          else Found(d, Snap(), segno) && !dev.bad(SegAt(segno, segsize))
        decreases err, noSegs - lastseg
      {
        segno := lastseg;
        if segno + 1 > noSegs {
          // the device is used up
          ghost var d1 := Snap();
          lastseg := lastseg + 1;
          SkippedSame(d, d1, Snap(), noSegs);
          return segno, false;
        }
        err := TrySegment(d);
      }
      AllocDone(d, Snap(), segno);
      AllocTidy(crc, dev.bad, reserved.segs, d, Snap(), segno);
    }

    /** One turn of the loop of `get_segment`. */
    method TrySegment(ghost d: Disk) returns (err: bool)
      requires Ok(d) && Allocating(d, Snap()) && Skipped(d, Snap(), lastseg) && lastseg < noSegs
      modifies this`lastseg, this`entries, dev`bytes
      ensures Allocating(d, Snap()) && lastseg == old(lastseg) + 1 && (err <==> dev.bad(SegAt(old(lastseg), segsize)))
      ensures if err then Skipped(d, Snap(), lastseg) else Found(d, Snap(), old(lastseg))
    {
      hide Ok, Allocating, SameOutside, Skipped, Found;
      var segno := lastseg;
      ghost var d0 := Snap();
      AllocRange(d, d0);
      lastseg := lastseg + 1;
      err := dev.Erase(SegAt(segno, segsize), segsize);
      if err {
        // never to be used: marked with the two reserved values
        entries := entries[segno := Entry(BADSEG, RESERVED)];
      }
      AllocStep(d, d0, Snap(), segno, err);
    }

    /** The buffer of area `i` starts a new segment. */
    method StartBuffer(i: nat, segno: nat, head: seq<byte>)
      requires Separate() && i < |area| && |head| == SEG_HEADER <= segsize
      modifies area[i], Bufs()
      ensures Separate() && fresh(Bufs() - old(Bufs())) && area[i].buf != null
      ensures area[i].Snap() == Active(segno, SEG_HEADER, area[i].buf[..]) && |area[i].buf[..]| == segsize &&
        area[i].buf[..][..SEG_HEADER] == head
      ensures Pools() == old(Pools())[i := area[i].Snap()]
    {
      ghost var ps := Pools();
      if area[i].buf == null {
        area[i].buf := new byte[segsize];
      }
      area[i].Reset(segno, head);
      assert forall j :: 0 <= j < |area| && j != i ==> area[j].Snap() == ps[j];
    }

    /** The rest of `__init_area`, after a segment has been found. */
    method Renew(i: nat, segno: nat)
      requires Valid() && Openable(Snap(), i, segno, usedBytes, used) && segno !in reserved.segs &&
        !dev.bad(SegAt(segno, segsize))
      modifies this`pieces, area, Bufs()
      ensures fresh(Bufs() - old(Bufs()))
      ensures Valid() && Accounted(Snap(), usedBytes, used) && StillLogged(old(Snap()), Snap())
      ensures i < |area| && area[i].buf != null && area[i].used == SEG_HEADER && area[i].segno == segno &&
        OnlyPool(old(Snap()), Snap(), i)
    {
      hide Separate, SegHeader, Opened, Tidy, Ok, Accounted, Settled, Fresh, Logged, Openable, StillLogged, OnlyPool;
      ghost var d := Snap();
      OpenableFacts(d, i, segno, usedBytes, used);
      var head := SegHeader(crc, i, segno);
      StartBuffer(i, segno, head);
      ghost var buf := area[i].buf[..];
      OpenedAll(d, i, segno, head, buf, usedBytes, used);
      LoggedMore(crc, objs, d.pieces, segsize, segno * segsize, Piece(segno, 0, head));
      OpenedParts(d, i, segno, head, buf);
      TidyOpened(crc, dev.bad, reserved.segs, d, i, segno, buf, usedBytes, used);
      pieces := pieces[segno * segsize := Piece(segno, 0, head)];
      assert Snap() == Opened(d, i, segno, head, buf);
    }

    /** `__init_area`: a fresh segment for area `i`, whose old segment is on the device. The segment
        is taken first; the buffer is not looked at before that. */
    method Open(i: nat) returns (ok: bool)
      requires Valid() && i < AREAS && Settled(Snap(), i) && Accounted(Snap(), usedBytes, used) && Handed(Snap(), i)
      modifies this`lastseg, this`entries, this`pieces, dev`bytes, area, Bufs()
      ensures fresh(Bufs() - old(Bufs())) && (ok <==> lastseg <= noSegs)
      ensures ok ==> Valid() && Accounted(Snap(), usedBytes, used) && StillLogged(old(Snap()), Snap())
      ensures ok ==> i < |area| && area[i].buf != null && area[i].used == SEG_HEADER && OnlyPool(old(Snap()), Snap(), i)
      ensures ok ==> old(lastseg) <= area[i].segno
    {
      hide Tidy, Ok, Accounted, Settled, Fresh, Logged, Openable, StillLogged, OnlyPool, Allocated;
      ghost var d := Snap();
      var segno;
      segno, ok := GetSegment();
      if !ok {
        return;
      }
      ghost var d1 := Snap();
      AllocOpen(d, d1, i, segno, usedBytes, used);
      AllocLater(crc, dev.bad, reserved.segs, d, d1, segno);
      Renew(i, segno);
      AllocKept(d, d1, Snap(), i, segno);
    }

    /** The device part of `finish_area`. */
    method WriteOut(i: nat) returns (err: bool)
      requires Valid() && i < |area| && area[i].buf != null && Accounted(Snap(), usedBytes, used)
      modifies this`entries, dev
      ensures dev.failed == old(dev.failed) + if err then 1 else 0
      ensures Valid() && Accounted(Snap(), usedBytes, used) && Written(old(Snap()), Snap(), i)
      ensures !err ==> Settled(Snap(), i) && Handed(Snap(), i) && Entered(old(Snap()), Snap(), i)
    {
      hide Tidy, Ok, Accounted, Settled, Logged, Handed, Written, SameOutside;
      ghost var d := Snap();
      WriteRange(d, i);
      var ofs := area[i].segno * segsize;
      err := dev.Write(ofs, area[i].buf[..]);
      ghost var d1 := Snap();
      WriteDone(d, d1, i, err, usedBytes, used);
      if !err {
        entries := entries[area[i].segno := Entry(16 + i % 16, area[i].used - SEG_HEADER)];
        EntryDone(d, d1, Snap(), i, usedBytes, used);
      }
      WrittenKept(d, Snap(), i);
      WrittenTidy(crc, dev.bad, reserved.segs, d, Snap(), i, err);
    }

    /** `finish_area`: the buffer goes to the device; unless this is final, a new segment follows. */
    method FinishArea(i: nat, final: bool) returns (r: Step)
      requires Valid() && i < |area| && area[i].buf != null && Accounted(Snap(), usedBytes, used)
      modifies this`lastseg, this`entries, this`pieces, dev, area, Bufs()
      ensures fresh(Bufs() - old(Bufs()))
      ensures !r.NoSegments? ==>
        Valid() && Accounted(Snap(), usedBytes, used) && StillLogged(old(Snap()), Snap()) &&
        OnlyPool(old(Snap()), Snap(), i)
      ensures !r.NoSegments? ==> area[i].buf != null
      ensures dev.failed == old(dev.failed) + (if r.WriteError? then 1 else 0) && (r.NoSegments? <==> lastseg > noSegs)
      ensures r.Fine? && !final ==> Rolled(old(Snap()), Snap(), i)
      ensures final ==> !r.NoSegments? && Written(old(Snap()), Snap(), i)
      ensures r.Fine? && final ==> Settled(Snap(), i) && Entered(old(Snap()), Snap(), i)
    {
      hide Valid, Snap, Accounted, Settled, Handed, Written, StillLogged, OnlyPool, Entered, Rolled;
      ValidSegs();
      ghost var d := Snap();
      var err := WriteOut(i);
      ghost var d1 := Snap();
      WrittenKept(d, d1, i);
      SnapFields();
      if err {
        return WriteError;
      }
      if final {
        return Fine;
      }
      var ok := Open(i);
      if !ok {
        return NoSegments;
      }
      KeptTrans(d, d1, Snap(), i);
      AreaSnap(i);
      RolledOn(d, d1, Snap(), i);
      return Fine;
    }

    /** `init_area`. */
    method InitArea(i: nat) returns (ok: bool)
      requires Valid() && i < AREAS && Accounted(Snap(), usedBytes, used)
      modifies this`lastseg, this`entries, this`pieces, dev`bytes, area, Bufs()
      ensures fresh(Bufs() - old(Bufs())) && (ok <==> lastseg <= noSegs)
      ensures ok ==> Valid() && Accounted(Snap(), usedBytes, used) && StillLogged(old(Snap()), Snap())
      ensures ok ==> i < |area| && area[i].buf != null
      ensures ok ==> Inited(old(Snap()), Snap(), i)
    {
      ValidSegs();
      hide Tidy, Ok, Accounted, Logged, StillLogged;
      if area[i].buf != null {
        LoggedSame(Snap());
        return true;
      }
      assert Settled(Snap(), i) && Handed(Snap(), i);
      ok := Open(i);
    }

    /** The two `copybuf` calls: header and payload of an object go into area `i`. */
    method CopyObject(i: nat, o: Object)
      requires Separate() && i < |area| && area[i].buf != null && area[i].used + OBJ_HEADER + |o.data| <= segsize
      modifies area[i], area[i].buf
      ensures Separate() && Bufs() == old(Bufs())
      ensures area[i].Snap() == old(var p := area[i].Snap(); var m := Image(crc, o);
                                    Active(p.segno, p.used + |m|, p.buf[..p.used] + m + p.buf[p.used + |m|..]))
      ensures Pools() == old(Pools())[i := area[i].Snap()]
    {
      hide Image, ObjHeader;
      ghost var ps := Pools();
      var head := ObjHeader(crc, o);
      area[i].CopyTwo(head, o.data);
      assert forall j :: 0 <= j < |area| && j != i ==> area[j].Snap() == ps[j];
    }

    /** Header and payload into the buffer, and the bytes into the accounts. The object begins at
        `pos`; what is returned is that number in 32-bit arithmetic. */
    method Store(i: nat, o: Object) returns (ofs: nat, ghost pos: nat)
      requires Valid() && i < |area| && area[i].buf != null && Accounted(Snap(), usedBytes, used)
      requires area[i].used + OBJ_HEADER + |o.data| <= segsize && o.level < LEVELS && i == AreaIndex(o.ino, o.level)
      modifies this`pieces, this`objs, area[i], area[i].buf
      ensures Valid() && Bufs() == old(Bufs()) && StillLogged(old(Snap()), Snap())
      ensures pos == SegAt(old(area[i].segno), segsize) + old(area[i].used) && ofs == pos % 0x1_0000_0000
      ensures AddedAt(old(objs), objs, o, pos) && PlacedAt(crc, old(Snap()), Snap(), i, pos)
      ensures var len := OBJ_HEADER + |o.data|;
        Accounted(Snap(), usedBytes + len, used[o.ino := Get(used, o.ino) + len])
    {
      hide Tidy, Ok, Accounted, Logged, StillLogged, PlacedAt, SegAt, HeadIn, Image, AreaIndex, Put;
      ghost var d := Snap();
      ghost var m := Image(crc, o);
      HeadOfArea(i);
      PutAll(d, i, m, usedBytes, used, o.ino);
      PutTidy(crc, dev.bad, reserved.segs, d, i, m);
      PutParts(d, i, m);
      pos := NextOfs(d, i);
      // the product is a 32-bit one
      ofs := (SegAt(area[i].segno, segsize) % 0x1_0000_0000 + area[i].used) % 0x1_0000_0000;
      WrapAround(SegAt(area[i].segno, segsize), area[i].used);
      LoggedObject(crc, objs, d.pieces, segsize, pos, Piece(area[i].segno, area[i].used, m), o);
      pieces := pieces[pos := Piece(area[i].segno, area[i].used, m)];
      objs := objs[pos := o];
      CopyObject(i, o);
      assert Snap() == Put(d, i, m);
    }

    lemma HeadOfArea(i: nat)
      requires Valid() && i < |area| && area[i].buf != null
      ensures HeadIn(crc, pieces, segsize, i, area[i].segno)
    {
      assert HeadAt(crc, Snap(), i, Snap().pools[i].segno);
    }

    /** `grow_inode`. */
    method GrowInode(ino: nat, len: nat) returns (err: bool)
      modifies this`usedBytes, this`used, calloc
      ensures calloc.refused == old(calloc.refused) + if err then 1 else 0
      ensures err ==> usedBytes == old(usedBytes) && used == old(used)
      ensures !err ==> usedBytes == old(usedBytes) + len && used == old(used)[ino := Get(old(used), ino) + len]
    {
      err := calloc.Refuses();
      if err {
        return;
      }
      used := used[ino := Get(used, ino) + len];
      usedBytes := usedBytes + len;
    }

    /** Well formed and accounted for. */
    ghost predicate Good()
      reads this`lastseg, this`entries, this`pieces, this`objs, this`usedBytes, this`used, reserved, dev`bytes, area,
          Bufs()
    {
      Valid() && Accounted(Snap(), usedBytes, used)
    }

    /** The body of the loop of `prepare_journal`: a segment is set aside and marked. */
    method ReserveSegment() returns (ok: bool)
      requires Good()
      modifies this`lastseg, this`entries, reserved, dev`bytes
      ensures ok <==> lastseg <= noSegs
      ensures ok ==> Good() && StillLogged(old(Snap()), Snap())
      ensures ok ==>
        |reserved.segs| == |old(reserved.segs)| + 1 && reserved.segs[..|old(reserved.segs)|] == old(reserved.segs)
    {
      hide Tidy, Ok, Accounted, Logged, StillLogged, Fresh, Allocated;
      ghost var d := Snap();
      var segno;
      segno, ok := GetSegment();
      if ok {
        ghost var d1 := Snap();
        ReserveDone(d, d1, segno, usedBytes, used);
        ReserveTidy(crc, dev.bad, reserved.segs, d, d1, segno);
        reserved.segs := reserved.segs + [segno];
        entries := entries[segno := Entry(16, RESERVED)];
        assert Snap() == d1.(entries := d1.entries[segno := Entry(16, RESERVED)]);
      }
    }

    /** The beginning of `logfs_segment_write`: an open area with room for the largest object. */
    method MakeRoom(i: nat) returns (r: Step)
      requires Good() && i < AREAS
      modifies this`lastseg, this`entries, this`pieces, dev, area, Bufs()
      ensures fresh(Bufs() - old(Bufs()))
      ensures !r.NoSegments? ==> Good() && StillLogged(old(Snap()), Snap())
      ensures r.Fine? ==> i < |area| && area[i].buf != null && area[i].used + OBJ_HEADER + BLOCKSIZE <= segsize
      ensures r.Fine? ==> RoomMade(old(Snap()), Snap(), i)
      ensures dev.failed == old(dev.failed) + (if r.WriteError? then 1 else 0) && (r.NoSegments? <==> lastseg > noSegs)
    {
      hide Valid, Snap, Ok, Accounted, StillLogged, OnlyPool, Written, RoomMade, Inited, Rolled, Entered;
      ghost var d := Snap();
      var ok := InitArea(i);
      if !ok {
        return NoSegments;
      }
      ghost var d1 := Snap();
      AreaSnap(i);
      if area[i].used + OBJ_HEADER + BLOCKSIZE <= segsize {
        RoomKept(d, d1, i);
        return Fine;
      }
      ValidOk();
      r := FinishArea(i, false);
      if !r.NoSegments? {
        LoggedTrans(d, d1, Snap());
      }
      if r.Fine? {
        AreaSnap(i);
        RoomNew(d, d1, Snap(), i);
      }
    }

    lemma ValidOk()
      requires Valid()
      ensures Ok(Snap())
    {
    }

    lemma AreaSnap(i: nat)
      requires i < |area| && area[i].buf != null
      ensures i < |Snap().pools| && Snap().pools[i] == Active(area[i].segno, area[i].used, area[i].buf[..]) &&
        Snap().segsize == segsize
    {
    }

    /** `logfs_segment_write`. The object begins at `pos`; the offset returned is exact if it fits 32
        bits. */
    method SegmentWrite(o: Object) returns (r: Result, ghost pos: nat)
      requires Good() && o.level < LEVELS && |o.data| == ObjLen(o.kind)
      modifies this, dev, calloc, area, Bufs()
      ensures fresh(Bufs() - old(Bufs()))
      ensures !r.Exit? ==> Valid() && Kept(old(objs), objs) && StillLogged(old(Snap()), Snap())
      ensures Written32(r, pos) ==> Good() && AddedAt(old(objs), objs, o, pos) && used == Charged(old(used), o)
      ensures Written32(r, pos) ==> WellPlaced(crc, old(Snap()), Snap(), AreaIndex(o.ino, o.level), pos)
      ensures Written32(r, pos) || r.Failed? || r.Exit?
      ensures Faults() == old(Faults()) + if Written32(r, pos) then 0 else 1
      ensures wraps == old(wraps) + if r.Wrapped? then 1 else 0
    {
      hide Good, Valid, StillLogged, Charged, RoomMade, PlacedAt, WellPlaced;
      pos := 0;
      ghost var d := Snap();
      GoodValid();
      ValidSegs();
      var i := if o.ino == MASTER then o.level + LEVELS else o.level;
      var step := MakeRoom(i);
      if step.NoSegments? {
        return Exit, 0;
      }
      if step.WriteError? {
        GoodValid();
        return Failed, 0;
      }
      ghost var d1 := Snap();
      r, pos := StoreAndGrow(i, o);
      LoggedTrans(d, d1, Snap());
      if Written32(r, pos) {
        PlacedWell(crc, d, d1, Snap(), i, pos);
      }
    }

    lemma GoodValid()
      requires Good()
      ensures Valid()
    {
    }

    lemma ValidSegs()
      requires Valid()
      ensures lastseg <= noSegs && |area| == AREAS
    {
      assert Snap().lastseg == lastseg;
    }

    lemma SnapFields()
      ensures Snap().lastseg == lastseg && Snap().segsize == segsize && |Snap().pools| == |area|
    {
    }

    /** The end of `logfs_segment_write`. */
    method StoreAndGrow(i: nat, o: Object) returns (r: Result, ghost pos: nat)
      requires Good() && i < |area| && area[i].buf != null && area[i].used + OBJ_HEADER + |o.data| <= segsize
      requires o.level < LEVELS && i == AreaIndex(o.ino, o.level)
      modifies this`pieces, this`objs, this`usedBytes, this`used, this`wraps, calloc, area[i], area[i].buf
      ensures Bufs() == old(Bufs()) && (Written32(r, pos) || r.Failed?)
      ensures Valid() && Kept(old(objs), objs) && StillLogged(old(Snap()), Snap())
      ensures Written32(r, pos) ==> Good() && AddedAt(old(objs), objs, o, pos)
      ensures Written32(r, pos) ==> used == Charged(old(used), o) && PlacedAt(crc, old(Snap()), Snap(), i, pos)
      ensures calloc.refused == old(calloc.refused) + if r.Failed? then 1 else 0
      ensures wraps == old(wraps) + if r.Wrapped? then 1 else 0
    {
      hide Valid, Snap, Accounted, StillLogged, PlacedAt, SegAt;
      var ofs, place := 0, SegAt(area[i].segno, segsize) + area[i].used;
      SmallMod(place);
      ofs, pos := Store(i, o);
      ghost var d2 := Snap();
      var err := GrowInode(o.ino, OBJ_HEADER + |o.data|);
      assert Snap() == d2;
      if err {
        return Failed, pos;
      }
      if ofs == place {
        return Done(ofs), pos;
      }
      wraps := wraps + 1;
      return Wrapped(ofs), pos;
    }

    /** Every object written can be read back from the device, and the valid counts of the segment
        entries add up to the bytes in use. */
    ghost predicate Durable()
      reads this`lastseg, this`entries, this`pieces, this`objs, this`usedBytes, this`used, reserved, dev`bytes, area,
          Bufs()
    {
      && Good()
      && (forall ofs {:trigger ofs in objs} :: ofs in objs ==> Readable(dev.bytes, ofs, Image(crc, objs[ofs])))
      && AllSealed(crc, dev.bytes, segsize, entries, objs)
      && |entries| == noSegs && SumValid(entries, noSegs) == usedBytes
    }

    /** `flush_segments`. */
    method FlushSegments() returns (err: bool)
      requires Good()
      modifies this`lastseg, this`entries, this`pieces, dev, area, Bufs()
      ensures fresh(Bufs() - old(Bufs()))
      ensures Good() && StillLogged(old(Snap()), Snap())
      ensures Faults() == old(Faults()) + (if err then 1 else 0) && Trouble() == old(Trouble()) + if err then 1 else 0
      ensures !err ==> Durable()
    {
      hide Faults, Trouble, Good, Valid, StillLogged, FlushedTo, Settled, Handed, Written, Entered, Ok, Accounted;
      ghost var d := Snap();
      LoggedSame(d);
      FaultsAre();
      err := false;
      assert |area| == AREAS by {
        GoodAreas();
      }
      var i := 0;
      FlushStart(d);
      while i < AREAS
        invariant i <= AREAS == |area| && fresh(Bufs() - old(Bufs()))
        invariant Good() && StillLogged(d, Snap()) && FlushedTo(Snap(), i) && dev.failed == old(dev.failed)
      {
        ghost var d1 := Snap();
        err := FlushOne(i);
        LoggedTrans(d, d1, Snap());
        FaultsAre();
        if err {
          return;
        }
        i := i + 1;
      }
      FaultsAre();
      MakeDurable();
    }

    lemma GoodAreas()
      requires Good()
      ensures |area| == AREAS
    {
    }

    lemma MakeDurable()
      requires Good() && FlushedTo(Snap(), AREAS)
      ensures Durable()
    {
      hide Tidy, Ok, Settled, Handed, Image, AllSealed, Sealed, HeadIn;
      var d := Snap();
      GoodAreas();
      assert forall i :: 0 <= i < |d.pools| ==> Settled(d, i);
      forall ofs | ofs in objs
        ensures Readable(dev.bytes, ofs, Image(crc, objs[ofs]))
      {
        assert ofs in pieces;
        AllOnDevice(d, ofs);
      }
      SealAll(crc, dev.bad, reserved.segs, d, objs);
      FlushedSum(d);
    }

    /** The body of the loop of `flush_segments`. */
    method FlushOne(i: nat) returns (err: bool)
      requires Good() && i < |area| == AREAS && FlushedTo(Snap(), i)
      modifies this`lastseg, this`entries, this`pieces, dev, area, Bufs()
      ensures fresh(Bufs() - old(Bufs()))
      ensures Good() && StillLogged(old(Snap()), Snap()) && dev.failed == old(dev.failed) + if err then 1 else 0
      ensures !err ==> FlushedTo(Snap(), i + 1)
    {
      hide StillLogged, FlushedTo, Settled, Handed, Written, Entered, Ok, Accounted, OnlyPool;
      ghost var d := Snap();
      LoggedSame(d);
      err := false;
      if area[i].buf != null {
        var r := FinishArea(i, true);
        err := !r.Fine?;
        if !err {
          FlushedMore(d, Snap(), i);
        }
      } else {
        FlushedIdle(d, i);
      }
    }

    /** `dev_ops->write` of a segment that was set aside. Its offset is a 32-bit product; where that is
        exact no object is disturbed. */
    method WriteReserved(k: nat, buf: seq<byte>) returns (err: bool)
      requires Good() && k < |reserved.segs| && |buf| == segsize
      modifies dev
      ensures dev.failed == old(dev.failed) + if err then 1 else 0
      ensures SegAt(reserved.segs[k], segsize) < 0x1_0000_0000 ==> Good() && (old(Durable()) ==> Durable())
      ensures !err ==> Readable(dev.bytes, SegAt(reserved.segs[k], segsize) % 0x1_0000_0000, buf)
    {
      hide Ok, Tidy, Accounted, Readable, SameOutside, Image, SumValid, SegAt;
      ghost var d := Snap();
      ReservedRange(crc, dev.bad, reserved.segs, d, k);
      var at := SegAt(reserved.segs[k], segsize) % 0x1_0000_0000;
      err := dev.Write(at, buf);
      if !err {
        IsReadable(dev.bytes, at, buf);
      }
      if SegAt(reserved.segs[k], segsize) < 0x1_0000_0000 {
        SmallMod(SegAt(reserved.segs[k], segsize));
        ReservedDone(crc, dev.bad, reserved.segs, d, Snap(), k, usedBytes, used);
        if old(Durable()) {
          ReservedDurable(crc, dev.bad, reserved.segs, d, Snap(), k, objs);
        }
      }
    }

    /** Objects never overlap each other or a segment header, and never cross a segment boundary. */
    lemma Extents(a: nat)
      requires Valid() && a in objs
      ensures exists s: nat ::
        s < noSegs && s * segsize + SEG_HEADER <= a && a + |Image(crc, objs[a])| <= s * segsize + segsize
      ensures forall b {:trigger objs[b]} :: b in objs && a < b ==> a + |Image(crc, objs[a])| <= b
    {
      var d := Snap();
      assert a in d.pieces && PieceOk(d, a);
      assert d.pieces[a].segno < noSegs;
      forall b | b in objs && a < b
        ensures a + |Image(crc, objs[a])| <= b
      {
        assert b in d.pieces;
        assert a + |d.pieces[a].image| <= b;
      }
    }

    /** Any run of writes, followed by a flush, on a device of any size: every object is on the device,
        header and payload, at a place of its own, the offset its write returned is that place in
        32 bits, and the accounts agree. It fails only if a write or an allocation failed, or the
        segments ran out. */
    method Run(reqs: seq<Object>) returns (offs: seq<nat>, ok: bool, ghost at: seq<nat>)
      requires Good() && forall k :: 0 <= k < |reqs| ==>
        reqs[k].level < LEVELS && |reqs[k].data| == ObjLen(reqs[k].kind)
      modifies this, dev, calloc, area, Bufs()
      ensures Faults() == old(Faults()) + if ok then 0 else 1
      ensures ok ==> Durable() && |offs| == |at| == |reqs|
      ensures ok ==> forall k :: 0 <= k < |reqs| ==>
        offs[k] == at[k] % 0x1_0000_0000 && Readable(dev.bytes, at[k], Image(crc, reqs[k]))
      ensures ok ==> forall j, k :: 0 <= j < k < |reqs| ==>
        DisjointFrom(at[j], |Image(crc, reqs[j])|, at[k], |Image(crc, reqs[k])|)
      ensures ok ==> forall k :: 0 <= k < |reqs| ==> Filed(crc, dev.bytes, segsize, entries, at[k], reqs[k])
      ensures ok ==> usedBytes == Total(used) == SumValid(entries, |entries|)
      ensures ok && SegAt(lastseg, segsize) <= 0x1_0000_0000 ==> offs == at
    {
      hide Good, Valid, Snap, Durable, Placed, Readable, DisjointFrom, Faults, SegAt, Filed;
      offs, ok, at := WriteAll(reqs);
      if !ok {
        return;
      }
      var err := FlushSegments();
      ok := !err;
      if ok {
        RunResult(reqs, at);
        RunFiled(reqs, at);
        if SegAt(lastseg, segsize) <= 0x1_0000_0000 {
          AllLow(reqs, offs, at);
        }
      }
    }

    /** The writes of a run. */
    method WriteAll(reqs: seq<Object>) returns (offs: seq<nat>, ok: bool, ghost at: seq<nat>)
      requires Good() && forall k :: 0 <= k < |reqs| ==>
        reqs[k].level < LEVELS && |reqs[k].data| == ObjLen(reqs[k].kind)
      modifies this, dev, calloc, area, Bufs()
      ensures fresh(Bufs() - old(Bufs()))
      ensures Faults() == old(Faults()) + if ok then 0 else 1
      ensures ok ==> Good() && |offs| == |at| == |reqs| && Placed(objs, reqs, at)
      ensures ok ==> forall k :: 0 <= k < |reqs| ==> offs[k] == at[k] % 0x1_0000_0000
    {
      hide Good, Valid, Snap, Placed, Faults, WellPlaced, Kept, StillLogged, AddedAt, Charged;
      offs, at, ok := [], [], true;
      var i := 0;
      PlacedNone(objs, reqs);
      while i < |reqs|
        invariant i == |offs| == |at| <= |reqs| && Good() && fresh(Bufs() - old(Bufs()))
        invariant Placed(objs, reqs, at) && Faults() == old(Faults())
        invariant forall k :: 0 <= k < i ==> offs[k] == at[k] % 0x1_0000_0000
      {
        ghost var before := objs;
        var r;
        ghost var pos;
        r, pos := SegmentWrite(reqs[i]);
        if r.Failed? || r.Exit? {
          return offs, false, at;
        }
        PlacedMore(before, objs, reqs, at, pos);
        SmallMod(pos);
        offs, at := offs + [r.ofs], at + [pos];
        i := i + 1;
      }
    }

    lemma FaultsAre()
      requires Good()
      ensures Faults() == dev.failed + calloc.refused && Trouble() == Faults() + wraps
    {
      assert Snap().lastseg <= Snap().noSegs;
    }

    /** While the segments taken end below 4 GiB, every offset is exact. */
    lemma AllLow(reqs: seq<Object>, offs: seq<nat>, at: seq<nat>)
      requires Good() && |offs| == |at| == |reqs| && Placed(objs, reqs, at) && SegAt(lastseg, segsize) <= 0x1_0000_0000
      requires forall k :: 0 <= k < |at| ==> offs[k] == at[k] % 0x1_0000_0000
      ensures offs == at
    {
      forall k | 0 <= k < |at|
        ensures offs[k] == at[k]
      {
        Below(at[k]);
        SmallMod(at[k]);
      }
    }

    /** Objects lie in the segments taken. */
    lemma Below(a: nat)
      requires Valid() && a in objs
      ensures a < SegAt(lastseg, segsize)
    {
      var d := Snap();
      assert a in d.pieces && PieceOk(d, a);
      SegOrder(segsize, d.pieces[a].segno, lastseg);
    }

    /** Where an object that was written is filed. */
    lemma WhereFiled(a: nat)
      requires Durable() && a in objs
      ensures Filed(crc, dev.bytes, segsize, entries, a, objs[a])
    {
      DurableSegs();
      hide Good, Readable;
      SealedFiled(crc, dev.bytes, segsize, entries, a, objs[a]);
    }

    lemma DurableSegs()
      requires Durable()
      ensures |entries| == noSegs < 0xffff_ffff
    {
      assert Shape(Snap());
    }

    /** Objects in one segment are of one level, and those of the inode file share no segment with
        others. */
    lemma LevelsApart(a: nat, b: nat)
      requires Durable() && a in objs && b in objs && 0 < segsize && a / segsize == b / segsize
      ensures objs[a].level == objs[b].level && (objs[a].ino == MASTER <==> objs[b].ino == MASTER)
    {
      WhereFiled(a);
      WhereFiled(b);
      assert objs[a].level < LEVELS && objs[b].level < LEVELS;
    }

    lemma RunFiled(reqs: seq<Object>, at: seq<nat>)
      requires Durable() && |at| == |reqs| && Placed(objs, reqs, at)
      ensures forall k :: 0 <= k < |reqs| ==> Filed(crc, dev.bytes, segsize, entries, at[k], reqs[k])
    {
      hide Durable, Filed;
      forall k | 0 <= k < |reqs|
        ensures Filed(crc, dev.bytes, segsize, entries, at[k], reqs[k])
      {
        WhereFiled(at[k]);
      }
    }

    lemma RunResult(reqs: seq<Object>, offs: seq<nat>)
      requires Durable() && |offs| == |reqs| && Placed(objs, reqs, offs)
      ensures forall k :: 0 <= k < |reqs| ==> Readable(dev.bytes, offs[k], Image(crc, reqs[k]))
      ensures forall j, k :: 0 <= j < k < |reqs| ==>
        DisjointFrom(offs[j], |Image(crc, reqs[j])|, offs[k], |Image(crc, reqs[k])|)
      ensures usedBytes == Total(used) == SumValid(entries, |entries|)
    {
      forall j, k | 0 <= j < k < |reqs|
        ensures DisjointFrom(offs[j], |Image(crc, reqs[j])|, offs[k], |Image(crc, reqs[k])|)
      {
        Extents(offs[j]);
        Extents(offs[k]);
      }
    }
  }

  /** The first requests have been written, each at an offset of its own. */
  ghost predicate Placed(objs: map<nat, Object>, reqs: seq<Object>, offs: seq<nat>) {
    && |offs| <= |reqs|
    && (forall k :: 0 <= k < |offs| ==> offs[k] in objs && objs[offs[k]] == reqs[k])
    && (forall j, k :: 0 <= j < k < |offs| ==> offs[j] != offs[k])
  }

  lemma PlacedNone(objs: map<nat, Object>, reqs: seq<Object>)
    ensures Placed(objs, reqs, [])
  {
  }

  lemma PlacedMore(objs: map<nat, Object>, objs': map<nat, Object>, reqs: seq<Object>, offs: seq<nat>, ofs: nat)
    requires Placed(objs, reqs, offs) && |offs| < |reqs| && AddedAt(objs, objs', reqs[|offs|], ofs)
    ensures Placed(objs', reqs, offs + [ofs])
  {
  }

  ghost predicate DisjointFrom(a: nat, m: nat, b: nat, n: nat) {
    a + m <= b || b + n <= a
  }

  /** The image of an object is on the device at its offset. */
  ghost predicate Readable(bytes: seq<byte>, ofs: nat, image: seq<byte>) {
    ofs + |image| <= |bytes| && bytes[ofs..ofs + |image|] == image
  }

  /** The header of the segment an object lies in is on the device, and its entry tells the level. */
  ghost predicate Sealed(crc: seq<byte> -> nat, bytes: seq<byte>, segsize: nat, entries: seq<Entry>, ofs: nat,
      o: Object) {
    && 0 < segsize && o.level < LEVELS && ofs / segsize < |entries|
    && var s, i := ofs / segsize, AreaIndex(o.ino, o.level);
    && SegAt(s, segsize) + SEG_HEADER <= ofs && ofs + OBJ_HEADER + |o.data| <= SegAt(s, segsize) + segsize
    && Readable(bytes, SegAt(s, segsize), SegHeader(crc, i, s)) && entries[s].ecLevel == 16 + i
  }

  ghost predicate AllSealed(crc: seq<byte> -> nat, bytes: seq<byte>, segsize: nat, entries: seq<Entry>,
      objs: map<nat, Object>) {
    forall ofs {:trigger ofs in objs} :: ofs in objs ==> Sealed(crc, bytes, segsize, entries, ofs, objs[ofs])
  }

  /** Where an object is filed: it lies in one segment, behind a header that tells its level and the
      number of the segment; the levels of the inode file are above all others. The segment entry tells
      the same level, and erase count 1. */
  ghost predicate Filed(crc: seq<byte> -> nat, bytes: seq<byte>, segsize: nat, entries: seq<Entry>, ofs: nat,
      o: Object) {
    && 0 < segsize && ofs / segsize < |entries|
    && var s, level := ofs / segsize, if o.ino == 1 then o.level + 6 else o.level;
    && SegAt(s, segsize) + SEG_HEADER <= ofs && ofs + OBJ_HEADER + |o.data| <= SegAt(s, segsize) + segsize
    && SegAt(s, segsize) + SEG_HEADER <= |bytes|
    && SegmentTells(crc, bytes[SegAt(s, segsize)..SegAt(s, segsize) + SEG_HEADER], 3, level, s, 1)
    && entries[s].ecLevel == 16 + level
  }

  lemma SealedFiled(crc: seq<byte> -> nat, bytes: seq<byte>, segsize: nat, entries: seq<Entry>, ofs: nat, o: Object)
    requires Sealed(crc, bytes, segsize, entries, ofs, o) && |entries| < 0x1_0000_0000
    ensures Filed(crc, bytes, segsize, entries, ofs, o)
  {
    SegHeaderReadsBack(crc, AreaIndex(o.ino, o.level), ofs / segsize);
    hide SegmentTells, SegHeader;
  }

  lemma SealAll(crc: seq<byte> -> nat, bad: nat -> bool, segs: seq<nat>, d: Disk, objs: map<nat, Object>)
    requires Ok(d) && Tidy(crc, bad, segs, d) && FlushedTo(d, AREAS) && Logged(crc, objs, d.pieces, d.segsize)
    ensures AllSealed(crc, d.dev, d.segsize, d.entries, objs)
  {
    hide Ok, Tidy, FlushedTo, Logged, Sealed;
    forall ofs | ofs in objs
      ensures Sealed(crc, d.dev, d.segsize, d.entries, ofs, objs[ofs])
    {
      SealedWhenFlushed(crc, bad, segs, d, objs, ofs);
    }
  }

  lemma SealedWhenFlushed(crc: seq<byte> -> nat, bad: nat -> bool, segs: seq<nat>, d: Disk, objs: map<nat, Object>,
      ofs: nat)
    requires Ok(d) && Tidy(crc, bad, segs, d) && FlushedTo(d, AREAS) && Logged(crc, objs, d.pieces, d.segsize) &&
      ofs in objs
    ensures Sealed(crc, d.dev, d.segsize, d.entries, ofs, objs[ofs])
  {
    hide Ok, Tidy, FlushedTo, Logged, HeadIn, Readable, SegHeader, SegAt;
    LoggedFacts(crc, objs, d.pieces, d.segsize, ofs);
    PiecePlace(d, ofs);
    var s, i := d.pieces[ofs].segno, AreaIndex(objs[ofs].ino, objs[ofs].level);
    HeaderOnDevice(crc, d, i, s);
    LevelEntered(crc, bad, segs, d, i, s);
  }

  /** An object lies behind the header of its area. */
  lemma LoggedFacts(crc: seq<byte> -> nat, objs: map<nat, Object>, pieces: map<nat, Piece>, segsize: nat, ofs: nat)
    requires Logged(crc, objs, pieces, segsize) && ofs in objs
    ensures ofs in pieces && |pieces[ofs].image| == OBJ_HEADER + |objs[ofs].data| && SEG_HEADER <= pieces[ofs].pos
    ensures objs[ofs].level < LEVELS &&
      HeadIn(crc, pieces, segsize, AreaIndex(objs[ofs].ino, objs[ofs].level), pieces[ofs].segno)
  {
    hide HeadIn;
  }

  /** Where a piece lies. */
  lemma PiecePlace(d: Disk, ofs: nat)
    requires Ok(d) && ofs in d.pieces
    ensures var p := d.pieces[ofs];
      0 < d.segsize && ofs / d.segsize == p.segno && ofs == SegAt(p.segno, d.segsize) + p.pos &&
      p.pos + |p.image| <= d.segsize && p.segno < d.lastseg <= |d.entries| && 0 < |p.image|
  {
    assert PieceOk(d, ofs);
    hide Ok, Owner;
    ModUnique(ofs, d.segsize, d.pieces[ofs].segno, d.pieces[ofs].pos);
  }

  lemma HeaderOnDevice(crc: seq<byte> -> nat, d: Disk, i: nat, s: nat)
    requires Ok(d) && FlushedTo(d, AREAS) && HeadIn(crc, d.pieces, d.segsize, i, s)
    ensures Readable(d.dev, SegAt(s, d.segsize), SegHeader(crc, i, s))
  {
    AreasAre(d);
    hide Ok, SegHeader;
    assert forall j :: 0 <= j < |d.pools| ==> Settled(d, j);
    AllOnDevice(d, s * d.segsize);
  }

  lemma LevelEntered(crc: seq<byte> -> nat, bad: nat -> bool, segs: seq<nat>, d: Disk, i: nat, s: nat)
    requires Ok(d) && Tidy(crc, bad, segs, d) && FlushedTo(d, AREAS) && HeadIn(crc, d.pieces, d.segsize, i, s)
    requires i < AREAS && s < |d.entries|
    ensures d.entries[s].ecLevel == 16 + i
  {
    AreasAre(d);
    var j := Owner(d.pools, s);
    HeaderLevel(crc, i, s);
    if j < |d.pools| {
      assert Settled(d, j) && Handed(d, j);
      assert HeadAt(crc, d, j, s);
      HeaderLevel(crc, j, s);
    } else {
      assert LabelOk(d.entries, d.pieces[s * d.segsize]);
    }
  }

  /** The first `n` areas are on the device, their valid counts entered. */
  ghost predicate FlushedTo(d: Disk, n: nat) {
    forall j {:trigger Settled(d, j)} :: 0 <= j < n ==> Settled(d, j) && Handed(d, j)
  }

  lemma FlushStart(d: Disk)
    ensures FlushedTo(d, 0)
  {
  }

  lemma FlushedIdle(d: Disk, i: nat)
    requires FlushedTo(d, i) && i < |d.pools| && d.pools[i] == Idle
    ensures FlushedTo(d, i + 1)
  {
    assert Settled(d, i) && Handed(d, i);
  }

  lemma FlushedMore(d: Disk, d': Disk, i: nat)
    requires Ok(d) && FlushedTo(d, i) && Written(d, d', i) && Settled(d', i) && Entered(d, d', i)
    ensures FlushedTo(d', i + 1)
  {
    forall j | 0 <= j < i + 1
      ensures Settled(d', j) && Handed(d', j)
    {
      assert PoolOk(d, i);
      if j < i {
        assert Settled(d, j);
        StillSettled(d, d', i, j);
        if d.pools[j].Active? {
          assert PoolOk(d, j);
          assert d.pools[j].segno != d.pools[i].segno;
        }
      }
    }
  }

  lemma FlushedSum(d: Disk)
    requires Ok(d) && FlushedTo(d, AREAS)
    ensures |d.entries| == d.noSegs && Sum(d, d.noSegs) == SumValid(d.entries, d.noSegs)
  {
    forall s | 0 <= s < d.noSegs
      ensures Count(d, s) == ValidBytes(d.entries[s])
    {
      var i := Owner(d.pools, s);
      if i < |d.pools| {
        assert Settled(d, i) && Handed(d, i);
      }
    }
    SumIsValid(d, d.noSegs);
  }

  /** Every object stays where it is. */
  ghost predicate Kept(objs: map<nat, Object>, objs': map<nat, Object>) {
    forall ofs {:trigger ofs in objs'} :: ofs in objs ==> ofs in objs' && objs'[ofs] == objs[ofs]
  }

  /** An object's header and payload are charged to its inode. */
  function Charged(used: map<nat, nat>, o: Object): map<nat, nat> {
    used[o.ino := Get(used, o.ino) + OBJ_HEADER + |o.data|]
  }

  /** Object `o` was written at the unused place `pos`. */
  ghost predicate AddedAt(objs: map<nat, Object>, objs': map<nat, Object>, o: Object, pos: nat) {
    0 < pos && pos !in objs && objs' == objs[pos := o]
  }

  /** The same, and the place fits 32 bits. */
  ghost predicate Added(objs: map<nat, Object>, objs': map<nat, Object>, o: Object, ofs: nat) {
    ofs < 0x1_0000_0000 && AddedAt(objs, objs', o, ofs)
  }

  datatype Step = Fine | WriteError | NoSegments

  /** The offsets of written objects are pieces holding their images, in segments of their level. */
  ghost predicate Logged(crc: seq<byte> -> nat, objs: map<nat, Object>, pieces: map<nat, Piece>, segsize: nat) {
    forall ofs {:trigger ofs in objs} :: ofs in objs ==>
      ofs in pieces && pieces[ofs].image == Image(crc, objs[ofs]) && SEG_HEADER <= pieces[ofs].pos &&
      objs[ofs].level < LEVELS &&
      HeadIn(crc, pieces, segsize, AreaIndex(objs[ofs].ino, objs[ofs].level), pieces[ofs].segno)
  }

  /** The segment of every open area begins with a header that names the area as its level; nothing
      was put into a segment of the journal; and the segment entries fit their fields. */
  ghost predicate Tidy(crc: seq<byte> -> nat, bad: nat -> bool, segs: seq<nat>, d: Disk) {
    && (forall i {:trigger d.pools[i]} :: 0 <= i < |d.pools| && d.pools[i].Active? ==>
        HeadAt(crc, d, i, d.pools[i].segno))
    && (forall k {:trigger segs[k]} :: 0 <= k < |segs| ==> SetAside(d, segs[k]))
    && (forall s {:trigger d.entries[s]} :: 0 <= s < |d.entries| ==> EntryOk(d.entries[s], d.segsize))
    && Marked(bad, segs, d) && Labelled(d)
  }

  /** The entries of segments that are full tell erase count 1 and the level in the segment header. */
  ghost predicate Labelled(d: Disk) {
    forall ofs {:trigger d.pieces[ofs]} :: ofs in d.pieces && Owner(d.pools, d.pieces[ofs].segno) == |d.pools| ==>
        LabelOk(d.entries, d.pieces[ofs])
  }

  ghost predicate LabelOk(entries: seq<Entry>, p: Piece) {
    p.pos == 0 ==>
        p.segno < |entries| && |p.image| == SEG_HEADER &&
        var level: nat := p.image[7];
        entries[p.segno].ecLevel == 16 + level
  }

  /** Bad segments are marked as such when they have been passed over, and are not used. Entries of
      segments not taken yet are zero. */
  ghost predicate Marked(bad: nat -> bool, segs: seq<nat>, d: Disk) {
    && (forall s {:trigger d.entries[s]} :: d.lastseg <= s < |d.entries| ==> d.entries[s] == Entry(0, 0))
    && (forall s {:trigger d.entries[s]} :: 0 <= s < |d.entries| && s < d.lastseg && bad(SegAt(s, d.segsize)) ==>
        d.entries[s] == Entry(BADSEG, RESERVED))
    && (forall i {:trigger d.pools[i]} :: 0 <= i < |d.pools| && d.pools[i].Active? ==>
        !bad(SegAt(d.pools[i].segno, d.segsize)))
    && (forall k {:trigger segs[k]} :: 0 <= k < |segs| ==> !bad(SegAt(segs[k], d.segsize)))
  }

  /** Segment `s` is marked as reserved, and nothing was put there. */
  ghost predicate SetAside(d: Disk, s: nat) {
    Fresh(d, s) && s < |d.entries| && d.entries[s] == Entry(16, RESERVED)
  }

  /** A valid count is that of a segment, or marks a segment that has none. */
  ghost predicate EntryOk(e: Entry, segsize: nat) {
    e.ecLevel < 0x1_0000_0000 && (e.valid == RESERVED || e.valid + SEG_HEADER <= segsize)
  }

  ghost predicate HeadAt(crc: seq<byte> -> nat, d: Disk, i: nat, segno: nat) {
    HeadIn(crc, d.pieces, d.segsize, i, segno)
  }

  ghost predicate HeadIn(crc: seq<byte> -> nat, pieces: map<nat, Piece>, segsize: nat, i: nat, segno: nat) {
    segno * segsize in pieces && pieces[segno * segsize] == Piece(segno, 0, SegHeader(crc, i, segno))
  }

  /** Area `i` has room for another object, which goes to this offset. */
  ghost predicate Room(d: Disk, i: nat) {
    i < |d.pools| && d.pools[i].Active? && d.pools[i].used + OBJ_HEADER + BLOCKSIZE <= d.segsize
  }

  ghost function NextOfs(d: Disk, i: nat): nat
    requires i < |d.pools| && d.pools[i].Active?
  {
    d.pools[i].segno * d.segsize + d.pools[i].used
  }

  /** The area for a level of a file; the inode file has areas of its own. */
  function AreaIndex(ino: nat, level: nat): nat {
    if ino == MASTER then level + LEVELS else level
  }

  /** The object at `ofs` is where the area had room, or the first one of a fresh segment, and its
      segment carries the area's level. */
  ghost predicate WellPlaced(crc: seq<byte> -> nat, d: Disk, d': Disk, i: nat, ofs: nat) {
    && ofs in d'.pieces && HeadAt(crc, d', i, d'.pieces[ofs].segno)
    && if Room(d, i) then ofs == NextOfs(d, i)
        else d'.pieces[ofs].pos == SEG_HEADER && d.lastseg <= d'.pieces[ofs].segno
  }

  /** The object at `ofs` was put at the end of area `i`. */
  ghost predicate PlacedAt(crc: seq<byte> -> nat, d: Disk, d': Disk, i: nat, ofs: nat) {
    && i < |d.pools| && d.pools[i].Active? && ofs == NextOfs(d, i) && d'.segsize == d.segsize &&
        HeadAt(crc, d', i, d.pools[i].segno)
    && ofs in d'.pieces && d'.pieces[ofs].segno == d.pools[i].segno && d'.pieces[ofs].pos == d.pools[i].used
  }

  /** Area `i` is as it was if it had room, and at the start of a fresh segment otherwise. */
  ghost predicate RoomMade(d: Disk, d': Disk, i: nat) {
    && i < |d.pools| == |d'.pools| && d'.segsize == d.segsize
    && if Room(d, i) then d'.pools[i] == d.pools[i]
       else d'.pools[i].Active? && d'.pools[i].used == SEG_HEADER && d.lastseg <= d'.pools[i].segno
  }

  /** Area `i` is open: it was before, or it starts a fresh segment. */
  ghost predicate Inited(d: Disk, d1: Disk, i: nat) {
    && i < |d.pools| == |d1.pools| && d1.segsize == d.segsize && d1.pools[i].Active?
    && if d.pools[i].Active? then d1 == d else d1.pools[i].used == SEG_HEADER && d.lastseg <= d1.pools[i].segno
  }

  /** Area `i` went on to a fresh segment. */
  ghost predicate Rolled(d: Disk, d1: Disk, i: nat) {
    && i < |d.pools| == |d1.pools| && d1.segsize == d.segsize && d1.pools[i].Active?
    && d1.pools[i].used == SEG_HEADER && d.lastseg <= d1.pools[i].segno
  }

  lemma RolledOn(d: Disk, d1: Disk, d2: Disk, i: nat)
    requires Written(d, d1, i) && OnlyPool(d1, d2, i) && i < |d2.pools| && d2.pools[i].Active? &&
      d2.segsize == d.segsize
    requires d2.pools[i].used == SEG_HEADER && d1.lastseg <= d2.pools[i].segno
    ensures Rolled(d, d2, i)
  {
  }

  lemma RoomKept(d: Disk, d1: Disk, i: nat)
    requires Inited(d, d1, i) && d1.pools[i].used + OBJ_HEADER + BLOCKSIZE <= d1.segsize
    ensures RoomMade(d, d1, i)
  {
  }

  lemma RoomNew(d: Disk, d1: Disk, d2: Disk, i: nat)
    requires Inited(d, d1, i) && d1.pools[i].used + OBJ_HEADER + BLOCKSIZE > d1.segsize && Ok(d1) && Rolled(d1, d2, i)
    ensures RoomMade(d, d2, i) && d2.pools[i].used + OBJ_HEADER + BLOCKSIZE <= d2.segsize
  {
    RoomWhenFresh(d1);
    hide Ok;
  }

  lemma PlacedWell(crc: seq<byte> -> nat, d: Disk, d1: Disk, d2: Disk, i: nat, ofs: nat)
    requires RoomMade(d, d1, i) && PlacedAt(crc, d1, d2, i, ofs)
    ensures WellPlaced(crc, d, d2, i, ofs)
  {
  }

  lemma PutTidy(crc: seq<byte> -> nat, bad: nat -> bool, segs: seq<nat>, d: Disk, i: nat, m: seq<byte>)
    requires Tidy(crc, bad, segs, d) && i < |d.pools| && d.pools[i].Active? && d.pools[i].used + |m| <= |d.pools[i].buf|
    requires NextOfs(d, i) !in d.pieces
    ensures Tidy(crc, bad, segs, Put(d, i, m)) && PlacedAt(crc, d, Put(d, i, m), i, NextOfs(d, i))
  {
    PutLabelled(d, i, m);
    forall k | 0 <= k < |segs|
      ensures SetAside(Put(d, i, m), segs[k])
    {
      PutAside(d, i, m, segs[k]);
    }
    assert HeadAt(crc, d, i, d.pools[i].segno);
    hide Labelled, SegHeader, SetAside, Fresh, Owner;
    forall j | 0 <= j < |d.pools| && Put(d, i, m).pools[j].Active?
      ensures HeadAt(crc, Put(d, i, m), j, Put(d, i, m).pools[j].segno)
    {
      assert HeadAt(crc, d, j, d.pools[j].segno);
      PutHead(crc, d, i, m, j);
    }
    PutHead(crc, d, i, m, i);
    PutMarked(bad, segs, d, i, m);
    hide HeadAt, Marked;
  }

  lemma PutHead(crc: seq<byte> -> nat, d: Disk, i: nat, m: seq<byte>, j: nat)
    requires i < |d.pools| && d.pools[i].Active? && d.pools[i].used + |m| <= |d.pools[i].buf|
    requires NextOfs(d, i) !in d.pieces && j < |d.pools| && d.pools[j].Active? && HeadAt(crc, d, j, d.pools[j].segno)
    ensures HeadAt(crc, Put(d, i, m), j, d.pools[j].segno) && Put(d, i, m).pools[j].Active? &&
      Put(d, i, m).pools[j].segno == d.pools[j].segno
  {
  }

  lemma PutMarked(bad: nat -> bool, segs: seq<nat>, d: Disk, i: nat, m: seq<byte>)
    requires Marked(bad, segs, d) && i < |d.pools| && d.pools[i].Active? && d.pools[i].used + |m| <= |d.pools[i].buf|
    ensures Marked(bad, segs, Put(d, i, m))
  {
    hide SegAt;
  }

  lemma PutAside(d: Disk, i: nat, m: seq<byte>, s: nat)
    requires SetAside(d, s) && i < |d.pools| && d.pools[i].Active? && d.pools[i].used + |m| <= |d.pools[i].buf|
    ensures SetAside(Put(d, i, m), s)
  {
    OwnerAfter(d.pools, i, Put(d, i, m).pools[i], s);
  }

  lemma PutLabelled(d: Disk, i: nat, m: seq<byte>)
    requires Labelled(d) && i < |d.pools| && d.pools[i].Active? && d.pools[i].used + |m| <= |d.pools[i].buf|
    ensures Labelled(Put(d, i, m))
  {
    var d' := Put(d, i, m);
    forall ofs | ofs in d'.pieces && Owner(d'.pools, d'.pieces[ofs].segno) == |d'.pools|
      ensures LabelOk(d'.entries, d'.pieces[ofs])
    {
      StillClosed(d.pools, d'.pools, i, d'.pieces[ofs].segno);
      assert LabelOk(d.entries, d.pieces[ofs]);
    }
  }

  /** An area that goes on filling its segment closes no other. */
  lemma StillClosed(pools: seq<Pool>, pools': seq<Pool>, i: nat, s: nat)
    requires i < |pools| == |pools'| && pools' == pools[i := pools'[i]] && pools[i].Active? && pools'[i].Active?
    requires pools'[i].segno == pools[i].segno
    ensures Owner(pools', s) == |pools'| ==> Owner(pools, s) == |pools| && s != pools[i].segno
  {
    var k := Owner(pools, s);
    assert k < |pools| ==> pools'[k].Active? && pools'[k].segno == pools[k].segno;
  }

  /** Taking and marking segments, and entering counts, concerns no segment of the journal. */
  lemma TidyKept(crc: seq<byte> -> nat, bad: nat -> bool, segs: seq<nat>, d: Disk, d': Disk)
    requires Tidy(crc, bad, segs, d) && d' == d.(lastseg := d'.lastseg, entries := d'.entries, dev := d'.dev)
    requires d.lastseg <= d'.lastseg && |d'.entries| == |d.entries|
    requires forall s {:trigger d'.entries[s]} :: 0 <= s < |d.entries| ==>
      d'.entries[s] == d.entries[s] || (s !in segs && EntryOk(d'.entries[s], d.segsize))
    requires Marked(bad, segs, d') && Labelled(d')
    ensures Tidy(crc, bad, segs, d')
  {
    forall k | 0 <= k < |segs|
      ensures SetAside(d', segs[k])
    {
      assert SetAside(d, segs[k]);
    }
  }

  lemma AllocTidy(crc: seq<byte> -> nat, bad: nat -> bool, segs: seq<nat>, d: Disk, d': Disk, segno: nat)
    requires Ok(d) && Tidy(crc, bad, segs, d) && Allocated(d, d', segno) && !bad(SegAt(segno, d.segsize))
    ensures Tidy(crc, bad, segs, d')
  {
    hide SegAt;
    AllocLabelled(d, d');
    hide Ok;
    assert forall k :: 0 <= k < |segs| ==> segs[k] < d.lastseg;
    forall s | 0 <= s < |d'.entries| && s < d'.lastseg && bad(SegAt(s, d'.segsize))
      ensures d'.entries[s] == Entry(BADSEG, RESERVED)
    {
      if s < d.lastseg {
        assert d.entries[s] == Entry(BADSEG, RESERVED);
      }
    }
    hide HeadAt, SetAside, Fresh;
    TidyKept(crc, bad, segs, d, d');
  }

  /** Every piece lies in a segment that was taken. */
  lemma PieceTaken(d: Disk, ofs: nat)
    requires Ok(d) && ofs in d.pieces
    ensures d.pieces[ofs].segno < d.lastseg && ofs == d.pieces[ofs].segno * d.segsize + d.pieces[ofs].pos
  {
    assert PieceOk(d, ofs);
  }

  lemma AllocLabelled(d: Disk, d': Disk)
    requires Ok(d) && Labelled(d) && Allocating(d, d')
    ensures Labelled(d')
  {
    forall ofs | ofs in d'.pieces && Owner(d'.pools, d'.pieces[ofs].segno) == |d'.pools|
      ensures LabelOk(d'.entries, d'.pieces[ofs])
    {
      PieceTaken(d, ofs);
      assert LabelOk(d.entries, d.pieces[ofs]);
    }
  }

  /** Nothing was put into a segment that is set aside. */
  lemma ReserveLabelled(d: Disk, s: nat, e: Entry)
    requires Labelled(d) && Fresh(d, s) && s < |d.entries|
    ensures Labelled(d.(entries := d.entries[s := e]))
  {
    var d' := d.(entries := d.entries[s := e]);
    forall ofs | ofs in d'.pieces && Owner(d'.pools, d'.pieces[ofs].segno) == |d'.pools|
      ensures LabelOk(d'.entries, d'.pieces[ofs])
    {
      assert LabelOk(d.entries, d.pieces[ofs]);
    }
  }

  /** An entry of an open segment does not matter yet. */
  lemma WrittenLabelled(d: Disk, d': Disk, i: nat)
    requires Labelled(d) && Written(d, d', i) && (d'.entries == d.entries || Entered(d, d', i))
    ensures Labelled(d')
  {
    forall ofs | ofs in d'.pieces && Owner(d'.pools, d'.pieces[ofs].segno) == |d'.pools|
      ensures LabelOk(d'.entries, d'.pieces[ofs])
    {
      assert LabelOk(d.entries, d.pieces[ofs]) && d.pools[i].segno != d.pieces[ofs].segno;
    }
  }

  /** The segment area `i` leaves has its entry. */
  lemma OpenedLabelled(crc: seq<byte> -> nat, d: Disk, i: nat, s: nat, buf: seq<byte>)
    requires Ok(d) && Labelled(d) && i < |d.pools| && Handed(d, i) && Fresh(d, s)
    requires d.pools[i].Active? ==> HeadAt(crc, d, i, d.pools[i].segno)
    ensures Labelled(Opened(d, i, s, SegHeader(crc, i, s), buf))
  {
    var d' := Opened(d, i, s, SegHeader(crc, i, s), buf);
    PoolsDistinct(d);
    AreasAre(d);
    OwnerNew(d.pools, i, Active(s, SEG_HEADER, buf));
    hide Ok, Fresh, Handed, LabelOk, SegHeader, Distinct;
    forall ofs | ofs in d'.pieces && Owner(d'.pools, d'.pieces[ofs].segno) == |d'.pools|
      ensures LabelOk(d'.entries, d'.pieces[ofs])
    {
      assert d'.pieces[ofs].segno != s;
      LabelStays(crc, d, i, s, buf, ofs);
    }
  }

  lemma LabelStays(crc: seq<byte> -> nat, d: Disk, i: nat, s: nat, buf: seq<byte>, ofs: nat)
    requires Ok(d) && Labelled(d) && i < |d.pools| == AREAS && Handed(d, i) && ofs in d.pieces &&
      d.pieces[ofs].segno != s
    requires d.pools[i].Active? ==> HeadAt(crc, d, i, d.pools[i].segno)
    requires Owner(d.pools[i := Active(s, SEG_HEADER, buf)], d.pieces[ofs].segno) == |d.pools|
    ensures LabelOk(d.entries, d.pieces[ofs])
  {
    var t := d.pieces[ofs].segno;
    PieceTaken(d, ofs);
    hide Ok;
    if Owner(d.pools, t) == i {
      HeaderLevel(crc, i, t);
      hide SegHeader, Owner;
      assert d.pieces[ofs].pos == 0 ==> d.pieces[ofs] == Piece(t, 0, SegHeader(crc, i, t));
    } else {
      OwnerAfter(d.pools, i, Active(s, SEG_HEADER, buf), t);
      assert LabelOk(d.entries, d.pieces[ofs]);
    }
  }

  lemma AreasAre(d: Disk)
    requires Ok(d)
    ensures |d.pools| == AREAS
  {
  }

  lemma HeaderLevel(crc: seq<byte> -> nat, i: nat, s: nat)
    requires i < AREAS
    ensures SegHeader(crc, i, s)[7] == i
  {
  }

  lemma WrittenTidy(crc: seq<byte> -> nat, bad: nat -> bool, segs: seq<nat>, d: Disk, d': Disk, i: nat, err: bool)
    requires Ok(d) && Tidy(crc, bad, segs, d) && Written(d, d', i) && if err then d'.entries == d.entries
      else Entered(d, d', i)
    ensures Tidy(crc, bad, segs, d')
  {
    assert PoolOk(d, i);
    assert d.pools[i].segno !in segs;
    WrittenLabelled(d, d', i);
    TidyKept(crc, bad, segs, d, d');
  }

  lemma TidyOpened(crc: seq<byte> -> nat, bad: nat -> bool, segs: seq<nat>, d: Disk, i: nat, s: nat, buf: seq<byte>,
      usedBytes: nat, used: map<nat, nat>)
    requires Ok(d) && Openable(d, i, s, usedBytes, used) && Tidy(crc, bad, segs, d) && i < |d.pools| &&
      s * d.segsize !in d.pieces && s !in segs &&
      !bad(SegAt(s, d.segsize))
    ensures Tidy(crc, bad, segs, Opened(d, i, s, SegHeader(crc, i, s), buf))
  {
    hide Ok, Settled, Handed, Accounted, Labelled, SegHeader;
    OpenedLabelled(crc, d, i, s, buf);
    hide Openable;
    forall k | 0 <= k < |segs|
      ensures SetAside(Opened(d, i, s, SegHeader(crc, i, s), buf), segs[k])
    {
      assert s != segs[k];
      OpenedAside(d, i, s, SegHeader(crc, i, s), buf, segs[k]);
    }
    hide SetAside, Fresh, Owner;
  }

  lemma OpenedAside(d: Disk, i: nat, s: nat, head: seq<byte>, buf: seq<byte>, t: nat)
    requires SetAside(d, t) && i < |d.pools| && s != t
    ensures SetAside(Opened(d, i, s, head, buf), t)
  {
    OwnerAfter(d.pools, i, Active(s, SEG_HEADER, buf), t);
  }

  lemma ReservedRange(crc: seq<byte> -> nat, bad: nat -> bool, segs: seq<nat>, d: Disk, k: nat)
    requires Ok(d) && Tidy(crc, bad, segs, d) && k < |segs|
    ensures SegAt(segs[k], d.segsize) + d.segsize <= |d.dev| &&
      SegAt(segs[k], d.segsize) % 0x1_0000_0000 <= SegAt(segs[k], d.segsize)
  {
    assert SetAside(d, segs[k]);
    MulStep(d.segsize, segs[k], segs[k] + 1);
    MulMono(d.segsize, segs[k] + 1, d.noSegs);
  }

  /** Writing a journal segment. */
  ghost predicate Overwritten(d: Disk, d': Disk, s: nat) {
    d' == d.(dev := d'.dev) && SameOutside(d.dev, d'.dev, SegAt(s, d.segsize), SegAt(s, d.segsize) + d.segsize)
  }

  lemma IsReadable(bytes: seq<byte>, at: nat, buf: seq<byte>)
    requires at + |buf| <= |bytes| && bytes[at..at + |buf|] == buf
    ensures Readable(bytes, at, buf)
  {
  }

  lemma KeptOutside(b: seq<byte>, b': seq<byte>, lo: nat, hi: nat, from: nat, to: nat)
    requires SameOutside(b, b', lo, hi) && from <= to <= |b| && (to <= lo || hi <= from)
    ensures b'[from..to] == b[from..to]
  {
  }

  lemma ReservedPiece(d: Disk, d': Disk, s: nat, ofs: nat)
    requires Ok(d) && Fresh(d, s) && Overwritten(d, d', s) && ofs in d.pieces
    ensures PieceOk(d', ofs)
    ensures ofs + |d.pieces[ofs].image| <= |d.dev| ==>
      d'.dev[ofs..ofs + |d.pieces[ofs].image|] == d.dev[ofs..ofs + |d.pieces[ofs].image|]
  {
    assert PieceOk(d, ofs);
    var p := d.pieces[ofs];
    assert p.segno != s && |d'.dev| == |d.dev|;
    hide Ok, Fresh, Owner, SameOutside, Shape;
    if p.segno < s {
      SegOrder(d.segsize, p.segno, s);
    } else {
      SegOrder(d.segsize, s, p.segno);
    }
    if ofs + |p.image| <= |d.dev| {
      KeptOutside(d.dev, d'.dev, SegAt(s, d.segsize), SegAt(s, d.segsize) + d.segsize, ofs, ofs + |p.image|);
    }
    assert OnDevice(d, p) ==> OnDevice(d', p);
    assert Held(d', p);
  }

  lemma ReservedDone(crc: seq<byte> -> nat, bad: nat -> bool, segs: seq<nat>, d: Disk, d': Disk, k: nat,
      usedBytes: nat, used: map<nat, nat>)
    requires Ok(d) && Tidy(crc, bad, segs, d) && Accounted(d, usedBytes, used) && k < |segs| &&
      Overwritten(d, d', segs[k])
    ensures Ok(d') && Tidy(crc, bad, segs, d') && Accounted(d', usedBytes, used)
  {
    assert SetAside(d, segs[k]);
    forall i | 0 <= i < |d'.pools|
      ensures PoolOk(d', i)
    {
      assert PoolOk(d, i);
    }
    forall ofs | ofs in d'.pieces
      ensures PieceOk(d', ofs)
    {
      ReservedPiece(d, d', segs[k], ofs);
    }
    SumSame(d, d', d.noSegs);
    TidyKept(crc, bad, segs, d, d');
  }

  lemma ReservedDurable(crc: seq<byte> -> nat, bad: nat -> bool, segs: seq<nat>, d: Disk, d': Disk, k: nat,
      objs: map<nat, Object>)
    requires Ok(d) && Tidy(crc, bad, segs, d) && k < |segs| && Overwritten(d, d', segs[k]) &&
      Logged(crc, objs, d.pieces, d.segsize)
    requires forall ofs {:trigger ofs in objs} :: ofs in objs ==> Readable(d.dev, ofs, Image(crc, objs[ofs]))
    requires AllSealed(crc, d.dev, d.segsize, d.entries, objs)
    ensures forall ofs {:trigger ofs in objs} :: ofs in objs ==> Readable(d'.dev, ofs, Image(crc, objs[ofs]))
    ensures AllSealed(crc, d'.dev, d'.segsize, d'.entries, objs)
  {
    hide Ok, Tidy, Readable, Image, SameOutside, SegHeader, SegAt;
    assert d'.entries == d.entries && d'.segsize == d.segsize;
    hide Overwritten;
    forall ofs | ofs in objs
      ensures Readable(d'.dev, ofs, Image(crc, objs[ofs])) && Sealed(crc, d'.dev, d.segsize, d.entries, ofs, objs[ofs])
    {
      ReservedReadable(crc, bad, segs, d, d', k, ofs);
      ReservedSealed(crc, bad, segs, d, d', k, objs, ofs);
    }
  }

  lemma ReservedSealed(crc: seq<byte> -> nat, bad: nat -> bool, segs: seq<nat>, d: Disk, d': Disk, k: nat,
      objs: map<nat, Object>, ofs: nat)
    requires Ok(d) && Tidy(crc, bad, segs, d) && k < |segs| && Overwritten(d, d', segs[k]) &&
      Logged(crc, objs, d.pieces, d.segsize) && ofs in objs
    requires Sealed(crc, d.dev, d.segsize, d.entries, ofs, objs[ofs])
    ensures Sealed(crc, d'.dev, d.segsize, d.entries, ofs, objs[ofs])
  {
    var s := d.pieces[ofs].segno;
    var i := AreaIndex(objs[ofs].ino, objs[ofs].level);
    hide Readable, Image, SegHeader, Overwritten;
    PiecePlace(d, ofs);
    assert HeadIn(crc, d.pieces, d.segsize, i, s);
    hide Ok, Tidy, Logged;
    ReservedReadable(crc, bad, segs, d, d', k, s * d.segsize);
  }

  lemma ReservedReadable(crc: seq<byte> -> nat, bad: nat -> bool, segs: seq<nat>, d: Disk, d': Disk, k: nat, ofs: nat)
    requires Ok(d) && Tidy(crc, bad, segs, d) && k < |segs| && Overwritten(d, d', segs[k]) && ofs in d.pieces
    requires Readable(d.dev, ofs, d.pieces[ofs].image)
    ensures Readable(d'.dev, ofs, d.pieces[ofs].image)
  {
    assert SetAside(d, segs[k]);
    ReservedPiece(d, d', segs[k], ofs);
  }

  lemma ReserveTidy(crc: seq<byte> -> nat, bad: nat -> bool, segs: seq<nat>, d: Disk, d1: Disk, s: nat)
    requires Tidy(crc, bad, segs, d) && Tidy(crc, bad, segs, d1) && Allocated(d, d1, s) && !bad(SegAt(s, d.segsize))
    ensures s < |d1.entries| && Tidy(crc, bad, segs + [s], d1.(entries := d1.entries[s := Entry(16, RESERVED)]))
  {
    var d2 := d1.(entries := d1.entries[s := Entry(16, RESERVED)]);
    assert s !in segs;
    ReserveLabelled(d1, s, Entry(16, RESERVED));
    TidyKept(crc, bad, segs, d1, d2);
    assert SetAside(d2, s);
  }

  lemma EmptyTidy(crc: seq<byte> -> nat, bad: nat -> bool, d: Disk)
    requires d.lastseg == 0 && SEG_HEADER <= d.segsize && d.pieces == map[]
    requires (forall s :: 0 <= s < |d.entries| ==> d.entries[s] == Entry(0, 0)) && forall i :: 0 <= i < |d.pools| ==>
      d.pools[i] == Idle
    ensures Tidy(crc, bad, [], d)
  {
  }

  lemma EmptyOk(d: Disk)
    requires Shape(d) && d.pieces == map[] && forall i :: 0 <= i < |d.pools| ==> d.pools[i] == Idle
    ensures Ok(d)
  {
  }

  lemma AccountStart(d: Disk)
    requires |d.entries| == d.noSegs && |d.pools| == AREAS
    requires (forall s :: 0 <= s < |d.entries| ==> d.entries[s] == Entry(0, 0)) &&
      (forall i :: 0 <= i < |d.pools| ==> d.pools[i] == Idle)
    ensures Accounted(d, 0, map[])
  {
    assert forall s :: 0 <= s < |d.entries| ==> Count(d, s) == ValidBytes(d.entries[s]) == 0;
    SumIsValid(d, d.noSegs);
    SumZero(d.entries, d.noSegs);
  }

  lemma {:induction false} SumZero(entries: seq<Entry>, n: nat)
    requires n <= |entries| && forall s :: 0 <= s < |entries| ==> ValidBytes(entries[s]) == 0
    ensures SumValid(entries, n) == 0
  {
    if n > 0 {
      SumZero(entries, n - 1);
    }
  }

  /** Between `d` and `d'` segments were taken from the end; bad ones were marked. */
  ghost predicate Allocating(d: Disk, d': Disk) {
    && d' == d.(lastseg := d'.lastseg, entries := d'.entries, dev := d'.dev)
    && d.lastseg <= d'.lastseg <= d.noSegs && |d'.entries| == |d.entries| == d.noSegs
    && SameOutside(d.dev, d'.dev, d.lastseg * d.segsize, |d.dev|)
    && (forall s {:trigger d'.entries[s]} :: 0 <= s < d.noSegs ==>
          d'.entries[s] == d.entries[s] || (d.lastseg <= s < d'.lastseg && d'.entries[s] == Entry(BADSEG, RESERVED)))
  }

  /** Segment `segno` was allocated: the first one that is not bad. */
  ghost predicate Allocated(d: Disk, d': Disk, segno: nat) {
    Allocating(d, d') && Skipped(d, d', segno) && d.lastseg <= segno && segno + 1 == d'.lastseg &&
        d'.entries[segno] == d.entries[segno] && Fresh(d', segno)
  }

  lemma AllocStart(d: Disk)
    requires Ok(d)
    ensures Allocating(d, d) && Skipped(d, d, d.lastseg)
  {
  }

  /** The segments from the old end up to `n` turned out bad. */
  ghost predicate Skipped(d: Disk, d': Disk, n: nat) {
    forall s {:trigger d'.entries[s]} :: d.lastseg <= s < n && s < |d'.entries| ==>
        d'.entries[s] == Entry(BADSEG, RESERVED)
  }

  lemma SkippedSame(d: Disk, d1: Disk, d2: Disk, n: nat)
    requires Skipped(d, d1, d1.lastseg) && d2.entries == d1.entries && n <= d1.lastseg
    ensures Skipped(d, d2, n)
  {
  }

  /** The last segment taken from the end is good, and all before it are not. */
  ghost predicate Found(d: Disk, d': Disk, segno: nat) {
    Skipped(d, d', segno) && d.lastseg <= segno && segno + 1 == d'.lastseg && segno < |d'.entries| == |d.entries| &&
        d'.entries[segno] == d.entries[segno]
  }

  lemma AllocRange(d: Disk, d1: Disk)
    requires Ok(d) && Allocating(d, d1)
    ensures d1.lastseg <= d1.noSegs == d.noSegs && d1.segsize == d.segsize
    ensures d1.lastseg < d1.noSegs ==> d1.lastseg * d.segsize + d.segsize <= |d1.dev| && d1.lastseg < |d1.entries|
  {
    if d1.lastseg < d1.noSegs {
      MulStep(d.segsize, d1.lastseg, d1.lastseg + 1);
      MulMono(d.segsize, d1.lastseg + 1, d.noSegs);
    }
  }

  lemma MulMono(m: nat, a: nat, b: nat)
    requires a <= b
    ensures m * a <= m * b
  {
    if a < b {
      MulStep(m, a, b);
    }
  }

  lemma AllocStep(d: Disk, d1: Disk, d2: Disk, segno: nat, err: bool)
    requires Allocating(d, d1) && Skipped(d, d1, segno) && d1.lastseg == segno < d.noSegs
    requires d2 == d1.(lastseg := segno + 1, entries := d2.entries, dev := d2.dev)
    requires SameOutside(d1.dev, d2.dev, segno * d.segsize, segno * d.segsize + d.segsize)
    requires d2.entries == if err then d1.entries[segno := Entry(BADSEG, RESERVED)] else d1.entries
    ensures Allocating(d, d2) && if err then Skipped(d, d2, segno + 1) else Found(d, d2, segno)
  {
    if d.lastseg < segno {
      SegOrder(d.segsize, d.lastseg, segno);
    }
  }

  lemma AllocDone(d: Disk, d': Disk, segno: nat)
    requires Ok(d) && Allocating(d, d') && Found(d, d', segno)
    ensures Allocated(d, d', segno) && Ok(d')
  {
    assert Shape(d');
    Taken(d, d');
    PoolsDistinct(d);
    var i := Owner(d'.pools, segno);
    assert i < |d.pools| ==> PoolOk(d, i);
    forall ofs | ofs in d'.pieces
      ensures d'.pieces[ofs].segno != segno
    {
      assert PieceOk(d, ofs);
    }
  }

  /** Valid count, erase count and level of the area's old segment have been entered. */
  ghost predicate Handed(d: Disk, i: nat) {
    i < |d.pools| &&
    (d.pools[i].Active? ==>
       && d.pools[i].segno < |d.entries| && ValidBytes(d.entries[d.pools[i].segno]) == d.pools[i].used - SEG_HEADER
       && d.entries[d.pools[i].segno].ecLevel == 16 + i)
  }

  /** Nothing that was put anywhere is forgotten. */
  ghost predicate StillLogged(d: Disk, d': Disk) {
    forall ofs {:trigger ofs in d'.pieces} :: ofs in d.pieces ==> ofs in d'.pieces && d'.pieces[ofs] == d.pieces[ofs]
  }

  /** Only area `i` changed. */
  ghost predicate OnlyPool(d: Disk, d': Disk, i: nat) {
    |d'.pools| == |d.pools| && forall j {:trigger d'.pools[j]} :: 0 <= j < |d.pools| && j != i ==>
        d'.pools[j] == d.pools[j]
  }

  lemma LoggedMore(crc: seq<byte> -> nat, objs: map<nat, Object>, pieces: map<nat, Piece>, segsize: nat, ofs: nat,
      p: Piece)
    requires Logged(crc, objs, pieces, segsize) && ofs !in pieces
    ensures Logged(crc, objs, pieces[ofs := p], segsize)
  {
  }

  /** Area `i` may start filling segment `segno`. */
  ghost predicate Openable(d: Disk, i: nat, segno: nat, usedBytes: nat, used: map<nat, nat>) {
    && i < |d.pools| && SEG_HEADER <= d.segsize && Settled(d, i) && Handed(d, i) && Accounted(d, usedBytes, used) &&
        Fresh(d, segno)
    && segno < d.noSegs && ValidBytes(d.entries[segno]) == 0
  }

  lemma OpenableFacts(d: Disk, i: nat, segno: nat, usedBytes: nat, used: map<nat, nat>)
    requires Openable(d, i, segno, usedBytes, used)
    ensures i < |d.pools| && SEG_HEADER <= d.segsize
  {
  }

  lemma OpenedAll(d: Disk, i: nat, segno: nat, head: seq<byte>, buf: seq<byte>, usedBytes: nat, used: map<nat, nat>)
    requires Ok(d) && Openable(d, i, segno, usedBytes, used)
    requires |buf| == d.segsize && |head| == SEG_HEADER && buf[..SEG_HEADER] == head
    ensures i < |d.pools| && segno * d.segsize !in d.pieces
    ensures var d' := Opened(d, i, segno, head, buf);
      Ok(d') && Accounted(d', usedBytes, used) && StillLogged(d, d') && OnlyPool(d, d', i)
  {
    OpenedOk(d, i, segno, head, buf);
    AccountOpened(d, i, segno, head, buf, usedBytes, used);
    hide Ok, Accounted, Settled, Fresh;
  }

  lemma OpenedParts(d: Disk, i: nat, segno: nat, head: seq<byte>, buf: seq<byte>)
    requires i < |d.pools|
    ensures Opened(d, i, segno, head, buf) ==
            d.(pools := d.pools[i := Active(segno, SEG_HEADER, buf)], pieces :=
                d.pieces[segno * d.segsize := Piece(segno, 0, head)])
  {
  }

  lemma PutParts(d: Disk, i: nat, m: seq<byte>)
    requires i < |d.pools| && d.pools[i].Active? && d.pools[i].used + |m| <= |d.pools[i].buf|
    ensures var p := d.pools[i];
      Put(d, i, m) ==
        d.(pools := d.pools[i := Active(p.segno, p.used + |m|, p.buf[..p.used] + m + p.buf[p.used + |m|..])],
           pieces := d.pieces[NextOfs(d, i) := Piece(p.segno, p.used, m)])
  {
  }

  lemma AllocLater(crc: seq<byte> -> nat, bad: nat -> bool, segs: seq<nat>, d: Disk, d1: Disk, segno: nat)
    requires Tidy(crc, bad, segs, d) && Allocated(d, d1, segno)
    ensures d.lastseg <= segno && segno !in segs
  {
    assert forall k :: 0 <= k < |segs| ==> SetAside(d, segs[k]);
  }

  lemma AllocKept(d: Disk, d1: Disk, d2: Disk, i: nat, segno: nat)
    requires Allocated(d, d1, segno) && StillLogged(d1, d2) && OnlyPool(d1, d2, i)
    ensures StillLogged(d, d2) && OnlyPool(d, d2, i)
  {
    hide Fresh;
  }

  /** Allocation changes neither the accounting nor the state of the areas. */
  lemma AllocOpen(d: Disk, d1: Disk, i: nat, segno: nat, usedBytes: nat, used: map<nat, nat>)
    requires Ok(d) && Ok(d1) && Allocated(d, d1, segno) && Settled(d, i) && Handed(d, i) &&
      Accounted(d, usedBytes, used)
    ensures Openable(d1, i, segno, usedBytes, used)
  {
    hide Owner;
    if d.pools[i].Active? {
      assert PoolOk(d, i);
      SegOrder(d.segsize, d.pools[i].segno, d.lastseg);
      forall ofs | ofs in d1.pieces && d1.pieces[ofs].segno == d.pools[i].segno
        ensures OnDevice(d1, d1.pieces[ofs])
      {
        assert PieceOk(d, ofs);
        var p := d.pieces[ofs];
        assert d1.dev[ofs..ofs + |p.image|] == d.dev[ofs..ofs + |p.image|];
      }
    }
    AccountTaken(d, d1, usedBytes, used);
  }

  lemma AccountTaken(d: Disk, d1: Disk, usedBytes: nat, used: map<nat, nat>)
    requires Ok(d) && Allocating(d, d1) && Accounted(d, usedBytes, used)
    ensures Accounted(d1, usedBytes, used)
  {
    forall s | 0 <= s < d.noSegs
      ensures Count(d1, s) == Count(d, s)
    {
      assert d1.entries[s] == d.entries[s] || ValidBytes(d.entries[s]) == 0;
    }
    SumSame(d, d1, d.noSegs);
  }

  /** Marking a fresh segment as reserved disturbs nothing. */
  lemma ReserveDone(d: Disk, d1: Disk, segno: nat, usedBytes: nat, used: map<nat, nat>)
    requires Ok(d) && Ok(d1) && Allocated(d, d1, segno) && Accounted(d, usedBytes, used)
    ensures segno < |d1.entries|
    ensures var d2 := d1.(entries := d1.entries[segno := Entry(16, RESERVED)]);
            Ok(d2) && Accounted(d2, usedBytes, used) && StillLogged(d, d2) && Fresh(d2, segno)
  {
    var d2 := d1.(entries := d1.entries[segno := Entry(16, RESERVED)]);
    AccountTaken(d, d1, usedBytes, used);
    Taken(d1, d2);
    forall s | 0 <= s < d1.noSegs
      ensures Count(d2, s) == Count(d1, s)
    {
      assert s == segno ==> ValidBytes(d.entries[s]) == 0;
    }
    SumSame(d1, d2, d1.noSegs);
  }

  lemma AccountOpened(d: Disk, i: nat, s: nat, head: seq<byte>, buf: seq<byte>, usedBytes: nat, used: map<nat, nat>)
    requires Ok(d) && i < |d.pools| && Fresh(d, s) && Handed(d, i) && Accounted(d, usedBytes, used) &&
      ValidBytes(d.entries[s]) == 0
    ensures Accounted(Opened(d, i, s, head, buf), usedBytes, used)
  {
    PoolsDistinct(d);
    var d', p := Opened(d, i, s, head, buf), Active(s, SEG_HEADER, buf);
    forall r | 0 <= r < d.noSegs
      ensures Count(d', r) == Count(d, r)
    {
      if r == s {
        OwnerNew(d.pools, i, p);
      } else if Owner(d.pools, r) == i {
        OwnerGone(d.pools, i, p, r);
      } else {
        OwnerAfter(d.pools, i, p, r);
      }
    }
    SumSame(d, d', d.noSegs);
  }

  /** The segment entry of area `i` now tells its valid bytes, its erase count and its level. */
  ghost predicate Entered(d: Disk, d': Disk, i: nat) {
    && i < |d.pools| && d.pools[i].Active? && d.pools[i].segno < |d.entries| && d.pools[i].used >= SEG_HEADER
    && d'.entries == d.entries[d.pools[i].segno := Entry(16 + i % 16, d.pools[i].used - SEG_HEADER)]
  }

  lemma WriteRange(d: Disk, i: nat)
    requires Ok(d) && i < |d.pools| && d.pools[i].Active?
    ensures d.pools[i].segno * d.segsize + |d.pools[i].buf| <= |d.dev| && d.pools[i].segno < |d.entries| &&
      SEG_HEADER <= d.pools[i].used
  {
    assert PoolOk(d, i);
    var s := d.pools[i].segno;
    MulStep(d.segsize, s, s + 1);
    MulMono(d.segsize, s + 1, d.noSegs);
  }

  lemma WriteDone(d: Disk, d1: Disk, i: nat, err: bool, usedBytes: nat, used: map<nat, nat>)
    requires Ok(d) && Accounted(d, usedBytes, used) && i < |d.pools| && d.pools[i].Active? && d1 == d.(dev := d1.dev)
    requires var a := d.pools[i].segno * d.segsize;
      a + |d.pools[i].buf| <= |d.dev| == |d1.dev| && SameOutside(d.dev, d1.dev, a, a + |d.pools[i].buf|)
    requires var a := d.pools[i].segno * d.segsize; !err ==> d1.dev[a..a + |d.pools[i].buf|] == d.pools[i].buf
    ensures Ok(d1) && Accounted(d1, usedBytes, used) && Written(d, d1, i) && (!err ==> Settled(d1, i))
  {
    assert PoolOk(d, i);
    assert Written(d, d1, i);
    WrittenOk(d, d1, i);
    if !err {
      WrittenSettled(d, d1, i);
    }
    SumSame(d, d1, d.noSegs);
  }

  lemma EntryCounts(d1: Disk, d2: Disk, i: nat, usedBytes: nat, used: map<nat, nat>)
    requires Ok(d1) && Accounted(d1, usedBytes, used) && i < |d1.pools| && d1.pools[i].Active? &&
      d1.pools[i].segno < |d1.entries|
    requires SEG_HEADER <= d1.pools[i].used
    requires d2 == d1.(entries := d1.entries[d1.pools[i].segno := Entry(16 + i % 16, d1.pools[i].used - SEG_HEADER)])
    ensures Accounted(d2, usedBytes, used) && Handed(d2, i)
  {
    var s := d1.pools[i].segno;
    assert PoolOk(d1, i);
    assert Owner(d1.pools, s) == i && d1.pools[i].used <= d1.segsize && s < d1.lastseg &&
        d2.entries[s].valid < RESERVED by {
      SmallSegment(d1);
    }
    hide Ok, Owner;
    forall r | 0 <= r < d1.noSegs
      ensures Count(d2, r) == Count(d1, r)
    {
    }
    SumSame(d1, d2, d1.noSegs);
  }

  lemma SmallSegment(d: Disk)
    requires Ok(d)
    ensures d.segsize < 0x1_0000_0000
  {
  }

  lemma EntryDone(d: Disk, d1: Disk, d2: Disk, i: nat, usedBytes: nat, used: map<nat, nat>)
    requires Ok(d1) && Accounted(d1, usedBytes, used) && Written(d, d1, i) && Settled(d1, i)
    requires i < |d1.pools| && d1.pools[i].Active? && d1.pools[i].segno < |d1.entries| && SEG_HEADER <= d1.pools[i].used
    requires d1.entries == d.entries
    requires d2 == d1.(entries := d1.entries[d1.pools[i].segno := Entry(16 + i % 16, d1.pools[i].used - SEG_HEADER)])
    ensures Ok(d2) && Accounted(d2, usedBytes, used) && Written(d, d2, i) && Settled(d2, i) && Handed(d2, i) &&
      Entered(d, d2, i)
  {
    hide Ok, Accounted;
    assert Written(d1, d2, i);
    WrittenOk(d1, d2, i);
    EntryCounts(d1, d2, i, usedBytes, used);
  }

  lemma WrittenKept(d: Disk, d': Disk, i: nat)
    requires Written(d, d', i)
    ensures StillLogged(d, d') && OnlyPool(d, d', i) && d'.pools == d.pools && d'.pieces == d.pieces &&
      d'.segsize == d.segsize
    ensures d'.lastseg == d.lastseg
  {
  }

  lemma KeptTrans(d: Disk, d1: Disk, d2: Disk, i: nat)
    requires StillLogged(d, d1) && StillLogged(d1, d2) && OnlyPool(d, d1, i) && OnlyPool(d1, d2, i)
    ensures StillLogged(d, d2) && OnlyPool(d, d2, i)
  {
    forall ofs | ofs in d.pieces
      ensures ofs in d2.pieces && d2.pieces[ofs] == d.pieces[ofs]
    {
      assert ofs in d1.pieces;
    }
  }

  /** The header part of an image. */
  function ObjHeader(crc: seq<byte> -> nat, o: Object): (h: seq<byte>)
    ensures |h| == OBJ_HEADER && Image(crc, o) == h + o.data
  {
    Be(crc(HeaderBody(o)), 4) + HeaderBody(o) + Be(crc(o.data), 4)
  }

  lemma TwoBlits(b: seq<byte>, u: nat, h: seq<byte>, p: seq<byte>)
    requires u + |h| + |p| <= |b|
    ensures var b1 := b[..u] + h + b[u + |h|..];
            b1[..u + |h|] + p + b1[u + |h| + |p|..] == b[..u] + (h + p) + b[u + |h + p|..]
  {
  }

  /** Putting an image of an object of inode `ino` into area `i`: the layout and the accounts. */
  lemma PutAll(d: Disk, i: nat, m: seq<byte>, usedBytes: nat, used: map<nat, nat>, ino: nat)
    requires Ok(d) && i < |d.pools| && d.pools[i].Active? && d.pools[i].used + |m| <= d.segsize && 0 < |m|
    requires Accounted(d, usedBytes, used)
    ensures |d.pools[i].buf| == d.segsize && SEG_HEADER <= d.pools[i].used && Ok(Put(d, i, m)) &&
      StillLogged(d, Put(d, i, m))
    ensures 0 < NextOfs(d, i) && NextOfs(d, i) !in d.pieces && NextOfs(d, i) == SegAt(d.pools[i].segno, d.segsize) +
      d.pools[i].used
    ensures Accounted(Put(d, i, m), usedBytes + |m|, used[ino := Get(used, ino) + |m|])
  {
    hide Ok, Put, Accounted, StillLogged;
    PutOk(d, i, m);
    WriteRange(d, i);
    PutLogged(d, i, m);
    AccountPut(d, i, m, usedBytes, used, ino);
  }

  lemma WrapAround(a: nat, b: nat)
    ensures (a % 0x1_0000_0000 + b) % 0x1_0000_0000 == (a + b) % 0x1_0000_0000
  {
    var q := a / 0x1_0000_0000;
    ModShift(a % 0x1_0000_0000 + b, q);
    assert a + b == a % 0x1_0000_0000 + b + 0x1_0000_0000 * q;
  }

  lemma ModShift(x: nat, q: nat)
    ensures (x + 0x1_0000_0000 * q) % 0x1_0000_0000 == x % 0x1_0000_0000
  {
    ModUnique(x + 0x1_0000_0000 * q, 0x1_0000_0000, x / 0x1_0000_0000 + q, x % 0x1_0000_0000);
  }

  lemma PutLogged(d: Disk, i: nat, m: seq<byte>)
    requires i < |d.pools| && d.pools[i].Active? && d.pools[i].used + |m| <= |d.pools[i].buf|
    requires d.pools[i].segno * d.segsize + d.pools[i].used !in d.pieces
    ensures StillLogged(d, Put(d, i, m))
  {
  }

  lemma SmallMod(x: nat)
    ensures x < 0x1_0000_0000 <==> x % 0x1_0000_0000 == x
  {
  }

  lemma AccountPut(d: Disk, i: nat, m: seq<byte>, usedBytes: nat, used: map<nat, nat>, ino: nat)
    requires Ok(d) && i < |d.pools| && d.pools[i].Active? && d.pools[i].used + |m| <= d.segsize && 0 < |m| &&
      |d.pools[i].buf| == d.segsize
    requires Accounted(d, usedBytes, used)
    ensures Accounted(Put(d, i, m), usedBytes + |m|, used[ino := Get(used, ino) + |m|])
  {
    assert PoolOk(d, i);
    PoolsDistinct(d);
    var d' := Put(d, i, m);
    var s := d.pools[i].segno;
    OwnerNew(d.pools, i, d'.pools[i]);
    forall r | 0 <= r < d.noSegs && r != s
      ensures Count(d', r) == Count(d, r)
    {
      OwnerAfter(d.pools, i, d'.pools[i], r);
    }
    SumOne(d, d', d.noSegs, s);
    TotalPut(used, ino, Get(used, ino) + |m|);
  }

  lemma LoggedObject(crc: seq<byte> -> nat, objs: map<nat, Object>, pieces: map<nat, Piece>, segsize: nat, ofs: nat,
      p: Piece, o: Object)
    requires Logged(crc, objs, pieces, segsize) && ofs !in pieces && p.image == Image(crc, o) && SEG_HEADER <= p.pos
    requires o.level < LEVELS && HeadIn(crc, pieces, segsize, AreaIndex(o.ino, o.level), p.segno)
    ensures ofs !in objs && Logged(crc, objs[ofs := o], pieces[ofs := p], segsize)
  {
  }

  lemma RoomWhenFresh(d: Disk)
    requires Ok(d)
    ensures SEG_HEADER + OBJ_HEADER + BLOCKSIZE <= d.segsize
  {
  }

  lemma LoggedSame(d: Disk)
    ensures StillLogged(d, d)
  {
  }

  lemma LoggedTrans(d: Disk, d1: Disk, d2: Disk)
    requires StillLogged(d, d1) && StillLogged(d1, d2)
    ensures StillLogged(d, d2)
  {
    forall ofs | ofs in d.pieces
      ensures ofs in d2.pieces && d2.pieces[ofs] == d.pieces[ofs]
    {
      assert ofs in d1.pieces;
    }
  }

  /** The product in the returned offset is a 32-bit one: it is exact for the segments in the first
      4 GiB of the device, and for no other. */
  lemma OffsetExact(segsize: nat, q: nat, segno: nat, used: nat)
    requires segsize * q == 0x1_0000_0000 && used < segsize
    ensures (segno * segsize % 0x1_0000_0000 + used) % 0x1_0000_0000 == segno * segsize + used <==> segno < q
  {
    var x := segno * segsize;
    if segno < q {
      SegOrder(segsize, segno, q);
      SmallMod(x);
      SmallMod(x + used);
    } else {
      MulMono(segsize, q, segno);
      SmallMod(x + used);
    }
  }
}
