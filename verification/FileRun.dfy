/** From the writes of a file to the bytes of the device and back. */
module FileRun {
  import opened Bytes
  import opened Disk
  import opened Segments
  import opened Index
  import opened Blocks
  import opened ReadWrite

  /** A 64-bit word of the object at `ofs` on the device. */
  function DevWord(bytes: seq<byte>, ofs: nat, i: nat): nat {
    var at := ofs + OBJ_HEADER + 8 * i;
    if at + 8 <= |bytes| then FromBe(bytes[at..at + 8]) else 0
  }

  /** Follow block pointers on the device, from a block of level `l` to one of level `to`. */
  function DevWalk(bytes: seq<byte>, ofs: nat, l: nat, to: nat, b: nat): nat
    decreases l
  {
    if l <= to || ofs == 0 then ofs else DevWalk(bytes, DevWord(bytes, ofs, Digit(b, l - 1)), l - 1, to, b)
  }

  function DevFind(bytes: seq<byte>, data: seq<nat>, h: nat, b: nat): nat
    requires |data| == I0_BLOCKS + 1
  {
    if b < I0_BLOCKS then data[b] else if h == 0 then 0 else DevWalk(bytes, data[INDIRECT_INDEX], h, 0, b)
  }

  ghost predicate AllReadable(crc: seq<byte> -> nat, bytes: seq<byte>, objs: map<nat, Object>) {
    forall ofs {:trigger ofs in objs} :: ofs in objs ==> Readable(bytes, ofs, Image(crc, objs[ofs]))
  }

  lemma DevWordIs(crc: seq<byte> -> nat, bytes: seq<byte>, o: Object, ofs: nat, i: nat)
    requires Readable(bytes, ofs, Image(crc, o)) && 8 * i + 8 <= |o.data|
    ensures DevWord(bytes, ofs, i) == Word(o.data, i)
  {
    var at := ofs + OBJ_HEADER + 8 * i;
    var m := Image(crc, o);
    assert m[OBJ_HEADER..] == o.data;
    var r := bytes[ofs..ofs + |m|];
    assert bytes[at..at + 8] == r[OBJ_HEADER + 8 * i..OBJ_HEADER + 8 * i + 8];
    assert m[OBJ_HEADER..][8 * i..8 * i + 8] == m[OBJ_HEADER + 8 * i..OBJ_HEADER + 8 * i + 8];
  }

  /** What the device says is what the objects say. */
  lemma {:induction false} DevWalkIs(crc: seq<byte> -> nat, bytes: seq<byte>, objs: map<nat, Object>, ino: nat,
      ofs: nat, l: nat, k: nat, b: nat)
    requires AllReadable(crc, bytes, objs) && Rooted(objs, ino, ofs, l, k)
    ensures DevWalk(bytes, ofs, l, 0, b) == WalkDown(objs, ofs, l, b)
    decreases l
  {
    if l > 0 && ofs != 0 {
      assert ofs in objs;
      var i := Digit(b, l - 1);
      DevWordIs(crc, bytes, objs[ofs], ofs, i);
      DevWalkIs(crc, bytes, objs, ino, Word(objs[ofs].data, i), l - 1, Child(k, l - 1, i), b);
    }
  }

  /** On the way to a block every pointer leads to the block above it on the level reached. */
  lemma {:induction false} DevWalkNamed(crc: seq<byte> -> nat, bytes: seq<byte>, objs: map<nat, Object>, ino: nat,
      ofs: nat, l: nat, to: nat, b: nat)
    requires AllReadable(crc, bytes, objs) && Rooted(objs, ino, ofs, l, Canon(b, l)) && to <= l
    ensures var p := DevWalk(bytes, ofs, l, to, b); p == 0 || (p in objs && Named(objs[p], ino, to, Canon(b, to)))
    ensures DevWalk(bytes, ofs, l, to, b) == 0 ==> DevWalk(bytes, ofs, l, 0, b) == 0
    decreases l
  {
    if to < l && ofs != 0 {
      assert ofs in objs;
      var i := Digit(b, l - 1);
      DevWordIs(crc, bytes, objs[ofs], ofs, i);
      ChildOfCanon(b, l - 1);
      hide Canon, Digit, DevWord, Named;
      DevWalkNamed(crc, bytes, objs, ino, Word(objs[ofs].data, i), l - 1, to, b);
    } else {
      assert DevWalk(bytes, ofs, l, to, b) == ofs;
    }
  }

  datatype BlockWrite = BlockWrite(bix: nat, kind: Kind, buf: seq<byte>)

  /** What each block was last given. */
  function Latest(ino: nat, ws: seq<BlockWrite>): map<nat, Object> {
    if ws == [] then map[] else
      var w := ws[|ws| - 1];
      Latest(ino, ws[..|ws| - 1])[w.bix := Object(w.kind, ino, w.bix, 0, w.buf)]
  }

  /** An object is on the device: its header tells what it is, and its payload follows. */
  ghost predicate ObjectAt(crc: seq<byte> -> nat, bytes: seq<byte>, ofs: nat, o: Object) {
    && ofs + OBJ_HEADER + |o.data| <= |bytes|
    && HeaderTells(crc, bytes[ofs..ofs + OBJ_HEADER], o)
    && bytes[ofs + OBJ_HEADER..ofs + OBJ_HEADER + |o.data|] == o.data
  }

  /** A read of block `b` from the device gives object `o`, header and payload. */
  ghost predicate ReadsAs(crc: seq<byte> -> nat, bytes: seq<byte>, data: seq<nat>, h: nat, b: nat, o: Object)
    requires |data| == I0_BLOCKS + 1
  {
    var ofs := DevFind(bytes, data, h, b);
    ofs != 0 && ObjectAt(crc, bytes, ofs, o)
  }

  lemma FoundOnDevice(crc: seq<byte> -> nat, bytes: seq<byte>, objs: map<nat, Object>, last: map<nat, nat>,
      sent: map<nat, Object>, data: seq<nat>, h: nat, b: nat)
    requires AllReadable(crc, bytes, objs) && DirectOk(data, last) && SentOk(objs, last, sent) &&
      Exact(objs, data, h, last)
    requires DevFind(bytes, data, h, b) == Find(objs, data, h, b)
    ensures b in sent ==> ReadsAs(crc, bytes, data, h, b, sent[b])
    ensures b !in sent && b < Pow(FACTOR, h) ==> DevFind(bytes, data, h, b) == 0
  {
    hide WalkDown, DevWalk, Readable, Image, Pow, ObjectAt;
    if b in sent {
      assert b in last && Find(objs, data, h, b) == Last(last, b);
      assert last[b] in objs;
      Payloads(crc, bytes, last[b], sent[b]);
    } else if b < Pow(FACTOR, h) {
      assert b !in last && Find(objs, data, h, b) == Last(last, b);
    }
  }

  lemma Delivered(sb: Super, f: File, b: nat)
    requires sb.Durable() && f.Flushed(sb.objs) && Fits(Ind(f.last))
    ensures |f.data| == I0_BLOCKS + 1
    ensures b in f.sent ==> ReadsAs(sb.crc, sb.dev.bytes, f.data, f.height, b, f.sent[b])
    ensures b !in f.sent && b < Pow(FACTOR, f.height) ==> DevFind(sb.dev.bytes, f.data, f.height, b) == 0
  {
    hide sb.Trouble, sb.Faults, sb.Good, Exact, Fits, ReadsAs, DevFind, Ind, SentOk, DirectOk, HeightOk, Rooted,
        Readable;
    FlushedData(f, sb.objs);
    RoundTrip(f, sb.objs);
    DevFindIs(sb, f, b);
    FoundOnDevice(sb.crc, sb.dev.bytes, sb.objs, f.last, f.sent, f.data, f.height, b);
  }

  lemma Payloads(crc: seq<byte> -> nat, bytes: seq<byte>, ofs: nat, o: Object)
    requires Readable(bytes, ofs, Image(crc, o))
    ensures ObjectAt(crc, bytes, ofs, o)
  {
    var m := Image(crc, o);
    ImageReadsBack(crc, o);
    hide Image, HeaderTells;
    SliceOfSlice(bytes, ofs, ofs + |m|, 0, OBJ_HEADER);
    SliceOfSlice(bytes, ofs, ofs + |m|, OBJ_HEADER, |m|);
  }

  method WriteBlocks(sb: Super, f: File, ws: seq<BlockWrite>) returns (err: bool)
    requires sb.Good() && f.Ready(sb.objs) && f.sent == map[]
    requires forall k :: 0 <= k < |ws| ==> ws[k].bix <= Pow(FACTOR, 7) && |ws[k].buf| == ObjLen(ws[k].kind)
    modifies f, sb, sb.dev, sb.calloc, sb.area, sb.Bufs()
    ensures fresh(sb.Bufs() - old(sb.Bufs()))
    ensures sb.Trouble() == old(sb.Trouble()) + if err then 1 else 0
    ensures !err ==> sb.Good() && f.Ready(sb.objs) && f.sent == Latest(f.ino, ws)
  {
    hide sb.Trouble, sb.Faults, sb.Good, f.Ready, Pow;
    var i := 0;
    while i < |ws|
      invariant i <= |ws| && sb.Good() && f.Ready(sb.objs) && fresh(sb.Bufs() - old(sb.Bufs())) &&
        sb.Trouble() == old(sb.Trouble())
      invariant f.sent == Latest(f.ino, ws[..i])
    {
      err := f.Write(sb, ws[i].bix, ws[i].kind, ws[i].buf);
      if err {
        return;
      }
      assert ws[..i + 1][..i] == ws[..i];
      i := i + 1;
    }
    assert ws[..i] == ws;
    err := false;
  }

  /** The largest index written is no power of 512, or no other block has an index above the direct
      ones. */
  ghost predicate TreeFits(ws: seq<BlockWrite>) {
    forall k {:trigger ws[k]} ::
        0 <= k < |ws| && ws[k].bix in {512, 0x4_0000, 0x800_0000} &&
        (forall j :: 0 <= j < |ws| ==> ws[j].bix <= ws[k].bix) ==>
      forall j :: 0 <= j < |ws| && I0_BLOCKS <= ws[j].bix ==> ws[j].bix == ws[k].bix
  }

  lemma {:induction false} LatestKeys(ino: nat, ws: seq<BlockWrite>, b: nat)
    ensures b in Latest(ino, ws) <==> exists k :: 0 <= k < |ws| && ws[k].bix == b
  {
    if ws != [] {
      var n := |ws| - 1;
      LatestKeys(ino, ws[..n], b);
      assert forall k :: 0 <= k < n ==> ws[..n][k] == ws[k];
      if ws[n].bix != b && b in Latest(ino, ws) {
        var k :| 0 <= k < n && ws[..n][k].bix == b;
        assert ws[k].bix == b;
      }
    }
  }

  lemma IndexWritten(last: map<nat, nat>, ino: nat, ws: seq<BlockWrite>, b: nat)
    requires last.Keys == Latest(ino, ws).Keys
    ensures b in Ind(last) <==> I0_BLOCKS <= b && exists k :: 0 <= k < |ws| && ws[k].bix == b
  {
    LatestKeys(ino, ws, b);
    assert b in last.Keys <==> b in Latest(ino, ws).Keys;
    hide Latest;
  }

  lemma FitsForward(ind: map<nat, nat>, ws: seq<BlockWrite>)
    requires forall b: nat {:trigger b in ind} :: b in ind <==> I0_BLOCKS <= b && exists k ::
      0 <= k < |ws| && ws[k].bix == b
    requires Fits(ind)
    ensures TreeFits(ws)
  {
    forall k | 0 <= k < |ws| && ws[k].bix in {512, 0x4_0000, 0x800_0000} &&
        (forall j :: 0 <= j < |ws| ==> ws[j].bix <= ws[k].bix)
      ensures forall j :: 0 <= j < |ws| && I0_BLOCKS <= ws[j].bix ==> ws[j].bix == ws[k].bix
    {
      assert IsTop(ind, ws[k].bix);
      assert ind.Keys == {ws[k].bix};
      assert forall j :: 0 <= j < |ws| && I0_BLOCKS <= ws[j].bix ==> ws[j].bix in ind.Keys;
    }
  }

  lemma FitsBackward(ind: map<nat, nat>, ws: seq<BlockWrite>)
    requires forall b: nat {:trigger b in ind} :: b in ind <==> I0_BLOCKS <= b && exists k ::
      0 <= k < |ws| && ws[k].bix == b
    requires TreeFits(ws)
    ensures Fits(ind)
  {
    forall m: nat | IsTop(ind, m) && m in {512, 0x4_0000, 0x800_0000}
      ensures ind.Keys == {m}
    {
      assert m in ind;
      var k :| 0 <= k < |ws| && ws[k].bix == m;
      forall j | 0 <= j < |ws|
        ensures ws[j].bix <= m
      {
        assert ws[j].bix >= I0_BLOCKS ==> ws[j].bix in ind;
      }
      assert forall b :: b in ind ==> b == m;
    }
  }

  /** Whether a file fits its tree can be told from the writes. */
  lemma WritesFit(last: map<nat, nat>, ino: nat, ws: seq<BlockWrite>)
    requires last.Keys == Latest(ino, ws).Keys
    ensures Fits(Ind(last)) <==> TreeFits(ws)
  {
    hide Fits, TreeFits, Latest, Ind;
    var ind := Ind(last);
    forall b: nat
      ensures b in ind <==> I0_BLOCKS <= b && exists k :: 0 <= k < |ws| && ws[k].bix == b
    {
      IndexWritten(last, ino, ws, b);
    }
    if Fits(ind) {
      FitsForward(ind, ws);
    }
    if TreeFits(ws) {
      FitsBackward(ind, ws);
    }
  }

  /** A reader of the device finds every block as it was last written, and no other block the tree
      covers. */
  ghost predicate ExactOnDevice(crc: seq<byte> -> nat, bytes: seq<byte>, data: seq<nat>, h: nat, sent: map<nat, Object>)
    requires |data| == I0_BLOCKS + 1
  {
    forall b: nat {:trigger DevFind(bytes, data, h, b)} ::
      && (b in sent ==> ReadsAs(crc, bytes, data, h, b, sent[b]))
      && (b !in sent && b < Pow(FACTOR, h) ==> DevFind(bytes, data, h, b) == 0)
  }

  lemma DevFindIs(sb: Super, f: File, b: nat)
    requires sb.Durable() && f.Flushed(sb.objs)
    ensures |f.data| == I0_BLOCKS + 1
    ensures DevFind(sb.dev.bytes, f.data, f.height, b) == Find(sb.objs, f.data, f.height, b)
  {
    if b >= I0_BLOCKS && f.height > 0 {
      var ofs, h := f.data[INDIRECT_INDEX], f.height;
      var m := TopIs(sb.objs, f.ino, f.tree, ofs, h, Ind(f.last));
      hide TopSpec, Rooted;
      DevWalkIs(sb.crc, sb.dev.bytes, sb.objs, f.ino, ofs, h, Canon(m, h), b);
    }
  }

  /** The round trip down to the bytes. */
  lemma DeviceRoundTrip(sb: Super, f: File)
    requires sb.Durable() && f.Flushed(sb.objs)
    ensures |f.data| == I0_BLOCKS + 1
    ensures ExactOnDevice(sb.crc, sb.dev.bytes, f.data, f.height, f.sent) <==> Fits(Ind(f.last))
  {
    hide sb.Durable, f.Flushed, ReadsAs, DevFind, Pow, Ind, IsTop, SentOk;
    FlushedData(f, sb.objs);
    if Fits(Ind(f.last)) {
      hide Fits;
      forall b: nat
        ensures b in f.sent ==> ReadsAs(sb.crc, sb.dev.bytes, f.data, f.height, b, f.sent[b])
        ensures b !in f.sent && b < Pow(FACTOR, f.height) ==> DevFind(sb.dev.bytes, f.data, f.height, b) == 0
      {
        Delivered(sb, f, b);
      }
    } else {
      SomeLost(sb, f);
    }
  }

  lemma SomeLost(sb: Super, f: File)
    requires sb.Durable() && f.Flushed(sb.objs) && !Fits(Ind(f.last))
    ensures |f.data| == I0_BLOCKS + 1
    ensures exists b: nat ::
      b in f.sent && DevFind(sb.dev.bytes, f.data, f.height, b) == 0 &&
      !ReadsAs(sb.crc, sb.dev.bytes, f.data, f.height, b, f.sent[b])
  {
    var m: nat :| IsTop(Ind(f.last), m) && Ind(f.last).Keys != {m};
    hide Fits;
    var b :| b in Ind(f.last) && b != m;
    assert !IsTop(Ind(f.last), b);
    assert b in f.last && b in f.sent;
    hide sb.Durable, f.Flushed, IsTop, Ind, DevFind;
    LostBlocks(f, sb.objs, b);
    DevFindIs(sb, f, b);
  }

  /** The object at `ofs` on the device is an indirect block that names itself: its header tells type,
      inode and index, and the header of its segment tells its level. */
  ghost predicate BlockNamed(bytes: seq<byte>, segsize: nat, ofs: nat, ino: nat, l: nat, k: nat) {
    && 0 < segsize && ofs != 0 && ofs + OBJ_HEADER <= |bytes| && SegAt(ofs / segsize, segsize) + SEG_HEADER <= |bytes|
    && FromBe(bytes[ofs + 4..ofs + 6]) == 4096 && bytes[ofs + 6] == 4
    && FromBe(bytes[ofs + 8..ofs + 16]) == ino % 0x1_0000_0000_0000_0000
    && FromBe(bytes[ofs + 16..ofs + 24]) == k % 0x1_0000_0000_0000_0000
    && bytes[SegAt(ofs / segsize, segsize) + 7] == if ino == 1 then l + 6 else l
  }

  /** On the way to block `b` the reader passes, on every level, the indirect block above `b`. */
  ghost predicate PathNamed(bytes: seq<byte>, segsize: nat, data: seq<nat>, h: nat, ino: nat, b: nat)
    requires |data| == I0_BLOCKS + 1
  {
    forall l: nat {:trigger Canon(b, l)} :: 0 < l <= h ==>
        BlockNamed(bytes, segsize, DevWalk(bytes, data[INDIRECT_INDEX], h, l, b), ino, l, Canon(b, l))
  }

  lemma HeaderFields(crc: seq<byte> -> nat, bytes: seq<byte>, ofs: nat, o: Object)
    requires ObjectAt(crc, bytes, ofs, o) && o.kind == Block
    ensures ofs + OBJ_HEADER <= |bytes| && FromBe(bytes[ofs + 4..ofs + 6]) == 4096 && bytes[ofs + 6] == 4
    ensures FromBe(bytes[ofs + 8..ofs + 16]) == o.ino % 0x1_0000_0000_0000_0000
    ensures FromBe(bytes[ofs + 16..ofs + 24]) == o.bix % 0x1_0000_0000_0000_0000
  {
    var h := bytes[ofs..ofs + OBJ_HEADER];
    hide FromBe;
    SliceOfSlice(bytes, ofs, ofs + OBJ_HEADER, 4, 6);
    SliceOfSlice(bytes, ofs, ofs + OBJ_HEADER, 8, 16);
    SliceOfSlice(bytes, ofs, ofs + OBJ_HEADER, 16, 24);
    assert h[6] == bytes[ofs + 6];
  }

  /** An indirect block is found by its name. */
  lemma NamedOnDevice(sb: Super, ofs: nat, ino: nat, l: nat, k: nat)
    requires sb.Durable() && ofs in sb.objs && Named(sb.objs[ofs], ino, l, k) && 0 < l
    ensures BlockNamed(sb.dev.bytes, sb.segsize, ofs, ino, l, k)
  {
    sb.WhereFiled(ofs);
    Payloads(sb.crc, sb.dev.bytes, ofs, sb.objs[ofs]);
    HeaderFields(sb.crc, sb.dev.bytes, ofs, sb.objs[ofs]);
    hide sb.Durable, ObjectAt, FromBe;
    var at := SegAt(ofs / sb.segsize, sb.segsize);
    assert sb.dev.bytes[at..at + SEG_HEADER][7] == sb.dev.bytes[at + 7];
  }

  /** A walk that starts from the block above `b`, and finds `b`, passes the blocks above `b`. */
  lemma PathHolds(sb: Super, ino: nat, data: seq<nat>, h: nat, b: nat)
    requires sb.Durable() && |data| == I0_BLOCKS + 1 && Rooted(sb.objs, ino, data[INDIRECT_INDEX], h, Canon(b, h))
    requires DevWalk(sb.dev.bytes, data[INDIRECT_INDEX], h, 0, b) != 0
    ensures PathNamed(sb.dev.bytes, sb.segsize, data, h, ino, b)
  {
    assert AllReadable(sb.crc, sb.dev.bytes, sb.objs);
    hide sb.Durable, AllReadable, Rooted, Canon, BlockNamed, Named, DevWalk;
    forall l: nat | 0 < l <= h
      ensures BlockNamed(sb.dev.bytes, sb.segsize, DevWalk(sb.dev.bytes, data[INDIRECT_INDEX], h, l, b), ino, l,
        Canon(b, l))
    {
      DevWalkNamed(sb.crc, sb.dev.bytes, sb.objs, ino, data[INDIRECT_INDEX], h, l, b);
      NamedOnDevice(sb, DevWalk(sb.dev.bytes, data[INDIRECT_INDEX], h, l, b), ino, l, Canon(b, l));
    }
  }

  /** A walk that starts from another block does not. */
  lemma PathFails(sb: Super, ino: nat, data: seq<nat>, h: nat, k: nat, b: nat)
    requires sb.Durable() && |data| == I0_BLOCKS + 1 && Rooted(sb.objs, ino, data[INDIRECT_INDEX], h, k) && 0 < h
    requires k != Canon(b, h) && k < 0x1_0000_0000_0000_0000 && Canon(b, h) < 0x1_0000_0000_0000_0000
    ensures !PathNamed(sb.dev.bytes, sb.segsize, data, h, ino, b)
  {
    hide sb.Durable, Canon, BlockNamed, Named, Child, Word;
    var ofs := data[INDIRECT_INDEX];
    assert DevWalk(sb.dev.bytes, ofs, h, h, b) == ofs;
    if ofs != 0 {
      NamedOnDevice(sb, ofs, ino, h, k);
    }
    OneName(sb.dev.bytes, sb.segsize, ofs, ino, h, k, Canon(b, h));
  }

  lemma OneName(bytes: seq<byte>, segsize: nat, ofs: nat, ino: nat, l: nat, k: nat, k': nat)
    requires ofs != 0 ==> BlockNamed(bytes, segsize, ofs, ino, l, k)
    requires k != k' && k < 0x1_0000_0000_0000_0000 && k' < 0x1_0000_0000_0000_0000
    ensures !BlockNamed(bytes, segsize, ofs, ino, l, k')
  {
    hide FromBe, SegAt;
  }

  /** The top of the tree is the block above `b` if and only if all indices fit or `b` is the
      largest. */
  lemma TopAbove(h: nat, ind: map<nat, nat>, m: nat, b: nat)
    requires HeightOk(h, ind) && h <= 3 && IsTop(ind, m) && b in ind
    ensures 0 < h && (Quot(b, h) == Quot(m, h) <==> Fits(ind) || b == m)
    ensures Canon(m, h) < 0x1_0000_0000_0000_0000 && Canon(b, h) < 0x1_0000_0000_0000_0000
  {
    TopAtBoundary(h, ind, m);
    FitsAt(ind, m);
    QuotSmall(m, h);
    QuotSmall(b, h);
    PowFactor();
    assert h == 1 || h == 2 || h == 3;
    hide Fits;
    if m == Pow(FACTOR, h) && b != m {
      assert ind.Keys != {m};
    }
  }

  /** The way to a written block leads through the blocks above it if and only if the indices fit the
      tree or the block is the one with the largest index. */
  lemma PathIff(sb: Super, f: File, b: nat)
    requires sb.Durable() && f.Flushed(sb.objs) && b in Ind(f.last)
    ensures |f.data| == I0_BLOCKS + 1
    ensures PathNamed(sb.dev.bytes, sb.segsize, f.data, f.height, f.ino, b) <==>
      Fits(Ind(f.last)) || IsTop(Ind(f.last), b)
  {
    var ind, h, ofs := Ind(f.last), f.height, f.data[INDIRECT_INDEX];
    IndSent(sb.objs, f.last, f.sent);
    TopExists(ind);
    var m0: nat :| IsTop(ind, m0);
    TopAtBoundary(h, ind, m0);
    var m := TopIs(sb.objs, f.ino, f.tree, ofs, h, ind);
    TopAbove(h, ind, m, b);
    DevFindIs(sb, f, b);
    assert IsTop(ind, b) <==> b == m;
    assert ind[b] != 0 && b >= I0_BLOCKS;
    hide sb.Durable, f.Flushed, Rooted, TopSpec, Fits, IsTop, PathNamed, Ind, DevWalk;
    if Quot(b, h) == Quot(m, h) {
      RebaseSelf(b, h);
      CanonQuot(b, m, h);
      PathHolds(sb, f.ino, f.data, h, b);
    } else {
      CanonQuot(b, m, h);
      PathFails(sb, f.ino, f.data, h, Canon(m, h), b);
    }
  }

  /** Any sequence of writes to a new file, a flush of the file and a flush of the segments: a reader of
      the device is exact if and only if the indices written fit the tree. It fails only if a write or
      an allocation failed, the segments ran out, or an offset did not fit 32 bits. */
  method WriteFile(sb: Super, f: File, ws: seq<BlockWrite>) returns (ok: bool)
    requires sb.Good() && f.Ready(sb.objs) && f.sent == map[]
    requires forall k :: 0 <= k < |ws| ==> ws[k].bix <= Pow(FACTOR, 3) && |ws[k].buf| == ObjLen(ws[k].kind)
    modifies f, sb, sb.dev, sb.calloc, sb.area, sb.Bufs()
    ensures sb.Trouble() == old(sb.Trouble()) + if ok then 0 else 1
    ensures ok ==> f.sent == Latest(f.ino, ws) && |f.data| == I0_BLOCKS + 1
    ensures ok ==> sb.Durable() && f.Flushed(sb.objs)
    ensures ok ==> (ExactOnDevice(sb.crc, sb.dev.bytes, f.data, f.height, Latest(f.ino, ws)) <==> TreeFits(ws))
    ensures ok ==> forall b {:trigger b in Latest(f.ino, ws)} :: b in Latest(f.ino, ws) && I0_BLOCKS <= b ==>
      (PathNamed(sb.dev.bytes, sb.segsize, f.data, f.height, f.ino, b) <==> TreeFits(ws) || Largest(ws, b))
  {
    hide sb.Trouble, sb.Faults, sb.Good, f.Ready, f.Flushed, sb.Durable, Fits, TreeFits, ExactOnDevice, Pow, Ind,
        Latest, PathNamed, Largest;
    PowMono(3, 7);
    var err := WriteBlocks(sb, f, ws);
    if err {
      return false;
    }
    ReadyLow(f, sb.objs, ws);
    err := f.Flush(sb);
    if err {
      return false;
    }
    err := sb.FlushSegments();
    if err {
      return false;
    }
    FlushedData(f, sb.objs);
    DeviceRoundTrip(sb, f);
    FlushedKeys(f, sb.objs);
    WritesFit(f.last, f.ino, ws);
    PathsIff(sb, f, ws);
    return true;
  }

  ghost predicate Largest(ws: seq<BlockWrite>, b: nat) {
    forall k {:trigger ws[k]} :: 0 <= k < |ws| ==> ws[k].bix <= b
  }

  lemma LargestIsTop(last: map<nat, nat>, ino: nat, ws: seq<BlockWrite>, b: nat)
    requires last.Keys == Latest(ino, ws).Keys && b in last && I0_BLOCKS <= b
    ensures IsTop(Ind(last), b) <==> Largest(ws, b)
  {
    hide Latest;
    if IsTop(Ind(last), b) {
      forall k | 0 <= k < |ws|
        ensures ws[k].bix <= b
      {
        IndexWritten(last, ino, ws, ws[k].bix);
      }
    }
    if Largest(ws, b) {
      forall x | x in Ind(last)
        ensures x <= b
      {
        IndexWritten(last, ino, ws, x);
      }
    }
  }

  lemma PathsIff(sb: Super, f: File, ws: seq<BlockWrite>)
    requires sb.Durable() && f.Flushed(sb.objs) && f.last.Keys == Latest(f.ino, ws).Keys
    ensures |f.data| == I0_BLOCKS + 1
    ensures forall b {:trigger b in Latest(f.ino, ws)} :: b in Latest(f.ino, ws) && I0_BLOCKS <= b ==>
      (PathNamed(sb.dev.bytes, sb.segsize, f.data, f.height, f.ino, b) <==> TreeFits(ws) || Largest(ws, b))
  {
    FlushedData(f, sb.objs);
    hide sb.Durable, f.Flushed, Latest, TreeFits, Largest, PathNamed, Fits, IsTop;
    WritesFit(f.last, f.ino, ws);
    forall b | b in Latest(f.ino, ws) && I0_BLOCKS <= b
      ensures PathNamed(sb.dev.bytes, sb.segsize, f.data, f.height, f.ino, b) <==> TreeFits(ws) || Largest(ws, b)
    {
      assert b in f.last.Keys;
      LargestIsTop(f.last, f.ino, ws, b);
      PathIff(sb, f, b);
    }
  }

  lemma ReadyLow(f: File, objs: map<nat, Object>, ws: seq<BlockWrite>)
    requires f.Ready(objs) && f.sent == Latest(f.ino, ws) && forall k :: 0 <= k < |ws| ==> ws[k].bix <= Pow(FACTOR, 3)
    ensures f.height <= 3
  {
    assert f.last.Keys == f.sent.Keys;
    forall b | b in Ind(f.last)
      ensures b <= Pow(FACTOR, 3)
    {
      assert b in f.sent;
      LatestKeys(f.ino, ws, b);
    }
    hide Latest;
    LowHeight(f.height, Ind(f.last));
  }

  lemma FlushedKeys(f: File, objs: map<nat, Object>)
    requires f.Flushed(objs)
    ensures f.last.Keys == f.sent.Keys
  {
  }

  lemma FlushedData(f: File, objs: map<nat, Object>)
    requires f.Flushed(objs)
    ensures |f.data| == I0_BLOCKS + 1
  {
  }

  /** A run on which the growth test goes wrong: block 16 and then block 512 of a new
      file. The file stays at height 1, and block 16 cannot be found. */
  method BoundaryExample(sb: Super, f: File, a: seq<byte>, b: seq<byte>) returns (ok: bool)
    requires sb.Good() && f.Ready(sb.objs) && f.sent == map[] && |a| == |b| == BLOCKSIZE
    modifies f, sb, sb.dev, sb.calloc, sb.area, sb.Bufs()
    ensures sb.Trouble() == old(sb.Trouble()) + if ok then 0 else 1
    ensures ok ==>
      |f.data| == I0_BLOCKS + 1 && f.sent == map[16 := Object(Block, f.ino, 16, 0, a), 512 :=
          Object(Block, f.ino, 512, 0, b)]
    ensures ok ==>
      f.height == 1 && DevFind(sb.dev.bytes, f.data, f.height, 16) == 0 &&
      !ExactOnDevice(sb.crc, sb.dev.bytes, f.data, f.height, f.sent)
  {
    hide sb.Trouble, sb.Faults, sb.Good, f.Ready, f.Flushed, sb.Durable, DevFind, Pow, ExactOnDevice;
    var w1, w2 := BlockWrite(16, Block, a), BlockWrite(512, Block, b);
    PowFactor();
    assert ObjLen(Block) == BLOCKSIZE;
    ok := WriteFile(sb, f, [w1, w2]);
    if ok {
      TwoLatest(f.ino, w1, w2);
      assert !TreeFits([w1, w2]) by {
        assert [w1, w2][0].bix == 16 && [w1, w2][1].bix == 512;
      }
      Boundary(f, sb.objs);
      DevFindIs(sb, f, 16);
    }
  }

  lemma TwoLatest(ino: nat, w1: BlockWrite, w2: BlockWrite)
    ensures Latest(ino, [w1, w2]) == map[w1.bix := Object(w1.kind, ino, w1.bix, 0, w1.buf)][w2.bix :=
      Object(w2.kind, ino, w2.bix, 0, w2.buf)]
  {
    assert [w1, w2][..1] == [w1] && [w1][..0] == [];
    assert Latest(ino, [w1]) == map[w1.bix := Object(w1.kind, ino, w1.bix, 0, w1.buf)];
  }

  lemma Boundary(f: File, objs: map<nat, Object>)
    requires f.Flushed(objs) && f.sent.Keys == {16, 512}
    ensures |f.data| == I0_BLOCKS + 1 && f.height == 1 && Find(objs, f.data, f.height, 16) == 0
  {
    var ind := Ind(f.last);
    assert ind.Keys == {16, 512};
    assert IsTop(ind, 512) && !IsTop(ind, 16);
    TopAtBoundary(f.height, ind, 512);
    PowFactor();
    LostBlocks(f, objs, 16);
  }
}
