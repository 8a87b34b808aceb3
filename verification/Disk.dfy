/** The segment writer of segment.c as a value: what is on the device, what still waits in the
    twelve area buffers, and the accounting. */
module Disk {
  import opened Bytes

  const SEG_HEADER: nat := 0x18
  const OBJ_HEADER: nat := 0x1c
  const BLOCKSIZE: nat := 4096
  const LEVELS: nat := 6
  const AREAS: nat := 12
  const MASTER: nat := 1   // inode numbers
  const ROOT: nat := 2
  const SEGFILE: nat := 3
  const RESERVED: nat := 0xffff_ffff
  const BADSEG: nat := 0xffff_ffff

  datatype Kind = Dentry | Inode | Block

  /** One object as the caller handed it over. */
  datatype Object = Object(kind: Kind, ino: nat, bix: nat, level: nat, data: seq<byte>)

  function ObjLen(kind: Kind): nat {
    match kind
    case Dentry => 266
    case Inode => 200
    case Block => BLOCKSIZE
  }

  function KindCode(kind: Kind): byte {
    match kind
    case Block => 4
    case Inode => 5
    case Dentry => 6
  }

  /** The object header without its two checksums. */
  function HeaderBody(o: Object): (h: seq<byte>)
    ensures |h| == 20
  {
    Be(ObjLen(o.kind), 2) + [KindCode(o.kind), 0] + Be(o.ino, 8) + Be(o.bix, 8)
  }

  /** Header and payload, as they go to the medium; the checksum function is left open. */
  function Image(crc: seq<byte> -> nat, o: Object): (s: seq<byte>)
    ensures |s| == OBJ_HEADER + |o.data|
  {
    Be(crc(HeaderBody(o)), 4) + HeaderBody(o) + Be(crc(o.data), 4) + o.data
  }

  /** What a reader finds in the header of an object: length and type as the kind has them, no
      compression, inode and index, and two checksums, of the rest of the header and of the payload. */
  ghost predicate HeaderTells(crc: seq<byte> -> nat, h: seq<byte>, o: Object)
    requires |h| == OBJ_HEADER
  {
    && FromBe(h[4..6]) == (if o.kind.Dentry? then 266 else if o.kind.Inode? then 200 else 4096)
    && h[6] == (if o.kind.Dentry? then 6 else if o.kind.Inode? then 5 else 4) && h[7] == 0
    && FromBe(h[8..16]) == o.ino % 0x1_0000_0000_0000_0000 && FromBe(h[16..24]) == o.bix % 0x1_0000_0000_0000_0000
    && FromBe(h[..4]) == crc(h[4..24]) % 0x1_0000_0000 && FromBe(h[24..]) == crc(o.data) % 0x1_0000_0000
  }

  /** A reader finds the fields of an object in its header, and then its payload. */
  lemma ImageReadsBack(crc: seq<byte> -> nat, o: Object)
    ensures HeaderTells(crc, Image(crc, o)[..OBJ_HEADER], o) && Image(crc, o)[OBJ_HEADER..] == o.data
  {
    var s := Image(crc, o);
    var h := s[..OBJ_HEADER];
    Pow8();
    BeRoundTrip(ObjLen(o.kind), 2);
    BeRoundTrip(o.ino, 8);
    BeRoundTrip(o.bix, 8);
    BeRoundTrip(crc(HeaderBody(o)), 4);
    BeRoundTrip(crc(o.data), 4);
    hide Be, FromBe, Pow;
    assert h[4..6] == Be(ObjLen(o.kind), 2) && h[6] == KindCode(o.kind) && h[7] == 0;
    assert h[8..16] == Be(o.ino, 8);
    assert h[16..24] == Be(o.bix, 8);
    assert h[..4] == Be(crc(HeaderBody(o)), 4) && h[4..24] == HeaderBody(o) && h[24..] == Be(crc(o.data), 4);
  }

  /** Segment header of an object store segment. */
  function SegHeader(crc: seq<byte> -> nat, level: nat, segno: nat): (h: seq<byte>)
    ensures |h| == SEG_HEADER
  {
    var body := [0, 0, 3, level % 256] + Be(segno, 4) + Be(1, 4) + Be(segno, 8);
    Be(crc(body), 4) + body
  }

  /** What a reader finds in the header of a segment: checksum, type, level, segment number, erase
      count and, for want of a global one, the segment number again. */
  ghost predicate SegmentTells(crc: seq<byte> -> nat, h: seq<byte>, kind: byte, level: nat, segno: nat, ec: nat)
    requires |h| == SEG_HEADER
  {
    && FromBe(h[..4]) == crc(h[4..]) % 0x1_0000_0000 && h[4] == 0 && h[5] == 0 && h[6] == kind && h[7] == level
    && FromBe(h[8..12]) == segno && FromBe(h[12..16]) == ec && FromBe(h[16..24]) == segno
  }

  lemma SegParts(c: seq<byte>, kind: byte, level: byte, s: seq<byte>, e: seq<byte>, g: seq<byte>)
    requires |c| == |s| == |e| == 4 && |g| == 8
    ensures var h := c + ([0, 0, kind, level] + s + e + g);
      && h[..4] == c && h[4..] == [0, 0, kind, level] + s + e + g && h[4] == 0 && h[5] == 0 && h[6] == kind &&
          h[7] == level
      && h[8..12] == s && h[12..16] == e && h[16..24] == g
  {
  }

  lemma SegHeaderReadsBack(crc: seq<byte> -> nat, level: nat, segno: nat)
    requires level < 256 && segno < 0x1_0000_0000
    ensures SegmentTells(crc, SegHeader(crc, level, segno), 3, level, segno, 1)
  {
    hide Be, FromBe;
    var s, e, g := Be(segno, 4), Be(1, 4), Be(segno, 8);
    var body: seq<byte> := [0, 0, 3, level % 256] + s + e + g;
    Be4(segno);
    Be4(1);
    Be8(segno);
    Be4(crc(body));
    SegParts(Be(crc(body), 4), 3, level, s, e, g);
    assert SegHeader(crc, level, segno) == Be(crc(body), 4) + body;
    hide SegHeader;
  }

  datatype Entry = Entry(ecLevel: nat, valid: nat)

  /** One area: not opened yet, or filling the buffer of a segment. */
  datatype Pool = Idle | Active(segno: nat, used: nat, buf: seq<byte>)

  /** A run of bytes that was put into a segment: its header or an object. */
  datatype Piece = Piece(segno: nat, pos: nat, image: seq<byte>)

  datatype Disk = Disk(segsize: nat, noSegs: nat, lastseg: nat, entries: seq<Entry>, dev: seq<byte>,
                       pools: seq<Pool>, pieces: map<nat, Piece>)

  /** The area writing segment `s`, or the number of areas if there is none. */
  function Owner(pools: seq<Pool>, s: nat): (i: nat)
    ensures i <= |pools|
    ensures i < |pools| ==> pools[i].Active? && pools[i].segno == s
    ensures forall j :: 0 <= j < i ==> !(pools[j].Active? && pools[j].segno == s)
  {
    OwnerFrom(pools, s, 0)
  }

  function OwnerFrom(pools: seq<Pool>, s: nat, k: nat): (i: nat)
    requires k <= |pools|
    ensures k <= i <= |pools|
    ensures i < |pools| ==> pools[i].Active? && pools[i].segno == s
    ensures forall j :: k <= j < i ==> !(pools[j].Active? && pools[j].segno == s)
    decreases |pools| - k
  {
    if k == |pools| || (pools[k].Active? && pools[k].segno == s) then k else OwnerFrom(pools, s, k + 1)
  }

  ghost predicate Shape(d: Disk) {
    && SEG_HEADER + OBJ_HEADER + BLOCKSIZE <= d.segsize && |d.pools| == AREAS
    && d.segsize < 0x1_0000_0000 && d.noSegs < 0xffff_ffff
    && |d.dev| == d.noSegs * d.segsize && |d.entries| == d.noSegs && d.lastseg <= d.noSegs
  }

  ghost predicate PoolOk(d: Disk, i: nat) {
    i < |d.pools| &&
    (d.pools[i].Active? ==>
       && d.pools[i].segno < d.lastseg && |d.pools[i].buf| == d.segsize
       && SEG_HEADER <= d.pools[i].used <= d.segsize
       && Owner(d.pools, d.pools[i].segno) == i)
  }

  /** The bytes of `p` are where they were put: in the buffer of the area that still fills its
      segment, on the device otherwise. */
  ghost predicate Held(d: Disk, p: Piece) {
    && p.segno < d.lastseg && p.pos + |p.image| <= d.segsize
    && var i := Owner(d.pools, p.segno);
    if i < |d.pools| then
      p.pos + |p.image| <= d.pools[i].used <= |d.pools[i].buf| && d.pools[i].buf[p.pos..p.pos + |p.image|] == p.image
    else OnDevice(d, p)
  }

  ghost predicate OnDevice(d: Disk, p: Piece) {
    && p.segno * d.segsize + p.pos + |p.image| <= |d.dev|
    && d.dev[p.segno * d.segsize + p.pos..p.segno * d.segsize + p.pos + |p.image|] == p.image
  }

  ghost predicate PieceOk(d: Disk, ofs: nat) {
    ofs in d.pieces && ofs == d.pieces[ofs].segno * d.segsize + d.pieces[ofs].pos && 0 < |d.pieces[ofs].image| &&
        Held(d, d.pieces[ofs])
  }

  /** Extents do not overlap. */
  ghost predicate Apart(pieces: map<nat, Piece>) {
    forall a, b {:trigger pieces[a], pieces[b]} :: a in pieces && b in pieces && a < b ==> a + |pieces[a].image| <= b
  }

  ghost predicate Ok(d: Disk) {
    && Shape(d)
    && (forall i {:trigger PoolOk(d, i)} :: 0 <= i < |d.pools| ==> PoolOk(d, i))
    && (forall ofs {:trigger PieceOk(d, ofs)} {:trigger ofs in d.pieces} :: ofs in d.pieces ==> PieceOk(d, ofs))
    && Apart(d.pieces)
  }

  /** Bytes outside [lo, hi) are the same. */
  ghost predicate SameOutside(b: seq<byte>, b': seq<byte>, lo: nat, hi: nat) {
    |b| == |b'| && forall i {:trigger b'[i]} :: 0 <= i < |b| && (i < lo || hi <= i) ==> b'[i] == b[i]
  }

  /** Where segment `s` begins. */
  function SegAt(s: nat, segsize: nat): nat {
    s * segsize
  }

  lemma SegOrder(segsize: nat, s: nat, t: nat)
    requires s < t
    ensures s * segsize + segsize <= t * segsize
  {
    MulStep(segsize, s, t);
  }

  /** A segment can be taken from the end of the used ones; what was there before is unaffected. */
  lemma Taken(d: Disk, d': Disk)
    requires Ok(d) && Shape(d') && d'.segsize == d.segsize && d'.noSegs == d.noSegs && d'.pools == d.pools &&
      d'.pieces == d.pieces
    requires d.lastseg <= d'.lastseg && SameOutside(d.dev, d'.dev, d.lastseg * d.segsize, |d.dev|)
    ensures Ok(d')
  {
    forall i | 0 <= i < |d'.pools|
      ensures PoolOk(d', i)
    {
      assert PoolOk(d, i);
    }
    forall ofs | ofs in d'.pieces
      ensures PieceOk(d', ofs)
    {
      assert PieceOk(d, ofs);
      var p := d.pieces[ofs];
      if Owner(d.pools, p.segno) == |d.pools| {
        SegOrder(d.segsize, p.segno, d.lastseg);
        var a, b := ofs, ofs + |p.image|;
        assert d'.dev[a..b] == d.dev[a..b];
      }
    }
  }

  /** The tree of byte positions of one segment against another. */
  lemma SegApart(segsize: nat, s: nat, pos: nat, len: nat, t: nat, pos': nat)
    requires s != t && pos + len <= segsize && pos' < segsize && 0 < len
    ensures s * segsize + pos < t * segsize + pos' ==> s * segsize + pos + len <= t * segsize + pos'
    ensures s * segsize + pos != t * segsize + pos'
  {
    if s < t {
      SegOrder(segsize, s, t);
    } else {
      SegOrder(segsize, t, s);
    }
  }

  /** Area `i` starts filling the fresh segment `s`, whose header is its first piece. The segment it
      filled before has been written to the device. */
  ghost function Opened(d: Disk, i: nat, s: nat, head: seq<byte>, buf: seq<byte>): Disk
    requires i < |d.pools|
  {
    d.(pools := d.pools[i := Active(s, SEG_HEADER, buf)], pieces := d.pieces[s * d.segsize := Piece(s, 0, head)])
  }

  /** Segment `s` is allocated but nothing has been put there. */
  ghost predicate Fresh(d: Disk, s: nat) {
    && s < d.lastseg && Owner(d.pools, s) == |d.pools|
    && forall ofs {:trigger d.pieces[ofs]} :: ofs in d.pieces ==> d.pieces[ofs].segno != s
  }

  /** The pieces of the area's old segment are on the device. */
  ghost predicate Settled(d: Disk, i: nat) {
    i < |d.pools| && (d.pools[i].Active? ==>
      forall ofs {:trigger d.pieces[ofs]} :: ofs in d.pieces && d.pieces[ofs].segno == d.pools[i].segno ==>
          OnDevice(d, d.pieces[ofs]))
  }

  /** No two areas fill the same segment. */
  ghost predicate Distinct(pools: seq<Pool>) {
    forall j {:trigger pools[j]} :: 0 <= j < |pools| && pools[j].Active? ==> Owner(pools, pools[j].segno) == j
  }

  lemma PoolsDistinct(d: Disk)
    requires Ok(d)
    ensures Distinct(d.pools)
  {
    forall j | 0 <= j < |d.pools| && d.pools[j].Active?
      ensures Owner(d.pools, d.pools[j].segno) == j
    {
      assert PoolOk(d, j);
    }
  }

  lemma OwnerAfter(pools: seq<Pool>, i: nat, p: Pool, s: nat)
    requires i < |pools| && Owner(pools, s) != i && (p.Active? ==> p.segno != s)
    ensures Owner(pools[i := p], s) == Owner(pools, s)
  {
    var k := Owner(pools, s);
    var pools' := pools[i := p];
    assert k < |pools| ==> pools'[k] == pools[k];
    assert forall j :: 0 <= j < k ==> pools'[j] == pools[j] || j == i;
  }

  lemma OwnerGone(pools: seq<Pool>, i: nat, p: Pool, s: nat)
    requires i < |pools| && Owner(pools, s) == i && p.Active? && p.segno != s
    requires Distinct(pools)
    ensures Owner(pools[i := p], s) == |pools|
  {
    var pools' := pools[i := p];
    assert forall j {:trigger pools'[j]} :: 0 <= j < |pools| && j != i ==> pools'[j] == pools[j];
  }

  lemma OwnerNew(pools: seq<Pool>, i: nat, p: Pool)
    requires i < |pools| && p.Active? && (Owner(pools, p.segno) == |pools| || Owner(pools, p.segno) == i)
    requires Distinct(pools)
    ensures Owner(pools[i := p], p.segno) == i
  {
    var pools' := pools[i := p];
    assert forall j {:trigger pools'[j]} :: 0 <= j < |pools| && j != i ==> pools'[j] == pools[j];
    assert pools'[i] == p;
  }

  lemma OpenedPools(d: Disk, i: nat, s: nat, head: seq<byte>, buf: seq<byte>, j: nat)
    requires Ok(d) && i < |d.pools| && Fresh(d, s) && |buf| == d.segsize && j < |d.pools|
    ensures PoolOk(Opened(d, i, s, head, buf), j)
  {
    PoolsDistinct(d);
    if j == i {
      OwnerNew(d.pools, i, Active(s, SEG_HEADER, buf));
    } else if d.pools[j].Active? {
      assert PoolOk(d, j);
      OwnerAfter(d.pools, i, Active(s, SEG_HEADER, buf), d.pools[j].segno);
    }
  }

  lemma OpenedHeld(d: Disk, i: nat, s: nat, head: seq<byte>, buf: seq<byte>, p: Piece)
    requires Distinct(d.pools) && i < |d.pools| && p.segno != s && Held(d, p)
    requires Owner(d.pools, p.segno) == i ==> OnDevice(d, p)
    ensures Held(Opened(d, i, s, head, buf), p)
  {
    if Owner(d.pools, p.segno) == i {
      OwnerGone(d.pools, i, Active(s, SEG_HEADER, buf), p.segno);
    } else {
      OwnerAfter(d.pools, i, Active(s, SEG_HEADER, buf), p.segno);
    }
  }

  lemma OpenedPiece(d: Disk, i: nat, s: nat, head: seq<byte>, buf: seq<byte>, ofs: nat)
    requires Ok(d) && i < |d.pools| && Fresh(d, s) && Settled(d, i) && |buf| == d.segsize
    requires ofs in d.pieces
    ensures ofs != s * d.segsize && PieceOk(Opened(d, i, s, head, buf), ofs)
  {
    assert PieceOk(d, ofs);
    PoolsDistinct(d);
    var p := d.pieces[ofs];
    assert p.segno != s && (Owner(d.pools, p.segno) == i ==> OnDevice(d, p));
    assert 0 < d.segsize;
    hide Ok, Fresh, Settled, Distinct, OnDevice, Owner;
    OpenedHeld(d, i, s, head, buf, p);
    SegApart(d.segsize, p.segno, p.pos, |p.image|, s, 0);
    hide Held;
  }

  /** Opening a segment keeps every earlier piece. */
  lemma OpenedOk(d: Disk, i: nat, s: nat, head: seq<byte>, buf: seq<byte>)
    requires Ok(d) && i < |d.pools| && Fresh(d, s) && Settled(d, i)
    requires |buf| == d.segsize && |head| == SEG_HEADER && buf[..SEG_HEADER] == head
    ensures Ok(Opened(d, i, s, head, buf)) && s * d.segsize !in d.pieces
  {
    var d' := Opened(d, i, s, head, buf);
    var at := s * d.segsize;
    forall j | 0 <= j < |d'.pools|
      ensures PoolOk(d', j)
    {
      OpenedPools(d, i, s, head, buf, j);
    }
    forall ofs | ofs in d.pieces
      ensures ofs != at && PieceOk(d', ofs) && d'.pieces[ofs] == d.pieces[ofs]
    {
      OpenedPiece(d, i, s, head, buf, ofs);
    }
    assert PoolOk(d', i);
    assert PieceOk(d', at);
    forall a, b | a in d'.pieces && b in d'.pieces && a < b
      ensures a + |d'.pieces[a].image| <= b
    {
      assert PieceOk(d', a) && PieceOk(d', b);
      if a == at || b == at {
        var p, q := d'.pieces[a], d'.pieces[b];
        SegApart(d.segsize, p.segno, p.pos, |p.image|, q.segno, q.pos);
      }
    }
  }

  /** `copybuf`, twice: the bytes of one object go behind what area `i` already holds. */
  ghost function Put(d: Disk, i: nat, image: seq<byte>): Disk
    requires i < |d.pools| && d.pools[i].Active? && d.pools[i].used + |image| <= |d.pools[i].buf|
  {
    var p := d.pools[i];
    d.(pools := d.pools[i := Active(p.segno, p.used + |image|, p.buf[..p.used] + image + p.buf[p.used + |image|..])],
       pieces := d.pieces[p.segno * d.segsize + p.used := Piece(p.segno, p.used, image)])
  }

  lemma PutSame(d: Disk, i: nat, image: seq<byte>, p: Piece)
    requires PoolOk(d, i) && d.pools[i].Active? && d.pools[i].used + |image| <= d.segsize && Held(d, p) &&
      p.segno == d.pools[i].segno
    ensures Held(Put(d, i, image), p) && p.pos + |p.image| <= d.pools[i].used
  {
    var q, q' := d.pools[i], Put(d, i, image).pools[i];
    var pools' := Put(d, i, image).pools;
    assert forall j :: 0 <= j < i ==> pools'[j] == d.pools[j];
    assert Owner(pools', p.segno) == i;
    assert q'.buf[..q.used] == q.buf[..q.used];
    hide Owner;
    SliceOfPrefix(q'.buf, q.buf, q.used, p.pos, p.pos + |p.image|);
  }

  lemma PutOther(d: Disk, i: nat, image: seq<byte>, p: Piece)
    requires PoolOk(d, i) && d.pools[i].Active? && d.pools[i].used + |image| <= d.segsize && Held(d, p) &&
      p.segno != d.pools[i].segno
    ensures Held(Put(d, i, image), p)
  {
    OwnerAfter(d.pools, i, Put(d, i, image).pools[i], p.segno);
    hide Owner;
  }

  lemma PutPiece(d: Disk, i: nat, image: seq<byte>, ofs: nat)
    requires Ok(d) && i < |d.pools| && d.pools[i].Active? && d.pools[i].used + |image| <= d.segsize && 0 < |image| &&
      |d.pools[i].buf| == d.segsize
    requires ofs in d.pieces
    ensures ofs != d.pools[i].segno * d.segsize + d.pools[i].used && PieceOk(Put(d, i, image), ofs)
    ensures var at := d.pools[i].segno * d.segsize + d.pools[i].used;
            if ofs < at then ofs + |d.pieces[ofs].image| <= at else at + |image| <= ofs
  {
    hide Owner;
    assert PieceOk(d, ofs) && PoolOk(d, i);
    var p, q := d.pieces[ofs], d.pools[i];
    assert p.pos + |p.image| <= d.segsize;
    hide Ok, PoolOk, Held;
    if p.segno == q.segno {
      PutSame(d, i, image, p);
    } else {
      PutOther(d, i, image, p);
      SegApart(d.segsize, p.segno, p.pos, |p.image|, q.segno, q.used);
      SegApart(d.segsize, q.segno, q.used, |image|, p.segno, p.pos);
    }
  }

  lemma PutPool(d: Disk, i: nat, image: seq<byte>, j: nat)
    requires Ok(d) && i < |d.pools| && d.pools[i].Active? && d.pools[i].used + |image| <= d.segsize && 0 < |image| &&
      |d.pools[i].buf| == d.segsize
    requires j < |d.pools|
    ensures PoolOk(Put(d, i, image), j)
  {
    assert PoolOk(d, i) && PoolOk(d, j);
    PoolsDistinct(d);
    if j == i {
      OwnerNew(d.pools, i, Put(d, i, image).pools[i]);
    } else if d.pools[j].Active? {
      OwnerAfter(d.pools, i, Put(d, i, image).pools[i], d.pools[j].segno);
    }
  }

  /** Putting an object into its area keeps every earlier piece, and the new extent is free. */
  lemma PutOk(d: Disk, i: nat, image: seq<byte>)
    requires Ok(d) && i < |d.pools| && d.pools[i].Active? && d.pools[i].used + |image| <= d.segsize && 0 < |image|
    ensures |d.pools[i].buf| == d.segsize && Ok(Put(d, i, image)) &&
      d.pools[i].segno * d.segsize + d.pools[i].used !in d.pieces
  {
    assert PoolOk(d, i);
    var d' := Put(d, i, image);
    var at := d.pools[i].segno * d.segsize + d.pools[i].used;
    forall j | 0 <= j < |d'.pools|
      ensures PoolOk(d', j)
    {
      PutPool(d, i, image, j);
    }
    forall ofs | ofs in d.pieces
      ensures ofs != at && PieceOk(d', ofs) && if ofs < at then ofs + |d.pieces[ofs].image| <= at
        else at + |image| <= ofs
    {
      PutPiece(d, i, image, ofs);
    }
    assert PoolOk(d', i);
    assert PieceOk(d', at);
  }

  /** Writing the buffer of area `i` over its segment puts all pieces of the segment on the device
      and leaves those of other segments alone. */
  ghost predicate Written(d: Disk, d': Disk, i: nat) {
    && i < |d.pools| && d.pools[i].Active? && d' == d.(dev := d'.dev, entries := d'.entries) &&
        |d'.entries| == |d.entries|
    && var a := d.pools[i].segno * d.segsize;
    && a + d.segsize <= |d.dev| && SameOutside(d.dev, d'.dev, a, a + d.segsize)
  }

  lemma WrittenPiece(d: Disk, d': Disk, i: nat, ofs: nat)
    requires Ok(d) && Written(d, d', i) && ofs in d.pieces
    ensures PieceOk(d', ofs)
  {
    assert PieceOk(d, ofs) && PoolOk(d, i);
    var p, s := d.pieces[ofs], d.pools[i].segno;
    if Owner(d.pools, p.segno) == |d.pools| {
      assert p.segno != s;
      if p.segno < s {
        SegOrder(d.segsize, p.segno, s);
      } else {
        SegOrder(d.segsize, s, p.segno);
      }
      assert d'.dev[ofs..ofs + |p.image|] == d.dev[ofs..ofs + |p.image|];
    }
  }

  lemma WrittenOk(d: Disk, d': Disk, i: nat)
    requires Ok(d) && Written(d, d', i)
    ensures Ok(d')
  {
    forall j | 0 <= j < |d'.pools|
      ensures PoolOk(d', j)
    {
      assert PoolOk(d, j);
    }
    forall ofs | ofs in d'.pieces
      ensures PieceOk(d', ofs)
    {
      WrittenPiece(d, d', i, ofs);
    }
  }

  lemma OnDevicePart(d: Disk, p: Piece, a: nat, buf: seq<byte>)
    requires a == p.segno * d.segsize && a + |buf| <= |d.dev| && d.dev[a..a + |buf|] == buf
    requires p.pos + |p.image| <= |buf| && buf[p.pos..p.pos + |p.image|] == p.image
    ensures OnDevice(d, p)
  {
    SliceOfSlice(d.dev, a, a + |buf|, p.pos, p.pos + |p.image|);
  }

  /** A piece of the segment an area fills is in the buffer of the area. */
  lemma HeldInBuffer(d: Disk, i: nat, ofs: nat)
    requires Ok(d) && i < |d.pools| && d.pools[i].Active? && ofs in d.pieces && d.pieces[ofs].segno == d.pools[i].segno
    ensures var p, b := d.pieces[ofs], d.pools[i].buf;
      |b| == d.segsize && p.pos + |p.image| <= |b| && b[p.pos..p.pos + |p.image|] == p.image
  {
    assert PoolOk(d, i) && PieceOk(d, ofs);
  }

  lemma WrittenSettled(d: Disk, d': Disk, i: nat)
    requires Ok(d) && Written(d, d', i)
    requires var a := d.pools[i].segno * d.segsize; d'.dev[a..a + d.segsize] == d.pools[i].buf
    ensures Settled(d', i)
  {
    hide Ok, OnDevice;
    var a := d.pools[i].segno * d.segsize;
    forall ofs | ofs in d'.pieces && d'.pieces[ofs].segno == d.pools[i].segno
      ensures OnDevice(d', d'.pieces[ofs])
    {
      HeldInBuffer(d, i, ofs);
      OnDevicePart(d', d.pieces[ofs], a, d.pools[i].buf);
    }
  }

  /** Writing another area's buffer keeps an area settled. */
  lemma StillSettled(d: Disk, d': Disk, i: nat, j: nat)
    requires Ok(d) && Written(d, d', i) && Settled(d, j) && i != j
    ensures Settled(d', j)
  {
    if d.pools[j].Active? {
      assert PoolOk(d, i) && PoolOk(d, j);
      var s, t := d.pools[i].segno, d.pools[j].segno;
      assert s != t;
      forall ofs | ofs in d'.pieces && d'.pieces[ofs].segno == t
        ensures OnDevice(d', d'.pieces[ofs])
      {
        assert PieceOk(d, ofs);
        var p := d.pieces[ofs];
        if t < s {
          SegOrder(d.segsize, t, s);
        } else {
          SegOrder(d.segsize, s, t);
        }
        assert d'.dev[ofs..ofs + |p.image|] == d.dev[ofs..ofs + |p.image|];
      }
    }
  }

  /** When every area is settled, every piece can be read from the device. */
  lemma AllOnDevice(d: Disk, ofs: nat)
    requires Ok(d) && (forall i :: 0 <= i < |d.pools| ==> Settled(d, i)) && ofs in d.pieces
    ensures ofs + |d.pieces[ofs].image| <= |d.dev| && d.dev[ofs..ofs + |d.pieces[ofs].image|] == d.pieces[ofs].image
  {
    assert PieceOk(d, ofs);
    var i := Owner(d.pools, d.pieces[ofs].segno);
    if i < |d.pools| {
      assert Settled(d, i);
    }
  }

  // Accounting

  /** Sum of the values of a map. */
  ghost function Total(m: map<nat, nat>): nat
    decreases |m|
  {
    if m == map[] then 0 else
      var k :| k in m;
      SmallerMap(m, k);
      m[k] + Total(m - {k})
  }

  lemma SmallerMap(m: map<nat, nat>, k: nat)
    requires k in m
    ensures |m - {k}| < |m|
  {
    assert (m - {k}).Keys == m.Keys - {k};
    assert |m| == |m.Keys| && |m - {k}| == |(m - {k}).Keys|;
  }

  lemma {:induction false} TotalPick(m: map<nat, nat>, k: nat)
    requires k in m
    ensures Total(m) == m[k] + Total(m - {k})
    decreases |m|
  {
    var j :| j in m && Total(m) == m[j] + Total(m - {j});
    if j != k {
      SmallerMap(m, j);
      TotalPick(m - {j}, k);
      SmallerMap(m, k);
      TotalPick(m - {k}, j);
      assert m - {j} - {k} == m - {k} - {j};
    }
  }

  function Get(m: map<nat, nat>, k: nat): nat {
    if k in m then m[k] else 0
  }

  lemma TotalPut(m: map<nat, nat>, k: nat, v: nat)
    ensures Total(m[k := v]) + Get(m, k) == Total(m) + v
  {
    TotalPick(m[k := v], k);
    assert m[k := v] - {k} == m - {k};
    if k in m {
      TotalPick(m, k);
    } else {
      assert m - {k} == m;
    }
  }

  /** The valid bytes of segment `s`: those of the open area, or those of the closed segment. */
  ghost function Count(d: Disk, s: nat): int
    requires |d.entries| > s
  {
    var i := Owner(d.pools, s);
    if i < |d.pools| then d.pools[i].used - SEG_HEADER else ValidBytes(d.entries[s])
  }

  function ValidBytes(e: Entry): nat {
    if e.valid == RESERVED then 0 else e.valid
  }

  ghost function Sum(d: Disk, n: nat): int
    requires n <= |d.entries|
  {
    if n == 0 then 0 else Sum(d, n - 1) + Count(d, n - 1)
  }

  /** Total of the valid counts of all entries that are not reserved. */
  function SumValid(entries: seq<Entry>, n: nat): nat
    requires n <= |entries|
  {
    if n == 0 then 0 else SumValid(entries, n - 1) + ValidBytes(entries[n - 1])
  }

  lemma {:induction false} SumSame(d: Disk, d': Disk, n: nat)
    requires n <= |d.entries| == |d'.entries| && forall s :: 0 <= s < n ==> Count(d', s) == Count(d, s)
    ensures Sum(d', n) == Sum(d, n)
  {
    if n > 0 {
      SumSame(d, d', n - 1);
    }
  }

  lemma {:induction false} SumOne(d: Disk, d': Disk, n: nat, s: nat)
    requires s < n <= |d.entries| == |d'.entries| && forall r :: 0 <= r < n && r != s ==> Count(d', r) == Count(d, r)
    ensures Sum(d', n) - Sum(d, n) == Count(d', s) - Count(d, s)
  {
    if s == n - 1 {
      SumSame(d, d', n - 1);
    } else {
      SumOne(d, d', n - 1, s);
    }
  }

  lemma {:induction false} SumIsValid(d: Disk, n: nat)
    requires n <= |d.entries| && forall s :: 0 <= s < n ==> Count(d, s) == ValidBytes(d.entries[s])
    ensures Sum(d, n) == SumValid(d.entries, n)
  {
    if n > 0 {
      SumIsValid(d, n - 1);
    }
  }

  /** Byte conservation: what the superblock counts is what the inodes use, and what the segments
      hold. Segments not allocated yet count nothing. */
  ghost predicate Accounted(d: Disk, usedBytes: nat, used: map<nat, nat>) {
    && |d.entries| == d.noSegs && usedBytes == Total(used) && usedBytes == Sum(d, d.noSegs)
    && forall s {:trigger d.entries[s]} :: d.lastseg <= s < d.noSegs ==> ValidBytes(d.entries[s]) == 0
  }
}
