/** The order in which mkfs.c fills a new filesystem: segment file, inodes, flush. */
module MkFs {
  import opened Bytes
  import opened Disk
  import opened Segments
  import opened Index
  import opened Blocks
  import opened ReadWrite
  import opened FileRun
  import opened Journal

  const USED_AT: nat := 48  // offset of di_used_bytes in the on-medium inode

  /** `struct logfs_disk_inode`; owner and times are zero. */
  function InodeImage(mode: nat, height: nat, flags: nat, used: nat, size: nat, data: seq<nat>): (s: seq<byte>)
    requires |data| == I0_BLOCKS + 1
    ensures |s| == ObjLen(Inode)
  {
    var head := Be(mode, 2) + [height % 256, 0] + Be(flags, 4) + seq(32, _ => 0) + Be(1, 4) + Be(0, 4);
    assert |head| == USED_AT;
    head + Be(used, 8) + Be(size, 8) + Payload(data)
  }

  /** What a reader finds in the fields of an inode. */
  datatype InodeInfo = InodeInfo(mode: nat, height: nat, flags: nat, refcount: nat, used: nat, size: nat)

  function InfoOf(s: seq<byte>): InodeInfo
    requires |s| == ObjLen(Inode)
  {
    InodeInfo(FromBe(s[0..2]), s[2], FromBe(s[4..8]), FromBe(s[40..44]), FromBe(s[48..56]), FromBe(s[56..64]))
  }

  /** Every field of an inode is read back, modulo its width. */
  lemma InodeReadsBack(mode: nat, height: nat, flags: nat, used: nat, size: nat, data: seq<nat>)
    requires |data| == I0_BLOCKS + 1
    ensures var s := InodeImage(mode, height, flags, used, size, data);
      && InfoOf(s) == InodeInfo(mode % 0x1_0000, height % 256, flags % 0x1_0000_0000, 1,
                                used % 0x1_0000_0000_0000_0000, size % 0x1_0000_0000_0000_0000)
      && s[3] == 0 && (forall i :: 8 <= i < 40 || 44 <= i < 48 ==> s[i] == 0)
      && s[64..] == Payload(data)
  {
    BeRoundTrip(mode, 2);
    BeRoundTrip(flags, 4);
    BeRoundTrip(1, 4);
    BeRoundTrip(used, 8);
    BeRoundTrip(size, 8);
    Pow8();
    assert Be(0, 4) == [0, 0, 0, 0];
    hide FromBe, Pow;
    InodeParts(Be(mode, 2), height % 256, Be(flags, 4), Be(1, 4), Be(0, 4), Be(used, 8), Be(size, 8), Payload(data));
    hide Be, Payload;
    assert InodeImage(mode, height, flags, used, size, data) ==
      Be(mode, 2) + [height % 256, 0] + Be(flags, 4) + seq(32, _ => 0) + Be(1, 4) + Be(0, 4) + Be(used, 8) +
      Be(size, 8) + Payload(data);
  }

  lemma InodeParts(mode: seq<byte>, height: byte, flags: seq<byte>, refs: seq<byte>, gen: seq<byte>, used: seq<byte>,
      size: seq<byte>, data: seq<byte>)
    requires |mode| == 2 && |flags| == |refs| == |gen| == 4 && |used| == |size| == 8
    ensures var s := mode + [height, 0] + flags + seq(32, _ => 0) + refs + gen + used + size + data;
      && s[0..2] == mode && s[2] == height && s[3] == 0 && s[4..8] == flags && (forall i :: 8 <= i < 40 ==> s[i] == 0)
      && s[40..44] == refs && s[44..48] == gen && s[48..56] == used && s[56..64] == size && s[64..] == data
  {
  }

  lemma ReadyKept(f: File, objs: map<nat, Object>, objs': map<nat, Object>)
    requires f.Ready(objs) && Kept(objs, objs')
    ensures f.Ready(objs')
  {
    var ind := Ind(f.last);
    StoredOfDraining(objs, f.ino, f.tree, ind);
    TreeKept(objs, objs', f.ino, f.tree[1], 1, ind);
    SentKept(objs, objs', f.last, f.sent);
    DrainingOfStored(objs', f.ino, f.tree, f.tree[1], ind);
    assert f.tree[1 := f.tree[1]] == f.tree;
  }

  lemma FlushedKept(f: File, objs: map<nat, Object>, objs': map<nat, Object>)
    requires f.Flushed(objs) && Kept(objs, objs')
    ensures f.Flushed(objs')
  {
    SentKept(objs, objs', f.last, f.sent);
    if f.height > 0 {
      TopKept(objs, objs', f.ino, f.tree, f.data[INDIRECT_INDEX], f.height, Ind(f.last));
    }
  }

  lemma TopKept(objs: map<nat, Object>, objs': map<nat, Object>, ino: nat, trees: seq<Tree>, ofs: nat, h: nat,
      ind: map<nat, nat>)
    requires TopSpec(objs, ino, trees, ofs, h, ind) && Kept(objs, objs')
    ensures TopSpec(objs', ino, trees, ofs, h, ind)
  {
    var m := TopIs(objs, ino, trees, ofs, h, ind);
    hide Rooted, Canon;
    WalkKept(objs, objs', ino, ofs, h, Canon(m, h), 0);
    forall b: nat
      ensures WalkDown(objs', ofs, h, b) == WalkDown(objs, ofs, h, b)
    {
      WalkKept(objs, objs', ino, ofs, h, Canon(m, h), b);
    }
  }

  lemma SegfileFits(noSegs: nat, b: nat)
    requires noSegs < 0xffff_ffff && b * BLOCKSIZE < noSegs * 8
    ensures b <= Pow(FACTOR, 3)
  {
    PowFactor();
  }

  lemma GoodSize(sb: Super)
    requires sb.Good()
    ensures SEG_HEADER + OBJ_HEADER + BLOCKSIZE <= sb.segsize < 0x1_0000_0000 && sb.noSegs < 0xffff_ffff
    ensures sb.usedBytes == Total(sb.used)
  {
    assert Shape(sb.Snap());
  }

  /** Blocks 0 to n - 1 of the segment file, and no others, were written, as zeros. */
  ghost predicate ZeroedTo(sent: map<nat, Object>, n: nat) {
    forall b: nat {:trigger b in sent} ::
        (b in sent <==> b < n) && (b in sent ==> |sent[b].data| == BLOCKSIZE && forall i :: 0 <= i < BLOCKSIZE ==>
        sent[b].data[i] == 0)
  }

  /** The blocks of a segment file of `noSegs` entries of 8 bytes. */
  ghost predicate Zeroed(sent: map<nat, Object>, noSegs: nat) {
    ZeroedTo(sent, (noSegs * 8 + BLOCKSIZE - 1) / BLOCKSIZE)
  }

  lemma ZeroedStart()
    ensures ZeroedTo(map[], 0)
  {
  }

  lemma ZeroedMore(sent: map<nat, Object>, n: nat, buf: seq<byte>)
    requires ZeroedTo(sent, n) && |buf| == BLOCKSIZE && forall i :: 0 <= i < BLOCKSIZE ==> buf[i] == 0
    ensures ZeroedTo(sent[n := Object(Block, SEGFILE, n, 0, buf)], n + 1)
  {
  }

  lemma ZeroedDone(sent: map<nat, Object>, n: nat, noSegs: nat)
    requires ZeroedTo(sent, n) && n * BLOCKSIZE >= noSegs * 8 && (n > 0 ==> (n - 1) * BLOCKSIZE < noSegs * 8)
    ensures Zeroed(sent, noSegs)
  {
    assert n == (noSegs * 8 + BLOCKSIZE - 1) / BLOCKSIZE;
  }

  lemma ZeroedLow(f: File, objs: map<nat, Object>, n: nat, noSegs: nat)
    requires f.Ready(objs) && ZeroedTo(f.sent, n) && noSegs < 0xffff_ffff &&
      (n > 0 ==> (n - 1) * BLOCKSIZE < noSegs * 8)
    ensures f.height <= 3
  {
    assert f.last.Keys == f.sent.Keys;
    forall b | b in Ind(f.last)
      ensures b <= Pow(FACTOR, 3)
    {
      assert b in f.sent;
      SegfileFits(noSegs, b);
    }
    LowHeight(f.height, Ind(f.last));
  }

  /** An allocation that may be refused. */
  method GetBuffer(sb: Super) returns (err: bool)
    modifies sb.calloc
    ensures sb.Trouble() == old(sb.Trouble()) + if err then 1 else 0
  {
    err := sb.calloc.Refuses();
  }

  /** The loop of `write_segment_file`. */
  method WriteZeros(sb: Super, f: File, buf: seq<byte>) returns (err: bool)
    requires sb.Good() && f.Ready(sb.objs) && f.ino == SEGFILE && f.sent == map[]
    requires |buf| == BLOCKSIZE && forall i :: 0 <= i < |buf| ==> buf[i] == 0
    modifies f, sb, sb.dev, sb.calloc, sb.area, sb.Bufs()
    ensures fresh(sb.Bufs() - old(sb.Bufs()))
    ensures sb.Trouble() == old(sb.Trouble()) + if err then 1 else 0
    ensures !err ==>
      sb.Good() && f.Ready(sb.objs) && f.height <= 3 && Kept(old(sb.objs), sb.objs) &&
      ChargedTo(old(sb.used), sb.used, SEGFILE)
    ensures !err ==> Zeroed(f.sent, sb.noSegs)
  {
    hide sb.Trouble, sb.Faults, sb.Good, f.Ready, Kept, ChargedTo, Pow, ZeroedTo, WellPlaced, sb.Valid, sb.Snap;
    ZeroedStart();
    ghost var objs, used := sb.objs, sb.used;
    KeptSame(objs);
    ChargedOne(used, Object(Block, SEGFILE, 0, 0, buf));
    GoodSize(sb);
    PowMono(3, 7);
    var ofs := 0;
    while ofs * BLOCKSIZE < sb.noSegs * 8
      invariant sb.Good() && f.Ready(sb.objs) && Kept(objs, sb.objs) && ChargedTo(used, sb.used, SEGFILE) &&
        fresh(sb.Bufs() - old(sb.Bufs()))
      invariant sb.Trouble() == old(sb.Trouble()) && ZeroedTo(f.sent, ofs) &&
        (ofs > 0 ==> (ofs - 1) * BLOCKSIZE < sb.noSegs * 8)
      decreases sb.noSegs * 8 - ofs * BLOCKSIZE
    {
      ghost var objs1, used1, sent1 := sb.objs, sb.used, f.sent;
      SegfileFits(sb.noSegs, ofs);
      err := f.Write(sb, ofs, Block, buf);
      if err {
        return;
      }
      KeptTwice(objs, objs1, sb.objs);
      ChargedTwice(used, used1, sb.used, SEGFILE);
      ZeroedMore(sent1, ofs, buf);
      ofs := ofs + 1;
    }
    ZeroedDone(f.sent, ofs, sb.noSegs);
    ZeroedLow(f, sb.objs, ofs, sb.noSegs);
    err := false;
  }

  /** The first part of `write_segment_file`: a zeroed segment file. */
  method WriteSegmentFile(sb: Super, f: File) returns (err: bool)
    requires sb.Good() && f.Ready(sb.objs) && f.ino == SEGFILE && f.sent == map[]
    modifies f, sb, sb.dev, sb.calloc, sb.area, sb.Bufs()
    ensures fresh(sb.Bufs() - old(sb.Bufs()))
    ensures sb.Trouble() == old(sb.Trouble()) + if err then 1 else 0
    ensures !err ==>
      sb.Good() && f.Flushed(sb.objs) && Kept(old(sb.objs), sb.objs) && ChargedTo(old(sb.used), sb.used, SEGFILE)
    ensures !err ==> Zeroed(f.sent, sb.noSegs)
  {
    hide sb.Trouble, sb.Faults, sb.Good, sb.Valid, sb.Snap, f.Ready, f.Flushed, Kept, ChargedTo, Zeroed;
    ghost var objs, used := sb.objs, sb.used;
    err := GetBuffer(sb);
    if err {
      return;
    }
    var buf: seq<byte> := seq(BLOCKSIZE, _ => 0);
    err := WriteZeros(sb, f, buf);
    if err {
      return;
    }
    ghost var objs1, used1 := sb.objs, sb.used;
    err := f.Flush(sb);
    if !err {
      KeptTwice(objs, objs1, sb.objs);
      ChargedTwice(used, used1, sb.used, SEGFILE);
    }
  }

  /** `write_inode`: inode `ino` becomes a block of the inode file. */
  method WriteInode(sb: Super, master: File, ino: nat, image: seq<byte>) returns (err: bool)
    requires sb.Good() && master.Ready(sb.objs) && master.ino == MASTER && ino < I0_BLOCKS && |image| == ObjLen(Inode)
    modifies master, sb, sb.dev, sb.calloc, sb.area, sb.Bufs()
    ensures fresh(sb.Bufs() - old(sb.Bufs()))
    ensures sb.Trouble() == old(sb.Trouble()) + if err then 1 else 0
    ensures !err ==>
      sb.Good() && master.Ready(sb.objs) && Kept(old(sb.objs), sb.objs) && ChargedTo(old(sb.used), sb.used, MASTER)
    ensures !err ==> master.sent == old(master.sent)[ino := Object(Inode, MASTER, ino, 0, image)]
  {
    PowFactor();
    PowMono(3, 7);
    hide sb.Trouble, sb.Faults, sb.Good, master.Ready, Pow;
    err := master.Write(sb, ino, Inode, image);
  }

  /** The inode stored as an object at `ofs`. */
  function InodeBytes(bytes: seq<byte>, ofs: nat): (s: seq<byte>)
    ensures |s| == ObjLen(Inode)
  {
    if ofs + OBJ_HEADER + ObjLen(Inode) <= |bytes| then bytes[ofs + OBJ_HEADER..ofs + OBJ_HEADER + ObjLen(Inode)]
    else seq(ObjLen(Inode), _ => 0)
  }

  /** The fields of the inode at slot `ino` of the inode file, as they are on the device. */
  function StoredInode(bytes: seq<byte>, data: seq<nat>, ino: nat): InodeInfo
    requires |data| == I0_BLOCKS + 1 && ino < I0_BLOCKS
  {
    InfoOf(InodeBytes(bytes, data[ino]))
  }

  lemma InodeFound(bytes: seq<byte>, crc: seq<byte> -> nat, data: seq<nat>, ino: nat, image: seq<byte>)
    requires InodeStored(bytes, crc, data, ino, image)
    ensures InodeBytes(bytes, data[ino]) == image
  {
    hide Image, Readable, HeaderTells;
    Payloads(crc, bytes, data[ino], Object(Inode, MASTER, ino, 0, image));
  }

  lemma SentAt(master: File, objs: map<nat, Object>, ino: nat)
    requires master.Ready(objs) && ino < I0_BLOCKS && ino in master.sent
    ensures |master.data| == I0_BLOCKS + 1 && master.data[ino] in objs && objs[master.data[ino]] == master.sent[ino]
  {
    assert master.data[ino] == Last(master.last, ino);
    assert ino in master.last;
  }

  /** The inode of slot `ino` of the inode file is on the device, as given. */
  ghost predicate InodeStored(bytes: seq<byte>, crc: seq<byte> -> nat, data: seq<nat>, ino: nat, image: seq<byte>) {
    |data| == I0_BLOCKS + 1 && ino < I0_BLOCKS && |image| == ObjLen(Inode) &&
        Readable(bytes, data[ino], Image(crc, Object(Inode, MASTER, ino, 0, image)))
  }

  lemma InodeIsStored(sb: Super, master: File, ino: nat, image: seq<byte>)
    requires sb.Durable() && master.Ready(sb.objs) && ino < I0_BLOCKS && |image| == ObjLen(Inode)
    requires ino in master.sent && master.sent[ino] == Object(Inode, MASTER, ino, 0, image)
    ensures |master.data| == I0_BLOCKS + 1 && InodeStored(sb.dev.bytes, sb.crc, master.data, ino, image)
    ensures StoredInode(sb.dev.bytes, master.data, ino) == InfoOf(image)
  {
    hide sb.Trouble, sb.Faults, sb.Good, master.Ready, Image, Readable, InfoOf;
    SentAt(master, sb.objs, ino);
    InodeFound(sb.dev.bytes, sb.crc, master.data, ino, image);
  }

  lemma TotalOfThree(used: map<nat, nat>)
    requires forall i :: i in used ==> i == MASTER || i == ROOT || i == SEGFILE
    ensures Total(used) == Get(used, MASTER) + Get(used, ROOT) + Get(used, SEGFILE)
  {
    var u1 := used - {MASTER};
    var u2 := u1 - {ROOT};
    var u3 := u2 - {SEGFILE};
    if MASTER in used {
      TotalPick(used, MASTER);
    } else {
      assert u1 == used;
    }
    if ROOT in u1 {
      TotalPick(u1, ROOT);
    } else {
      assert u2 == u1;
    }
    if SEGFILE in u2 {
      TotalPick(u2, SEGFILE);
    } else {
      assert u3 == u2;
    }
    assert u3 == map[];
  }

  /** The inode of the segment file: a regular file with 8 bytes for every segment. */
  function SegfileInode(noSegs: nat, height: nat, used: nat, data: seq<nat>): seq<byte>
    requires |data| == I0_BLOCKS + 1
  {
    InodeImage(0x8000, height, 0, used, noSegs * 8, data)
  }

  const IF_COMPRESSED: nat := 4  // LOGFS_IF_COMPRESSED

  /** The inode of the root directory, which is empty. */
  function RootInode(compress: bool, height: nat, used: nat, data: seq<nat>): seq<byte>
    requires |data| == I0_BLOCKS + 1
  {
    InodeImage(0x41ed, height, if compress then IF_COMPRESSED else 0, used, 0, data)
  }

  /** `write_inode` with an inode built from the state it has in memory. */
  method StoreInode(sb: Super, master: File, ino: nat, mode: nat, height: nat, flags: nat, size: nat, data: seq<nat>)
      returns (err: bool)
    requires sb.Good() && master.Ready(sb.objs) && master.ino == MASTER && ino < I0_BLOCKS && |data| == I0_BLOCKS + 1
    modifies master, sb, sb.dev, sb.calloc, sb.area, sb.Bufs()
    ensures fresh(sb.Bufs() - old(sb.Bufs()))
    ensures sb.Trouble() == old(sb.Trouble()) + if err then 1 else 0
    ensures !err ==>
      sb.Good() && master.Ready(sb.objs) && Kept(old(sb.objs), sb.objs) && ChargedTo(old(sb.used), sb.used, MASTER)
    ensures !err ==>
      master.sent == old(master.sent)[ino :=
      Object(Inode, MASTER, ino, 0, InodeImage(mode, height, flags, Get(old(sb.used), ino), size, data))]
  {
    hide sb.Trouble, sb.Faults, sb.Good, master.Ready, Kept, ChargedTo, InodeImage;
    err := WriteInode(sb, master, ino, InodeImage(mode, height, flags, Get(sb.used, ino), size, data));
  }

  /** `write_segment_file` and `write_rootdir`. */
  method WriteFiles(sb: Super, segfile: File, root: File, master: File, compress: bool) returns (err: bool)
    requires sb.Good() && sb.used == map[] && segfile.ino == SEGFILE && segfile.sent == map[] && master.ino == MASTER
    requires segfile != master && root != segfile && root != master && segfile.Ready(sb.objs) &&
      master.Ready(sb.objs) && root.Ready(sb.objs)
    modifies segfile, master, sb, sb.dev, sb.calloc, sb.area, sb.Bufs()
    ensures fresh(sb.Bufs() - old(sb.Bufs()))
    ensures sb.Trouble() == old(sb.Trouble()) + if err then 1 else 0
    ensures !err ==> sb.Good() && segfile.Flushed(sb.objs) && master.Ready(sb.objs) && Zeroed(segfile.sent, sb.noSegs)
    ensures !err ==> |segfile.data| == |root.data| == I0_BLOCKS + 1
    ensures !err ==>
      InodesSent(old(master.sent), master.sent, SegfileInode(sb.noSegs, segfile.height, Get(sb.used, SEGFILE),
      segfile.data),
                                RootInode(compress, root.height, Get(sb.used, ROOT), root.data))
    ensures !err ==> Total(sb.used) == Get(sb.used, MASTER) + Get(sb.used, ROOT) + Get(sb.used, SEGFILE)
  {
    hide sb.Trouble, sb.Faults, sb.Good, segfile.Ready, segfile.Flushed, Kept, ChargedTo, Total, Get, Zeroed,
        InodeImage;
    ghost var u0, objs0 := sb.used, sb.objs;
    RootShape(root, objs0);
    err := WriteSegmentFile(sb, segfile);
    if err {
      return;
    }
    ghost var u1, objs1 := sb.used, sb.objs;
    ReadyKept(master, objs0, objs1);
    FlushedData(segfile, objs1);
    err := StoreInode(sb, master, SEGFILE, 0x8000, segfile.height, 0, sb.noSegs * 8, segfile.data);
    if err {
      return;
    }
    ghost var u2, objs2 := sb.used, sb.objs;
    FlushedKept(segfile, objs1, objs2);
    err := StoreInode(sb, master, ROOT, 0x41ed, root.height, if compress then IF_COMPRESSED else 0, 0, root.data);
    if err {
      return;
    }
    FlushedKept(segfile, objs2, sb.objs);
    ThreeInodes(u0, u1, u2, sb.used);
  }

  /** The two inodes went into the inode file. */
  ghost predicate InodesSent(sent: map<nat, Object>, sent': map<nat, Object>, seg: seq<byte>, root: seq<byte>) {
    sent' == sent[SEGFILE := Object(Inode, MASTER, SEGFILE, 0, seg)][ROOT := Object(Inode, MASTER, ROOT, 0, root)]
  }

  lemma RootShape(root: File, objs: map<nat, Object>)
    requires root.Ready(objs)
    ensures |root.data| == I0_BLOCKS + 1 && root.height <= 7
  {
  }

  /** `write_segment_file`, `write_rootdir` and `flush_segments`, in the order of `mkfs`: everything
      is on the device, the two inodes with mode, size and block pointers included, and the bytes in
      use are those of the anchor (the inode file itself) and of these two. */
  method Format(sb: Super, segfile: File, root: File, master: File, compress: bool) returns (ok: bool)
    requires sb.Good() && sb.used == map[] && segfile.ino == SEGFILE && segfile.sent == map[] && master.ino == MASTER
    requires segfile != master && root != segfile && root != master && segfile.Ready(sb.objs) &&
      master.Ready(sb.objs) && root.Ready(sb.objs)
    modifies segfile, master, sb, sb.dev, sb.calloc, sb.area, sb.Bufs()
    ensures sb.Trouble() == old(sb.Trouble()) + if ok then 0 else 1
    ensures ok ==> sb.Durable() && segfile.Flushed(sb.objs) && master.Ready(sb.objs) && |master.data| == I0_BLOCKS + 1
    ensures ok ==> sb.usedBytes == SumValid(sb.entries, |sb.entries|) && Zeroed(segfile.sent, sb.noSegs)
    ensures ok ==> |segfile.data| == |root.data| == I0_BLOCKS + 1
    ensures ok ==>
      InodesSent(old(master.sent), master.sent, SegfileInode(sb.noSegs, segfile.height, Get(sb.used, SEGFILE),
      segfile.data),
                              RootInode(compress, root.height, Get(sb.used, ROOT), root.data))
    ensures ok ==>
      InodeStored(sb.dev.bytes, sb.crc, master.data, SEGFILE,
      SegfileInode(sb.noSegs, segfile.height, Get(sb.used, SEGFILE), segfile.data))
    ensures ok ==>
      InodeStored(sb.dev.bytes, sb.crc, master.data, ROOT, RootInode(compress, root.height, Get(sb.used, ROOT),
          root.data))
    ensures ok ==> sb.usedBytes == Get(sb.used, MASTER) + Get(sb.used, ROOT) + Get(sb.used, SEGFILE)
    ensures ok && sb.usedBytes < 0x1_0000_0000_0000_0000 ==>
      && StoredInode(sb.dev.bytes, master.data, SEGFILE) ==
           InodeInfo(0x8000, segfile.height, 0, 1, Get(sb.used, SEGFILE), 8 * sb.noSegs)
      && StoredInode(sb.dev.bytes, master.data, ROOT) ==
           InodeInfo(0x41ed, root.height, if compress then 4 else 0, 1, Get(sb.used, ROOT), 0)
  {
    hide sb.Trouble, sb.Faults, sb.Good, sb.Durable, root.Ready, segfile.Flushed, StoredInode, InodeStored, Total,
        Get, Zeroed, InodeImage, InfoOf;
    RootShape(root, sb.objs);
    var err := WriteFiles(sb, segfile, root, master, compress);
    if err {
      return false;
    }
    err := sb.FlushSegments();
    if err {
      return false;
    }
    RootShape(master, sb.objs);
    DurableGood(sb);
    GoodSize(sb);
    InodeIsStored(sb, master, SEGFILE, SegfileInode(sb.noSegs, segfile.height, Get(sb.used, SEGFILE), segfile.data));
    InodeIsStored(sb, master, ROOT, RootInode(compress, root.height, Get(sb.used, ROOT), root.data));
    DurableSums(sb);
    if sb.usedBytes < 0x1_0000_0000_0000_0000 {
      FlushedHeight(segfile, sb.objs);
      SegfileTells(sb.noSegs, segfile.height, Get(sb.used, SEGFILE), segfile.data);
      RootTells(compress, root.height, Get(sb.used, ROOT), root.data);
    }
    return true;
  }

  lemma DurableGood(sb: Super)
    requires sb.Durable()
    ensures sb.Good()
  {
  }

  lemma SegfileTells(noSegs: nat, height: nat, used: nat, data: seq<nat>)
    requires height <= 3 && noSegs < 0xffff_ffff && used < 0x1_0000_0000_0000_0000 && |data| == I0_BLOCKS + 1
    ensures InfoOf(SegfileInode(noSegs, height, used, data)) == InodeInfo(0x8000, height, 0, 1, used, 8 * noSegs)
  {
    hide InfoOf, InodeImage;
    InodeReadsBack(0x8000, height, 0, used, noSegs * 8, data);
  }

  lemma RootTells(compress: bool, height: nat, used: nat, data: seq<nat>)
    requires height <= 7 && used < 0x1_0000_0000_0000_0000 && |data| == I0_BLOCKS + 1
    ensures InfoOf(RootInode(compress, height, used, data)) ==
      InodeInfo(0x41ed, height, if compress then 4 else 0, 1, used, 0)
  {
    hide InfoOf, InodeImage;
    InodeReadsBack(0x41ed, height, if compress then IF_COMPRESSED else 0, used, 0, data);
  }

  lemma FlushedHeight(f: File, objs: map<nat, Object>)
    requires f.Flushed(objs)
    ensures f.height <= 3
  {
  }

  lemma DurableSums(sb: Super)
    requires sb.Durable()
    ensures sb.usedBytes == Total(sb.used) == SumValid(sb.entries, |sb.entries|)
  {
  }

  /** Only three inodes were charged, and two of them not after their inode was written. */
  lemma ThreeInodes(u0: map<nat, nat>, u1: map<nat, nat>, u2: map<nat, nat>, u3: map<nat, nat>)
    requires u0 == map[] && ChargedTo(u0, u1, SEGFILE) && ChargedTo(u1, u2, MASTER) && ChargedTo(u2, u3, MASTER)
    ensures Total(u3) == Get(u3, MASTER) + Get(u3, ROOT) + Get(u3, SEGFILE)
    ensures Get(u3, SEGFILE) == Get(u1, SEGFILE) && Get(u3, ROOT) == Get(u2, ROOT)
  {
    TotalOfThree(u3);
    assert SEGFILE in u3 <==> SEGFILE in u1;
    assert ROOT in u3 <==> ROOT in u2;
  }

  /** Entry `i` of the segment file, read from the device; a block that is not there reads as zeros. */
  ghost function EntryOnDevice(bytes: seq<byte>, data: seq<nat>, h: nat, i: nat): Entry
    requires |data| == I0_BLOCKS + 1
  {
    var ofs := DevFind(bytes, data, h, i / PER_BLOCK);
    var at := ofs + OBJ_HEADER + 8 * (i % PER_BLOCK);
    if ofs == 0 then Entry(0, 0) else if at + 8 <= |bytes|
        then Entry(FromBe(bytes[at..at + 4]), FromBe(bytes[at + 4..at + 8])) else Entry(1, 1)
  }

  ghost function TableOnDevice(bytes: seq<byte>, data: seq<nat>, h: nat, n: nat): (t: seq<Entry>)
    requires |data| == I0_BLOCKS + 1
    ensures |t| == n
  {
    seq(n, i requires 0 <= i < n => EntryOnDevice(bytes, data, h, i))
  }

  lemma {:induction false} ZeroBe(s: seq<byte>)
    requires forall i :: 0 <= i < |s| ==> s[i] == 0
    ensures FromBe(s) == 0
  {
    if s != [] {
      ZeroBe(s[..|s| - 1]);
    }
  }

  /** What a walk finds is some block that was written, or nothing. */
  lemma FoundSome(f: File, objs: map<nat, Object>, b: nat)
    requires f.Flushed(objs)
    ensures |f.data| == I0_BLOCKS + 1
    ensures Find(objs, f.data, f.height, b) == 0 || exists x ::
      x in f.last && Find(objs, f.data, f.height, b) == f.last[x]
  {
    var ind, h := Ind(f.last), f.height;
    if b < I0_BLOCKS {
      assert f.data[b] == Last(f.last, b);
    } else if h > 0 {
      var m: nat :| IsTop(ind, m)
        && (forall c: nat {:trigger WalkDown(objs, f.data[INDIRECT_INDEX], h, c)} ::
            WalkDown(objs, f.data[INDIRECT_INDEX], h, c) == Last(ind, Rebase(c, Quot(m, h), h)));
      var x := Rebase(b, Quot(m, h), h);
      assert WalkDown(objs, f.data[INDIRECT_INDEX], h, b) == Last(ind, x);
      assert x in ind ==> x in f.last && f.last[x] == ind[x];
    }
  }

  /** The `n` bytes behind an object header are zeros. */
  ghost predicate ZerosAt(bytes: seq<byte>, ofs: nat, n: nat) {
    ofs + OBJ_HEADER + n <= |bytes| && forall k {:trigger bytes[k]} ::
        ofs + OBJ_HEADER <= k < ofs + OBJ_HEADER + n ==> bytes[k] == 0
  }

  lemma ZeroPayload(crc: seq<byte> -> nat, bytes: seq<byte>, ofs: nat, o: Object)
    requires Readable(bytes, ofs, Image(crc, o)) && forall k :: 0 <= k < |o.data| ==> o.data[k] == 0
    ensures ZerosAt(bytes, ofs, |o.data|)
  {
    Payloads(crc, bytes, ofs, o);
    hide Image, Readable;
    var a := ofs + OBJ_HEADER;
    forall k | a <= k < a + |o.data|
      ensures bytes[k] == 0
    {
      assert bytes[k] == bytes[a..a + |o.data|][k - a];
    }
  }

  /** Every block of the segment file on the device is missing or zero, whether or not the file fits
      its tree. */
  lemma ZeroFound(sb: Super, f: File, b: nat)
    requires sb.Durable() && f.Flushed(sb.objs) && Zeroed(f.sent, sb.noSegs)
    ensures |f.data| == I0_BLOCKS + 1
    ensures var ofs := DevFind(sb.dev.bytes, f.data, f.height, b); ofs == 0 || ZerosAt(sb.dev.bytes, ofs, BLOCKSIZE)
  {
    FoundSome(f, sb.objs, b);
    DevFindIs(sb, f, b);
    var ofs := Find(sb.objs, f.data, f.height, b);
    assert DevFind(sb.dev.bytes, f.data, f.height, b) == ofs;
    if ofs != 0 {
      var x :| x in f.last && ofs == f.last[x];
      assert ofs in sb.objs && sb.objs[ofs] == f.sent[x] && x in f.sent;
      hide Image, Readable, DevFind, Find;
      ZeroPayload(sb.crc, sb.dev.bytes, ofs, f.sent[x]);
    }
  }

  lemma ZeroEntry(bytes: seq<byte>, data: seq<nat>, h: nat, i: nat)
    requires |data| == I0_BLOCKS + 1
    requires var ofs := DevFind(bytes, data, h, i / PER_BLOCK); ofs == 0 || ZerosAt(bytes, ofs, BLOCKSIZE)
    ensures EntryOnDevice(bytes, data, h, i) == Entry(0, 0)
  {
    hide DevFind;
    var ofs := DevFind(bytes, data, h, i / PER_BLOCK);
    if ofs != 0 {
      var at := ofs + OBJ_HEADER + 8 * (i % PER_BLOCK);
      ZeroBe(bytes[at..at + 4]);
      ZeroBe(bytes[at + 4..at + 8]);
    }
  }

  /** When the segment file fits its tree: the only sizes that do not are those whose last block has
      index 512 or 512^2. */
  lemma SegfileCondition(f: File, objs: map<nat, Object>, noSegs: nat)
    requires f.Flushed(objs) && Zeroed(f.sent, noSegs) && noSegs < 0x1_0000_0000
    ensures Fits(Ind(f.last)) <==> !(0x4_0000 < noSegs <= 0x4_0200) && !(0x800_0000 < noSegs <= 0x800_0200)
  {
    var n := (noSegs * 8 + BLOCKSIZE - 1) / BLOCKSIZE;
    var ind := Ind(f.last);
    hide f.Flushed;
    SegfileKeys(f, objs, noSegs);
    if n > I0_BLOCKS {
      assert IsTop(ind, n - 1);
      FitsAt(ind, n - 1);
      if n - 1 == 512 || n - 1 == 0x4_0000 {
        assert 16 in ind;
      }
    } else {
      assert ind.Keys == {};
    }
  }

  lemma SegfileKeys(f: File, objs: map<nat, Object>, noSegs: nat)
    requires f.Flushed(objs) && Zeroed(f.sent, noSegs)
    ensures forall b: nat {:trigger b in Ind(f.last)} :: b in Ind(f.last) <==>
      I0_BLOCKS <= b < (noSegs * 8 + BLOCKSIZE - 1) / BLOCKSIZE
  {
    assert f.sent.Keys == f.last.Keys;
    hide f.Flushed;
    forall b: nat
      ensures b in Ind(f.last) <==> I0_BLOCKS <= b < (noSegs * 8 + BLOCKSIZE - 1) / BLOCKSIZE
    {
      assert b in f.last <==> b in f.sent;
    }
  }

  /** The height of the segment file, by the number of segments. */
  lemma SegfileHeight(f: File, objs: map<nat, Object>, noSegs: nat)
    requires f.Flushed(objs) && Zeroed(f.sent, noSegs)
    ensures f.height ==
      if noSegs <= 0x2000 then 0 else if noSegs <= 0x4_0200 then 1 else if noSegs <= 0x800_0200 then 2 else 3
  {
    var n, ind := (noSegs * 8 + BLOCKSIZE - 1) / BLOCKSIZE, Ind(f.last);
    SegfileKeys(f, objs, noSegs);
    assert HeightOk(f.height, ind) && f.height <= 3;
    hide f.Flushed, Zeroed, Ind;
    PowFactor();
    if n > I0_BLOCKS {
      assert n - 1 in ind && forall b :: b in ind ==> b <= n - 1;
    } else {
      assert ind.Keys == {};
    }
  }

  /** The segment file on the device is the all-zero table the aliases of the journal are replayed
      onto: together they give back the segment entries. */
  lemma SegmentTable(sb: Super, f: File, oa: seq<Alias>)
    requires sb.Durable() && f.Flushed(sb.objs) && Zeroed(f.sent, sb.noSegs)
    requires Replay(ZeroTable(sb.noSegs), oa) == sb.entries
    ensures |f.data| == I0_BLOCKS + 1 && Replay(TableOnDevice(sb.dev.bytes, f.data, f.height, sb.noSegs), oa) ==
      sb.entries
  {
    hide sb.Durable, f.Flushed, EntryOnDevice, DevFind, ZerosAt, Replay;
    FlushedData(f, sb.objs);
    var t := TableOnDevice(sb.dev.bytes, f.data, f.height, sb.noSegs);
    forall i | 0 <= i < sb.noSegs
      ensures t[i] == Entry(0, 0)
    {
      ZeroFound(sb, f, i / PER_BLOCK);
      ZeroEntry(sb.dev.bytes, f.data, f.height, i);
    }
    assert t == ZeroTable(sb.noSegs);
  }
}
