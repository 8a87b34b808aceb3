/** What a reader of the finished device finds: it starts at the journal, follows the anchor to the
    inodes and the inode of the segment file to its blocks, and replays the aliases. */
module Mount {
  import opened Allocation
  import opened Bytes
  import opened Disk
  import opened Segments
  import opened Blocks
  import opened ReadWrite
  import opened FileRun
  import opened Journal
  import opened MkFs

  const HEIGHT_AT: nat := 2  // offsets of di_height and di_data in the on-medium inode
  const DATA_AT: nat := 64

  /** Size, last inode number and bytes in use of the inode file. */
  datatype AnchorInfo = AnchorInfo(size: nat, lastIno: nat, used: nat)

  /** The segment entries; global erase count and bytes in use; and the three files. */
  datatype Volume = Volume(table: seq<Entry>, gec: nat, usedBytes: nat, anchor: AnchorInfo, seg: InodeInfo,
                           root: InodeInfo)

  function AnchorOf(s: seq<byte>): AnchorInfo {
    AnchorInfo(Field(s, 0), Field(s, 8), Field(s, 16))
  }

  /** The data of the first journal entry of a kind. */
  function DataOf(inflate: seq<byte> -> seq<byte>, log: seq<JEntry>, kind: nat): seq<byte> {
    if log == [] then [] else if log[0].kind == kind then Content(inflate, log[0]) else DataOf(inflate, log[1..], kind)
  }

  /** The block pointers stored at `at`. */
  function Pointers(s: seq<byte>, at: nat): (p: seq<nat>)
    ensures |p| == I0_BLOCKS + 1
  {
    seq(I0_BLOCKS + 1, i requires 0 <= i < I0_BLOCKS + 1 => Field(s, at + 8 * i))
  }

  /** The inode in slot `ino` of the inode file, which the anchor tells the pointers of. */
  function InodeOf(bytes: seq<byte>, anchor: seq<byte>, ino: nat): (s: seq<byte>)
    requires ino <= I0_BLOCKS
    ensures |s| == ObjLen(Inode)
  {
    InodeBytes(bytes, Pointers(anchor, 32)[ino])
  }

  /** The segment entries: those of the segment file, whose inode is `seg`, as amended by aliases. */
  ghost function Table(bytes: seq<byte>, seg: seq<byte>, noSegs: nat, aliases: seq<byte>): seq<Entry>
    requires |seg| == ObjLen(Inode)
  {
    Replay(TableOnDevice(bytes, Pointers(seg, DATA_AT), seg[HEIGHT_AT], noSegs), FromAliasesBytes(aliases))
  }

  ghost function Volumed(bytes: seq<byte>, log: seq<JEntry>, noSegs: nat, inflate: seq<byte> -> seq<byte>): Volume {
    var anchor := DataOf(inflate, log, JE_ANCHOR);
    Volume(Table(bytes, InodeOf(bytes, anchor, SEGFILE), noSegs, DataOf(inflate, log, JE_OBJ_ALIAS)),
           Field(DataOf(inflate, log, JE_DYNSB), 0), Field(DataOf(inflate, log, JE_DYNSB), 48), AnchorOf(anchor),
           InfoOf(InodeOf(bytes, anchor, SEGFILE)), InfoOf(InodeOf(bytes, anchor, ROOT)))
  }

  /** Everything is read from the bytes of the device; the journal lies at `at` and ends at `end`. */
  ghost function Mounted(bytes: seq<byte>, at: nat, segsize: nat, end: nat, noSegs: nat,
      inflate: seq<byte> -> seq<byte>): Volume
    requires at + segsize <= |bytes|
  {
    Volumed(bytes, Scan(bytes[at..at + segsize], 32, end), noSegs, inflate)
  }

  // The parts are read back

  ghost predicate Small(data: seq<nat>) {
    |data| == I0_BLOCKS + 1 && forall i :: 0 <= i < |data| ==> data[i] < 0x1_0000_0000
  }

  lemma AnchorPointers(used: nat, data: seq<nat>)
    requires Small(data) && used < 0x1_0000_0000_0000_0000
    ensures Pointers(AnchorBytes(used, data), 32) == data
  {
    hide AnchorBytes, Field;
    forall i | 0 <= i < |data|
      ensures Field(AnchorBytes(used, data), 32 + 8 * i) == data[i]
    {
      AnchorReadsBack(used, data, i);
    }
  }

  lemma InodePointers(mode: nat, height: nat, flags: nat, used: nat, size: nat, data: seq<nat>)
    requires Small(data) && height < 256 && used < 0x1_0000_0000_0000_0000
    ensures var s := InodeImage(mode, height, flags, used, size, data);
            Pointers(s, DATA_AT) == data && s[HEIGHT_AT] == height
  {
    hide InodeImage, Payload, FromBe;
    var s := InodeImage(mode, height, flags, used, size, data);
    InodeReadsBack(mode, height, flags, used, size, data);
    assert InfoOf(s).height == height && s[DATA_AT..] == Payload(data);
    hide InfoOf;
    forall i | 0 <= i < |data|
      ensures Field(s, DATA_AT + 8 * i) == data[i]
    {
      PayloadReadsBack(data, i);
      assert s[DATA_AT + 8 * i..DATA_AT + 8 * i + 8] == s[DATA_AT..][8 * i..8 * i + 8];
    }
  }

  // Bounds

  lemma ReadySmall(sb: Super, f: File)
    requires f.Ready(sb.objs)
    ensures Small(f.data)
  {
    forall i | 0 <= i < I0_BLOCKS
      ensures f.data[i] < 0x1_0000_0000
    {
      assert f.data[i] == Last(f.last, i);
    }
  }

  lemma FlushedSmall(sb: Super, f: File)
    requires f.Flushed(sb.objs)
    ensures Small(f.data) && f.height <= 3
  {
    forall i | 0 <= i < I0_BLOCKS
      ensures f.data[i] < 0x1_0000_0000
    {
      assert f.data[i] == Last(f.last, i);
    }
  }

  lemma {:induction false} SumBound(entries: seq<Entry>, n: nat, segsize: nat)
    requires n <= |entries| && forall s :: 0 <= s < |entries| ==> EntryOk(entries[s], segsize)
    ensures SumValid(entries, n) <= n * segsize
  {
    if n > 0 {
      SumBound(entries, n - 1, segsize);
    }
  }

  lemma EntriesFit(sb: Super)
    requires sb.Durable()
    ensures |sb.entries| == sb.noSegs < 0xffff_ffff && sb.usedBytes < 0x1_0000_0000_0000_0000
    ensures forall i :: 0 <= i < |sb.entries| ==> EntryOk(sb.entries[i], sb.segsize)
    ensures forall i :: 0 <= i < |sb.entries| ==>
      sb.entries[i].ecLevel < 0x1_0000_0000 && sb.entries[i].valid < 0x1_0000_0000
  {
    DurableGood(sb);
    GoodSize(sb);
    var d := sb.Snap();
    assert Tidy(sb.crc, sb.dev.bad, sb.reserved.segs, d) && Ok(d);
    forall i | 0 <= i < |sb.entries|
      ensures EntryOk(sb.entries[i], sb.segsize)
    {
      assert EntryOk(d.entries[i], d.segsize);
    }
    DurableSums(sb);
    SumBound(sb.entries, sb.noSegs, sb.segsize);
    hide sb.Durable, sb.Good, sb.Valid, Tidy, Ok, SumValid;
    ProductBound(sb.noSegs, sb.segsize);
  }

  lemma ProductBound(n: nat, m: nat)
    requires n < 0xffff_ffff && m < 0x1_0000_0000
    ensures n * m < 0x1_0000_0000_0000_0000
  {
    MulMono(m, n, 0xffff_ffff);
    MulMono(0xffff_ffff, m, 0x1_0000_0000);
    assert m * 0xffff_ffff == 0xffff_ffff * m;
  }

  // The journal

  /** A journal segment, entry by entry; the commit entry lists the offsets of the others. */
  ghost predicate JournalImage(buf: seq<byte>, crc: seq<byte> -> nat, segno: nat, end: nat,
      inflate: seq<byte> -> seq<byte>,
                               anchor: seq<byte>, dynsb: seq<byte>, aliases: seq<byte>) {
    && SEG_HEADER <= |buf| && SegmentTells(crc, buf[..SEG_HEADER], 2, 0, segno, 0)
    && JournalLog(crc, buf, Scan(buf, 32, end), segno * |buf|, inflate, anchor, dynsb, aliases)
  }

  /** Anchor, superblock entry and aliases, with their data, and a commit entry with the offsets of
      the three. */
  ghost predicate JournalLog(crc: seq<byte> -> nat, buf: seq<byte>, log: seq<JEntry>, base: nat,
      inflate: seq<byte> -> seq<byte>, anchor: seq<byte>, dynsb: seq<byte>, aliases: seq<byte>) {
    && |log| == 4 && (forall k {:trigger log[k]} :: 0 <= k < 4 ==> Checked(crc, buf, log[k]))
    && log[0].kind == 4 && log[1].kind == 3 && log[2].kind == 13
    && DataOf(inflate, log, JE_ANCHOR) == anchor && DataOf(inflate, log, JE_DYNSB) == dynsb &&
        DataOf(inflate, log, JE_OBJ_ALIAS) == aliases
    && log[3].kind == 2 && log[3].compr == 0 && log[3].payload == Payload(Offsets(base, log[..3]))
  }

  lemma FourEntries(inflate: seq<byte> -> seq<byte>, log: seq<JEntry>)
    requires |log| == 4 && log[0].kind == JE_ANCHOR && log[1].kind == JE_DYNSB && log[2].kind == JE_OBJ_ALIAS
    ensures DataOf(inflate, log, JE_ANCHOR) == Content(inflate, log[0])
    ensures DataOf(inflate, log, JE_DYNSB) == Content(inflate, log[1])
    ensures DataOf(inflate, log, JE_OBJ_ALIAS) == Content(inflate, log[2])
  {
    hide Content;
    var a := log[1..];
    var b := a[1..];
    assert a[0] == log[1] && b[0] == log[2];
    assert DataOf(inflate, b, JE_OBJ_ALIAS) == Content(inflate, log[2]);
    assert DataOf(inflate, a, JE_OBJ_ALIAS) == DataOf(inflate, b, JE_OBJ_ALIAS);
  }

  lemma JournalDone(w: Writer, buf: seq<byte>, end: nat, reqs: seq<JRequest>)
    requires buf == w.buf[..] && w.base == w.segno * |buf|
    requires SEG_HEADER <= |buf| && buf[..SEG_HEADER] == JournalSegHeader(w.crc, w.segno) && w.segno < 0x1_0000_0000
    requires Codec(w.deflate, w.inflate)
    requires forall k {:trigger w.log[k]} :: 0 <= k < |w.log| ==> Checked(w.crc, buf, w.log[k])
    requires Scan(buf, 32, end) == w.log && |w.log| == |reqs| + 1 == 4
    requires reqs[0].kind == JE_ANCHOR && reqs[1].kind == JE_DYNSB && reqs[2].kind == JE_OBJ_ALIAS
    requires forall k :: 0 <= k < |reqs| ==> w.log[k] == EntryFor(w.log[k].pos, reqs[k].kind, reqs[k].data, w.deflate)
    requires w.log[3] == EntryFor(w.log[3].pos, JE_COMMIT, Payload(Offsets(w.base, w.log[..3])), w.deflate)
    ensures JournalImage(buf, w.crc, w.segno, end, w.inflate, reqs[0].data, reqs[1].data, reqs[2].data)
  {
    hide Scan, Checked, JournalSegHeader, Codec, SegmentTells;
    JournalHeaderReadsBack(w.crc, w.segno);
    var log := w.log;
    assert log[3].payload == Payload(Offsets(w.base, log[..3]));
    hide EntryFor, Offsets;
    FourEntries(w.inflate, log);
    forall k | 0 <= k < 3
      ensures Content(w.inflate, log[k]) == reqs[k].data
    {
      EntryCarries(log[k].pos, reqs[k].kind, reqs[k].data, w.deflate, w.inflate);
    }
    hide Content, DataOf;
  }

  lemma ThreeRooms(reqs: seq<JRequest>)
    requires |reqs| == 3
    ensures RoomFor(reqs, 3) == Size(|reqs[0].data|) + Size(|reqs[1].data|) + Size(|reqs[2].data|)
  {
    assert RoomFor(reqs, 1) == RoomFor(reqs, 0) + Size(|reqs[0].data|);
    assert RoomFor(reqs, 2) == RoomFor(reqs, 1) + Size(|reqs[1].data|);
  }

  /** The entries before the commit entry. */
  function Requests(anchor: seq<byte>, dynsb: seq<byte>, aliases: seq<byte>): (r: seq<JRequest>)
    ensures |r| == 3
  {
    [JRequest(JE_ANCHOR, anchor), JRequest(JE_DYNSB, dynsb), JRequest(JE_OBJ_ALIAS, aliases)]
  }

  /** `make_journal` between its allocations and its write: anchor, dynamic superblock, aliases and
      commit entry. Up to 117 aliases always find their place. */
  method BuildJournal(segsize: nat, segno: nat, crc: seq<byte> -> nat, deflate: (seq<byte>, nat) -> Zip,
      ghost inflate: seq<byte> -> seq<byte>,
                      anchor: seq<byte>, dynsb: seq<byte>, aliases: seq<byte>) returns (buf: seq<byte>, r: Layout)
    requires BLOCKSIZE + JOURNAL_HEADER <= segsize && segno < 0x1_0000_0000 && Codec(deflate, inflate)
    requires |anchor| == 168 && |dynsb| == 64 && |aliases| <= 2 * BLOCKSIZE
    ensures r == JournalLayout(deflate, segsize, Requests(anchor, dynsb, aliases))
    ensures r.Next? ==> |buf| == segsize && JournalImage(buf, crc, segno, r.pos, inflate, anchor, dynsb, aliases)
    ensures |aliases| <= 32 * 117 ==> r.Next?
  {
    hide Codec, Scan, Checked, JournalSegHeader, JournalImage, EntryFor, Offsets, Chain, JournalLayout;
    var w := new Writer(segsize, segno, crc, deflate, inflate);
    var reqs := Requests(anchor, dynsb, aliases);
    r := w.WriteJournal(reqs);
    buf := w.buf[..];
    if r.Next? {
      JournalDone(w, buf, r.pos, reqs);
    }
    if |aliases| <= 32 * 117 {
      ThreeRooms(reqs);
      SmallJournal(deflate, inflate, segsize, reqs);
    }
  }

  /** The journal segment is on the device. */
  ghost predicate JournalOn(bytes: seq<byte>, crc: seq<byte> -> nat, at: nat, segno: nat, segsize: nat, end: nat,
      inflate: seq<byte> -> seq<byte>,
                            anchor: seq<byte>, dynsb: seq<byte>, aliases: seq<byte>) {
    && at == SegAt(segno, segsize) && at + segsize <= |bytes|
    && JournalImage(bytes[at..at + segsize], crc, segno, end, inflate, anchor, dynsb, aliases)
  }

  /** How a run of mkfs ends: completely; because memory, the device or the first 4 GiB did not
      suffice; in the overrun of the scratch buffer; or in `write_je`, by BUG_ON or behind the end of
      the segment. */
  datatype Ending = Complete | Fault | Overrun | Stuck(why: Layout)

  /** The ending that segment entries and accounts lead to, if there is no fault. */
  function Expected(deflate: (seq<byte>, nat) -> Zip, segsize: nat, entries: seq<Entry>, anchor: seq<byte>,
      dynsb: seq<byte>): Ending {
    var r := JournalLayout(deflate, segsize, Requests(anchor, dynsb, AliasesBytes(AliasList(entries, |entries|))));
    if Touched(entries, |entries|) > 256 then Overrun else if r.Next? then Complete else Stuck(r)
  }

  /** `make_journal`. Its segment is the first one behind that of the superblock; the offset of its
      write is a 32-bit product. */
  method MakeJournal(sb: Super, master: File, deflate: (seq<byte>, nat) -> Zip, ghost inflate: seq<byte> -> seq<byte>)
    returns (e: Ending, ghost at: nat, ghost end: nat, ghost oa: seq<Alias>)
    requires sb.Durable() && 1 < |sb.reserved.segs| && Codec(deflate, inflate) && |master.data| == I0_BLOCKS + 1
    modifies sb`wraps, sb.dev, sb.calloc
    ensures sb.Trouble() == old(sb.Trouble()) + if e.Fault? then 1 else 0
    ensures !e.Fault? ==>
      sb.Durable() && e == Expected(deflate, sb.segsize, sb.entries, AnchorBytes(Get(sb.used, MASTER), master.data),
      DynsbBytes(sb.usedBytes))
    ensures e.Complete? ==> JournalOn(sb.dev.bytes, sb.crc, at, sb.reserved.segs[1], sb.segsize, end, inflate,
                                      AnchorBytes(Get(sb.used, MASTER), master.data), DynsbBytes(sb.usedBytes),
                                          AliasesBytes(oa))
    ensures e.Complete? ==> Replay(ZeroTable(|sb.entries|), oa) == sb.entries && forall k :: 0 <= k < |oa| ==>
      AliasFits(oa[k])
  {
    hide sb.Trouble, sb.Faults, sb.Durable, sb.Good, Codec, AnchorBytes, DynsbBytes, AliasesBytes, AliasList, Touched,
        Replay, AliasFits, JournalImage, JournalLayout, SegAt;
    EntriesFit(sb);
    DurableGood(sb);
    GoodSize(sb);
    ReservedSmall(sb, 1);
    TroubleSum(sb);
    at, end, oa := SegAt(sb.reserved.segs[1], sb.segsize), 0, [];
    ghost var bufs := sb.Bufs();
    assert forall o :: o in bufs ==> allocated(o);
    var no := sb.calloc.Refuses();
    if !no {
      no := sb.calloc.Refuses();
    }
    TroubleSum(sb);
    if no {
      return Fault, at, end, oa;
    }
    var aliases, over;
    aliases, over, oa := AliasData(sb);
    if over {
      return Overrun, at, end, oa;
    }
    var buf, r := BuildJournal(sb.segsize, sb.reserved.segs[1], sb.crc, deflate, inflate,
                               AnchorBytes(Get(sb.used, MASTER), master.data), DynsbBytes(sb.usedBytes), aliases);
    assert sb.Durable();
    if !r.Next? {
      return Stuck(r), at, end, oa;
    }
    end := r.pos;
    e := WriteOutJournal(sb, buf);
    if e.Complete? {
      JournalIsOn(sb.dev.bytes, sb.crc, at, sb.reserved.segs[1], buf, end, inflate,
          AnchorBytes(Get(sb.used, MASTER), master.data), DynsbBytes(sb.usedBytes), aliases);
    }
  }

  lemma ReservedSmall(sb: Super, k: nat)
    requires sb.Good() && k < |sb.reserved.segs|
    ensures sb.reserved.segs[k] < 0x1_0000_0000
  {
    assert SetAside(sb.Snap(), sb.reserved.segs[k]);
  }

  /** The data of the alias entry, from a fresh scratch buffer. */
  method AliasData(sb: Super) returns (aliases: seq<byte>, over: bool, ghost oa: seq<Alias>)
    requires sb.Durable()
    ensures sb.Durable()
    ensures over <==> Touched(sb.entries, |sb.entries|) > 256
    ensures !over ==>
      aliases == AliasesBytes(oa) && |aliases| <= 2 * BLOCKSIZE && oa == AliasList(sb.entries, |sb.entries|)
    ensures !over ==> Replay(ZeroTable(|sb.entries|), oa) == sb.entries && forall k :: 0 <= k < |oa| ==>
      AliasFits(oa[k])
  {
    hide sb.Durable, sb.Good, AliasesBytes, AliasList, Touched, Replay, AliasFits;
    EntriesFit(sb);
    ghost var bufs := sb.Bufs();
    assert forall o :: o in bufs ==> allocated(o);
    var scratch := new byte[2 * BLOCKSIZE](_ => 0);
    var len;
    len, over, oa := JeAlias(sb.entries, scratch);
    aliases := if over then [] else scratch[..len];
  }

  /** The last line of `make_journal`. */
  method WriteOutJournal(sb: Super, buf: seq<byte>) returns (e: Ending)
    requires sb.Durable() && 1 < |sb.reserved.segs| && |buf| == sb.segsize
    modifies sb`wraps, sb.dev
    ensures (e.Complete? || e.Fault?) && sb.Trouble() == old(sb.Trouble()) + if e.Fault? then 1 else 0
    ensures e.Complete? ==> sb.Durable() && Readable(sb.dev.bytes, SegAt(sb.reserved.segs[1], sb.segsize), buf)
  {
    hide sb.Durable, sb.Good, Readable, SegAt;
    DurableGood(sb);
    if SegAt(sb.reserved.segs[1], sb.segsize) >= 0x1_0000_0000 {
      // the 32-bit product names another segment; what is overwritten there is not part of this model
      sb.wraps := sb.wraps + 1;
      return Fault;
    }
    SmallMod(SegAt(sb.reserved.segs[1], sb.segsize));
    var err := sb.WriteReserved(1, buf);
    return if err then Fault else Complete;
  }

  lemma JournalIsOn(bytes: seq<byte>, crc: seq<byte> -> nat, at: nat, segno: nat, buf: seq<byte>, end: nat,
      inflate: seq<byte> -> seq<byte>,
                    anchor: seq<byte>, dynsb: seq<byte>, aliases: seq<byte>)
    requires at == SegAt(segno, |buf|) && Readable(bytes, at, buf) &&
      JournalImage(buf, crc, segno, end, inflate, anchor, dynsb, aliases)
    ensures JournalOn(bytes, crc, at, segno, |buf|, end, inflate, anchor, dynsb, aliases)
  {
    hide JournalImage, SegAt;
  }

  // The whole of mkfs

  lemma InodeOfIs(bytes: seq<byte>, crc: seq<byte> -> nat, inodes: seq<nat>, used: nat, ino: nat, image: seq<byte>)
    requires Small(inodes) && used < 0x1_0000_0000_0000_0000 && InodeStored(bytes, crc, inodes, ino, image)
    ensures |image| == ObjLen(Inode) && ino <= I0_BLOCKS && InodeOf(bytes, AnchorBytes(used, inodes), ino) == image
  {
    hide AnchorBytes, Pointers, InodeBytes, Small;
    AnchorPointers(used, inodes);
    InodeFound(bytes, crc, inodes, ino, image);
  }

  lemma TableIs(bytes: seq<byte>, seg: seq<byte>, data: seq<nat>, h: nat, noSegs: nat, oa: seq<Alias>)
    requires |seg| == ObjLen(Inode) && Pointers(seg, DATA_AT) == data && seg[HEIGHT_AT] == h && |data| == I0_BLOCKS + 1
    requires forall k :: 0 <= k < |oa| ==> AliasFits(oa[k])
    ensures Table(bytes, seg, noSegs, AliasesBytes(oa)) == Replay(TableOnDevice(bytes, data, h, noSegs), oa)
  {
    hide Pointers, AliasFits, AliasesBytes, FromAliasesBytes, TableOnDevice, Replay;
    AliasesReadBack(oa);
  }

  /** The journal is where a reader looks for it. */
  lemma LogFound(bytes: seq<byte>, crc: seq<byte> -> nat, at: nat, segno: nat, segsize: nat, end: nat,
      inflate: seq<byte> -> seq<byte>,
                 anchor: seq<byte>, dynsb: seq<byte>, aliases: seq<byte>)
    requires JournalOn(bytes, crc, at, segno, segsize, end, inflate, anchor, dynsb, aliases)
    ensures at + segsize <= |bytes|
    ensures var log := Scan(bytes[at..at + segsize], 32, end);
            DataOf(inflate, log, JE_ANCHOR) == anchor && DataOf(inflate, log, JE_DYNSB) == dynsb &&
                DataOf(inflate, log, JE_OBJ_ALIAS) == aliases
  {
    hide Scan, DataOf, JournalSegHeader, Payload, Offsets;
  }

  /** What the reader makes of a device whose journal and inodes are these. */
  lemma VolumedIs(bytes: seq<byte>, log: seq<JEntry>, noSegs: nat, inflate: seq<byte> -> seq<byte>,
                  anchor: seq<byte>, dynsb: seq<byte>, aliases: seq<byte>, seg: seq<byte>, root: seq<byte>)
    requires |seg| == |root| == ObjLen(Inode)
    requires DataOf(inflate, log, JE_ANCHOR) == anchor && DataOf(inflate, log, JE_DYNSB) == dynsb &&
      DataOf(inflate, log, JE_OBJ_ALIAS) == aliases
    requires InodeOf(bytes, anchor, SEGFILE) == seg && InodeOf(bytes, anchor, ROOT) == root
    ensures Volumed(bytes, log, noSegs, inflate) == Volume(Table(bytes, seg, noSegs, aliases), Field(dynsb, 0),
      Field(dynsb, 48), AnchorOf(anchor), InfoOf(seg), InfoOf(root))
  {
    hide DataOf, InodeOf, Field, Table, AnchorOf, InfoOf;
  }

  /** The segment of the first superblock, and `prepare_journal`. */
  method SetAsideSegments(sb: Super, noJournal: nat) returns (ok: bool)
    requires sb.Good() && sb.reserved.segs == []
    modifies sb`lastseg, sb`entries, sb.reserved, sb.dev`bytes
    ensures sb.Trouble() == old(sb.Trouble()) + if ok then 0 else 1
    ensures ok ==> sb.Good() && |sb.reserved.segs| == 1 + noJournal
  {
    sb.FaultsAre();
    hide sb.Good, sb.Snap, StillLogged;
    ok := sb.ReserveSegment();
    if !ok {
      return;
    }
    var i := 0;
    while i < noJournal
      invariant i <= noJournal && sb.Good() && |sb.reserved.segs| == 1 + i && sb.lastseg <= sb.noSegs
    {
      ok := sb.ReserveSegment();
      if !ok {
        return;
      }
      i := i + 1;
    }
    ok := true;
  }

  /** A segment of type 2, level 0 and erase count 0 begins at `at`. */
  ghost predicate JournalHead(crc: seq<byte> -> nat, bytes: seq<byte>, at: nat, segno: nat) {
    at + SEG_HEADER <= |bytes| && SegmentTells(crc, bytes[at..at + SEG_HEADER], 2, 0, segno, 0)
  }

  /** A regular file with 8 bytes for every segment; its height goes with the number of its blocks. */
  function SegInfo(noSegs: nat, used: nat): InodeInfo {
    InodeInfo(0x8000, if noSegs <= 0x2000 then 0 else if noSegs <= 0x4_0200 then 1 else if noSegs <= 0x800_0200 then 2
                      else 3, 0, 1, used, 8 * noSegs)
  }

  /** An empty directory with permissions 0755, to be compressed or not. */
  function RootInfo(compress: bool, height: nat, used: nat): InodeInfo {
    InodeInfo(0x41ed, height, if compress then 4 else 0, 1, used, 0)
  }

  /** What there is to find on a new filesystem: an inode file of 16 blocks and 16 inodes, a segment
      file for all segments, an empty root directory. */
  function MadeVolume(entries: seq<Entry>, usedBytes: nat, compress: bool, height: nat, masterUsed: nat,
                      segUsed: nat, rootUsed: nat): Volume {
    Volume(entries, 0x1000, usedBytes, AnchorInfo(0x1_0000, 0x10, masterUsed), SegInfo(|entries|, segUsed),
           RootInfo(compress, height, rootUsed))
  }

  /** The state of a device, and of what led to it, after the journal has been written. */
  ghost predicate Laid(sb: Super, segfile: File, root: File, master: File, compress: bool, sent: map<nat, Object>,
      at: nat, end: nat,
                           inflate: seq<byte> -> seq<byte>, oa: seq<Alias>)
    reads sb, sb.reserved, sb.dev, sb.area, sb.Bufs(), segfile, root, master
  {
    && sb.Durable() && segfile.Flushed(sb.objs) && master.Ready(sb.objs) && Zeroed(segfile.sent, sb.noSegs)
    && root.height <= 7
    && |segfile.data| == |root.data| == |master.data| == I0_BLOCKS + 1 && 1 < |sb.reserved.segs|
    && InodesSent(sent, master.sent, SegfileInode(sb.noSegs, segfile.height, Get(sb.used, SEGFILE), segfile.data),
                  RootInode(compress, root.height, Get(sb.used, ROOT), root.data))
    && JournalOn(sb.dev.bytes, sb.crc, at, sb.reserved.segs[1], sb.segsize, end, inflate,
                 AnchorBytes(Get(sb.used, MASTER), master.data), DynsbBytes(sb.usedBytes), AliasesBytes(oa))
    && Replay(ZeroTable(|sb.entries|), oa) == sb.entries && (forall k :: 0 <= k < |oa| ==> AliasFits(oa[k]))
    && sb.usedBytes == Get(sb.used, MASTER) + Get(sb.used, ROOT) + Get(sb.used, SEGFILE)
  }

  lemma CompleteInodes(sb: Super, segfile: File, root: File, master: File, compress: bool, sent: map<nat, Object>,
      at: nat, end: nat,
                       inflate: seq<byte> -> seq<byte>, oa: seq<Alias>)
    requires Laid(sb, segfile, root, master, compress, sent, at, end, inflate, oa)
    ensures |segfile.data| == |root.data| == I0_BLOCKS + 1
    ensures var seg, rt := SegfileInode(sb.noSegs, segfile.height, Get(sb.used, SEGFILE), segfile.data),
      RootInode(compress, root.height, Get(sb.used, ROOT), root.data);
            var anchor := AnchorBytes(Get(sb.used, MASTER), master.data);
            && InodeOf(sb.dev.bytes, anchor, SEGFILE) == seg && InodeOf(sb.dev.bytes, anchor, ROOT) == rt
            && InfoOf(seg) == SegInfo(sb.noSegs, Get(sb.used, SEGFILE))
            && InfoOf(rt) == RootInfo(compress, root.height, Get(sb.used, ROOT))
            && AnchorOf(anchor) == AnchorInfo(0x1_0000, 0x10, Get(sb.used, MASTER))
            && Field(DynsbBytes(sb.usedBytes), 0) == 0x1000 && Field(DynsbBytes(sb.usedBytes), 48) == sb.usedBytes
            && Table(sb.dev.bytes, seg, sb.noSegs, AliasesBytes(oa)) == sb.entries
  {
    hide sb.Durable, segfile.Flushed, master.Ready, Zeroed, Get, JournalOn, AnchorBytes, DynsbBytes, AliasesBytes,
        Replay, AliasFits, InodeImage,
         Field, InodeOf, Table, Small, Pointers, TableOnDevice, InodeStored, StoredInode, FromBe, InfoOf;
    EntriesFit(sb);
    DurableGood(sb);
    ReadySmall(sb, master);
    FlushedSmall(sb, segfile);
    var seg, rt := SegfileInode(sb.noSegs, segfile.height, Get(sb.used, SEGFILE), segfile.data),
        RootInode(compress, root.height, Get(sb.used, ROOT), root.data);
    InodeIsStored(sb, master, SEGFILE, seg);
    InodeIsStored(sb, master, ROOT, rt);
    InodeOfIs(sb.dev.bytes, sb.crc, master.data, Get(sb.used, MASTER), SEGFILE, seg);
    InodeOfIs(sb.dev.bytes, sb.crc, master.data, Get(sb.used, MASTER), ROOT, rt);
    InodePointers(0x8000, segfile.height, 0, Get(sb.used, SEGFILE), sb.noSegs * 8, segfile.data);
    SegfileTells(sb.noSegs, segfile.height, Get(sb.used, SEGFILE), segfile.data);
    RootTells(compress, root.height, Get(sb.used, ROOT), root.data);
    SegfileHeight(segfile, sb.objs, sb.noSegs);
    AnchorFields(Get(sb.used, MASTER), master.data);
    DynsbReadsBack(sb.usedBytes);
    SegmentTable(sb, segfile, oa);
    TableIs(sb.dev.bytes, seg, segfile.data, segfile.height, sb.noSegs, oa);
  }

  /** A reader of the complete device finds the segment entries and the accounts. */
  lemma CompleteVolume(sb: Super, segfile: File, root: File, master: File, compress: bool, sent: map<nat, Object>,
      at: nat, end: nat,
                       inflate: seq<byte> -> seq<byte>, oa: seq<Alias>)
    requires Laid(sb, segfile, root, master, compress, sent, at, end, inflate, oa)
    ensures at + sb.segsize <= |sb.dev.bytes|
    ensures Mounted(sb.dev.bytes, at, sb.segsize, end, sb.noSegs, inflate) ==
            MadeVolume(sb.entries, sb.usedBytes, compress, root.height, Get(sb.used, MASTER), Get(sb.used, SEGFILE),
                       Get(sb.used, ROOT))
  {
    hide sb.Durable, segfile.Flushed, master.Ready, Zeroed, Get, JournalOn, AnchorBytes, DynsbBytes, AliasesBytes,
        Replay, AliasFits, InodeImage,
         Field, InodeOf, Table, Volumed, InodesSent, Scan, DataOf, ZeroTable, InfoOf, AnchorOf;
    var anchor, dynsb, aliases := AnchorBytes(Get(sb.used, MASTER), master.data), DynsbBytes(sb.usedBytes),
        AliasesBytes(oa);
    EntriesFit(sb);
    LogFound(sb.dev.bytes, sb.crc, at, sb.reserved.segs[1], sb.segsize, end, inflate, anchor, dynsb, aliases);
    CompleteInodes(sb, segfile, root, master, compress, sent, at, end, inflate, oa);
    VolumedIs(sb.dev.bytes, Scan(sb.dev.bytes[at..at + sb.segsize], 32, end), sb.noSegs, inflate, anchor,
        dynsb, aliases, SegfileInode(sb.noSegs, segfile.height, Get(sb.used, SEGFILE), segfile.data),
              RootInode(compress, root.height, Get(sb.used, ROOT), root.data));
  }

  /** `mkfs`, from the first segments to the journal. Without a fault it ends as the segment entries
      and the compressor have it; and when it is complete, a reader of the bytes of the device finds
      the segment entries exactly as they were in memory, and the bytes in use, as told by the
      superblock entry of the journal, are the sum of the valid counts of these entries, and the sum
      of what the anchor and the two stored inodes tell. */
  method Mkfs(sb: Super, segfile: File, root: File, master: File, compress: bool, noJournal: nat,
      deflate: (seq<byte>, nat) -> Zip, ghost inflate: seq<byte> -> seq<byte>)
    returns (e: Ending, ghost at: nat, ghost end: nat)
    requires sb.Good() && sb.used == map[] && sb.reserved.segs == [] && 0 < noJournal && Codec(deflate, inflate)
    requires segfile.ino == SEGFILE && segfile.sent == map[] && master.ino == MASTER && segfile != master &&
      root != segfile && root != master
    requires segfile.Ready(sb.objs) && master.Ready(sb.objs) && root.Ready(sb.objs)
    modifies segfile, master, sb, sb.reserved, sb.dev, sb.calloc, sb.area, sb.Bufs()
    ensures sb.Trouble() == old(sb.Trouble()) + if e.Fault? then 1 else 0
    ensures !e.Fault? ==> sb.Durable() && |sb.reserved.segs| == 1 + noJournal && |master.data| == I0_BLOCKS + 1
    ensures !e.Fault? ==>
      e == Expected(deflate, sb.segsize, sb.entries, AnchorBytes(Get(sb.used, MASTER), master.data),
      DynsbBytes(sb.usedBytes))
    ensures !e.Fault? ==>
      sb.usedBytes == SumValid(sb.entries, |sb.entries|) == Get(sb.used, MASTER) + Get(sb.used, SEGFILE) +
      Get(sb.used, ROOT)
    ensures e.Complete? ==> at == SegAt(sb.reserved.segs[1], sb.segsize) && at + sb.segsize <= |sb.dev.bytes|
    ensures e.Complete? ==> Mounted(sb.dev.bytes, at, sb.segsize, end, sb.noSegs, inflate) ==
                            MadeVolume(sb.entries, sb.usedBytes, compress, old(root.height), Get(sb.used, MASTER),
                                       Get(sb.used, SEGFILE), Get(sb.used, ROOT))
    ensures e.Complete? ==>
      JournalHead(sb.crc, sb.dev.bytes, at, sb.reserved.segs[1])
  {
    hide sb.Trouble, sb.Faults, sb.Good, sb.Durable, segfile.Ready, segfile.Flushed, Zeroed, Get, Codec, InodesSent,
        InodeStored, InodeImage, JournalOn, StoredInode,
         AnchorBytes, DynsbBytes, AliasesBytes, Replay, AliasFits, Mounted, SumValid, Expected;
    at, end := 0, 0;
    ghost var sent := master.sent;
    RootShape(root, sb.objs);
    var ok := SetAsideSegments(sb, noJournal);
    if !ok {
      return Fault, at, end;
    }
    ok := Format(sb, segfile, root, master, compress);
    if !ok {
      return Fault, at, end;
    }
    ghost var oa;
    e, at, end, oa := MakeJournal(sb, master, deflate, inflate);
    if !e.Fault? {
      DurableSums(sb);
    }
    if e.Complete? {
      CompleteVolume(sb, segfile, root, master, compress, sent, at, end, inflate, oa);
      AtIs(sb, at, end, inflate, AnchorBytes(Get(sb.used, MASTER), master.data), DynsbBytes(sb.usedBytes),
          AliasesBytes(oa));
    }
  }

  lemma AtIs(sb: Super, at: nat, end: nat, inflate: seq<byte> -> seq<byte>, anchor: seq<byte>, dynsb: seq<byte>,
      aliases: seq<byte>)
    requires 1 < |sb.reserved.segs| && JournalOn(sb.dev.bytes, sb.crc, at, sb.reserved.segs[1], sb.segsize, end,
      inflate, anchor, dynsb, aliases)
    ensures at == SegAt(sb.reserved.segs[1], sb.segsize) && at + sb.segsize <= |sb.dev.bytes| &&
      SEG_HEADER <= sb.segsize
    ensures JournalHead(sb.crc, sb.dev.bytes, at, sb.reserved.segs[1])
  {
    var b := sb.dev.bytes;
    hide SegmentTells, Scan, DataOf, SegAt;
    SliceOfSlice(b, at, at + sb.segsize, 0, SEG_HEADER);
  }

  /** From nothing: the preconditions of `Mkfs` are those of a new filesystem. */
  method MakeFilesystem(segsize: nat, noSegs: nat, crc: seq<byte> -> nat, bad: nat -> bool, compress: bool,
      noJournal: nat,
                        deflate: (seq<byte>, nat) -> Zip, ghost inflate: seq<byte> -> seq<byte>)
    returns (sb: Super, e: Ending, ghost at: nat, ghost end: nat)
    requires SEG_HEADER + OBJ_HEADER + BLOCKSIZE <= segsize < 0x1_0000_0000 && noSegs < 0xffff_ffff &&
      0 < noJournal && Codec(deflate, inflate)
    ensures fresh(sb) && sb.segsize == segsize && sb.noSegs == noSegs && sb.dev.bad == bad
    ensures sb.Trouble() == if e.Fault? then 1 else 0
    ensures !e.Fault? ==> sb.Durable() && |sb.reserved.segs| == 1 + noJournal && |sb.entries| == noSegs
    ensures !e.Fault? ==> MarkedIn(sb.entries, sb.reserved.segs, segsize, bad, sb.lastseg)
    ensures e.Overrun? <==> !e.Fault? && Touched(sb.entries, |sb.entries|) > 256
    ensures e.Complete? ==> at + segsize <= |sb.dev.bytes| == noSegs * segsize
    ensures e.Complete? ==> var v := Mounted(sb.dev.bytes, at, segsize, end, noSegs, inflate);
                            && v.table == sb.entries && v.usedBytes == sb.usedBytes && v.gec == 0x1000
                            && v.usedBytes == SumValid(v.table, |v.table|) == v.anchor.used + v.seg.used + v.root.used
                            && v.anchor.size == 0x1_0000 && v.anchor.lastIno == 0x10
                            && v.seg.mode == 0x8000 && v.seg.size == 8 * noSegs && v.seg.flags == 0
                            && v.seg.height == (if noSegs <= 0x2000 then 0 else if noSegs <= 0x4_0200 then 1
                                                else if noSegs <= 0x800_0200 then 2 else 3)
                            && v.root.mode == 0x41ed && v.root.size == 0 && v.root.height == 0
                            && v.root.flags == (if compress then 4 else 0) && v.seg.refcount == v.root.refcount == 1
    ensures e.Complete? ==>
      JournalHead(crc, sb.dev.bytes, at, sb.reserved.segs[1]) &&
      at == SegAt(sb.reserved.segs[1], segsize)
  {
    hide Codec, Mounted, SumValid, Ok, Accounted, Logged, Tidy, Draining, HeightOk, DirectOk, SentOk, Ind,
        AnchorBytes, DynsbBytes, JournalLayout, AliasList, Touched,
         sb.Separate, sb.Snap, sb.Valid, sb.Good, sb.Durable, sb.Trouble, sb.Faults;
    var segfile := new File(SEGFILE);
    var root := new File(ROOT);
    var master := new File(MASTER);
    sb := new Super(segsize, noSegs, crc, bad);
    NewGood(sb);
    NewHeight(root);
    e, at, end := Mkfs(sb, segfile, root, master, compress, noJournal, deflate, inflate);
    if !e.Fault? {
      DurableSize(sb);
      MarksIn(sb);
    }
  }

  /** The segment entries that stand for no objects: those of the segments set aside, of bad segments
      passed over, and of the segments behind the last one taken. */
  ghost predicate MarkedIn(entries: seq<Entry>, segs: seq<nat>, segsize: nat, bad: nat -> bool, lastseg: nat) {
    && lastseg <= |entries|
    && (forall k {:trigger segs[k]} :: 0 <= k < |segs| ==>
          segs[k] < lastseg && entries[segs[k]] == Entry(0x10, 0xffff_ffff))
    && (forall s {:trigger entries[s]} :: 0 <= s < lastseg && bad(SegAt(s, segsize)) ==>
          entries[s] == Entry(0xffff_ffff, 0xffff_ffff))
    && (forall s {:trigger entries[s]} :: lastseg <= s < |entries| ==> entries[s] == Entry(0, 0))
  }

  lemma MarksIn(sb: Super)
    requires sb.Durable()
    ensures MarkedIn(sb.entries, sb.reserved.segs, sb.segsize, sb.dev.bad, sb.lastseg)
  {
    var d := sb.Snap();
    assert Tidy(sb.crc, sb.dev.bad, sb.reserved.segs, d) && Marked(sb.dev.bad, sb.reserved.segs, d);
    assert d.lastseg <= |d.entries| && d.entries == sb.entries && d.lastseg == sb.lastseg && d.segsize == sb.segsize;
    hide sb.Durable, SegAt;
    forall k | 0 <= k < |sb.reserved.segs|
      ensures sb.reserved.segs[k] < d.lastseg && sb.entries[sb.reserved.segs[k]] == Entry(0x10, 0xffff_ffff)
    {
      assert SetAside(d, sb.reserved.segs[k]);
    }
  }

  lemma NewHeight(f: File)
    requires f.Ready(map[]) && f.last == map[]
    ensures f.height == 0
  {
    assert HeightOk(f.height, Ind(f.last)) && Ind(f.last) == map[];
  }

  lemma NewGood(sb: Super)
    requires sb.Valid() && Accounted(sb.Snap(), sb.usedBytes, sb.used)
    ensures sb.Good()
  {
  }

  lemma DurableSize(sb: Super)
    requires sb.Durable()
    ensures |sb.entries| == sb.noSegs && |sb.dev.bytes| == sb.noSegs * sb.segsize
  {
  }

  /** The first `n` segments cannot be erased, and no other. */
  function FirstBad(segsize: nat, n: nat): (bad: nat -> bool)
  {
    ofs => ofs < n * segsize
  }

  lemma FirstAreBad(segsize: nat, n: nat, s: nat)
    requires s < n && 0 < segsize
    ensures FirstBad(segsize, n)(SegAt(s, segsize))
  {
    MulStep(segsize, s, n);
  }

  /** A device that begins with 257 bad segments: mkfs never completes. Unless there is a fault, the
      aliases overrun the scratch buffer. */
  method ScratchExample(segsize: nat, noSegs: nat, crc: seq<byte> -> nat, compress: bool, noJournal: nat,
                        deflate: (seq<byte>, nat) -> Zip, ghost inflate: seq<byte> -> seq<byte>)
                            returns (sb: Super, e: Ending)
    requires SEG_HEADER + OBJ_HEADER + BLOCKSIZE <= segsize < 0x1_0000_0000 && noSegs < 0xffff_ffff &&
      0 < noJournal && Codec(deflate, inflate)
    ensures sb.dev.bad == FirstBad(segsize, 257) && e == if sb.Trouble() == 0 then Overrun else Fault
  {
    hide Codec, Mounted, SumValid, Touched, SegAt, FirstBad, sb.Trouble;
    ghost var at, end;
    sb, e, at, end := MakeFilesystem(segsize, noSegs, crc, FirstBad(segsize, 257), compress, noJournal, deflate,
        inflate);
    if !e.Fault? {
      hide sb.Durable;
      forall s: nat | s < 257
        ensures sb.dev.bad(SegAt(s, sb.segsize))
      {
        FirstAreBad(segsize, 257, s);
      }
      BadAtStart(sb, 257);
    }
  }

  /** If the first `n` segments are bad, they are all marked as soon as one segment has been set
      aside. */
  lemma BadAtStart(sb: Super, n: nat)
    requires sb.Durable() && 0 < |sb.reserved.segs| && forall s: nat :: s < n ==> sb.dev.bad(SegAt(s, sb.segsize))
    ensures n <= Touched(sb.entries, |sb.entries|)
  {
    var d, k := sb.Snap(), sb.reserved.segs[0];
    assert Tidy(sb.crc, sb.dev.bad, sb.reserved.segs, d) && SetAside(d, k) && Marked(sb.dev.bad, sb.reserved.segs, d);
    assert !sb.dev.bad(SegAt(k, sb.segsize)) && n <= k < d.lastseg <= |d.entries|;
    assert forall i :: 0 <= i < n ==> d.entries[i] == Entry(BADSEG, RESERVED);
    hide sb.Durable, Tidy, Marked;
    TouchedBad(sb.entries, n, |sb.entries|);
  }
}
