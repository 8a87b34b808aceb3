/** The journal mkfs.c writes: entries with 16-byte headers, aligned to 16 bytes, closed by a commit
    entry that lists the others; and the alias entry, which carries the segment file. */
module Journal {
  import opened Bytes
  import opened Disk
  import opened Segments
  import Blocks

  const JOURNAL_HEADER: nat := 16
  const JE_COMMIT: nat := 2
  const JE_DYNSB: nat := 3
  const JE_ANCHOR: nat := 4
  const JE_OBJ_ALIAS: nat := 13
  const RESERVED_INOS: nat := 16
  const PER_BLOCK: nat := 512  // aliases per block: 1 << (blockshift - 3)

  function Align16(x: nat): (a: nat)
    ensures x <= a < x + 16 && a % 16 == 0
  {
    (x + 15) / 16 * 16
  }

  // Aliases

  /** `struct logfs_obj_alias` */
  datatype Alias = Alias(ino: nat, bix: nat, val: nat, level: nat, childNo: nat)

  function AliasOf(i: nat, e: Entry): Alias {
    Alias(SEGFILE, i / PER_BLOCK, e.ecLevel * 0x1_0000_0000 + e.valid, 0, i % PER_BLOCK)
  }

  /** The segment entry an alias stands for, and the segment it is about. */
  function AliasIndex(a: Alias): nat {
    a.bix * PER_BLOCK + a.childNo
  }

  function AliasEntry(a: Alias): Entry {
    Entry(a.val / 0x1_0000_0000, a.val % 0x1_0000_0000)
  }

  lemma AliasReadsBack(i: nat, e: Entry)
    requires e.valid < 0x1_0000_0000
    ensures AliasIndex(AliasOf(i, e)) == i && AliasEntry(AliasOf(i, e)) == e
  {
    assert i == i / PER_BLOCK * PER_BLOCK + i % PER_BLOCK;
  }

  /** The 32 bytes of an alias. */
  function AliasBytes(a: Alias): (s: seq<byte>)
    ensures |s| == 32
  {
    Be(a.ino, 8) + Be(a.bix, 8) + Be(a.val, 8) + [a.level % 256, 0, 0, 0, 0, 0] + Be(a.childNo, 2)
  }

  function FromAliasBytes(s: seq<byte>): Alias
    requires |s| == 32
  {
    Alias(FromBe(s[0..8]), FromBe(s[8..16]), FromBe(s[16..24]), s[24], FromBe(s[30..32]))
  }

  /** The fields of an alias are within their widths. */
  predicate AliasFits(a: Alias) {
    && a.ino < 0x1_0000_0000_0000_0000 && a.bix < 0x1_0000_0000_0000_0000 && a.val < 0x1_0000_0000_0000_0000
    && a.level < 256 && a.childNo < 0x1_0000
  }

  lemma AliasBytesReadBack(a: Alias)
    requires AliasFits(a)
    ensures FromAliasBytes(AliasBytes(a)) == a
  {
    hide Be, FromBe, Pow;
    Be8(a.ino);
    Be8(a.bix);
    Be8(a.val);
    Be2(a.childNo);
    AliasParts(Be(a.ino, 8), Be(a.bix, 8), Be(a.val, 8), [a.level % 256, 0, 0, 0, 0, 0], Be(a.childNo, 2));
  }

  lemma AliasParts(x: seq<byte>, y: seq<byte>, z: seq<byte>, p: seq<byte>, c: seq<byte>)
    requires |x| == 8 && |y| == 8 && |z| == 8 && |p| == 6 && |c| == 2
    ensures var s := x + y + z + p + c;
      s[0..8] == x && s[8..16] == y && s[16..24] == z && s[24] == p[0] && s[30..32] == c
  {
    var s := x + y + z + p + c;
    assert s == (x + y + z + p) + c && s == (x + y + z) + (p + c) && s == (x + y) + (z + p + c);
  }

  /** The data of the alias entry. */
  function AliasesBytes(oa: seq<Alias>): (s: seq<byte>)
    ensures |s| == 32 * |oa|
  {
    if oa == [] then [] else AliasesBytes(oa[..|oa| - 1]) + AliasBytes(oa[|oa| - 1])
  }

  function FromAliasesBytes(s: seq<byte>): (oa: seq<Alias>)
    ensures |oa| == |s| / 32
  {
    seq(|s| / 32, k requires 0 <= k < |s| / 32 => FromAliasBytes(s[32 * k..32 * k + 32]))
  }

  lemma {:induction false} AliasSlice(oa: seq<Alias>, k: nat)
    requires k < |oa|
    ensures AliasesBytes(oa)[32 * k..32 * k + 32] == AliasBytes(oa[k])
  {
    var n := |oa| - 1;
    var s, p := AliasesBytes(oa), AliasesBytes(oa[..n]);
    hide AliasBytes;
    if k == n {
      assert s[32 * k..32 * k + 32] == AliasBytes(oa[k]);
    } else {
      AliasSlice(oa[..n], k);
      assert s[32 * k..32 * k + 32] == p[32 * k..32 * k + 32];
    }
  }

  /** The aliases are read back from the data of their entry. */
  lemma AliasesReadBack(oa: seq<Alias>)
    requires forall k :: 0 <= k < |oa| ==> AliasFits(oa[k])
    ensures FromAliasesBytes(AliasesBytes(oa)) == oa
  {
    hide AliasBytes, FromAliasBytes, AliasesBytes, AliasFits;
    var s := AliasesBytes(oa);
    assert |s| / 32 == |oa|;
    forall k | 0 <= k < |oa|
      ensures FromAliasBytes(s[32 * k..32 * k + 32]) == oa[k]
    {
      AliasSlice(oa, k);
      AliasBytesReadBack(oa[k]);
    }
  }

  /** `struct logfs_je_dynsb`: the global erase count, and the bytes in use. */
  function DynsbBytes(used: nat): (s: seq<byte>)
    ensures |s| == 64
  {
    Be(0x1000, 8) + Be(0, 40) + Be(used, 8) + Be(0, 8)
  }

  /** `struct logfs_je_anchor`: size, last inode, bytes in use and block pointers of the inode file. */
  function AnchorBytes(used: nat, data: seq<nat>): (s: seq<byte>)
    ensures |s| == 32 + 8 * |data|
  {
    Be(RESERVED_INOS * BLOCKSIZE, 8) + Be(RESERVED_INOS, 8) + Be(used, 8) + Be(0, 8) + Blocks.Payload(data)
  }

  /** A 64-bit field of a structure. */
  function Field(s: seq<byte>, at: nat): nat {
    if at + 8 <= |s| then FromBe(s[at..at + 8]) else 0
  }

  /** Global erase count and bytes in use are read back. */
  lemma DynsbReadsBack(used: nat)
    requires used < 0x1_0000_0000_0000_0000
    ensures Field(DynsbBytes(used), 0) == 0x1000 && Field(DynsbBytes(used), 48) == used
  {
    hide FromBe, Be;
    assert DynsbBytes(used)[0..8] == Be(0x1000, 8) && DynsbBytes(used)[48..56] == Be(used, 8);
    Be8(0x1000);
    Be8(used);
  }

  /** Size of the inode file, last inode and bytes in use are read back. */
  lemma AnchorFields(used: nat, data: seq<nat>)
    requires used < 0x1_0000_0000_0000_0000
    ensures var s := AnchorBytes(used, data);
      Field(s, 0) == 0x1_0000 && Field(s, 8) == 0x10 && Field(s, 16) == used && Field(s, 24) == 0
  {
    hide FromBe, Be, Blocks.Payload;
    var s := AnchorBytes(used, data);
    assert s[0..8] == Be(0x1_0000, 8) && s[8..16] == Be(0x10, 8) && s[16..24] == Be(used, 8) && s[24..32] == Be(0, 8);
    Be8(0x1_0000);
    Be8(0x10);
    Be8(used);
    Be8(0);
  }

  lemma AnchorReadsBack(used: nat, data: seq<nat>, i: nat)
    requires i < |data| && data[i] < 0x1_0000_0000
    ensures Field(AnchorBytes(used, data), 32 + 8 * i) == data[i]
  {
    hide FromBe, Be, Blocks.Payload;
    var s, p := AnchorBytes(used, data), Blocks.Payload(data);
    Blocks.PayloadReadsBack(data, i);
    assert s[32 + 8 * i..32 + 8 * i + 8] == p[8 * i..8 * i + 8];
  }

  /** Replaying aliases onto a segment file; a reader looks for those of blocks of this file. */
  function Replay(table: seq<Entry>, oa: seq<Alias>): (t: seq<Entry>)
    ensures |t| == |table|
  {
    if oa == [] then table else
      var t := Replay(table, oa[..|oa| - 1]);
      var a := oa[|oa| - 1];
      if a.ino == SEGFILE && a.level == 0 && AliasIndex(a) < |t| then t[AliasIndex(a) := AliasEntry(a)] else t
  }

  function ZeroTable(n: nat): (t: seq<Entry>)
    ensures |t| == n && forall i :: 0 <= i < n ==> t[i] == Entry(0, 0)
  {
    seq(n, _ => Entry(0, 0))
  }

  /** The table with its first `i` entries replayed. */
  function Partial(entries: seq<Entry>, i: nat): (t: seq<Entry>)
    requires i <= |entries|
    ensures |t| == |entries| && forall j :: 0 <= j < |entries| ==> t[j] == if j < i then entries[j] else Entry(0, 0)
  {
    entries[..i] + ZeroTable(|entries| - i)
  }

  lemma PartialStep(entries: seq<Entry>, i: nat)
    requires i < |entries|
    ensures Partial(entries, i)[i := entries[i]] == Partial(entries, i + 1)
    ensures entries[i] == Entry(0, 0) ==> Partial(entries, i) == Partial(entries, i + 1)
  {
    hide Partial;
  }

  lemma PartialEnds(entries: seq<Entry>)
    ensures Partial(entries, 0) == ZeroTable(|entries|) && Partial(entries, |entries|) == entries
  {
    hide Partial;
  }

  lemma ReplayMore(table: seq<Entry>, oa: seq<Alias>, a: Alias)
    requires AliasIndex(a) < |table| && a.ino == SEGFILE && a.level == 0
    ensures Replay(table, oa + [a]) == Replay(table, oa)[AliasIndex(a) := AliasEntry(a)]
  {
    assert (oa + [a])[..|oa|] == oa;
  }

  /** The number of segment entries that are not zero. */
  function Touched(entries: seq<Entry>, n: nat): nat
    requires n <= |entries|
  {
    if n == 0 then 0 else Touched(entries, n - 1) + if entries[n - 1] == Entry(0, 0) then 0 else 1
  }

  /** The aliases of the first `n` entries. */
  function AliasList(entries: seq<Entry>, n: nat): seq<Alias>
    requires n <= |entries|
  {
    if n == 0 then [] else
      AliasList(entries, n - 1) + if entries[n - 1] == Entry(0, 0) then [] else [AliasOf(n - 1, entries[n - 1])]
  }

  /** At least `n` of the first entries are not zero if they mark bad segments. */
  lemma {:induction false} TouchedBad(entries: seq<Entry>, n: nat, m: nat)
    requires n <= m <= |entries| && forall i :: 0 <= i < n ==> entries[i] == Entry(BADSEG, RESERVED)
    ensures n <= Touched(entries, m)
    decreases m
  {
    if m > n {
      TouchedBad(entries, n, m - 1);
    } else if n > 0 {
      TouchedBad(entries, n - 1, n - 1);
    }
  }

  /** The fields of an alias go into a part of the buffer that is zero. */
  method PutAlias(scratch: array<byte>, at: nat, a: Alias)
    requires at + 32 <= scratch.Length && forall i :: at <= i < at + 32 ==> scratch[i] == 0
    modifies scratch
    ensures scratch[..] == old(scratch[..])[..at] + AliasBytes(a) + old(scratch[..])[at + 32..]
  {
    ghost var b := scratch[..];
    Blit(scratch, at, Be(a.ino, 8));
    Blit(scratch, at + 8, Be(a.bix, 8));
    Blit(scratch, at + 16, Be(a.val, 8));
    Blit(scratch, at + 24, [a.level % 256]);
    Blit(scratch, at + 30, Be(a.childNo, 2));
    AliasFields(b, scratch[..], at, Be(a.ino, 8), Be(a.bix, 8), Be(a.val, 8), a.level % 256, Be(a.childNo, 2));
  }

  lemma AliasFields(b: seq<byte>, b': seq<byte>, at: nat, x: seq<byte>, y: seq<byte>, z: seq<byte>, l: byte,
      c: seq<byte>)
    requires at + 32 <= |b| == |b'| && |x| == |y| == |z| == 8 && |c| == 2 && forall i :: at <= i < at + 32 ==> b[i] == 0
    requires var b1 := b[..at] + x + b[at + 8..]; var b2 := b1[..at + 8] + y + b1[at + 16..];
      var b3 := b2[..at + 16] + z + b2[at + 24..];
             var b4 := b3[..at + 24] + [l] + b3[at + 25..]; b' == b4[..at + 30] + c + b4[at + 32..]
    ensures b' == b[..at] + (x + y + z + [l, 0, 0, 0, 0, 0] + c) + b[at + 32..]
  {
    var b1 := b[..at] + x + b[at + 8..];
    var b2 := b1[..at + 8] + y + b1[at + 16..];
    var b3 := b2[..at + 16] + z + b2[at + 24..];
    var b4 := b3[..at + 24] + [l] + b3[at + 25..];
    assert b2 == b[..at] + (x + y) + b[at + 16..];
    assert b3 == b[..at] + (x + y + z) + b[at + 24..];
    assert b4 == b[..at] + (x + y + z + [l]) + b[at + 25..];
    assert b[at + 25..at + 30] == [0, 0, 0, 0, 0];
    assert b4 == b[..at] + (x + y + z + [l] + [0, 0, 0, 0, 0]) + b[at + 30..];
    assert [l] + [0, 0, 0, 0, 0] == [l, 0, 0, 0, 0, 0];
    assert x + y + z + [l] + [0, 0, 0, 0, 0] == x + y + z + [l, 0, 0, 0, 0, 0];
  }

  /** The aliases `oa` stand at the beginning of the buffer, and zeros behind them. */
  ghost predicate Scribbled(b: seq<byte>, oa: seq<Alias>) {
    |b| == 2 * BLOCKSIZE && 32 * |oa| <= |b| && b[..32 * |oa|] == AliasesBytes(oa) && forall i ::
        32 * |oa| <= i < |b| ==> b[i] == 0
  }

  lemma ScribbledMore(b: seq<byte>, b': seq<byte>, oa: seq<Alias>, a: Alias)
    requires Scribbled(b, oa) && 32 * |oa| + 32 <= |b| && b' == b[..32 * |oa|] + AliasBytes(a) + b[32 * |oa| + 32..]
    ensures Scribbled(b', oa + [a])
  {
    hide AliasBytes;
    var n := 32 * |oa|;
    assert (oa + [a])[..|oa|] == oa;
    assert b'[..n + 32] == b[..n] + AliasBytes(a);
  }

  /** `je_alias`: one alias for every segment entry that is not zero. Replayed onto the all-zero
      segment file they give back the whole table. They run over the end of the scratch buffer exactly
      when more than 256 entries are not zero; what that overwrites is not part of this model. */
  method JeAlias(entries: seq<Entry>, scratch: array<byte>) returns (len: nat, over: bool, ghost oa: seq<Alias>)
    requires |entries| <= 0x1_0000_0000 && forall i :: 0 <= i < |entries| ==>
      entries[i].ecLevel < 0x1_0000_0000 && entries[i].valid < 0x1_0000_0000
    requires scratch.Length == 2 * BLOCKSIZE && forall i :: BLOCKSIZE <= i < scratch.Length ==> scratch[i] == 0
    modifies scratch
    ensures over <==> Touched(entries, |entries|) > 256
    ensures !over ==> len == 32 * |oa| <= scratch.Length && scratch[..len] == AliasesBytes(oa)
    ensures !over ==>
      oa == AliasList(entries, |entries|) && Replay(ZeroTable(|entries|), oa) == entries &&
      |oa| == Touched(entries, |entries|)
    ensures !over ==> forall k :: 0 <= k < |oa| ==>
      AliasFits(oa[k]) && oa[k].ino == SEGFILE && oa[k].level == 0 && AliasEntry(oa[k]) != Entry(0, 0)
  {
    hide Replay, Partial, AliasesBytes, AliasBytes, Scribbled;
    ClearFirst(scratch);
    oa := [];
    over := false;
    var i, k := 0, 0;
    PartialEnds(entries);
    ReplayNone(ZeroTable(|entries|));
    while i < |entries|
      invariant i <= |entries| && k == |oa| == Touched(entries, i) <= 256 && oa == AliasList(entries, i)
      invariant Scribbled(scratch[..], oa)
      invariant Replay(ZeroTable(|entries|), oa) == Partial(entries, i)
      invariant forall j :: 0 <= j < |oa| ==>
        AliasFits(oa[j]) && oa[j].ino == SEGFILE && oa[j].level == 0 && AliasEntry(oa[j]) != Entry(0, 0)
    {
      var se := entries[i];
      PartialStep(entries, i);
      if se.ecLevel != 0 || se.valid != 0 {
        if 32 * k + 32 > scratch.Length {
          TouchedMore(entries, i + 1, |entries|);
          return 0, true, oa;
        }
        ghost var b := scratch[..];
        ScribbledZero(b, oa);
        AliasReadsBack(i, se);
        ReplayMore(ZeroTable(|entries|), oa, AliasOf(i, se));
        PutAlias(scratch, 32 * k, AliasOf(i, se));
        ScribbledMore(b, scratch[..], oa, AliasOf(i, se));
        oa := oa + [AliasOf(i, se)];
        k := k + 1;
      }
      i := i + 1;
    }
    len := 32 * k;
    ScribbledEnd(scratch[..], oa);
  }

  lemma ScribbledZero(b: seq<byte>, oa: seq<Alias>)
    requires Scribbled(b, oa)
    ensures |b| == 2 * BLOCKSIZE && forall i :: 32 * |oa| <= i < |b| ==> b[i] == 0
  {
  }

  lemma ScribbledEnd(b: seq<byte>, oa: seq<Alias>)
    requires Scribbled(b, oa)
    ensures 32 * |oa| <= |b| && b[..32 * |oa|] == AliasesBytes(oa)
  {
  }

  lemma {:induction false} TouchedMore(entries: seq<Entry>, n: nat, m: nat)
    requires n <= m <= |entries|
    ensures Touched(entries, n) <= Touched(entries, m)
  {
    if n < m {
      TouchedMore(entries, n, m - 1);
    }
  }

  /** The memset of `je_alias`, which clears the first block. */
  method ClearFirst(scratch: array<byte>)
    requires scratch.Length == 2 * BLOCKSIZE && forall i :: BLOCKSIZE <= i < scratch.Length ==> scratch[i] == 0
    modifies scratch
    ensures Scribbled(scratch[..], [])
  {
    var i := 0;
    while i < BLOCKSIZE
      invariant i <= BLOCKSIZE && forall j :: 0 <= j < scratch.Length && (j < i || BLOCKSIZE <= j) ==> scratch[j] == 0
    {
      scratch[i] := 0;
      i := i + 1;
    }
  }

  lemma ReplayNone(table: seq<Entry>)
    ensures Replay(table, []) == table
  {
  }

  // Layout

  /** One entry as a reader sees it: where it starts, its header fields, and the stored bytes. */
  datatype JEntry = JEntry(pos: nat, kind: nat, datalen: nat, compr: byte, payload: seq<byte>)

  function Size(len: nat): nat {
    JOURNAL_HEADER + Align16(len)
  }

  /** `struct logfs_journal_header` behind its checksum. */
  function JHeader(kind: nat, len: nat, datalen: nat, compr: byte): (h: seq<byte>)
    ensures |h| == JOURNAL_HEADER - 4
  {
    Be(len, 2) + Be(datalen, 2) + Be(kind, 2) + [compr, 0x68, 0x65, 0x61, 0x64, 0x72]
  }

  function LenAt(buf: seq<byte>, pos: nat): nat
    requires pos + JOURNAL_HEADER <= |buf|
  {
    FromBe(buf[pos + 4..pos + 6])
  }

  /** The entry at `pos`. */
  function ReadEntry(buf: seq<byte>, pos: nat): JEntry
    requires pos + JOURNAL_HEADER <= |buf| && pos + JOURNAL_HEADER + LenAt(buf, pos) <= |buf|
  {
    JEntry(pos, FromBe(buf[pos + 8..pos + 10]), FromBe(buf[pos + 6..pos + 8]), buf[pos + 10],
           buf[pos + JOURNAL_HEADER..pos + JOURNAL_HEADER + LenAt(buf, pos)])
  }

  /** A reader steps from header to header. */
  function Scan(buf: seq<byte>, pos: nat, end: nat): seq<JEntry>
    decreases end - pos
  {
    if pos < end && pos + JOURNAL_HEADER <= |buf| && pos + JOURNAL_HEADER + LenAt(buf, pos) <= |buf| then
      [ReadEntry(buf, pos)] + Scan(buf, pos + Size(LenAt(buf, pos)), end)
    else []
  }

  /** The padding of an entry is as it should be, and the checksum in front of it covers the rest of
      the header and the stored bytes. */
  ghost predicate Checked(crc: seq<byte> -> nat, buf: seq<byte>, e: JEntry) {
    && e.pos + JOURNAL_HEADER + |e.payload| <= |buf|
    && buf[e.pos..e.pos + 4] == Be(crc(buf[e.pos + 4..e.pos + JOURNAL_HEADER + |e.payload|]), 4)
    && Padded(buf, e)
  }

  /** The header ends with the five letters of "header" without its last, and zeros follow the stored
      bytes. */
  ghost predicate Padded(buf: seq<byte>, e: JEntry) {
    && e.pos + JOURNAL_HEADER + Align16(|e.payload|) <= |buf|
    && buf[e.pos + 11..e.pos + 16] == [0x68, 0x65, 0x61, 0x64, 0x72]
    && forall i {:trigger buf[i]} ::
        e.pos + JOURNAL_HEADER + |e.payload| <= i < e.pos + JOURNAL_HEADER + Align16(|e.payload|) ==>
        buf[i] == 0
  }

  ghost predicate StoredAt(crc: seq<byte> -> nat, buf: seq<byte>, e: JEntry) {
    && e.pos + Size(|e.payload|) <= |buf| && Checked(crc, buf, e)
    && LenAt(buf, e.pos) == |e.payload| && ReadEntry(buf, e.pos) == e
  }

  /** The entries `log` lie one after the other from `start` to `end`. */
  ghost predicate Chain(crc: seq<byte> -> nat, buf: seq<byte>, start: nat, log: seq<JEntry>, end: nat)
    decreases |log|
  {
    if log == [] then end == start
    else
      var e := log[|log| - 1];
      Chain(crc, buf, start, log[..|log| - 1], e.pos) && StoredAt(crc, buf, e) && end == e.pos + Size(|e.payload|)
  }

  lemma ScanStep(crc: seq<byte> -> nat, buf: seq<byte>, e: JEntry, end': nat)
    requires StoredAt(crc, buf, e) && e.pos < end'
    ensures Scan(buf, e.pos, end') == [e] + Scan(buf, e.pos + Size(|e.payload|), end')
  {
  }

  /** Stepping through the journal visits exactly the entries that were written. */
  lemma {:induction false} ChainScan(crc: seq<byte> -> nat, buf: seq<byte>, start: nat, log: seq<JEntry>, end: nat,
      end': nat)
    requires Chain(crc, buf, start, log, end) && end <= end'
    ensures start <= end && Scan(buf, start, end') == log + Scan(buf, end, end')
    decreases |log|
  {
    hide StoredAt, Scan, Align16;
    if log != [] {
      var n := |log| - 1;
      var e := log[n];
      ChainScan(crc, buf, start, log[..n], e.pos, end');
      ScanStep(crc, buf, e, end');
      assert log == log[..n] + [e];
      assert log[..n] + ([e] + Scan(buf, end, end')) == log + Scan(buf, end, end');
    } else {
      assert log + Scan(buf, end, end') == Scan(buf, end, end');
    }
  }

  /** All checksums are right. */
  lemma {:induction false} ChainChecked(crc: seq<byte> -> nat, buf: seq<byte>, start: nat, log: seq<JEntry>, end: nat)
    requires Chain(crc, buf, start, log, end)
    ensures forall k {:trigger log[k]} :: 0 <= k < |log| ==> Checked(crc, buf, log[k])
    decreases |log|
  {
    hide Checked;
    if log != [] {
      var n := |log| - 1;
      ChainChecked(crc, buf, start, log[..n], log[n].pos);
      assert forall k :: 0 <= k < n ==> log[k] == log[..n][k];
    }
  }

  /** Bytes behind the chain do not matter. */
  lemma {:induction false} ChainKept(crc: seq<byte> -> nat, buf: seq<byte>, buf': seq<byte>, start: nat,
      log: seq<JEntry>, end: nat)
    requires Chain(crc, buf, start, log, end) && |buf'| == |buf| && end <= |buf| && buf'[..end] == buf[..end]
    ensures Chain(crc, buf', start, log, end)
    decreases |log|
  {
    if log != [] {
      var n := |log| - 1;
      var e := log[n];
      SliceOfPrefix(buf', buf, end, 0, e.pos);
      ChainKept(crc, buf, buf', start, log[..n], e.pos);
      EntryKept(crc, buf, buf', e, end);
    }
  }

  lemma EntryKept(crc: seq<byte> -> nat, buf: seq<byte>, buf': seq<byte>, e: JEntry, end: nat)
    requires StoredAt(crc, buf, e) && |buf'| == |buf| && end == e.pos + Size(|e.payload|) && buf'[..end] == buf[..end]
    ensures StoredAt(crc, buf', e)
  {
    var p := e.pos;
    SliceOfPrefix(buf', buf, end, p, p + 4);
    SliceOfPrefix(buf', buf, end, p + 4, p + 6);
    SliceOfPrefix(buf', buf, end, p + 6, p + 8);
    SliceOfPrefix(buf', buf, end, p + 8, p + 10);
    SliceOfPrefix(buf', buf, end, p + 4, p + JOURNAL_HEADER + |e.payload|);
    SliceOfPrefix(buf', buf, end, p + JOURNAL_HEADER, p + JOURNAL_HEADER + |e.payload|);
    PaddingKept(buf, buf', e, end);
    hide Padded, Align16;
    assert buf'[p + 10] == buf'[..end][p + 10] == buf[p + 10];
  }

  lemma PaddingKept(buf: seq<byte>, buf': seq<byte>, e: JEntry, end: nat)
    requires Padded(buf, e) && |buf'| == |buf| && end == e.pos + Size(|e.payload|) && buf'[..end] == buf[..end]
    ensures Padded(buf', e)
  {
    hide Align16;
    SliceOfPrefix(buf', buf, end, e.pos + 11, e.pos + 16);
    forall i | e.pos + JOURNAL_HEADER + |e.payload| <= i < end
      ensures buf'[i] == 0
    {
      assert buf'[i] == buf'[..end][i] == buf[..end][i] == buf[i];
    }
  }

  /** The offsets of the entries before the commit entry. */
  function Offsets(base: nat, log: seq<JEntry>): (r: seq<nat>)
    ensures |r| == |log| && forall k :: 0 <= k < |log| ==> r[k] == base + log[k].pos
  {
    seq(|log|, k requires 0 <= k < |log| => base + log[k].pos)
  }

  /** What deflate did with the data of one entry: whether it succeeded, and what it left in the
      output area. Success means the output is shorter than the data. */
  datatype Zip = Zip(ok: bool, out: seq<byte>)

  /** A compressor and the matching decompressor: the output stays within its space, success means
      that it is shorter than the data, and then it can be unpacked again. */
  ghost predicate Codec(deflate: (seq<byte>, nat) -> Zip, inflate: seq<byte> -> seq<byte>) {
    forall data, max {:trigger deflate(data, max)} ::
      |deflate(data, max).out| <= max &&
      (deflate(data, max).ok ==>
         |deflate(data, max).out| < |data| && inflate(deflate(data, max).out) == data)
  }

  /** The space the compressor is given: what is left of the first block, in 32-bit arithmetic. */
  function Space(pos: nat): nat {
    (BLOCKSIZE - pos) % 0x1_0000_0000
  }

  lemma SpaceIs(pos: nat)
    requires pos <= BLOCKSIZE
    ensures Space(pos) == BLOCKSIZE - pos
  {
  }

  lemma Aligned(pos: nat, len: nat)
    requires pos % 16 == 0
    ensures (pos + Size(len)) % 16 == 0
  {
    var a := Align16(len);
    assert pos == 16 * (pos / 16) && a == 16 * (a / 16);
    ModUnique(pos + JOURNAL_HEADER + a, 16, pos / 16 + 1 + a / 16, 0);
  }

  /** The entry `write_je` makes of `data`. */
  function EntryFor(pos: nat, kind: nat, data: seq<byte>, deflate: (seq<byte>, nat) -> Zip): (e: JEntry)
    ensures e.pos == pos && e.kind == kind && e.datalen == |data|
  {
    var z := deflate(data, Space(pos));
    if data == [] then JEntry(pos, kind, 0, 0, [])
    else if z.ok && kind != JE_COMMIT then JEntry(pos, kind, |data|, 1, z.out)
    else JEntry(pos, kind, |data|, 0, data)
  }

  /** The data of an entry, unpacked where necessary. */
  function Content(inflate: seq<byte> -> seq<byte>, e: JEntry): seq<byte> {
    if e.compr == 0 then e.payload else inflate(e.payload)
  }

  /** Whatever the compressor does, a reader gets the data back. */
  lemma EntryCarries(pos: nat, kind: nat, data: seq<byte>, deflate: (seq<byte>, nat) -> Zip,
      inflate: seq<byte> -> seq<byte>)
    requires Codec(deflate, inflate)
    ensures Content(inflate, EntryFor(pos, kind, data, deflate)) == data &&
      |EntryFor(pos, kind, data, deflate).payload| <= |data|
  {
    assert data != [] ==> deflate(data, Space(pos)).ok ==> inflate(deflate(data, Space(pos)).out) == data;
  }

  datatype JRequest = JRequest(kind: nat, data: seq<byte>)

  /** Where the next entry goes; or BUG_ON has fired; or the entry runs over the end of the segment. */
  datatype Layout = Next(pos: nat) | Bug | Beyond

  /** BUG_ON does not fire: there is nothing to store, or it fits uncompressed, or the compressor
      succeeds. */
  predicate HasPlace(deflate: (seq<byte>, nat) -> Zip, pos: nat, kind: nat, data: seq<byte>) {
    data == [] || |data| <= BLOCKSIZE - pos || (kind != JE_COMMIT && deflate(data, Space(pos)).ok)
  }

  /** The end of an entry, if it is within the segment. */
  function At(end: nat, limit: nat): (r: Layout)
    ensures if end <= limit then r == Next(end) else r == Beyond
  {
    if end > limit then Beyond else Next(end)
  }

  function Append(deflate: (seq<byte>, nat) -> Zip, limit: nat, pos: nat, kind: nat, data: seq<byte>): Layout {
    if !HasPlace(deflate, pos, kind, data) then Bug
    else At(pos + Size(|EntryFor(pos, kind, data, deflate).payload|), limit)
  }

  /** The layout after the first `n` requests. */
  function LayOut(deflate: (seq<byte>, nat) -> Zip, limit: nat, reqs: seq<JRequest>, n: nat): Layout
    requires n <= |reqs|
  {
    if n == 0 then Next(32) else
      match LayOut(deflate, limit, reqs, n - 1)
      case Next(pos) => Append(deflate, limit, pos, reqs[n - 1].kind, reqs[n - 1].data)
      case stuck => stuck
  }

  /** The layout with the commit entry, which has 8 bytes for every other entry. */
  function JournalLayout(deflate: (seq<byte>, nat) -> Zip, limit: nat, reqs: seq<JRequest>): Layout {
    match LayOut(deflate, limit, reqs, |reqs|)
    case Next(pos) => Append(deflate, limit, pos, JE_COMMIT, seq(8 * |reqs|, _ => 0))
    case stuck => stuck
  }

  lemma {:induction false} LayOutStuck(deflate: (seq<byte>, nat) -> Zip, limit: nat, reqs: seq<JRequest>, n: nat,
      m: nat)
    requires n <= m <= |reqs| && !LayOut(deflate, limit, reqs, n).Next?
    ensures LayOut(deflate, limit, reqs, m) == LayOut(deflate, limit, reqs, n)
  {
    if n < m {
      LayOutStuck(deflate, limit, reqs, n, m - 1);
    }
  }

  /** How much room the data of the first `n` requests takes at most. */
  function RoomFor(reqs: seq<JRequest>, n: nat): nat
    requires n <= |reqs|
  {
    if n == 0 then 0 else RoomFor(reqs, n - 1) + Size(|reqs[n - 1].data|)
  }

  lemma SizeMono(a: nat, b: nat)
    requires a <= b
    ensures Size(a) <= Size(b)
  {
  }

  lemma {:induction false} LayOutRoom(deflate: (seq<byte>, nat) -> Zip, inflate: seq<byte> -> seq<byte>, limit: nat,
      reqs: seq<JRequest>, n: nat)
    requires Codec(deflate, inflate) && n <= |reqs| && BLOCKSIZE <= limit && 32 + RoomFor(reqs, n) <= BLOCKSIZE
    ensures LayOut(deflate, limit, reqs, n).Next? && LayOut(deflate, limit, reqs, n).pos <= 32 + RoomFor(reqs, n)
  {
    if n > 0 {
      hide EntryFor, Codec, Space, Align16;
      LayOutRoom(deflate, inflate, limit, reqs, n - 1);
      var pos := LayOut(deflate, limit, reqs, n - 1).pos;
      EntryCarries(pos, reqs[n - 1].kind, reqs[n - 1].data, deflate, inflate);
      SizeMono(|EntryFor(pos, reqs[n - 1].kind, reqs[n - 1].data, deflate).payload|, |reqs[n - 1].data|);
      EntrySize(reqs[n - 1].data);
    }
  }

  /** Entries that fit the first block uncompressed, with the commit entry, are never refused:
      compression does not make an entry larger. */
  lemma SmallJournal(deflate: (seq<byte>, nat) -> Zip, inflate: seq<byte> -> seq<byte>, limit: nat, reqs: seq<JRequest>)
    requires Codec(deflate, inflate) && BLOCKSIZE + JOURNAL_HEADER <= limit &&
      32 + RoomFor(reqs, |reqs|) + 8 * |reqs| <= BLOCKSIZE
    ensures JournalLayout(deflate, limit, reqs).Next?
  {
    LayOutRoom(deflate, inflate, limit, reqs, |reqs|);
    var pos := LayOut(deflate, limit, reqs, |reqs|).pos;
    var data: seq<byte> := seq(8 * |reqs|, _ => 0);
    EntryCarries(pos, JE_COMMIT, data, deflate, inflate);
    EndsAligned(deflate, limit, reqs, |reqs|);
    hide Codec;
    EntryFits(pos, |data|);
  }

  lemma {:induction false} EndsAligned(deflate: (seq<byte>, nat) -> Zip, limit: nat, reqs: seq<JRequest>, n: nat)
    requires n <= |reqs| && LayOut(deflate, limit, reqs, n).Next?
    ensures LayOut(deflate, limit, reqs, n).pos % 16 == 0
  {
    if n > 0 {
      hide EntryFor, Size, HasPlace;
      EndsAligned(deflate, limit, reqs, n - 1);
      var pos := LayOut(deflate, limit, reqs, n - 1).pos;
      Aligned(pos, |EntryFor(pos, reqs[n - 1].kind, reqs[n - 1].data, deflate).payload|);
    }
  }

  /** The bytes of an entry: checksum, header, stored bytes, padding. */
  function EntryBytes(crc: seq<byte> -> nat, e: JEntry): (s: seq<byte>)
    ensures |s| == Size(|e.payload|)
  {
    var rest := JHeader(e.kind, |e.payload|, e.datalen, e.compr) + e.payload;
    Be(crc(rest), 4) + rest + seq(Align16(|e.payload|) - |e.payload|, _ => 0)
  }

  lemma HeaderReadsBack(kind: nat, len: nat, datalen: nat, compr: byte)
    requires kind < 0x1_0000 && len < 0x1_0000 && datalen < 0x1_0000
    ensures var h := JHeader(kind, len, datalen, compr);
            FromBe(h[0..2]) == len && FromBe(h[2..4]) == datalen && FromBe(h[4..6]) == kind && h[6] == compr &&
            h[7..12] == [0x68, 0x65, 0x61, 0x64, 0x72]
  {
    hide Be, FromBe, Pow;
    Be2(len);
    Be2(datalen);
    Be2(kind);
    var h := JHeader(kind, len, datalen, compr);
    assert h[0..2] == Be(len, 2);
    assert h[2..4] == Be(datalen, 2);
    assert h[4..6] == Be(kind, 2);
  }

  /** Where the fields of an entry stored at `p` are. */
  lemma EntrySlices(buf: seq<byte>, p: nat, s: seq<byte>, n: nat)
    requires p + |s| <= |buf| && buf[p..p + |s|] == s && JOURNAL_HEADER + n <= |s|
    ensures buf[p..p + 4] == s[0..4] && buf[p + 4..p + 6] == s[4..6] && buf[p + 6..p + 8] == s[6..8] &&
      buf[p + 8..p + 10] == s[8..10]
    ensures buf[p + 10] == s[10] && buf[p + 4..p + JOURNAL_HEADER + n] == s[4..JOURNAL_HEADER + n]
    ensures buf[p + JOURNAL_HEADER..p + JOURNAL_HEADER + n] == s[JOURNAL_HEADER..JOURNAL_HEADER + n]
    ensures buf[p + 11..p + 16] == s[11..16]
  {
    SliceOfSlice(buf, p, p + |s|, 11, 16);
    SliceOfSlice(buf, p, p + |s|, 0, 4);
    SliceOfSlice(buf, p, p + |s|, 4, 6);
    SliceOfSlice(buf, p, p + |s|, 6, 8);
    SliceOfSlice(buf, p, p + |s|, 8, 10);
    SliceOfSlice(buf, p, p + |s|, 4, JOURNAL_HEADER + n);
    SliceOfSlice(buf, p, p + |s|, JOURNAL_HEADER, JOURNAL_HEADER + n);
    assert buf[p + 10] == buf[p..p + |s|][10];
  }

  /** The fields of an entry with these bytes. */
  lemma EntryFields(crc: seq<byte> -> nat, e: JEntry)
    requires e.kind < 0x1_0000 && |e.payload| < 0x1_0000 && e.datalen < 0x1_0000
    ensures var s, n := EntryBytes(crc, e), |e.payload|;
            && s[0..4] == Be(crc(s[4..JOURNAL_HEADER + n]), 4)
            && FromBe(s[4..6]) == n && FromBe(s[6..8]) == e.datalen && FromBe(s[8..10]) == e.kind && s[10] == e.compr
            && s[JOURNAL_HEADER..JOURNAL_HEADER + n] == e.payload
            && s[11..16] == [0x68, 0x65, 0x61, 0x64, 0x72]
            && forall i :: JOURNAL_HEADER + n <= i < |s| ==> s[i] == 0
  {
    hide JHeader, FromBe, EntryBytes, Be, Size;
    EntrySize(e.payload);
    HeaderReadsBack(e.kind, |e.payload|, e.datalen, e.compr);
    EntryParts(crc, e);
  }

  lemma EntryStored(buf: seq<byte>, crc: seq<byte> -> nat, e: JEntry)
    requires e.kind < 0x1_0000 && |e.payload| < 0x1_0000 && e.datalen < 0x1_0000
    requires e.pos + Size(|e.payload|) <= |buf| && buf[e.pos..e.pos + Size(|e.payload|)] == EntryBytes(crc, e)
    ensures StoredAt(crc, buf, e)
  {
    hide FromBe, EntryBytes, Be, Size, Align16;
    EntrySize(e.payload);
    EntryFields(crc, e);
    EntrySlices(buf, e.pos, EntryBytes(crc, e), |e.payload|);
    EntryPadded(buf, e, EntryBytes(crc, e));
    hide Padded;
  }

  lemma EntryPadded(buf: seq<byte>, e: JEntry, s: seq<byte>)
    requires |s| == Size(|e.payload|) && e.pos + |s| <= |buf| && buf[e.pos..e.pos + |s|] == s
    requires s[11..16] == [0x68, 0x65, 0x61, 0x64, 0x72] && buf[e.pos + 11..e.pos + 16] == s[11..16]
    requires forall i :: JOURNAL_HEADER + |e.payload| <= i < |s| ==> s[i] == 0
    ensures Padded(buf, e)
  {
    hide Align16;
    forall i | e.pos + JOURNAL_HEADER + |e.payload| <= i < e.pos + |s|
      ensures buf[i] == 0
    {
      assert buf[i] == buf[e.pos..e.pos + |s|][i - e.pos];
    }
  }

  lemma EntryParts(crc: seq<byte> -> nat, e: JEntry)
    ensures var s, h, n := EntryBytes(crc, e), JHeader(e.kind, |e.payload|, e.datalen, e.compr), |e.payload|;
            && s[0..4] == Be(crc(s[4..JOURNAL_HEADER + n]), 4)
            && s[4..6] == h[0..2] && s[6..8] == h[2..4] && s[8..10] == h[4..6] && s[10] == h[6]
            && s[JOURNAL_HEADER..JOURNAL_HEADER + n] == e.payload && s[11..16] == h[7..12]
            && forall i :: JOURNAL_HEADER + n <= i < |s| ==> s[i] == 0
  {
    hide JHeader, Be;
    var s, h, n := EntryBytes(crc, e), JHeader(e.kind, |e.payload|, e.datalen, e.compr), |e.payload|;
    var rest := h + e.payload;
    assert s[4..JOURNAL_HEADER + n] == rest;
  }

  /** An entry that starts within the first block ends one header behind it at the latest. */
  lemma EntryFits(pos: nat, len: nat)
    requires pos % 16 == 0 && pos <= BLOCKSIZE && len <= BLOCKSIZE - pos
    ensures pos + Size(len) <= BLOCKSIZE + JOURNAL_HEADER && (pos + Size(len)) % 16 == 0
  {
  }

  /** The header of a journal segment: type 2, level 0, erase count 0. */
  function JournalSegHeader(crc: seq<byte> -> nat, segno: nat): (h: seq<byte>)
    ensures |h| == SEG_HEADER
  {
    var body := [0, 0, 2, 0] + Be(segno, 4) + Be(0, 4) + Be(segno, 8);
    Be(crc(body), 4) + body
  }

  lemma JournalHeaderReadsBack(crc: seq<byte> -> nat, segno: nat)
    requires segno < 0x1_0000_0000
    ensures SegmentTells(crc, JournalSegHeader(crc, segno), 2, 0, segno, 0)
  {
    hide Be, FromBe;
    var s, e, g := Be(segno, 4), Be(0, 4), Be(segno, 8);
    var body: seq<byte> := [0, 0, 2, 0] + s + e + g;
    Be4(segno);
    Be4(0);
    Be8(segno);
    Be4(crc(body));
    SegParts(Be(crc(body), 4), 2, 0, s, e, g);
    assert JournalSegHeader(crc, segno) == Be(crc(body), 4) + body;
    hide JournalSegHeader;
  }

  class Writer {
    const crc: seq<byte> -> nat
    const deflate: (seq<byte>, nat) -> Zip
    ghost const inflate: seq<byte> -> seq<byte>
    const segno: nat
    const base: nat           // offset of the journal segment
    const buf: array<byte>    // the segment being put together
    var jeArray: seq<nat>     // je_array, no_je
    ghost var log: seq<JEntry>

    constructor (segsize: nat, segno: nat, crc: seq<byte> -> nat, deflate: (seq<byte>, nat) -> Zip,
        ghost inflate: seq<byte> -> seq<byte>)
      requires BLOCKSIZE + JOURNAL_HEADER <= segsize && Codec(deflate, inflate)
      ensures Valid(32) && log == [] && jeArray == [] && fresh(buf) && buf.Length == segsize
      ensures this.segno == segno && base == segno * segsize && this.crc == crc && this.deflate == deflate &&
        this.inflate == inflate
    {
      this.segno, this.crc, this.deflate, this.inflate, base := segno, crc, deflate, inflate, segno * segsize;
      var b := new byte[segsize](_ => 0);
      buf := b;
      jeArray, log := [], [];
      new;
      Blit(b, 0, JournalSegHeader(crc, segno));
      hide JournalSegHeader, Codec;
    }

    /** The journal is written up to `jpos`; it starts behind the segment header. */
    ghost predicate Valid(jpos: nat)
      reads this, buf
    {
      && BLOCKSIZE + JOURNAL_HEADER <= buf.Length && 32 <= jpos && jpos % 16 == 0 && Codec(deflate, inflate)
      && buf[..SEG_HEADER] == JournalSegHeader(crc, segno)
      && Chain(crc, buf[..], 32, log, jpos) && jeArray == Offsets(base, log)
    }

    /** The bytes of an entry are put into the buffer, whatever the compressor left behind it. */
    method PutEntry(jpos: nat, e: JEntry, out: seq<byte>)
      requires Valid(jpos) && e.pos == jpos && jpos + JOURNAL_HEADER + |out| <= buf.Length &&
        jpos + Size(|e.payload|) <= buf.Length
      requires e.kind < 0x1_0000 && e.datalen < 0x1_0000 && |e.payload| < 0x1_0000
      modifies buf
      ensures buf[..SEG_HEADER] == old(buf[..SEG_HEADER]) &&
        Chain(crc, buf[..], 32, log + [e], jpos + Size(|e.payload|))
    {
      hide Chain, EntryBytes, StoredAt, Size, JournalSegHeader, Codec;
      EntrySize(e.payload);
      ghost var b := buf[..];
      Blit(buf, jpos + JOURNAL_HEADER, out);
      var bytes := EntryBytes(crc, e);
      Blit(buf, jpos, bytes);
      assert buf[..][..jpos] == b[..jpos];
      assert buf[..SEG_HEADER] == buf[..][..jpos][..SEG_HEADER] == b[..jpos][..SEG_HEADER] == b[..SEG_HEADER];
      assert buf[..][jpos..jpos + |bytes|] == bytes;
      ChainKept(crc, b, buf[..], 32, log, jpos);
      EntryStored(buf[..], crc, e);
      ChainMore(crc, buf[..], 32, log, jpos, e);
    }

    /** What the compressor leaves in the segment fits there whenever the entry does. */
    lemma LeftOver(jpos: nat, kind: nat, data: seq<byte>)
      requires Valid(jpos) && Append(deflate, buf.Length, jpos, kind, data).Next? && |data| <= 2 * BLOCKSIZE
      ensures var e := EntryFor(jpos, kind, data, deflate);
        |e.payload| <= |data| && jpos + Size(|e.payload|) <= buf.Length
      ensures jpos + JOURNAL_HEADER + |LeftOut(jpos, kind, data)| <= buf.Length
      ensures (jpos + Size(|EntryFor(jpos, kind, data, deflate).payload|)) % 16 == 0
    {
      hide Space, Size, Chain, JournalSegHeader;
      EntryCarries(jpos, kind, data, deflate, inflate);
      EntrySize(EntryFor(jpos, kind, data, deflate).payload);
      Aligned(jpos, |EntryFor(jpos, kind, data, deflate).payload|);
      assert |deflate(data, Space(jpos)).out| <= Space(jpos);
      if jpos <= BLOCKSIZE {
        SpaceIs(jpos);
      }
      hide Codec;
    }

    /** What the compressor wrote into the segment. */
    function LeftOut(jpos: nat, kind: nat, data: seq<byte>): seq<byte> {
      if data == [] then [] else deflate(data, Space(jpos)).out
    }

    /** `write_je` with the data its callback delivered. The compressor is given what is left of the
        first block, in 32 bits; BUG_ON fires when it fails and the data does not fit there. What is
        stored is its output, or the data itself. */
    method WriteJe(jpos: nat, kind: nat, data: seq<byte>) returns (r: Layout)
      requires Valid(jpos) && kind < 0x1_0000 && kind != JE_COMMIT && |data| <= 2 * BLOCKSIZE
      modifies this, buf
      ensures r == Append(deflate, buf.Length, jpos, kind, data)
      ensures var z := deflate(data, (4096 - jpos) % 0x1_0000_0000);
        r.Bug? <==> data != [] && !z.ok && |data| > 4096 - jpos
      ensures var z := deflate(data, (4096 - jpos) % 0x1_0000_0000);
        var packed := data != [] && z.ok;
        !r.Bug? ==> r == At(jpos + 16 + Align16(if packed then |z.out| else |data|), buf.Length)
      ensures var z := deflate(data, (4096 - jpos) % 0x1_0000_0000);
        r.Next? ==> log == old(log) + [if data != [] && z.ok then JEntry(jpos, kind, |data|, 1, z.out)
                                       else JEntry(jpos, kind, |data|, 0, data)]
      ensures r.Next? ==> Valid(r.pos) && log == old(log) + [EntryFor(jpos, kind, data, deflate)]
    {
      hide Chain, Align16, JournalSegHeader, Codec;
      ghost var before := log;
      var e, out := JEntry(jpos, kind, |data|, 0, data), [];
      if data != [] {
        var z := deflate(data, Space(jpos));
        out := z.out;
        if z.ok {
          e := JEntry(jpos, kind, |data|, 1, z.out);
        } else if |data| > BLOCKSIZE - jpos {
          return Bug;
        }
      }
      assert e == EntryFor(jpos, kind, data, deflate) && out == LeftOut(jpos, kind, data);
      r := At(jpos + Size(|e.payload|), buf.Length);
      if !r.Next? {
        return;
      }
      hide Size, EntryFor, LeftOut;
      LeftOver(jpos, kind, data);
      PutEntry(jpos, e, out);
      jeArray := jeArray + [base + jpos];
      log := log + [e];
      assert Offsets(base, log) == Offsets(base, before) + [base + jpos];
    }

    /** `write_je` with `je_commit`: the offsets of all entries before it, never compressed. */
    method WriteCommit(jpos: nat) returns (r: Layout)
      requires Valid(jpos) && 8 * |log| < 0x1_0000
      modifies buf
      ensures r == Append(deflate, buf.Length, jpos, JE_COMMIT, Blocks.Payload(Offsets(base, log)))
      ensures r.Bug? <==> log != [] && 8 * |log| > 4096 - jpos
      ensures !r.Bug? ==> r == At(jpos + 16 + Align16(8 * |log|), buf.Length)
      ensures r.Next? ==> buf[..SEG_HEADER] == JournalSegHeader(crc, segno)
      ensures r.Next? ==>
        Chain(crc, buf[..], 32,
              log + [JEntry(jpos, JE_COMMIT, 8 * |log|, 0, Blocks.Payload(Offsets(base, log)))], r.pos)
      ensures r.Next? ==>
        Chain(crc, buf[..], 32, log + [EntryFor(jpos, JE_COMMIT, Blocks.Payload(Offsets(base, log)), deflate)], r.pos)
    {
      hide Chain, Align16, JournalSegHeader, Codec;
      var data := Blocks.Payload(jeArray);
      var e, out := JEntry(jpos, JE_COMMIT, |data|, 0, data), [];
      if data != [] {
        out := deflate(data, Space(jpos)).out;
        if |data| > BLOCKSIZE - jpos {
          return Bug;
        }
      }
      assert e == EntryFor(jpos, JE_COMMIT, data, deflate) && out == LeftOut(jpos, JE_COMMIT, data);
      r := At(jpos + Size(|e.payload|), buf.Length);
      if r.Next? {
        hide Size, EntryFor, LeftOut;
        CommitRoom(jpos, data);
        PutEntry(jpos, e, out);
      }
    }

    /** A commit entry with data starts within the first block. */
    lemma CommitRoom(jpos: nat, data: seq<byte>)
      requires Valid(jpos) && Append(deflate, buf.Length, jpos, JE_COMMIT, data).Next? && |data| < 0x1_0000
      ensures var e := EntryFor(jpos, JE_COMMIT, data, deflate);
        |e.payload| == |data| && jpos + Size(|e.payload|) <= buf.Length
      ensures jpos + JOURNAL_HEADER + |LeftOut(jpos, JE_COMMIT, data)| <= buf.Length
    {
      hide Space, Align16, Chain, JournalSegHeader;
      assert |deflate(data, Space(jpos)).out| <= Space(jpos);
      if jpos <= BLOCKSIZE {
        SpaceIs(jpos);
      }
      hide Codec;
    }

    /** The first entries hold the first requests. */
    ghost predicate Holds(reqs: seq<JRequest>)
      reads this
    {
      |log| <= |reqs| && forall k {:trigger log[k]} :: 0 <= k < |log| ==>
          log[k] == EntryFor(log[k].pos, reqs[k].kind, reqs[k].data, deflate)
    }

    /** Any sequence of entries and a commit entry: a reader that steps from header to header finds
        exactly these entries, and the commit entry lists the offsets of the others in order. It ends
        early exactly where BUG_ON fires or an entry runs over the end of the segment; what the latter
        overwrites is not part of this model. */
    method WriteJournal(reqs: seq<JRequest>) returns (r: Layout)
      requires Valid(32) && log == [] && 8 * |reqs| < 0x1_0000
      requires forall k :: 0 <= k < |reqs| ==>
        reqs[k].kind < 0x1_0000 && reqs[k].kind != JE_COMMIT && |reqs[k].data| <= 2 * BLOCKSIZE
      modifies this, buf
      ensures r == JournalLayout(deflate, buf.Length, reqs)
      ensures r.Next? ==> r.pos <= buf.Length && Scan(buf[..], 32, r.pos) == log && |log| == |reqs| + 1
      ensures r.Next? ==> forall k :: 0 <= k < |reqs| ==>
        log[k] == EntryFor(log[k].pos, reqs[k].kind, reqs[k].data, deflate)
      ensures r.Next? ==>
        log[|reqs|] == EntryFor(log[|reqs|].pos, JE_COMMIT, Blocks.Payload(Offsets(base, log[..|reqs|])), deflate)
      ensures r.Next? ==> buf[..SEG_HEADER] == JournalSegHeader(crc, segno) && forall k {:trigger log[k]} ::
        0 <= k < |log| ==> Checked(crc, buf[..], log[k])
    {
      hide Chain, Scan, Checked, Size, EntryFor, Offsets, Append, JournalSegHeader, Codec;
      r := Next(32);
      var i := 0;
      while i < |reqs|
        invariant i == |log| <= |reqs| && r.Next? && r == LayOut(deflate, buf.Length, reqs, i)
        invariant Valid(r.pos) && Holds(reqs)
      {
        r := WriteJe(r.pos, reqs[i].kind, reqs[i].data);
        if !r.Next? {
          LayOutStuck(deflate, buf.Length, reqs, i + 1, |reqs|);
          return;
        }
        i := i + 1;
      }
      ghost var data := Blocks.Payload(Offsets(base, log));
      ghost var before := log;
      var jpos := r.pos;
      r := WriteCommit(jpos);
      CommitLength(deflate, buf.Length, jpos, data, seq(8 * |reqs|, _ => 0));
      if r.Next? {
        log := log + [EntryFor(jpos, JE_COMMIT, data, deflate)];
        assert log[..|reqs|] == before;
        ChainScan(crc, buf[..], 32, log, r.pos, r.pos);
        ChainChecked(crc, buf[..], 32, log, r.pos);
        ScanEnd(buf[..], r.pos);
        assert log + [] == log;
        NextWithin(deflate, buf.Length, jpos, JE_COMMIT, data);
      }
    }

    lemma NextWithin(deflate: (seq<byte>, nat) -> Zip, limit: nat, pos: nat, kind: nat, data: seq<byte>)
      requires Append(deflate, limit, pos, kind, data).Next?
      ensures Append(deflate, limit, pos, kind, data).pos <= limit
    {
    }
  }

  /** Only the length of the commit data matters for its place. */
  lemma CommitLength(deflate: (seq<byte>, nat) -> Zip, limit: nat, pos: nat, a: seq<byte>, b: seq<byte>)
    requires |a| == |b|
    ensures Append(deflate, limit, pos, JE_COMMIT, a) == Append(deflate, limit, pos, JE_COMMIT, b)
  {
  }

  lemma EntrySize(payload: seq<byte>)
    ensures Size(|payload|) >= JOURNAL_HEADER + |payload|
  {
  }

  lemma ChainMore(crc: seq<byte> -> nat, buf: seq<byte>, start: nat, log: seq<JEntry>, pos: nat, e: JEntry)
    requires Chain(crc, buf, start, log, pos) && StoredAt(crc, buf, e) && e.pos == pos
    ensures Chain(crc, buf, start, log + [e], pos + Size(|e.payload|))
  {
    assert (log + [e])[..|log|] == log;
  }

  lemma ScanEnd(buf: seq<byte>, end: nat)
    ensures Scan(buf, end, end) == []
  {
  }
}
