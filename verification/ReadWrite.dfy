/** readwrite.c: data blocks go to the medium at once, their pointers into per-level trees of
    indirect blocks, which a flush writes from the bottom up. */
module ReadWrite {
  import opened Bytes
  import opened Disk
  import opened Segments
  import opened Index
  import opened Blocks

  const I0_BLOCKS: nat := 16
  const INDIRECT_INDEX: nat := 16

  /** `maxbix`, a 64-bit shift. */
  function MaxBix(height: nat): nat {
    Pow(2, 9 * height) % Pow64()
  }

  lemma MaxBixIs(height: nat)
    requires height <= 7
    ensures MaxBix(height) == Pow(FACTOR, height)
  {
    hide Pow, Quot, Shr;
    ShiftIsQuot(0, height);
    PowMono(height, 7);
    PowSeven();
    ModUnique(Pow(FACTOR, height), Pow64(), 0, Pow(FACTOR, height));
  }

  lemma PowSeven()
    ensures Pow(FACTOR, 7) == 0x8000_0000_0000_0000
  {
    PowFactor();
    assert Pow(FACTOR, 4) == FACTOR * Pow(FACTOR, 3);
    assert Pow(FACTOR, 5) == FACTOR * Pow(FACTOR, 4);
    assert Pow(FACTOR, 6) == FACTOR * Pow(FACTOR, 5);
    assert Pow(FACTOR, 7) == FACTOR * Pow(FACTOR, 6);
  }

  lemma PowFactor()
    ensures Pow(FACTOR, 0) == 1 && Pow(FACTOR, 1) == 512 && Pow(FACTOR, 2) == 0x4_0000 && Pow(FACTOR, 3) == 0x800_0000
  {
    assert Pow(FACTOR, 1) == FACTOR * Pow(FACTOR, 0);
    assert Pow(FACTOR, 2) == FACTOR * Pow(FACTOR, 1);
    assert Pow(FACTOR, 3) == FACTOR * Pow(FACTOR, 2);
  }

  /** The indirect blocks among the written ones. */
  ghost function Ind(last: map<nat, nat>): map<nat, nat> {
    map b | b in last && I0_BLOCKS <= b :: last[b]
  }

  /** Bytes were charged to inode `ino` alone. */
  ghost predicate ChargedTo(used: map<nat, nat>, used': map<nat, nat>, ino: nat) {
    forall i {:trigger i in used'} {:trigger used'[i]} :: i != ino ==>
        (i in used' <==> i in used) && (i in used ==> used'[i] == used[i])
  }

  lemma ChargedOne(used: map<nat, nat>, o: Object)
    ensures ChargedTo(used, Charged(used, o), o.ino) && ChargedTo(used, used, o.ino)
  {
  }

  lemma ChargedTwice(a: map<nat, nat>, b: map<nat, nat>, c: map<nat, nat>, ino: nat)
    requires ChargedTo(a, b, ino) && ChargedTo(b, c, ino)
    ensures ChargedTo(a, c, ino)
  {
  }

  /** The height is the smallest one `grow_inode` is content with. */
  ghost predicate HeightOk(height: nat, ind: map<nat, nat>) {
    && height <= 7
    && (forall b :: b in ind ==> b <= Pow(FACTOR, height))
    && (height == 0 ==> ind == map[])
    && (height > 0 ==> exists b :: b in ind && Pow(FACTOR, height - 1) < b)
  }

  /** Every written block is on the medium as it was last handed over. */
  ghost predicate SentOk(objs: map<nat, Object>, last: map<nat, nat>, sent: map<nat, Object>) {
    && sent.Keys == last.Keys
    && forall b {:trigger last[b]} {:trigger b in last} :: b in last ==>
        0 < last[b] < 0x1_0000_0000 && last[b] in objs && objs[last[b]] == sent[b]
  }

  ghost predicate DirectOk(data: seq<nat>, last: map<nat, nat>) {
    |data| == I0_BLOCKS + 1 && forall b {:trigger data[b]} :: 0 <= b < I0_BLOCKS ==> data[b] == Last(last, b)
  }

  /** Trees of a file while level `l` is being moved up. */
  ghost predicate Draining(objs: map<nat, Object>, ino: nat, trees: seq<Tree>, l: nat, ind: map<nat, nat>) {
    && |trees| == LEVELS && 0 < l && l + 1 < LEVELS
    && Split(objs, ino, trees[l], trees[l + 1], l, ind)
    && forall j {:trigger trees[j]} :: 1 <= j < LEVELS && j != l && j != l + 1 ==> trees[j] == map[]
  }

  /** `btree_last64` on a tree of blocks: the largest key, 0 for the empty tree. */
  method Last64(tree: Tree) returns (k: nat)
    ensures tree == map[] ==> k == 0
    ensures tree != map[] ==> k in tree && forall x :: x in tree ==> x <= k
  {
    k := 0;
    var todo := tree.Keys;
    while todo != {}
      invariant todo <= tree.Keys
      invariant if todo == tree.Keys then k == 0 else k in tree
      invariant forall x :: x in tree && x !in todo ==> x <= k
      decreases |todo|
    {
      var x :| x in todo;
      if todo == tree.Keys || x > k {
        k := x;
      }
      todo := todo - {x};
    }
    assert tree != map[] ==> tree.Keys != {};
  }

  lemma IsAdded(objs: map<nat, Object>, objs': map<nat, Object>, o: Object, ofs: nat)
    requires AddedAt(objs, objs', o, ofs) && ofs < 0x1_0000_0000
    ensures Added(objs, objs', o, ofs)
  {
  }

  lemma TroubleSum(sb: Super)
    ensures sb.Trouble() == sb.Faults() + sb.wraps
    ensures sb.Faults() == sb.dev.failed + sb.calloc.refused + if sb.lastseg > sb.noSegs then 1 else 0
  {
  }

  class File {
    const ino: nat
    var tree: seq<Tree>   // block_tree
    var height: nat       // di_height
    var data: seq<nat>    // di_data
    ghost var last: map<nat, nat>     // block index -> offset of its last write
    ghost var sent: map<nat, Object>  // block index -> what was last written

    constructor (ino: nat)
      ensures Ready(map[]) && last == map[] && sent == map[] && this.ino == ino
    {
      this.ino := ino;
      tree, height, data := seq(LEVELS, _ => map[]), 0, seq(I0_BLOCKS + 1, _ => 0);
      last, sent := map[], map[];
      new;
      assert Ind(last) == map[];
    }

    /** Data blocks were written, nothing was flushed yet. */
    ghost predicate Ready(objs: map<nat, Object>)
      reads this
    {
      && Draining(objs, ino, tree, 1, Ind(last)) && tree[2] == map[]
      && HeightOk(height, Ind(last)) && DirectOk(data, last) && SentOk(objs, last, sent) && data[INDIRECT_INDEX] == 0
    }

    /** `grow_inode`, for all indices its 64-bit shift can deal with. */
    method GrowInode(bix: nat, level: nat)
      requires level == 0 ==> height <= 7 && bix <= Pow(FACTOR, 7)
      modifies this`height
      ensures level != 0 ==> height == old(height)
      ensures level == 0 ==> old(height) <= height <= 7 && bix <= Pow(FACTOR, height)
      ensures level == 0 && height != old(height) ==> Pow(FACTOR, height - 1) < bix
    {
      if level != 0 {
        return;
      }
      MaxBixIs(height);
      while bix > MaxBix(height)
        invariant old(height) <= height <= 7 && MaxBix(height) == Pow(FACTOR, height)
        invariant height != old(height) ==> Pow(FACTOR, height - 1) < bix
        decreases 7 - height
      {
        height := height + 1;
        MaxBixIs(height);
      }
    }

    /** `write_loop`: the object goes to the medium, its offset into the block one level up. */
    method WriteLoop(sb: Super, bix: nat, level: nat, kind: Kind, buf: seq<byte>) returns (err: bool, ghost ofs: nat)
      requires sb.Good() && level + 1 <= 3 && |buf| == ObjLen(kind) && |tree| == LEVELS
      requires Canon(bix, level + 1) in tree[level + 1] ==> |tree[level + 1][Canon(bix, level + 1)]| == FACTOR
      modifies this`tree, sb, sb.dev, sb.calloc, sb.area, sb.Bufs()
      ensures fresh(sb.Bufs() - old(sb.Bufs()))
      ensures sb.Trouble() == old(sb.Trouble()) + if err then 1 else 0
      ensures !err ==> sb.Good() && Added(old(sb.objs), sb.objs, Object(kind, ino, bix, level, buf), ofs)
      ensures !err ==>
        ChargedTo(old(sb.used), sb.used, ino) && WellPlaced(sb.crc, old(sb.Snap()), sb.Snap(), AreaIndex(ino, level),
        ofs)
      ensures !err ==>
        tree == old(tree)[level + 1 := Enter(old(tree)[level + 1], Canon(bix, level + 1), Digit(bix, level), ofs)]
    {
      hide sb.Trouble, sb.Faults, sb.Good, sb.Valid, sb.Snap, Added, AddedAt, WellPlaced, Kept, StillLogged, Canon,
          Digit, GetBits, Or, BixMask, ChargedTo, Charged;
      ofs := 0;
      TroubleSum(sb);
      MaskIsCanon(bix, level + 1);
      GetBitsIsDigit(bix, level);
      var parent := Or(bix, BixMask(level + 1));
      var iblock := ZeroBlock();
      if parent in tree[level + 1] {
        iblock := tree[level + 1][parent];
      } else {
        var no := sb.calloc.Refuses();
        if no {
          TroubleSum(sb);
          return true, 0;
        }
      }
      TroubleSum(sb);
      var r;
      ghost var pos;
      r, pos := sb.SegmentWrite(Object(kind, ino, bix, level, buf));
      TroubleSum(sb);
      if !r.Done? {
        return true, 0;
      }
      IsAdded(old(sb.objs), sb.objs, Object(kind, ino, bix, level, buf), pos);
      ofs := r.ofs;
      ChargedOne(old(sb.used), Object(kind, ino, bix, level, buf));
      tree := tree[level + 1 := tree[level + 1][parent := iblock[GetBits(bix, level, 9) := r.ofs]]];
      return false, ofs;
    }

    /** `write_direct`. */
    method WriteDirect(sb: Super, bix: nat, kind: Kind, buf: seq<byte>) returns (err: bool, ghost ofs: nat)
      requires sb.Good() && |buf| == ObjLen(kind) && bix < I0_BLOCKS && |data| == I0_BLOCKS + 1
      modifies this`data, sb, sb.dev, sb.calloc, sb.area, sb.Bufs()
      ensures fresh(sb.Bufs() - old(sb.Bufs()))
      ensures sb.Trouble() == old(sb.Trouble()) + if err then 1 else 0
      ensures !err ==>
        sb.Good() && Added(old(sb.objs), sb.objs, Object(kind, ino, bix, 0, buf), ofs) && data == old(data)[bix := ofs]
      ensures !err ==>
        ChargedTo(old(sb.used), sb.used, ino) && WellPlaced(sb.crc, old(sb.Snap()), sb.Snap(), AreaIndex(ino, 0), ofs)
    {
      hide sb.Trouble, sb.Faults, sb.Good, sb.Valid, sb.Snap, Added, AddedAt, WellPlaced, Kept, StillLogged,
          ChargedTo, Charged;
      TroubleSum(sb);
      var r;
      ghost var pos;
      r, pos := sb.SegmentWrite(Object(kind, ino, bix, 0, buf));
      TroubleSum(sb);
      if !r.Done? {
        return true, 0;
      }
      IsAdded(old(sb.objs), sb.objs, Object(kind, ino, bix, 0, buf), pos);
      ChargedOne(old(sb.used), Object(kind, ino, bix, 0, buf));
      data := data[bix := r.ofs];
      return false, r.ofs;
    }

    /** `logfs_file_write` of a data block. It fails only if a write or an allocation failed, the
        segments ran out, or the offset did not fit 32 bits. */
    method Write(sb: Super, bix: nat, kind: Kind, buf: seq<byte>) returns (err: bool)
      requires sb.Good() && Ready(sb.objs) && |buf| == ObjLen(kind) && bix <= Pow(FACTOR, 7)
      modifies this, sb, sb.dev, sb.calloc, sb.area, sb.Bufs()
      ensures fresh(sb.Bufs() - old(sb.Bufs()))
      ensures sb.Trouble() == old(sb.Trouble()) + if err then 1 else 0
      ensures !err ==> sb.Good() && Ready(sb.objs) && Kept(old(sb.objs), sb.objs)
      ensures !err ==> sent == old(sent)[bix := Object(kind, ino, bix, 0, buf)] && last.Keys == old(last).Keys + {bix}
      ensures !err ==>
        ChargedTo(old(sb.used), sb.used, ino) && WellPlaced(sb.crc, old(sb.Snap()), sb.Snap(), AreaIndex(ino, 0),
        last[bix])
    {
      hide sb.Trouble, ChargedTo, sb.Good, sb.Valid, sb.Snap, WellPlaced, Ready, Kept;
      if bix < I0_BLOCKS {
        err := WriteLow(sb, bix, kind, buf);
      } else {
        err := WriteHigh(sb, bix, kind, buf);
      }
    }

    /** The block has a slot in the inode. */
    method WriteLow(sb: Super, bix: nat, kind: Kind, buf: seq<byte>) returns (err: bool)
      requires sb.Good() && Ready(sb.objs) && |buf| == ObjLen(kind) && bix < I0_BLOCKS
      modifies this, sb, sb.dev, sb.calloc, sb.area, sb.Bufs()
      ensures fresh(sb.Bufs() - old(sb.Bufs()))
      ensures sb.Trouble() == old(sb.Trouble()) + if err then 1 else 0
      ensures !err ==> sb.Good() && Ready(sb.objs) && Kept(old(sb.objs), sb.objs)
      ensures !err ==> sent == old(sent)[bix := Object(kind, ino, bix, 0, buf)] && last.Keys == old(last).Keys + {bix}
      ensures !err ==>
        ChargedTo(old(sb.used), sb.used, ino) && WellPlaced(sb.crc, old(sb.Snap()), sb.Snap(), AreaIndex(ino, 0),
        last[bix])
    {
      hide sb.Trouble, sb.Faults, ChargedTo, sb.Good, sb.Valid, sb.Snap, WellPlaced, Added, Draining, HeightOk,
          DirectOk, SentOk, Canon, Digit, Enter, Ind, Kept;
      ghost var o := Object(kind, ino, bix, 0, buf);
      ghost var objs := sb.objs;
      ghost var ofs;
      ReadyShape(objs, bix);
      err, ofs := WriteDirect(sb, bix, kind, buf);
      if !err {
        DirectMore(objs, sb.objs, ino, tree, height, old(data), last, sent, bix, o, ofs);
        last, sent := last[bix := ofs], sent[bix := o];
      }
    }

    /** The block belongs below an indirect one. */
    method WriteHigh(sb: Super, bix: nat, kind: Kind, buf: seq<byte>) returns (err: bool)
      requires sb.Good() && Ready(sb.objs) && |buf| == ObjLen(kind) && I0_BLOCKS <= bix <= Pow(FACTOR, 7)
      modifies this, sb, sb.dev, sb.calloc, sb.area, sb.Bufs()
      ensures fresh(sb.Bufs() - old(sb.Bufs()))
      ensures sb.Trouble() == old(sb.Trouble()) + if err then 1 else 0
      ensures !err ==> sb.Good() && Ready(sb.objs) && Kept(old(sb.objs), sb.objs)
      ensures !err ==> sent == old(sent)[bix := Object(kind, ino, bix, 0, buf)] && last.Keys == old(last).Keys + {bix}
      ensures !err ==>
        ChargedTo(old(sb.used), sb.used, ino) && WellPlaced(sb.crc, old(sb.Snap()), sb.Snap(), AreaIndex(ino, 0),
        last[bix])
    {
      hide sb.Trouble, sb.Faults, ChargedTo, sb.Good, sb.Valid, sb.Snap, WellPlaced, Added, Draining, HeightOk,
          DirectOk, SentOk, Canon, Digit, Enter, Ind, Kept;
      ghost var o := Object(kind, ino, bix, 0, buf);
      ghost var objs := sb.objs;
      ghost var ofs;
      ReadyShape(objs, bix);
      GrowInode(bix, 0);
      err, ofs := WriteLoop(sb, bix, 0, kind, buf);
      if !err {
        IndirectMore(objs, sb.objs, ino, old(tree), old(height), height, data, last, sent, bix, o, ofs);
        last, sent := last[bix := ofs], sent[bix := o];
      }
    }

    lemma ReadyShape(objs: map<nat, Object>, b: nat)
      requires Ready(objs)
      ensures |data| == I0_BLOCKS + 1 && |tree| == LEVELS && height <= 7
      ensures Canon(b, 1) in tree[1] ==> |tree[1][Canon(b, 1)]| == FACTOR
    {
    }

    /** Body of the inner loop of `logfs_file_flush`; above level 0 `logfs_file_write` is just
        `write_loop`. */
    method DrainOne(sb: Super, l: nat, bix: nat, ghost objs: map<nat, Object>, ghost used: map<nat, nat>)
        returns (err: bool)
      requires sb.Good() && Kept(objs, sb.objs) && ChargedTo(used, sb.used, ino) &&
        Draining(sb.objs, ino, tree, l, Ind(last)) && 0 < l < 3
      requires |tree| == LEVELS && bix in tree[l]
      modifies this`tree, sb, sb.dev, sb.calloc, sb.area, sb.Bufs()
      ensures fresh(sb.Bufs() - old(sb.Bufs()))
      ensures sb.Trouble() == old(sb.Trouble()) + if err then 1 else 0
      ensures !err ==> sb.Good() && Kept(objs, sb.objs) && ChargedTo(used, sb.used, ino)
      ensures !err ==> Draining(sb.objs, ino, tree, l, Ind(last)) && |tree| == LEVELS && |tree[l]| < |old(tree[l])|
    {
      hide sb.Trouble, sb.Faults, sb.Good, sb.Valid, sb.Snap, WellPlaced, Draining, Canon, Digit, Enter, Ind, Kept,
          Added, ChargedTo;
      ghost var trees, objs1, used1 := tree, sb.objs, sb.used;
      var iblock := tree[l][bix];
      DrainShape(objs1, ino, trees, l, Ind(last), bix);
      tree := tree[l := tree[l] - {bix}];
      ghost var ofs;
      err, ofs := WriteLoop(sb, bix, l, Block, Payload(iblock));
      if !err {
        ChargedTwice(used, used1, sb.used, ino);
        DrainStep(objs, objs1, sb.objs, ino, trees, tree, l, Ind(last), bix,
            Object(Block, ino, bix, l, Payload(iblock)), ofs);
      }
    }

    /** The inner loop of `logfs_file_flush`: all blocks of level `l` are written. */
    method Drain(sb: Super, l: nat) returns (err: bool)
      requires sb.Good() && Draining(sb.objs, ino, tree, l, Ind(last)) && |tree| == LEVELS && tree[l + 1] == map[] &&
        0 < l < 3
      modifies this`tree, sb, sb.dev, sb.calloc, sb.area, sb.Bufs()
      ensures fresh(sb.Bufs() - old(sb.Bufs()))
      ensures sb.Trouble() == old(sb.Trouble()) + if err then 1 else 0
      ensures !err ==> sb.Good() && Kept(old(sb.objs), sb.objs)
      ensures !err ==> Draining(sb.objs, ino, tree, l + 1, Ind(last)) && |tree| == LEVELS && tree[l + 2] == map[]
      ensures !err ==> ChargedTo(old(sb.used), sb.used, ino)
    {
      hide sb.Trouble, sb.Faults, sb.Good, Draining, Ind, Kept, ChargedTo;
      ghost var objs, used := sb.objs, sb.used;
      KeptSame(objs);
      ChargedOne(used, Object(Block, ino, 0, 0, []));
      while true
        invariant sb.Good() && Kept(objs, sb.objs) && ChargedTo(used, sb.used, ino) && fresh(sb.Bufs() - old(sb.Bufs()))
        invariant |tree| == LEVELS && Draining(sb.objs, ino, tree, l, Ind(last)) && sb.Trouble() == old(sb.Trouble())
        decreases |tree[l]|
      {
        var bix := Last64(tree[l]);
        if bix !in tree[l] {
          break;
        }
        err := DrainOne(sb, l, bix, objs, used);
        if err {
          return;
        }
      }
      DrainEnd(sb.objs, ino, tree, l, Ind(last));
      err := false;
    }

    /** The end of `logfs_file_flush`: the block with the largest key becomes the top of the tree. */
    method WriteTop(sb: Super) returns (err: bool)
      requires sb.Good() && 0 < height <= 3 && height + 1 < LEVELS && |data| == I0_BLOCKS + 1
      requires Draining(sb.objs, ino, tree, height, Ind(last)) && tree[height + 1] == map[] && Ind(last) != map[]
      requires forall b :: b in Ind(last) ==> Ind(last)[b] != 0
      modifies this`tree, this`data, sb, sb.dev, sb.calloc, sb.area, sb.Bufs()
      ensures fresh(sb.Bufs() - old(sb.Bufs()))
      ensures sb.Trouble() == old(sb.Trouble()) + if err then 1 else 0
      ensures !err ==> sb.Good() && Kept(old(sb.objs), sb.objs) && |tree| == LEVELS
      ensures !err ==>
        |data| == I0_BLOCKS + 1 && data == old(data)[INDIRECT_INDEX := data[INDIRECT_INDEX]] &&
        data[INDIRECT_INDEX] < 0x1_0000_0000
      ensures !err ==>
        TopSpec(sb.objs, ino, tree, data[INDIRECT_INDEX], height, Ind(last)) && ChargedTo(old(sb.used), sb.used, ino)
      ensures !err ==> WellPlaced(sb.crc, old(sb.Snap()), sb.Snap(), AreaIndex(ino, height), data[INDIRECT_INDEX])
    {
      hide sb.Trouble, sb.Faults, sb.Good, sb.Valid, sb.Snap, WellPlaced, StillLogged, Split, Canon, Ind, Kept, Added,
          WalkDown, TopSpec, ChargedTo, Charged;
      ghost var objs := sb.objs;
      ghost var trees := tree;
      var level := height;
      var bix := Last64(tree[level]);
      TopShape(objs, ino, trees, level, Ind(last), bix);
      var iblock := tree[level][bix];
      tree := tree[level := tree[level] - {bix}];
      TroubleSum(sb);
      var r;
      ghost var pos;
      r, pos := sb.SegmentWrite(Object(Block, ino, bix, level, Payload(iblock)));
      TroubleSum(sb);
      if !r.Done? {
        return true;
      }
      IsAdded(objs, sb.objs, Object(Block, ino, bix, level, Payload(iblock)), pos);
      ChargedOne(old(sb.used), Object(Block, ino, bix, level, Payload(iblock)));
      data := data[INDIRECT_INDEX := r.ofs];
      TopDone(objs, sb.objs, ino, trees, tree, level, Ind(last), bix, Object(Block, ino, bix, level, Payload(iblock)),
          r.ofs);
      return false;
    }

    /** `logfs_file_flush`, for the heights its 32-bit masks can deal with. */
    method Flush(sb: Super) returns (err: bool)
      requires sb.Good() && Ready(sb.objs) && height <= 3
      modifies this`tree, this`data, sb, sb.dev, sb.calloc, sb.area, sb.Bufs()
      ensures fresh(sb.Bufs() - old(sb.Bufs()))
      ensures sb.Trouble() == old(sb.Trouble()) + if err then 1 else 0
      ensures !err ==>
        sb.Good() && Kept(old(sb.objs), sb.objs) && Flushed(sb.objs) && ChargedTo(old(sb.used), sb.used, ino)
    {
      hide sb.Trouble, sb.Faults, ChargedTo, sb.Good, sb.Valid, sb.Snap, WellPlaced, Split, Canon, Ind, Kept, Added,
          WalkDown, TopSpec, Draining, HeightOk, DirectOk, SentOk;
      ghost var objs, used := sb.objs, sb.used;
      ReadyShape(objs, 0);
      KeptSame(objs);
      ChargedOne(used, Object(Block, ino, 0, 0, []));
      NothingIndirect(height, Ind(last), objs, ino, tree);
      if height == 0 {
        return false;
      }
      var level := 1;
      while level < height
        invariant 1 <= level <= height <= 3 && data == old(data) && sb.Good() && Kept(objs, sb.objs) &&
          fresh(sb.Bufs() - old(sb.Bufs()))
        invariant ChargedTo(used, sb.used, ino) && sb.Trouble() == old(sb.Trouble())
        invariant Draining(sb.objs, ino, tree, level, Ind(last)) && |tree| == LEVELS && tree[level + 1] == map[]
      {
        ghost var objs1, used1 := sb.objs, sb.used;
        err := Drain(sb, level);
        if err {
          return;
        }
        ChargedTwice(used, used1, sb.used, ino);
        KeptTwice(objs, objs1, sb.objs);
        DrainingShape(sb.objs, ino, tree, level + 1, Ind(last));
        level := level + 1;
      }
      assert level == height;
      ghost var objs1, data1, used1 := sb.objs, data, sb.used;
      IndSent(objs, last, sent);
      err := WriteTop(sb);
      if !err {
        ChargedTwice(used, used1, sb.used, ino);
        KeptTwice(objs, objs1, sb.objs);
        SentKept(objs, sb.objs, last, sent);
        DirectKept(data1, data, last, data[INDIRECT_INDEX]);
      }
    }

    /** The state after a flush. */
    ghost predicate Flushed(objs: map<nat, Object>)
      reads this
    {
      && |data| == I0_BLOCKS + 1 && |tree| == LEVELS
      && height <= 3 && HeightOk(height, Ind(last)) && DirectOk(data, last) && SentOk(objs, last, sent)
      && if height == 0 then data[INDIRECT_INDEX] == 0 && forall l {:trigger tree[l]} :: 1 <= l < LEVELS ==>
          tree[l] == map[]
          else TopSpec(objs, ino, tree, data[INDIRECT_INDEX], height, Ind(last)) && data[INDIRECT_INDEX] < 0x1_0000_0000
    }
  }

  /** A walk from the top reads, for any index, the last write of the index with the same low digits
      and the top digits of the largest index; if the largest index is below 512^height, nothing is
      left in the trees. */
  ghost predicate TopSpec(objs: map<nat, Object>, ino: nat, trees: seq<Tree>, ofs: nat, h: nat, ind: map<nat, nat>) {
    && 0 < h
    && exists m: nat :: IsTop(ind, m) && Rooted(objs, ino, ofs, h, Canon(m, h))
         && (forall b: nat {:trigger WalkDown(objs, ofs, h, b)} ::
             WalkDown(objs, ofs, h, b) == Last(ind, Rebase(b, Quot(m, h), h)))
         && (m < Pow(FACTOR, h) ==> forall l {:trigger trees[l]} :: 1 <= l < |trees| ==> trees[l] == map[])
  }

  /** The largest index. */
  lemma TopIs(objs: map<nat, Object>, ino: nat, trees: seq<Tree>, ofs: nat, h: nat, ind: map<nat, nat>) returns (m: nat)
    requires TopSpec(objs, ino, trees, ofs, h, ind)
    ensures IsTop(ind, m) && Rooted(objs, ino, ofs, h, Canon(m, h))
    ensures forall b: nat {:trigger WalkDown(objs, ofs, h, b)} ::
      WalkDown(objs, ofs, h, b) == Last(ind, Rebase(b, Quot(m, h), h))
    ensures m < Pow(FACTOR, h) ==> forall l {:trigger trees[l]} :: 1 <= l < |trees| ==> trees[l] == map[]
  {
    m :| IsTop(ind, m) && Rooted(objs, ino, ofs, h, Canon(m, h))
      && (forall b: nat {:trigger WalkDown(objs, ofs, h, b)} ::
          WalkDown(objs, ofs, h, b) == Last(ind, Rebase(b, Quot(m, h), h)))
      && (m < Pow(FACTOR, h) ==> forall l {:trigger trees[l]} :: 1 <= l < |trees| ==> trees[l] == map[]);
  }

  lemma {:induction false} TopExists(ind: map<nat, nat>)
    requires ind != map[]
    ensures exists m: nat :: IsTop(ind, m)
    decreases |ind|
  {
    var k :| k in ind;
    var rest := ind - {k};
    assert rest.Keys == ind.Keys - {k};
    assert |rest| == |rest.Keys| && |ind| == |ind.Keys|;
    if rest != map[] {
      TopExists(rest);
      var m: nat :| IsTop(rest, m);
      var top := if m < k then k else m;
      assert forall b :: b in ind ==> b == k || b in rest;
      assert IsTop(ind, top);
    } else {
      assert IsTop(ind, k);
    }
  }

  lemma TopShape(objs: map<nat, Object>, ino: nat, trees: seq<Tree>, h: nat, ind: map<nat, nat>, k: nat)
    requires Draining(objs, ino, trees, h, ind) && trees[h + 1] == map[] && ind != map[] && forall b :: b in ind ==>
      ind[b] != 0
    requires trees[h] != map[] ==> k in trees[h] && forall x :: x in trees[h] ==> x <= k
    ensures |trees| == LEVELS && k in trees[h] && |trees[h][k]| == FACTOR && |Payload(trees[h][k])| == ObjLen(Block)
  {
    TopExists(ind);
    var m: nat :| IsTop(ind, m);
    TopKey(objs, ino, trees[h], h, ind, m);
    assert BlockOk(objs, ino, trees[h][k], h, k);
  }

  lemma TopDone(objs: map<nat, Object>, objs': map<nat, Object>, ino: nat, trees: seq<Tree>, trees': seq<Tree>, h: nat,
      ind: map<nat, nat>, k: nat, o: Object, ofs: nat)
    requires Draining(objs, ino, trees, h, ind) && trees[h + 1] == map[] && ind != map[] && forall b :: b in ind ==>
      ind[b] != 0
    requires k in trees[h] && forall x :: x in trees[h] ==> x <= k
    requires Added(objs, objs', o, ofs) && o.data == Payload(trees[h][k]) && Named(o, ino, h, k) &&
      trees' == trees[h := trees[h] - {k}]
    ensures TopSpec(objs', ino, trees', ofs, h, ind) && Kept(objs, objs')
  {
    TopExists(ind);
    var m: nat :| IsTop(ind, m);
    TopKey(objs, ino, trees[h], h, ind, m);
    assert k == Canon(m, h);
    assert BlockOk(objs, ino, trees[h][k], h, k);
    BlockWritten(objs, objs', ino, trees[h][k], h, k, ofs, o, 0);
    forall b: nat
      ensures WalkDown(objs', ofs, h, b) == Last(ind, Rebase(b, Quot(m, h), h))
    {
      TopWritten(objs, objs', ino, trees[h], h, ind, m, ofs, o, b);
    }
    if m < Pow(FACTOR, h) {
      assert trees'[h] == map[];
    }
  }

  lemma NothingIndirect(h: nat, ind: map<nat, nat>, objs: map<nat, Object>, ino: nat, trees: seq<Tree>)
    requires HeightOk(h, ind) && Draining(objs, ino, trees, 1, ind) && trees[2] == map[]
    ensures h == 0 ==> ind == map[] && forall l {:trigger trees[l]} :: 1 <= l < LEVELS ==> trees[l] == map[]
    ensures h > 0 ==> ind != map[]
  {
    assert ind == map[] ==> trees[1].Keys == {};
  }

  lemma KeptTwice(a: map<nat, Object>, b: map<nat, Object>, c: map<nat, Object>)
    requires Kept(a, b) && Kept(b, c)
    ensures Kept(a, c)
  {
    forall x | x in a
      ensures x in c && c[x] == a[x]
    {
      assert x in b;
    }
  }

  lemma DrainingShape(objs: map<nat, Object>, ino: nat, trees: seq<Tree>, l: nat, ind: map<nat, nat>)
    requires Draining(objs, ino, trees, l, ind)
    ensures |trees| == LEVELS
  {
  }

  lemma IndSent(objs: map<nat, Object>, last: map<nat, nat>, sent: map<nat, Object>)
    requires SentOk(objs, last, sent)
    ensures forall b :: b in Ind(last) ==> Ind(last)[b] != 0
  {
  }

  lemma SentKept(objs: map<nat, Object>, objs': map<nat, Object>, last: map<nat, nat>, sent: map<nat, Object>)
    requires SentOk(objs, last, sent) && Kept(objs, objs')
    ensures SentOk(objs', last, sent)
  {
  }

  lemma DirectKept(data: seq<nat>, data': seq<nat>, last: map<nat, nat>, ofs: nat)
    requires DirectOk(data, last) && data' == data[INDIRECT_INDEX := ofs]
    ensures DirectOk(data', last)
  {
  }

  lemma KeptSame(objs: map<nat, Object>)
    ensures Kept(objs, objs)
  {
  }

  lemma DrainShape(objs: map<nat, Object>, ino: nat, trees: seq<Tree>, l: nat, ind: map<nat, nat>, k: nat)
    requires Draining(objs, ino, trees, l, ind) && k in trees[l]
    ensures |trees| == LEVELS && |trees[l][k]| == FACTOR && |Payload(trees[l][k])| == ObjLen(Block)
    ensures Canon(k, l + 1) in trees[l + 1] ==> |trees[l + 1][Canon(k, l + 1)]| == FACTOR
    ensures |trees[l] - {k}| < |trees[l]|
  {
    assert BlockOk(objs, ino, trees[l][k], l, k);
    var m := trees[l];
    assert (m - {k}).Keys == m.Keys - {k};
    assert |m| == |m.Keys| && |m - {k}| == |(m - {k}).Keys|;
  }

  lemma DrainStep(objs0: map<nat, Object>, objs: map<nat, Object>, objs': map<nat, Object>, ino: nat, trees: seq<Tree>,
      trees': seq<Tree>, l: nat, ind: map<nat, nat>, k: nat, o: Object, ofs: nat)
    requires Draining(objs, ino, trees, l, ind) && k in trees[l] && Added(objs, objs', o, ofs) &&
      o.data == Payload(trees[l][k]) && Named(o, ino, l, k) && Kept(objs0, objs)
    requires Canon(k, l + 1) in trees[l + 1] ==> |trees[l + 1][Canon(k, l + 1)]| == FACTOR
    requires trees' == trees[l := trees[l] - {k}][l + 1 := Enter(trees[l + 1], Canon(k, l + 1), Digit(k, l), ofs)]
    ensures Draining(objs', ino, trees', l, ind) && Kept(objs0, objs')
  {
    hide Split, Canon, Digit, Enter;
    SplitStep(objs, objs', ino, trees[l], trees[l + 1], l, ind, k, ofs, o);
    forall x | x in objs0
      ensures x in objs' && objs'[x] == objs0[x]
    {
      assert x in objs;
    }
  }

  lemma DrainEnd(objs: map<nat, Object>, ino: nat, trees: seq<Tree>, l: nat, ind: map<nat, nat>)
    requires Draining(objs, ino, trees, l, ind) && trees[l] == map[] && l < 3
    ensures Draining(objs, ino, trees, l + 1, ind) && trees[l + 2] == map[]
  {
    hide Split;
    SplitDone(objs, ino, trees[l + 1], l, ind);
  }

  lemma SentMore(objs: map<nat, Object>, objs': map<nat, Object>, last: map<nat, nat>, sent: map<nat, Object>, b: nat,
      o: Object, ofs: nat)
    requires SentOk(objs, last, sent) && Added(objs, objs', o, ofs)
    ensures SentOk(objs', last[b := ofs], sent[b := o]) && Kept(objs, objs')
  {
  }

  lemma DirectMore(objs: map<nat, Object>, objs': map<nat, Object>, ino: nat, trees: seq<Tree>, height: nat,
      data: seq<nat>,
      last: map<nat, nat>, sent: map<nat, Object>, b: nat, o: Object, ofs: nat)
    requires Draining(objs, ino, trees, 1, Ind(last)) && trees[2] == map[] && HeightOk(height, Ind(last)) &&
      DirectOk(data, last) && SentOk(objs, last, sent)
    requires b < I0_BLOCKS && Added(objs, objs', o, ofs)
    ensures Draining(objs', ino, trees, 1, Ind(last[b := ofs])) && HeightOk(height, Ind(last[b := ofs]))
    ensures DirectOk(data[b := ofs], last[b := ofs]) && SentOk(objs', last[b := ofs], sent[b := o]) && Kept(objs, objs')
  {
    assert Ind(last[b := ofs]) == Ind(last);
    SentMore(objs, objs', last, sent, b, o, ofs);
    StoredOfDraining(objs, ino, trees, Ind(last));
    hide Ind;
    TreeKept(objs, objs', ino, trees[1], 1, Ind(last));
    DrainingOfStored(objs', ino, trees, trees[1], Ind(last));
  }

  lemma IndirectMore(objs: map<nat, Object>, objs': map<nat, Object>, ino: nat, trees: seq<Tree>, h: nat, h': nat,
      data: seq<nat>, last: map<nat, nat>, sent: map<nat, Object>, b: nat, o: Object, ofs: nat)
    requires Draining(objs, ino, trees, 1, Ind(last)) && trees[2] == map[] && HeightOk(h, Ind(last)) &&
      DirectOk(data, last) && SentOk(objs, last, sent)
    requires I0_BLOCKS <= b && Added(objs, objs', o, ofs) && Named(o, ino, 0, b) && h <= h' <= 7 && b <= Pow(FACTOR, h')
    requires h' != h ==> Pow(FACTOR, h' - 1) < b
    ensures Canon(b, 1) in trees[1] ==> |trees[1][Canon(b, 1)]| == FACTOR
    ensures var trees' := trees[1 := Enter(trees[1], Canon(b, 1), Digit(b, 0), ofs)];
            Draining(objs', ino, trees', 1, Ind(last[b := ofs])) && trees'[2] == map[]
    ensures HeightOk(h', Ind(last[b := ofs])) && DirectOk(data, last[b := ofs]) &&
      SentOk(objs', last[b := ofs], sent[b := o]) && Kept(objs, objs')
  {
    var ind := Ind(last);
    assert Ind(last[b := ofs]) == ind[b := ofs];
    SentMore(objs, objs', last, sent, b, o, ofs);
    StoredOfDraining(objs, ino, trees, ind);
    PowFactor();
    HeightMore(h, h', ind, b, ofs);
    hide Ind;
    StoredMore(objs, objs', ino, trees[1], ind, b, ofs);
    DrainingOfStored(objs', ino, trees, Enter(trees[1], Canon(b, 1), Digit(b, 0), ofs), ind[b := ofs]);
  }

  /** The height is at most 3 if no index is larger than 512^3. */
  lemma LowHeight(h: nat, ind: map<nat, nat>)
    requires HeightOk(h, ind) && forall b :: b in ind ==> b <= Pow(FACTOR, 3)
    ensures h <= 3
  {
    if h > 3 {
      var b :| b in ind && Pow(FACTOR, h - 1) < b;
      PowMono(3, h - 1);
    }
  }

  lemma HeightMore(h: nat, h': nat, ind: map<nat, nat>, b: nat, ofs: nat)
    requires HeightOk(h, ind) && h <= h' <= 7 && I0_BLOCKS <= b <= Pow(FACTOR, h') &&
      (h' != h ==> Pow(FACTOR, h' - 1) < b)
    ensures HeightOk(h', ind[b := ofs])
  {
    PowFactor();
    PowMono(h, h');
    assert b in ind[b := ofs];
    if h' == h && h > 0 {
      var c :| c in ind && Pow(FACTOR, h - 1) < c;
      assert c in ind[b := ofs];
    }
  }

  lemma {:induction false} PowMono(a: nat, b: nat)
    requires a <= b
    ensures 0 < Pow(FACTOR, a) <= Pow(FACTOR, b)
    decreases b
  {
    PowPos(a);
    if a < b {
      PowMono(a, b - 1);
    }
  }

  lemma StoredOfDraining(objs: map<nat, Object>, ino: nat, trees: seq<Tree>, ind: map<nat, nat>)
    requires Draining(objs, ino, trees, 1, ind) && trees[2] == map[]
    ensures Stored(objs, ino, trees[1], ind)
  {
    forall b: nat
      ensures Reach(objs, trees[1], 1, b) == Last(ind, b)
    {
      assert (if Canon(b, 1) in trees[1] then Reach(objs, trees[1], 1, b) else Reach(objs, trees[2], 2, b)) ==
          Last(ind, b);
    }
  }

  lemma DrainingOfStored(objs: map<nat, Object>, ino: nat, trees: seq<Tree>, tree: Tree, ind: map<nat, nat>)
    requires |trees| == LEVELS && Stored(objs, ino, tree, ind) && forall j {:trigger trees[j]} :: 2 <= j < LEVELS ==>
      trees[j] == map[]
    ensures Draining(objs, ino, trees[1 := tree], 1, ind)
  {
    SplitStart(objs, ino, tree, ind);
  }

  /** What a reader finds for block `b`, starting at the inode. */
  ghost function Find(objs: map<nat, Object>, data: seq<nat>, h: nat, b: nat): nat
    requires |data| == I0_BLOCKS + 1
  {
    if b < I0_BLOCKS then data[b] else if h == 0 then 0 else WalkDown(objs, data[INDIRECT_INDEX], h, b)
  }

  /** The reader finds the last write of every written block, and nothing for any other block the
      tree covers. */
  ghost predicate Exact(objs: map<nat, Object>, data: seq<nat>, h: nat, last: map<nat, nat>)
    requires |data| == I0_BLOCKS + 1
  {
    forall b: nat {:trigger Find(objs, data, h, b)} {:trigger Last(last, b)} :: b in last || b < Pow(FACTOR, h) ==>
        Find(objs, data, h, b) == Last(last, b)
  }

  /** The largest indirect index is no power of 512, or it is the only one. `grow_inode` compares with
      `>` where `>=` is meant. */
  ghost predicate Fits(ind: map<nat, nat>) {
    forall m: nat {:trigger IsTop(ind, m)} :: IsTop(ind, m) ==> m !in {512, 0x4_0000, 0x800_0000} || ind.Keys == {m}
  }

  lemma TopAtBoundary(h: nat, ind: map<nat, nat>, m: nat)
    requires HeightOk(h, ind) && h <= 3 && IsTop(ind, m)
    ensures 0 < h && (m in {512, 0x4_0000, 0x800_0000} <==> m == Pow(FACTOR, h)) && m <= Pow(FACTOR, h)
  {
    PowFactor();
    assert h == 1 || h == 2 || h == 3;
  }

  lemma RebasePow(q: nat, h: nat)
    ensures Rebase(Pow(FACTOR, h), q, h) == q * Pow(FACTOR, h)
  {
    if h > 0 {
      RebasePow(q, h - 1);
      assert Pow(FACTOR, h) / FACTOR == Pow(FACTOR, h - 1) && Pow(FACTOR, h) % FACTOR == 0;
      assert FACTOR * (q * Pow(FACTOR, h - 1)) == q * (FACTOR * Pow(FACTOR, h - 1));
    }
  }

  /** What the walk finds when the largest index is below, or at, the boundary of the height. */
  lemma WalkResult(ind: map<nat, nat>, m: nat, h: nat, b: nat)
    requires IsTop(ind, m) && m <= Pow(FACTOR, h) && 0 < h && b <= Pow(FACTOR, h) &&
      (forall x :: x in ind ==> 0 < ind[x] && 0 < x)
    ensures m < Pow(FACTOR, h) && b < Pow(FACTOR, h) ==> Last(ind, Rebase(b, Quot(m, h), h)) == Last(ind, b)
    ensures m == Pow(FACTOR, h) ==> Last(ind, Rebase(b, Quot(m, h), h)) == if b == 0 || b == m then ind[m] else 0
  {
    QuotSmall(m, h);
    RebaseRange(b, Quot(m, h), h);
    RebasePow(Quot(m, h), h);
  }

  lemma FitsAt(ind: map<nat, nat>, m: nat)
    requires IsTop(ind, m)
    ensures Fits(ind) <==> m !in {512, 0x4_0000, 0x800_0000} || ind.Keys == {m}
  {
    assert forall x: nat :: IsTop(ind, x) ==> x == m;
  }

  lemma ExactAt(f: File, objs: map<nat, Object>, m: nat)
    requires f.Flushed(objs) && 0 < f.height && IsTop(Ind(f.last), m) && m <= Pow(FACTOR, f.height)
    requires forall b: nat {:trigger WalkDown(objs, f.data[INDIRECT_INDEX], f.height, b)} ::
      WalkDown(objs, f.data[INDIRECT_INDEX], f.height, b) == Last(Ind(f.last), Rebase(b, Quot(m, f.height), f.height))
    ensures Exact(objs, f.data, f.height, f.last) <==> m < Pow(FACTOR, f.height) || Ind(f.last).Keys == {m}
  {
    var ind, h := Ind(f.last), f.height;
    FindIs(objs, f, m);
    PowFactor();
    PowMono(1, h);
    assert forall b: nat :: b in f.last ==> b < I0_BLOCKS || b in ind;
    assert forall b: nat :: b in f.last ==> b <= Pow(FACTOR, h);
    if m == Pow(FACTOR, h) && ind.Keys != {m} {
      var b :| b in ind && b != m;
      assert Find(objs, f.data, h, b) == 0 && Last(f.last, b) != 0;
    }
  }

  /** When the indices do not fit, every indirect block but the last one is lost. */
  lemma LostBlocks(f: File, objs: map<nat, Object>, b: nat)
    requires f.Flushed(objs) && !Fits(Ind(f.last)) && b in Ind(f.last) && !IsTop(Ind(f.last), b)
    ensures |f.data| == I0_BLOCKS + 1 && Find(objs, f.data, f.height, b) == 0
  {
    var ind, h := Ind(f.last), f.height;
    var m: nat :| IsTop(ind, m)
      && (forall b: nat {:trigger WalkDown(objs, f.data[INDIRECT_INDEX], h, b)} ::
          WalkDown(objs, f.data[INDIRECT_INDEX], h, b) == Last(ind, Rebase(b, Quot(m, h), h)));
    TopAtBoundary(h, ind, m);
    FitsAt(ind, m);
    assert b in ind && b <= m;
    hide Fits;
    FindIs(objs, f, m);
  }

  /** The round trip: after a flush the reader is exact if and only if the indices fit. */
  lemma RoundTrip(f: File, objs: map<nat, Object>)
    requires f.Flushed(objs)
    ensures |f.data| == I0_BLOCKS + 1 && (Exact(objs, f.data, f.height, f.last) <==> Fits(Ind(f.last)))
  {
    var ind, h := Ind(f.last), f.height;
    PowFactor();
    if h == 0 {
      assert ind == map[];
      forall b: nat | b in f.last || b < 1
        ensures Find(objs, f.data, h, b) == Last(f.last, b)
      {
        assert b !in ind;
      }
    } else {
      var m: nat :| IsTop(ind, m)
        && (forall b: nat {:trigger WalkDown(objs, f.data[INDIRECT_INDEX], h, b)} ::
            WalkDown(objs, f.data[INDIRECT_INDEX], h, b) == Last(ind, Rebase(b, Quot(m, h), h)));
      TopAtBoundary(h, ind, m);
      ExactAt(f, objs, m);
      FitsAt(ind, m);
    }
  }

  lemma FindIs(objs: map<nat, Object>, f: File, m: nat)
    requires f.Flushed(objs) && 0 < f.height && IsTop(Ind(f.last), m) && m <= Pow(FACTOR, f.height)
    requires forall b: nat {:trigger WalkDown(objs, f.data[INDIRECT_INDEX], f.height, b)} ::
      WalkDown(objs, f.data[INDIRECT_INDEX], f.height, b) == Last(Ind(f.last), Rebase(b, Quot(m, f.height), f.height))
    ensures forall b: nat {:trigger Find(objs, f.data, f.height, b)} :: b <= Pow(FACTOR, f.height) ==>
      Find(objs, f.data, f.height, b) ==
        if b < I0_BLOCKS || (m < Pow(FACTOR, f.height) && b < Pow(FACTOR, f.height)) then Last(f.last, b)
        else if m < Pow(FACTOR, f.height) then Find(objs, f.data, f.height, b)
        else if b == m then Last(f.last, m) else 0
  {
    var ind, h := Ind(f.last), f.height;
    forall b: nat | b <= Pow(FACTOR, h)
      ensures Find(objs, f.data, h, b) ==
        if b < I0_BLOCKS || (m < Pow(FACTOR, h) && b < Pow(FACTOR, h)) then Last(f.last, b)
        else if m < Pow(FACTOR, h) then Find(objs, f.data, h, b)
        else if b == m then Last(f.last, m) else 0
    {
      if b >= I0_BLOCKS {
        WalkResult(ind, m, h, b);
        assert b in f.last <==> b in ind;
      }
    }
  }
}
