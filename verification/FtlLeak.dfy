/** Blocks the FTL loses track of. A recycled block stays listed in erased_block_id; the second time its lane
    comes round the listing makes the lane drop it, with one page written. If no other lane holds it, it is
    then neither open nor full, so nothing ever writes, collects or erases it again. */
module FtlLeak {
  import opened Outcome
  import opened Blocks
  import opened FtlSpec
  import opened FtlInvariant
  import opened FtlTheorems

  /** In use, not full, and no lane's block, nor about to be replaced. */
  ghost predicate Stranded(c: Config, s: State, b: nat) {
    b in s.blocks && s.blocks[b].next < c.pages && b !in s.last && b !in s.recycled
  }

  /** The next lane's block is listed as erased, in use with room left, and held by no other lane. */
  ghost predicate Strands(c: Config, s: State) {
    var k := NextLane(c, s);
    && k < |s.last|
    && s.last[k] in s.recycled && s.last[k] in s.blocks && s.blocks[s.last[k]].next < c.pages
    && forall i :: 0 <= i < |s.last| && i != k ==> s.last[i] != s.last[k]
  }

  lemma ReplaceLanes(c: Config, s: State, k: nat)
    requires Pool(c, s) && k < |s.last| && k < c.lanes && Replace(c, s, k).Ok?
    ensures var v := Replace(c, s, k).value;
      if s.last[k] in s.recycled then
        && v.last == s.last[k := v.last[k]] && v.recycled == Without(s.recycled, s.last[k])
        && v.last[k] !in s.blocks && v.blocks.Keys == s.blocks.Keys + {v.last[k]}
      else v == s
  {
    hide PoolOf, GetFreeBlock;
    GetFreeBlockKeeps(c, s, k);
  }

  lemma RefillLanes(c: Config, s: State, k: nat)
    requires Pool(c, s) && k < |s.last| && k < c.lanes && Refill(c, s, k).Ok?
    ensures s.last[k] in s.blocks
    ensures var (t, b) := Refill(c, s, k).value;
      && t.last == s.last[k := b] && t.recycled == s.recycled && t.blocks.Keys == s.blocks.Keys + {b}
      && (if s.blocks[s.last[k]].next == c.pages then b !in s.blocks else b == s.last[k])
  {
    hide PoolOf, GetFreeBlock;
    GetFreeBlockKeeps(c, s, k);
  }

  /** What getLastFreeBlock does to the lanes and the list: only lane k changes, to a block that was free, and
      only when that lane needs one. */
  lemma GetLastFreeBlockLanes(c: Config, s: State)
    requires Geometry(c) && Pool(c, s) && Lanes(c, s) && GetLastFreeBlock(c, s).Ok?
    ensures var (t, b) := GetLastFreeBlock(c, s).value;
      var k := NextLane(c, s);
      && t.last == s.last[k := b]
      && (NeedsBlock(c, s) <==> b !in s.blocks)
      && (b in s.blocks ==> b == s.last[k])
      && (forall x :: x in t.recycled <==> x in s.recycled && !(x == s.last[k] && s.last[k] in s.recycled))
      && t.blocks.Keys == s.blocks.Keys + {b}
  {
    hide PoolOf, Replace, Refill;
    var k := NextLane(c, s);
    var u := s.(lane := k, ioMap := true);
    assert Pool(c, u) && Lanes(c, u);
    ReplaceKeeps(c, u, k);
    ReplaceLanes(c, u, k);
    var v := Replace(c, u, k).value;
    RefillLanes(c, v, k);
  }

  /** Exactly when a write or a page copy strands a block, and which. */
  lemma {:induction false} StrandsExactly(c: Config, s: State)
    requires Geometry(c) && Pool(c, s) && Lanes(c, s) && GetLastFreeBlock(c, s).Ok?
    ensures var t := GetLastFreeBlock(c, s).value.0;
      forall b :: Stranded(c, t, b) <==> Stranded(c, s, b) || (Strands(c, s) && b == s.last[NextLane(c, s)])
  {
    hide GetLastFreeBlock;
    GetLastFreeBlockKeeps(c, s);
    GetLastFreeBlockLanes(c, s);
    var (t, x) := GetLastFreeBlock(c, s).value;
    var k := NextLane(c, s);
    assert t.last[k] == x;
    forall b | b in s.blocks || b in t.blocks
      ensures Stranded(c, t, b) <==> Stranded(c, s, b) || (Strands(c, s) && b == s.last[k])
    {
      if b != x {
        StrandedOther(c, s, t, x, b);
      }
    }
  }

  lemma StrandedOther(c: Config, s: State, t: State, x: nat, b: nat)
    requires Geometry(c) && Pool(c, s) && Lanes(c, s)
    requires var k := NextLane(c, s); k < |s.last| && t.last == s.last[k := x]
    requires b != x && b in s.blocks && b in t.blocks && t.blocks[b] == s.blocks[b]
    requires x in s.blocks ==> x == s.last[NextLane(c, s)]
    requires NeedsBlock(c, s) <==> x !in s.blocks
    requires forall y :: y in t.recycled <==> y in s.recycled && y != s.last[NextLane(c, s)]
    ensures Stranded(c, t, b) <==> Stranded(c, s, b) || (Strands(c, s) && b == s.last[NextLane(c, s)])
  {
    var k := NextLane(c, s);
    if b in s.last && b != s.last[k] {
      var i :| 0 <= i < |s.last| && s.last[i] == b;
      assert t.last[i] == b;
    }
    if b in t.last {
      var i :| 0 <= i < |t.last| && t.last[i] == b;
      assert s.last[i] == b;
    }
    if b == s.last[k] {
      if !Strands(c, s) && b in s.recycled && s.blocks[b].next < c.pages {
        var i :| 0 <= i < |s.last| && i != k && s.last[i] == b;
        assert t.last[i] == b;
      }
    }
  }

  // ---- once stranded, stranded for good ----------------------------------------------------

  /** Stranded with n pages written. */
  ghost predicate Stuck(c: Config, s: State, b: nat, n: nat) {
    Stranded(c, s, b) && s.blocks[b].next == n
  }

  lemma NextBlockSticks(c: Config, s: State, b: nat, n: nat)
    requires Geometry(c) && Pool(c, s) && Lanes(c, s) && Stuck(c, s, b, n) && GetLastFreeBlock(c, s).Ok?
    ensures var (t, x) := GetLastFreeBlock(c, s).value;
      x != b && Stuck(c, t, b, n)
  {
    hide GetLastFreeBlock, PoolOf;
    StrandsExactly(c, s);
    GetLastFreeBlockKeeps(c, s);
    GetLastFreeBlockLanes(c, s);
    var (t, x) := GetLastFreeBlock(c, s).value;
    assert t.last[NextLane(c, s)] == x;
  }

  lemma WriteSticks(c: Config, s: State, lpn: nat, data: int, b: nat, n: nat)
    requires Invariant(c, s) && Stuck(c, s, b, n) && Write(c, s, lpn, data).Ok?
    ensures Stuck(c, Write(c, s, lpn, data).value, b, n)
  {
    hide GetLastFreeBlock, PoolOf, LanesOf, Bijection, Detach;
    DetachKeeps(c, s, lpn);
    NextBlockSticks(c, Detach(c, s, lpn), b, n);
  }

  lemma CopyPageSticks(c: Config, s: State, v: nat, p: nat, b: nat, n: nat)
    requires Invariant(c, s) && Stuck(c, s, b, n) && CopyPage(c, s, v, p).Ok?
    ensures Stuck(c, CopyPage(c, s, v, p).value.0, b, n)
  {
    hide GetLastFreeBlock, PoolOf, LanesOf, Bijection;
    NextBlockSticks(c, s, b, n);
  }

  lemma {:induction false} CopyPagesSticks(c: Config, s: State, v: nat, p: nat, moves: seq<Move>, victims: set<nat>,
                                           m: map<nat, int>, b: nat, n: nat)
    requires Copying(c, s, moves, victims, m) && v in victims
    requires Stuck(c, s, b, n) && CopyPages(c, s, v, p, moves).Ok?
    ensures Stuck(c, CopyPages(c, s, v, p, moves).value.0, b, n)
    decreases c.pages - p
  {
    hide PoolOf, LanesOf, Bijection, CopyPage, WillHold;
    if p < c.pages {
      if p in s.blocks[v].valid {
        CopyPageCopying(c, s, v, p, moves, victims, m);
        CopyPageSticks(c, s, v, p, b, n);
        var (t, mv) := CopyPage(c, s, v, p).value;
        CopyPagesSticks(c, t, v, p + 1, moves + [mv], victims, m, b, n);
      } else {
        CopyPagesSticks(c, s, v, p + 1, moves, victims, m, b, n);
      }
    }
  }

  lemma {:induction false} CopyVictimsSticks(c: Config, s: State, victims: seq<nat>, i: nat, moves: seq<Move>,
                                             m: map<nat, int>, b: nat, n: nat)
    requires i <= |victims|
    requires forall j, k :: 0 <= j < k < |victims| ==> victims[j] != victims[k]
    requires Copying(c, s, moves, (set v | v in victims), m) && Emptied(s, victims, i)
    requires Stuck(c, s, b, n) && CopyVictims(c, s, victims, i, moves).Ok?
    ensures Stuck(c, CopyVictims(c, s, victims, i, moves).value.0, b, n)
    decreases |victims| - i
  {
    hide PoolOf, LanesOf, Bijection, WillHold, CopyPages, Outside;
    if i < |victims| {
      var vs := set v | v in victims;
      assert victims[i] in vs;
      CopyPagesKeeps(c, s, victims[i], 0, moves, vs, m);
      CopyPagesSticks(c, s, victims[i], 0, moves, vs, m, b, n);
      var (t, ms) := CopyPages(c, s, victims[i], 0, moves).value;
      forall j | 0 <= j < i + 1
        ensures victims[j] in t.blocks && t.blocks[victims[j]].valid == {}
      {
        assert victims[j] in vs;
      }
      CopyVictimsSticks(c, t, victims, i + 1, ms, m, b, n);
    }
  }

  lemma {:induction false} EraseVictimsSticks(c: Config, s: State, victims: seq<nat>, i: nat, b: nat, n: nat)
    requires Invariant(c, s) && Erasable(c, s, victims, i) && i <= |victims|
    requires Stuck(c, s, b, n) && EraseVictims(c, s, victims, i).Ok?
    ensures Stuck(c, EraseVictims(c, s, victims, i).value, b, n)
    decreases |victims| - i
  {
    hide PoolOf, LanesOf, Bijection;
    if i < |victims| {
      var v := victims[i];
      var u := s.(recycled := s.recycled + [v]);
      EraseKeepsPool(c, u, v);
      EraseKeepsLanes(c, s, v);
      var t := EraseInternal(c, u, v).value;
      BijectionErased(s.table, s.blocks, v);
      EraseVictimsSticks(c, t, victims, i + 1, b, n);
    }
  }

  lemma CollectSticks(c: Config, s: State, victims: seq<nat>, b: nat, n: nat)
    requires Invariant(c, s) && Victims(c, s, victims) && Stuck(c, s, b, n) && CollectGarbage(c, s, victims).Ok?
    ensures Stuck(c, CollectGarbage(c, s, victims).value, b, n)
  {
    hide PoolOf, LanesOf, Bijection, CopyVictims, EraseVictims, WriteBack, Contents, WillHold;
    NothingQueued(s);
    CopyAndSettleKeeps(c, s, victims);
    CopyVictimsSticks(c, s, victims, 0, [], Contents(s), b, n);
    EraseVictimsSticks(c, CopyAndSettle(c, s, victims).value, victims, 0, b, n);
  }

  /** A stranded block is lost capacity: through every run it stays in use, unfilled and out of every lane, and
      no page of it is ever written again, nor is it ever erased. */
  lemma {:induction false} StrandedForever(c: Config, s: State, ops: seq<Op>, b: nat, n: nat)
    requires Invariant(c, s) && LegalRun(c, s, ops) && Stuck(c, s, b, n) && Run(c, s, ops).Ok?
    ensures Stuck(c, Run(c, s, ops).value, b, n)
    decreases |ops|
  {
    hide PoolOf, LanesOf, Bijection, Write, CollectGarbage;
    if ops != [] {
      StepKeeps(c, s, ops[0]);
      match ops[0] {
        case WriteOp(lpn, data) => WriteSticks(c, s, lpn, data, b, n);
        case TrimOp(lpn) =>
        case CollectOp(victims) => CollectSticks(c, s, victims, b, n);
      }
      StrandedForever(c, Step(c, s, ops[0]).value, ops[1..], b, n);
    }
  }
}
