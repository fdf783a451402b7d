/** When a garbage collection is sure to succeed: there is a free block for every valid page it has to move, and one to
    spare. */
module FtlSpace {
  import opened Outcome
  import opened Blocks
  import opened FtlSpec
  import opened FtlInvariant
  import opened FtlTheorems

  /** The valid pages of the victims from index i on. */
  ghost function ValidPages(s: State, victims: seq<nat>, i: nat): nat
    requires i <= |victims| && forall j :: i <= j < |victims| ==> victims[j] in s.blocks
    decreases |victims| - i
  {
    if i == |victims| then 0 else |s.blocks[victims[i]].valid| + ValidPages(s, victims, i + 1)
  }

  lemma {:induction false} SameValidPages(s: State, t: State, victims: seq<nat>, i: nat)
    requires i <= |victims|
    requires forall j :: i <= j < |victims| ==>
               && victims[j] in s.blocks && victims[j] in t.blocks
               && t.blocks[victims[j]].valid == s.blocks[victims[j]].valid
    ensures ValidPages(t, victims, i) == ValidPages(s, victims, i)
    decreases |victims| - i
  {
    if i < |victims| {
      SameValidPages(s, t, victims, i + 1);
    }
  }

  /** Choosing a block for a write takes at most one off the free list. */
  lemma NextBlockCost(c: Config, s: State)
    requires Geometry(c) && Pool(c, s) && Lanes(c, s) && GetLastFreeBlock(c, s).Ok?
    ensures |GetLastFreeBlock(c, s).value.0.free| >= |s.free| - 1
  {
    hide PoolOf, LanesOf, GetFreeBlock;
    var k := NextLane(c, s);
    var u := s.(lane := k, ioMap := true);
    assert Pool(c, u) && Lanes(c, u) && k < c.lanes by {
      InRangeLane(c, s);
    }
    GetFreeBlockKeeps(c, u, k);
    ReplaceKeeps(c, u, k);
    var v := Replace(c, u, k).value;
    GetFreeBlockKeeps(c, v, k);
  }

  lemma InRangeLane(c: Config, s: State)
    requires Geometry(c) && Pool(c, s) && Lanes(c, s)
    ensures var u := s.(lane := NextLane(c, s), ioMap := true);
      Pool(c, u) && Lanes(c, u) && NextLane(c, s) < c.lanes
  {
  }

  lemma CopyPageCost(c: Config, s: State, v: nat, p: nat)
    requires Invariant(c, s) && KeepsTrack(c) && s.free != []
    requires v in s.blocks && s.blocks[v].next == c.pages && p in s.blocks[v].valid
    ensures CopyPage(c, s, v, p).Ok? && |CopyPage(c, s, v, p).value.0.free| >= |s.free| - 1
  {
    hide PoolOf, LanesOf, Bijection, GetLastFreeBlock, Program;
    InUseInRange(c, s, v);
    ValidMapped(s.table, s.blocks, v, p);
    GetLastFreeBlockKeeps(c, s);
    NextBlockCost(c, s);
    var (s1, b) := GetLastFreeBlock(c, s).value;
    var lpn := s.blocks[v].lpns[p];
    BijectionGrown(s.table, s.blocks, s1.blocks);
    InvalidateKeeps(c, s1, Ppa(v, p));
    InvalidateUnmaps(s1.table, s1.blocks, lpn);
    ProgramKeeps(c, s1.(blocks := InvalidateAt(s1.blocks, Ppa(v, p))), b, lpn);
  }

  lemma {:induction false} CopyPagesCost(c: Config, s: State, v: nat, p: nat, moves: seq<Move>, victims: set<nat>,
                                         m: map<nat, int>)
    requires Copying(c, s, moves, victims, m) && v in victims && KeepsTrack(c)
    requires forall q :: q in s.blocks[v].valid ==> p <= q
    requires |s.blocks[v].valid| <= |s.free|
    ensures CopyPages(c, s, v, p, moves).Ok?
    ensures |CopyPages(c, s, v, p, moves).value.0.free| >= |s.free| - |s.blocks[v].valid|
    decreases c.pages - p
  {
    hide LanesOf, PoolOf, Bijection, Outside, WillHold, CopyPage;
    InUseInRange(c, s, v);
    if p < c.pages {
      if p in s.blocks[v].valid {
        assert |s.blocks[v].valid - {p}| == |s.blocks[v].valid| - 1;
        CopyPageCopying(c, s, v, p, moves, victims, m);
        CopyPageCost(c, s, v, p);
        var (t, mv) := CopyPage(c, s, v, p).value;
        CopyPagesCost(c, t, v, p + 1, moves + [mv], victims, m);
      } else {
        CopyPagesCost(c, s, v, p + 1, moves, victims, m);
      }
    } else {
      assert s.blocks[v].valid == {};
    }
  }

  lemma {:induction false} CopyVictimsCost(c: Config, s: State, victims: seq<nat>, i: nat, moves: seq<Move>,
                                           m: map<nat, int>)
    requires i <= |victims| && KeepsTrack(c)
    requires forall j, k :: 0 <= j < k < |victims| ==> victims[j] != victims[k]
    requires Copying(c, s, moves, (set v | v in victims), m) && Emptied(s, victims, i)
    requires forall j :: i <= j < |victims| ==> victims[j] in s.blocks
    requires ValidPages(s, victims, i) <= |s.free|
    ensures CopyVictims(c, s, victims, i, moves).Ok?
    ensures |CopyVictims(c, s, victims, i, moves).value.0.free| >= |s.free| - ValidPages(s, victims, i)
    decreases |victims| - i
  {
    hide PoolOf, LanesOf, Bijection, Outside, WillHold, CopyPages;
    if i < |victims| {
      var vs := set v | v in victims;
      assert victims[i] in vs;
      CopyPagesKeeps(c, s, victims[i], 0, moves, vs, m);
      CopyPagesCost(c, s, victims[i], 0, moves, vs, m);
      var (t, ms) := CopyPages(c, s, victims[i], 0, moves).value;
      forall j | 0 <= j < |victims|
        ensures victims[j] in t.blocks
        ensures j != i ==> t.blocks[victims[j]] == s.blocks[victims[j]]
      {
        assert victims[j] in vs;
      }
      SameValidPages(s, t, victims, i + 1);
      CopyVictimsCost(c, t, victims, i + 1, ms, m);
    }
  }

  lemma {:induction false} EraseVictimsCost(c: Config, s: State, victims: seq<nat>, i: nat)
    requires Invariant(c, s) && Erasable(c, s, victims, i) && i <= |victims| && s.free != []
    ensures EraseVictims(c, s, victims, i).Ok?
    decreases |victims| - i
  {
    hide PoolOf, LanesOf, Bijection;
    if i < |victims| {
      var v := victims[i];
      var u := s.(recycled := s.recycled + [v]);
      EraseKeepsPool(c, u, v);
      EraseKeepsLanes(c, s, v);
      BijectionErased(s.table, s.blocks, v);
      EraseVictimsCost(c, EraseInternal(c, u, v).value, victims, i + 1);
    }
  }

  /** With more free blocks than the victims have valid pages, a collection on a drive that keeps track of its lanes
      cannot fail. */
  lemma {:induction false} CollectGarbageSucceeds(c: Config, s: State, victims: seq<nat>)
    requires Invariant(c, s) && Victims(c, s, victims) && KeepsTrack(c)
    requires ValidPages(s, victims, 0) < |s.free|
    ensures CollectGarbage(c, s, victims).Ok?
  {
    hide PoolOf, LanesOf, Bijection, CopyVictims, EraseVictims, WillHold, Contents;
    NothingQueued(s);
    var vs := set v | v in victims;
    CopyVictimsCost(c, s, victims, 0, [], Contents(s));
    CopyAndSettleKeeps(c, s, victims);
    EraseVictimsCost(c, CopyAndSettle(c, s, victims).value, victims, 0);
  }
}
