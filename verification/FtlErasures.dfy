/** Wear of the page-mapping FTL over whole runs: the erase count of a block goes up by one with each collection that
    lists it and with nothing else, and the block is dropped exactly when it reaches the threshold. */
module FtlErasures {
  import opened Helpers
  import opened Outcome
  import opened Blocks
  import opened FtlSpec
  import opened FtlInvariant
  import opened FtlTheorems

  /** Block b, in use or free, has been erased n times. */
  ghost predicate Worn(s: State, b: nat, n: nat) {
    (b in s.blocks && s.blocks[b].eraseCount == n) || WornFree(s.free, b, n)
  }

  ghost predicate WornFree(free: seq<Block>, b: nat, n: nat) {
    exists i :: 0 <= i < |free| && free[i].idx == b && free[i].eraseCount == n
  }

  /** Nothing has been erased. */
  ghost predicate SameWear(s: State, t: State) {
    t.retired == s.retired && forall b: nat, n: nat :: Worn(s, b, n) ==> Worn(t, b, n)
  }

  /** The number of collections that list the block. */
  function Erasures(ops: seq<Op>, b: nat): nat {
    if ops == [] then 0
    else (if ops[0].CollectOp? && b in ops[0].victims then 1 else 0) + Erasures(ops[1..], b)
  }

  // ---- what erases nothing -----------------------------------------------------------------

  lemma TakenWear(free: seq<Block>, i: nat, b: nat, n: nat)
    requires i < |free| && WornFree(free, b, n)
    ensures WornFree(free[..i] + free[i + 1..], b, n) || (free[i].idx == b && free[i].eraseCount == n)
  {
    var j :| 0 <= j < |free| && free[j].idx == b && free[j].eraseCount == n;
    var rest := free[..i] + free[i + 1..];
    if j < i {
      assert rest[j] == free[j];
    } else if i < j {
      assert rest[j - 1] == free[j];
    }
  }

  lemma GetFreeBlockWear(c: Config, s: State, k: nat)
    ensures GetFreeBlock(c, s, k).Ok? ==> SameWear(s, GetFreeBlock(c, s, k).value.0)
  {
    if GetFreeBlock(c, s, k).Ok? {
      var t := GetFreeBlock(c, s, k).value.0;
      forall b: nat, n: nat | Worn(s, b, n)
        ensures Worn(t, b, n)
      {
        if WornFree(s.free, b, n) {
          TakenWear(s.free, FreePosition(c, s.free, k), b, n);
        }
      }
    }
  }

  lemma GetLastFreeBlockWear(c: Config, s: State)
    ensures GetLastFreeBlock(c, s).Ok? ==> SameWear(s, GetLastFreeBlock(c, s).value.0)
  {
    hide GetFreeBlock, Worn;
    var k := NextLane(c, s);
    if k < |s.last| {
      var u := s.(lane := k, ioMap := true);
      SameDevice(s, u);
      GetFreeBlockWear(c, u, k);
      if Replace(c, u, k).Ok? {
        var t := Replace(c, u, k).value;
        if u.last[k] in u.recycled {
          SameDevice(GetFreeBlock(c, u, k).value.0, t);
        }
        GetFreeBlockWear(c, t, k);
        if Refill(c, t, k).Ok? && t.blocks[t.last[k]].next == c.pages {
          SameDevice(GetFreeBlock(c, t, k).value.0, Refill(c, t, k).value.0);
        }
      }
    }
  }

  /** Wear is a matter of the blocks alone. */
  lemma SameDevice(s: State, t: State)
    requires t.blocks == s.blocks && t.free == s.free && t.retired == s.retired
    ensures SameWear(s, t)
  {
  }

  /** Marking pages changes no erase count. */
  lemma SameCounts(s: State, t: State)
    requires t.free == s.free && t.retired == s.retired && t.blocks.Keys == s.blocks.Keys
    requires forall b :: b in s.blocks ==> t.blocks[b].eraseCount == s.blocks[b].eraseCount
    ensures SameWear(s, t)
  {
  }

  lemma ProgramWear(s: State, b: nat, lpn: nat)
    ensures Program(s, b, lpn).Ok? ==> SameWear(s, Program(s, b, lpn).value.0)
  {
    if Program(s, b, lpn).Ok? {
      SameCounts(s, Program(s, b, lpn).value.0);
    }
  }

  lemma WriteWear(c: Config, s: State, lpn: nat, data: int)
    ensures Write(c, s, lpn, data).Ok? ==> SameWear(s, Write(c, s, lpn, data).value)
  {
    hide GetLastFreeBlock, Program, Worn;
    var s1 := Detach(c, s, lpn);
    SameCounts(s, s1);
    GetLastFreeBlockWear(c, s1);
    if GetLastFreeBlock(c, s1).Ok? {
      var (s2, b) := GetLastFreeBlock(c, s1).value;
      ProgramWear(s2, b, lpn);
      if Program(s2, b, lpn).Ok? {
        SameDevice(Program(s2, b, lpn).value.0, Write(c, s, lpn, data).value);
      }
    }
  }

  lemma CopyPageWear(c: Config, s: State, v: nat, p: nat)
    ensures CopyPage(c, s, v, p).Ok? ==> SameWear(s, CopyPage(c, s, v, p).value.0)
  {
    hide GetLastFreeBlock, Program, Worn;
    if CopyPage(c, s, v, p).Ok? {
      GetLastFreeBlockWear(c, s);
      var (s1, b) := GetLastFreeBlock(c, s).value;
      var s2 := s1.(blocks := InvalidateAt(s1.blocks, Ppa(v, p)));
      SameCounts(s1, s2);
      ProgramWear(s2, b, s.blocks[v].lpns[p]);
    }
  }

  lemma {:induction false} CopyPagesWear(c: Config, s: State, v: nat, p: nat, moves: seq<Move>)
    ensures CopyPages(c, s, v, p, moves).Ok? ==> SameWear(s, CopyPages(c, s, v, p, moves).value.0)
    decreases c.pages - p
  {
    hide CopyPage, Worn;
    if p < c.pages && v in s.blocks {
      if p in s.blocks[v].valid {
        CopyPageWear(c, s, v, p);
        if CopyPage(c, s, v, p).Ok? {
          var (t, m) := CopyPage(c, s, v, p).value;
          CopyPagesWear(c, t, v, p + 1, moves + [m]);
        }
      } else {
        CopyPagesWear(c, s, v, p + 1, moves);
      }
    }
  }

  lemma {:induction false} CopyVictimsWear(c: Config, s: State, victims: seq<nat>, i: nat, moves: seq<Move>)
    ensures CopyVictims(c, s, victims, i, moves).Ok? ==> SameWear(s, CopyVictims(c, s, victims, i, moves).value.0)
    decreases |victims| - i
  {
    hide CopyPages, Worn;
    if i < |victims| && victims[i] in s.blocks {
      CopyPagesWear(c, s, victims[i], 0, moves);
      if CopyPages(c, s, victims[i], 0, moves).Ok? {
        var (t, ms) := CopyPages(c, s, victims[i], 0, moves).value;
        CopyVictimsWear(c, t, victims, i + 1, ms);
      }
    }
  }

  // ---- what one erasure does ---------------------------------------------------------------

  lemma InsertedWear(free: seq<Block>, i: nat, e: Block, b: nat, n: nat)
    requires i <= |free|
    ensures WornFree(free, b, n) ==> WornFree(free[..i] + [e] + free[i..], b, n)
    ensures e.idx == b && e.eraseCount == n ==> WornFree(free[..i] + [e] + free[i..], b, n)
  {
    var more := free[..i] + [e] + free[i..];
    assert more[i] == e;
    if WornFree(free, b, n) {
      var j :| 0 <= j < |free| && free[j].idx == b && free[j].eraseCount == n;
      assert more[if j < i then j else j + 1] == free[j];
    }
  }

  /** The block's count goes up by one, or it is dropped for having reached the threshold; no other block's changes. */
  lemma {:induction false} EraseWear(c: Config, s: State, v: nat, b: nat, n: nat)
    requires Pool(c, s) && v in s.blocks && Worn(s, b, n) && EraseInternal(c, s, v).Ok?
    ensures var t := EraseInternal(c, s, v).value;
      if b != v then Worn(t, b, n) && (b in t.retired <==> b in s.retired)
      else if n + 1 < c.badBlockAt then Worn(t, b, n + 1) && t.retired == s.retired
      else t.retired == s.retired + {v}
  {
    hide FreeListOk;
    var e := s.blocks[v].Erase();
    assert s.blocks[v].idx == v;
    if b == v {
      NotFreeToo(c, s, v, n);
    }
    if e.eraseCount < c.badBlockAt {
      var i := InsertPosition(s.free, |s.free|, e.eraseCount);
      InsertedWear(s.free, i, e, b, if b == v then n + 1 else n);
    }
  }

  lemma NotFreeToo(c: Config, s: State, v: nat, n: nat)
    requires Pool(c, s) && v in s.blocks && Worn(s, v, n)
    ensures s.blocks[v].eraseCount == n
  {
    hide FreeListOk, BlocksOk, WornFree;
    FreeHasId(s.free, v, n);
  }

  lemma FreeHasId(free: seq<Block>, b: nat, n: nat)
    ensures WornFree(free, b, n) ==> b in FreeIds(free)
  {
  }

  /** What a loop of erasures has done to a block that occurs k times, once or not at all, in the rest of its list. */
  ghost predicate Aged(c: Config, t: State, b: nat, n: nat, k: nat) {
    if b in t.retired then 0 < k && n + k == Max(n + 1, c.badBlockAt)
    else Worn(t, b, n + k) && (0 < k ==> n + k < c.badBlockAt)
  }

  lemma {:induction false} EraseVictimsWear(c: Config, s: State, victims: seq<nat>, i: nat, b: nat, n: nat)
    requires Pool(c, s) && i <= |victims| && EraseVictims(c, s, victims, i).Ok?
    requires forall j, k :: 0 <= j < k < |victims| ==> victims[j] != victims[k]
    requires Worn(s, b, n) && b !in s.retired
    ensures Aged(c, EraseVictims(c, s, victims, i).value, b, n, if b in victims[i..] then 1 else 0)
    decreases |victims| - i
  {
    hide PoolOf, Worn, EraseInternal, SameWear;
    if i < |victims| {
      var v := victims[i];
      var u := s.(recycled := s.recycled + [v]);
      assert v in u.blocks by {
        ErasedInUse(c, u, v);
      }
      SameWorn(s, u, b, n);
      EraseKeepsPool(c, u, v);
      EraseWear(c, u, v, b, n);
      var t := EraseInternal(c, u, v).value;
      assert victims[i..] == [v] + victims[i + 1..];
      if b != v {
        EraseVictimsWear(c, t, victims, i + 1, b, n);
      } else {
        assert b !in victims[i + 1..];
        if n + 1 < c.badBlockAt {
          EraseVictimsWear(c, t, victims, i + 1, b, n + 1);
        } else {
          StaysRetired(c, t, victims, i + 1, b);
        }
      }
    }
  }

  lemma ErasedInUse(c: Config, s: State, v: nat)
    requires EraseInternal(c, s, v).Ok?
    ensures v in s.blocks
  {
  }

  lemma SameWorn(s: State, t: State, b: nat, n: nat)
    requires t.blocks == s.blocks && t.free == s.free && Worn(s, b, n)
    ensures Worn(t, b, n)
  {
  }

  lemma {:induction false} StaysRetired(c: Config, s: State, victims: seq<nat>, i: nat, b: nat)
    requires b in s.retired && EraseVictims(c, s, victims, i).Ok?
    ensures b in EraseVictims(c, s, victims, i).value.retired
    decreases |victims| - i
  {
    if i < |victims| {
      StaysRetired(c, EraseInternal(c, s.(recycled := s.recycled + [victims[i]]), victims[i]).value, victims, i + 1, b);
    }
  }

  lemma {:induction false} CollectWear(c: Config, s: State, victims: seq<nat>, b: nat, n: nat)
    requires Invariant(c, s) && Victims(c, s, victims) && CollectGarbage(c, s, victims).Ok?
    requires Worn(s, b, n) && b !in s.retired
    ensures Aged(c, CollectGarbage(c, s, victims).value, b, n, if b in victims then 1 else 0)
  {
    hide PoolOf, LanesOf, Bijection, CopyVictims, EraseVictims, WriteBack, Worn, Contents;
    CopyAndSettleKeeps(c, s, victims);
    CopyVictimsWear(c, s, victims, 0, []);
    var (t, moves) := CopyVictims(c, s, victims, 0, []).value;
    var u := t.(flash := WriteBack(t.flash, moves, ReadAll(t.flash, moves), 0));
    SameDevice(t, u);
    EraseVictimsWear(c, u, victims, 0, b, n);
    assert victims[0..] == victims;
  }

  // ---- runs --------------------------------------------------------------------------------

  lemma StepWear(c: Config, s: State, op: Op, b: nat, n: nat)
    requires Invariant(c, s) && LegalStep(c, s, op) && Step(c, s, op).Ok?
    requires Worn(s, b, n) && b !in s.retired
    ensures Aged(c, Step(c, s, op).value, b, n, if op.CollectOp? && b in op.victims then 1 else 0)
  {
    hide PoolOf, LanesOf, Bijection, Write, CollectGarbage, Worn, Victims;
    match op
    case WriteOp(lpn, data) => WriteWear(c, s, lpn, data);
    case TrimOp(lpn) => SameCounts(s, Trim(s, lpn).value);
    case CollectOp(victims) => CollectWear(c, s, victims, b, n);
  }

  /** A block that has been dropped is never collected again. */
  lemma {:induction false} RetiredForGood(c: Config, s: State, ops: seq<Op>, b: nat)
    requires Invariant(c, s) && LegalRun(c, s, ops) && Run(c, s, ops).Ok? && b in s.retired
    ensures b in Run(c, s, ops).value.retired && Erasures(ops, b) == 0
    decreases |ops|
  {
    hide PoolOf, LanesOf, Bijection, Write, CollectGarbage;
    if ops != [] {
      StepKeeps(c, s, ops[0]);
      StepRetires(c, s, ops[0], b);
      RetiredForGood(c, Step(c, s, ops[0]).value, ops[1..], b);
    }
  }

  lemma StepRetires(c: Config, s: State, op: Op, b: nat)
    requires Invariant(c, s) && LegalStep(c, s, op) && Step(c, s, op).Ok? && b in s.retired
    ensures b in Step(c, s, op).value.retired && !(op.CollectOp? && b in op.victims)
  {
    hide LanesOf, Bijection, Write, CopyVictims, EraseVictims, WriteBack, BlocksOk, FreeListOk, Worn;
    match op
    case WriteOp(lpn, data) => WriteWear(c, s, lpn, data);
    case TrimOp(lpn) =>
    case CollectOp(victims) =>
      CopyVictimsWear(c, s, victims, 0, []);
      var (t, moves) := CopyVictims(c, s, victims, 0, []).value;
      StaysRetired(c, t.(flash := WriteBack(t.flash, moves, ReadAll(t.flash, moves), 0)), victims, 0, b);
  }

  /** Over any legal run a block ages by one with each collection that lists it. It is dropped with the erasure that
      takes it to the threshold, and only then. */
  lemma {:induction false} WearIsErasures(c: Config, s: State, ops: seq<Op>, b: nat, n: nat)
    requires Invariant(c, s) && LegalRun(c, s, ops) && Run(c, s, ops).Ok?
    requires Worn(s, b, n) && b !in s.retired
    ensures Aged(c, Run(c, s, ops).value, b, n, Erasures(ops, b))
    decreases |ops|
  {
    hide PoolOf, LanesOf, Bijection, Step, Worn, LegalStep;
    if ops != [] {
      StepKeeps(c, s, ops[0]);
      StepWear(c, s, ops[0], b, n);
      var t := Step(c, s, ops[0]).value;
      if b in t.retired {
        RetiredForGood(c, t, ops[1..], b);
      } else if ops[0].CollectOp? && b in ops[0].victims {
        WearIsErasures(c, t, ops[1..], b, n + 1);
      } else {
        WearIsErasures(c, t, ops[1..], b, n);
      }
    }
  }

  lemma {:induction false} OpenLanesWear(c: Config, s: State, k: nat)
    requires |s.last| == c.lanes
    ensures OpenLanes(c, s, k).Ok? ==> SameWear(s, OpenLanes(c, s, k).value)
    decreases c.lanes - k
  {
    hide GetFreeBlock, Worn;
    if k < c.lanes && GetFreeBlock(c, s, k).Ok? {
      GetFreeBlockWear(c, s, k);
      var (t, b) := GetFreeBlock(c, s, k).value;
      var u := t.(last := s.last[k := b]);
      SameDevice(t, u);
      OpenLanesWear(c, u, k + 1);
    }
  }

  /** From start-up on, the erase count of a block is the number of collections that have listed it. */
  lemma {:induction false} WearFromStart(c: Config, ops: seq<Op>, b: nat)
    requires Geometry(c) && Start(c).Ok? && b < c.physicalBlocks
    requires LegalRun(c, Start(c).value, ops) && Run(c, Start(c).value, ops).Ok?
    ensures Aged(c, Run(c, Start(c).value, ops).value, b, 0, Erasures(ops, b))
  {
    hide OpenLanes, LegalRun, Run, Aged;
    StartKeeps(c);
    OpenLanesWear(c, Blank(c), 0);
    assert Blank(c).free[b] == Fresh(b, c.pages);
    assert Worn(Blank(c), b, 0);
    WearIsErasures(c, Start(c).value, ops, b, 0);
  }
}
