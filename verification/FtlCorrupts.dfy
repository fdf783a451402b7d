/** Which drives with one page per block and three lanes or more can run into the panic "Corrupted". */
module FtlCorrupts {
  import opened Helpers
  import opened Outcome
  import opened Blocks
  import opened FtlSpec
  import opened FtlInvariant
  import opened FtlTheorems
  import opened FtlUnshared
  import opened FtlMoves

  // ---- the decisive run --------------------------------------------------------------------

  /** The lanes from the given one on hold full blocks of their own that can be erased once more. */
  ghost predicate OwnFull(c: Config, s: State, from: nat)
    requires 0 < c.lanes
  {
    forall k :: from <= k < |s.last| ==>
      && s.last[k] in s.blocks && LaneOf(c, s.last[k]) == k && s.blocks[s.last[k]].eraseCount + 1 < c.badBlockAt
  }

  lemma OwnFullAt(c: Config, s: State, from: nat, k: nat)
    requires 0 < c.lanes && OwnFull(c, s, from) && from <= k < |s.last|
    ensures s.last[k] in s.blocks && LaneOf(c, s.last[k]) == k
    ensures s.blocks[s.last[k]].eraseCount + 1 < c.badBlockAt
  {
  }

  /** A block of an earlier lane may come, go or change. */
  lemma OwnFullStays(c: Config, s: State, t: State, from: nat, to: nat, b: nat)
    requires 0 < c.lanes && OwnFull(c, s, from) && from <= to && |t.last| == |s.last| && LaneOf(c, b) < to
    requires forall k :: to <= k < |s.last| ==> t.last[k] == s.last[k]
    requires forall x :: x in s.blocks && x != b ==> x in t.blocks && t.blocks[x] == s.blocks[x]
    ensures OwnFull(c, t, to)
  {
    hide LaneOf;
  }

  /** Lane 0 has just had its turn, every lane holds a full block of its own that can be erased once more, and one block
      is free, which is lane 0's and worn like the one lane 0 holds, or once more. */
  ghost predicate Primed(c: Config, s: State) {
    && 3 <= c.lanes == |s.last| && s.lane == 0 && s.recycled == []
    && OwnFull(c, s, 0)
    && |s.free| == 1 && LaneOf(c, s.free[0].idx) == 0 && s.free[0].eraseCount + 1 < c.badBlockAt
    && s.last[0] in s.blocks
    && s.blocks[s.last[0]].eraseCount <= s.free[0].eraseCount <= s.blocks[s.last[0]].eraseCount + 1
  }

  lemma TwoInserted(a: Block, b: Block)
    ensures Inserted([a], b) == if a.eraseCount <= b.eraseCount then [a, b] else [b, a]
  {
    assert InsertPosition([a], 0, b.eraseCount) == 0;
  }

  /** Blocks b and f are free, or b is retired, and both listed, b among them; lanes 0 and 2 hold b, lane 1 holds f, and
      the lanes after the one that had its turn last hold full blocks of their own. */
  ghost predicate Loaded(c: Config, s: State, b: nat, f: nat, o: nat) {
    && 3 <= c.lanes == |s.last| && 2 <= s.lane < c.lanes
    && b != f && LaneOf(c, b) == 0 && LaneOf(c, f) == 0 && LaneOf(c, o) == 1
    && s.last[0] == b && s.last[1] == f && s.last[2] == b && b !in s.blocks
    && (forall x :: x in s.recycled <==> x == b || x == f || x == o)
    && OwnFull(c, s, s.lane + 1)
    && Picks(c, s.free, 0, f) && Picks(c, s.free, 1, o)
    && (forall i :: 0 <= i < |s.free| ==> LaneOf(c, s.free[i].idx) < 2)
  }

  lemma OneInserted(free: seq<Block>, a: Block, b: Block)
    requires free == [a] && a.eraseCount <= b.eraseCount
    ensures Inserted(free, b) == [a, b]
  {
    TwoInserted(a, b);
  }

  lemma Rotates(c: Config, s: State, blank: set<nat>)
    requires Tidy(c, s, blank)
    ensures NextLane(c, s) == if s.lane + 1 == c.lanes then 0 else s.lane + 1
  {
  }

  ghost predicate Named(c: Config, s: State, b: nat, f: nat, o: nat) {
    && 3 <= c.lanes == |s.last|
    && b != f && LaneOf(c, b) == 0 && LaneOf(c, f) == 0 && LaneOf(c, o) == 1
    && o in s.blocks && s.blocks[o].eraseCount + 1 < c.badBlockAt && s.last[0] == b
  }

  /** Block b is given back. */
  ghost predicate Loading0(c: Config, s: State, b: nat, f: nat, o: nat, e: nat) {
    && Named(c, s, b, f, o) && s.lane == 0 && s.recycled == [b] && OwnFull(c, s, 1) && s.last[1] == o
    && b !in s.blocks
    && |s.free| == 2 && s.free[0].idx == f && e <= s.free[0].eraseCount <= e + 1
    && s.free[0].eraseCount + 1 < c.badBlockAt && s.free[1].idx == b && s.free[1].eraseCount == e + 1
  }

  lemma Load0(c: Config, s: State) returns (t: State, b: nat, f: nat, o: nat, e: nat)
    requires Tidy(c, s, {}) && Primed(c, s)
    ensures Tidy(c, t, {}) && Loading0(c, t, b, f, o, e) && Reaches(c, s, t)
  {
    hide LaneOf, Tidy, Reaches, Inserted, OwnFull;
    b, f, o := s.last[0], s.free[0].idx, s.last[1];
    e := s.blocks[b].eraseCount;
    OwnFullAt(c, s, 0, 0);
    OwnFullAt(c, s, 0, 1);
    FreeNotInUse(c, s, 0);
    var worn: Block;
    t, worn := Recycle(c, s, b);
    assert s.free == [s.free[0]];
    OneInserted(s.free, s.free[0], worn);
    OwnFullStays(c, s, t, 0, 1, b);
  }

  lemma FreeNotInUse(c: Config, s: State, i: nat)
    requires Tidy(c, s, {}) && i < |s.free|
    ensures s.free[i].idx !in s.blocks
  {
    FreeBlock(c, s, i);
  }

  /** Lane 1 takes f. */
  ghost predicate Loading1(c: Config, s: State, b: nat, f: nat, o: nat, e: nat) {
    && Named(c, s, b, f, o) && s.lane == 1 && s.recycled == [b] && OwnFull(c, s, 2) && s.last[1] == f
    && b !in s.blocks && f in s.blocks && s.blocks[f].eraseCount + 1 < c.badBlockAt
    && e <= s.blocks[f].eraseCount <= e + 1
    && |s.free| == 1 && s.free[0].idx == b && s.free[0].eraseCount == e + 1
  }

  lemma Load1(c: Config, s: State, b: nat, f: nat, o: nat, e: nat) returns (t: State)
    requires Tidy(c, s, {}) && Loading0(c, s, b, f, o, e)
    ensures Tidy(c, t, {}) && Loading1(c, t, b, f, o, e) && Reaches(c, s, t)
  {
    Rotates(c, s, {});
    hide LaneOf, Tidy, Reaches, FreePosition, NextLane, OwnFull, Took;
    TakesFront(c, s.free, 1);
    t := TakeWrite(c, s, 0);
    Load1Holds(c, s, t, b, f, o, e);
  }

  lemma Load1Holds(c: Config, s: State, t: State, b: nat, f: nat, o: nat, e: nat)
    requires Loading0(c, s, b, f, o, e) && Took(c, s, 0, t) && NextLane(c, s) == 1
    ensures Loading1(c, t, b, f, o, e)
  {
    hide LaneOf, Tidy, NextLane, OwnFull, Without, Removed;
    assert o !in s.recycled;
    assert Removed(s.free, 0) == [s.free[1]] by {
      RemovedFront(s.free);
    }
    OwnFullStays(c, s, t, 1, 2, f);
  }

  lemma RemovedFront(free: seq<Block>)
    requires free != []
    ensures Removed(free, 0) == free[1..]
  {
  }

  /** Block f is given back, and lane 2 takes b. */
  ghost predicate Loading2(c: Config, s: State, b: nat, f: nat, o: nat, e: nat) {
    && Named(c, s, b, f, o) && s.lane == 2 && s.recycled == [b, f] && OwnFull(c, s, 3)
    && s.last[1] == f && s.last[2] == b
    && f !in s.blocks && b in s.blocks && s.blocks[b].eraseCount == e + 1
    && |s.free| == 1 && s.free[0].idx == f && s.free[0].eraseCount <= e + 2
  }

  lemma Load2(c: Config, s: State, b: nat, f: nat, o: nat, e: nat) returns (t: State)
    requires Tidy(c, s, {}) && Loading1(c, s, b, f, o, e)
    ensures Tidy(c, t, {}) && Loading2(c, t, b, f, o, e) && Reaches(c, s, t)
  {
    hide LaneOf, Tidy, Reaches, Inserted, FreePosition;
    var u, worn := Recycle(c, s, f);
    Rotates(c, u, {});
    hide NextLane;
    assert s.free == [s.free[0]];
    OneInserted(s.free, s.free[0], worn);
    hide OwnFull;
    OwnFullStays(c, s, u, 2, 2, f);
    OwnFullAt(c, u, 2, 2);
    TakesFront(c, u.free, 2);
    t := TakeWrite(c, u, 0);
    OwnFullStays(c, u, t, 2, 3, b);
    ReachesOn(c, s, u, t);
  }

  /** Block b is given back again, and the one lane 1 held at first as well. */
  lemma Load3(c: Config, s: State, b: nat, f: nat, o: nat, e: nat) returns (t: State)
    requires Tidy(c, s, {}) && Loading2(c, s, b, f, o, e)
    ensures Tidy(c, t, {}) && Loaded(c, t, b, f, o) && Reaches(c, s, t)
  {
    hide LaneOf, Tidy, Reaches, Inserted, OwnFull, Picks;
    var u, worn := Recycle(c, s, b);
    assert s.free == [s.free[0]];
    OwnFullStays(c, s, u, 3, 3, b);
    if worn.eraseCount < c.badBlockAt {
      OneInserted(s.free, s.free[0], worn);
    }
    var worn1: Block;
    t, worn1 := Recycle(c, u, o);
    OwnFullStays(c, u, t, 3, 3, o);
    LoadedFree(c, u.free, worn1, f);
    ReachesOn(c, s, u, t);
  }

  lemma LoadedFree(c: Config, free: seq<Block>, worn: Block, f: nat)
    requires 3 <= c.lanes && LaneOf(c, f) == 0 && LaneOf(c, worn.idx) == 1 && free != [] && free[0].idx == f
    requires forall i :: 0 <= i < |free| ==> LaneOf(c, free[i].idx) == 0
    ensures Picks(c, Inserted(free, worn), 0, f) && Picks(c, Inserted(free, worn), 1, worn.idx)
    ensures forall i :: 0 <= i < |Inserted(free, worn)| ==> LaneOf(c, Inserted(free, worn)[i].idx) < 2
  {
    hide LaneOf;
    assert Own(c, free, 0, 0) && NoneOwn(c, free, 1);
    InsertedPicks(c, free, worn, 0, f);
    var p := InsertedOwn(c, free, worn, 1);
    p := InsertedAt(free, worn);
    var r := Inserted(free, worn);
    assert forall i :: 0 <= i < |r| ==> r[i] == if i < p then free[i] else if i == p then worn else free[i - 1];
  }

  lemma Load(c: Config, s: State) returns (t: State, b: nat, f: nat, o: nat)
    requires Tidy(c, s, {}) && Primed(c, s)
    ensures Tidy(c, t, {}) && Loaded(c, t, b, f, o) && Reaches(c, s, t)
  {
    hide LaneOf, Primed, Loading0, Loading1, Loading2, Loaded, Reaches;
    var s0: State;
    var e: nat;
    s0, b, f, o, e := Load0(c, s);
    var s1 := Load1(c, s0, b, f, o, e);
    var s2 := Load2(c, s1, b, f, o, e);
    t := Load3(c, s2, b, f, o, e);
    ReachesOn(c, s, s0, s1);
    ReachesOn(c, s, s1, s2);
    ReachesOn(c, s, s2, t);
  }

  // ---- the way round to lane 0 again, and the panic ----------------------------------------

  lemma LoadedNext(c: Config, s: State, b: nat, f: nat, o: nat) returns (t: State)
    requires Tidy(c, s, {}) && Loaded(c, s, b, f, o) && s.lane + 1 < c.lanes
    ensures Tidy(c, t, {}) && Loaded(c, t, b, f, o) && t.lane == s.lane + 1 && Reaches(c, s, t)
  {
    Rotates(c, s, {});
    hide LaneOf, Tidy, Reaches, OwnFull, NextLane, Picks, Refreshed;
    var k := s.lane + 1;
    OwnFullAt(c, s, k, k);
    assert NoneOwn(c, s.free, k) && s.last[k] !in s.recycled && s.free != [] by {
      Picked(c, s.free, 0, f);
    }
    hide NoneOwn;
    t := Refresh(c, s);
    LoadedStays(c, s, t, b, f, o, k);
  }

  lemma Picked(c: Config, free: seq<Block>, k: nat, x: nat)
    requires 0 < c.lanes && Picks(c, free, k, x)
    ensures free != []
  {
  }

  lemma LoadedStays(c: Config, s: State, t: State, b: nat, f: nat, o: nat, k: nat)
    requires Loaded(c, s, b, f, o) && Refreshed(c, s, t)
    requires k == s.lane + 1 == NextLane(c, s) < c.lanes
    ensures Loaded(c, t, b, f, o)
  {
    hide LaneOf, Tidy, OwnFull, NextLane, Picks;
    OwnFullAt(c, s, k, k);
    OwnFullStays(c, s, t, k, k + 1, s.last[k]);
  }

  /** The lanes in between give their blocks back and take them again. */
  lemma {:induction false} LoadedRound(c: Config, s: State, b: nat, f: nat, o: nat) returns (t: State)
    requires Tidy(c, s, {}) && Loaded(c, s, b, f, o)
    ensures Tidy(c, t, {}) && Loaded(c, t, b, f, o) && t.lane + 1 == c.lanes && Reaches(c, s, t)
    decreases c.lanes - s.lane
  {
    hide Tidy, Reaches, OwnFull, Picks;
    if s.lane + 1 == c.lanes {
      t := s;
      ReachesSelf(c, s);
    } else {
      var u := LoadedNext(c, s, b, f, o);
      t := LoadedRound(c, u, b, f, o);
      ReachesOn(c, s, u, t);
    }
  }

  /** Lane 0 drops b for f, and b leaves the list though lane 2 still holds it. */
  ghost predicate Dropping(c: Config, s: State, b: nat, f: nat, o: nat) {
    && 3 <= c.lanes == |s.last| && s.lane == 0 && b != f && LaneOf(c, o) == 1
    && s.last[1] == f && s.last[2] == b && b !in s.blocks && LaneOf(c, b) == 0
    && b !in s.recycled && f in s.recycled && Picks(c, s.free, 1, o)
  }

  lemma Drop0(c: Config, s: State, b: nat, f: nat, o: nat) returns (t: State)
    requires Tidy(c, s, {}) && Loaded(c, s, b, f, o) && s.lane + 1 == c.lanes
    ensures Tidy(c, t, {}) && Dropping(c, t, b, f, o) && Reaches(c, s, t)
  {
    Rotates(c, s, {});
    hide LaneOf, Tidy, Reaches, OwnFull, NextLane, FreePosition;
    var i: nat :| Own(c, s.free, 0, i) && s.free[i].idx == f;
    TakesOwn(c, s.free, 0, i);
    hide Removed, Picks, Took, Own;
    t := TakeWrite(c, s, i);
    Drop0Holds(c, s, b, f, o, i, t);
  }

  lemma Drop0Holds(c: Config, s: State, b: nat, f: nat, o: nat, i: nat, t: State)
    requires Loaded(c, s, b, f, o) && i < |s.free| && s.free[i].idx == f && NextLane(c, s) == 0 && Took(c, s, i, t)
    ensures Dropping(c, t, b, f, o)
  {
    hide LaneOf, NextLane, OwnFull;
    RemovedPicks(c, s.free, i, 1, o);
    hide Removed, Picks;
  }

  /** Lane 1 drops f; lane 2's block is neither in use nor listed. */
  lemma Drop1(c: Config, s: State, b: nat, f: nat, o: nat) returns (t: State)
    requires Tidy(c, s, {}) && Dropping(c, s, b, f, o)
    ensures Tidy(c, t, {}) && Reaches(c, s, t) && LosesLane(c, t)
  {
    Rotates(c, s, {});
    hide LaneOf, Tidy, Reaches, FreePosition;
    var i: nat :| Own(c, s.free, 1, i) && s.free[i].idx == o;
    TakesOwn(c, s.free, 1, i);
    hide Removed, Picks, NextLane, Took;
    t := TakeWrite(c, s, i);
    Rotates(c, t, {});
    Drop1Loses(c, s, b, f, o, i, t);
  }

  lemma Drop1Loses(c: Config, s: State, b: nat, f: nat, o: nat, i: nat, t: State)
    requires Dropping(c, s, b, f, o) && i < |s.free| && s.free[i].idx == o && NextLane(c, s) == 1
    requires Took(c, s, i, t) && NextLane(c, t) == 2
    ensures LosesLane(c, t)
  {
    hide LaneOf, Tidy, NextLane, Picks, Removed;
  }

  ghost predicate EndsCorrupted(c: Config, s: State, ops: seq<Op>) {
    LegalRun(c, s, ops) && Run(c, s, ops) == Panic(Corrupted)
  }

  lemma LostLaneEnds(c: Config, s: State, t: State)
    requires Tidy(c, t, {}) && LosesLane(c, t) && Reaches(c, s, t)
    ensures exists ops :: EndsCorrupted(c, s, ops)
  {
    hide LosesLane, Write, Invariant;
    WriteKeeps(c, t, 0, 0);
    var last := [WriteOp(0, 0)];
    assert LegalRun(c, t, last) && Run(c, t, last) == Panic(Corrupted);
    hide LegalRun, Run;
    var ops :| Leads(c, s, ops, t);
    LeadsOn(c, s, ops, t, last);
    assert EndsCorrupted(c, s, ops + last);
  }

  lemma PrimedEnds(c: Config, s: State)
    requires Tidy(c, s, {}) && Primed(c, s)
    ensures exists ops :: EndsCorrupted(c, s, ops)
  {
    hide Tidy, OwnFull, Reaches, EndsCorrupted, Loaded, Dropping, LosesLane, Primed;
    var s1, b, f, o := Load(c, s);
    var s2 := LoadedRound(c, s1, b, f, o);
    var s3 := Drop0(c, s2, b, f, o);
    var s4 := Drop1(c, s3, b, f, o);
    ReachesOn(c, s, s1, s2);
    ReachesOn(c, s, s2, s3);
    ReachesOn(c, s, s3, s4);
    LostLaneEnds(c, s, s4);
  }

  // ---- start-up ----------------------------------------------------------------------------

  ghost predicate Opening(c: Config, s: State, k: nat) {
    && |s.last| == c.lanes && k <= c.lanes <= c.physicalBlocks && s.nFree == |s.free| == c.physicalBlocks - k
    && (forall i :: 0 <= i < |s.free| ==> s.free[i] == Fresh(k + i, c.pages))
    && (forall i :: 0 <= i < k ==> s.last[i] == i)
    && (forall v: nat :: v in s.blocks <==> v < k) && (forall v :: v in s.blocks ==> s.blocks[v] == Fresh(v, c.pages))
    && s.lane == 0 && s.recycled == [] && s.table == map[] && !s.ioMap
  }

  /** Each lane opens the block with its own number. */
  lemma {:induction false} OpensInOrder(c: Config, s: State, k: nat)
    requires 0 < c.lanes && Opening(c, s, k)
    ensures OpenLanes(c, s, k).Ok? && Opening(c, OpenLanes(c, s, k).value, c.lanes)
    decreases c.lanes - k
  {
    hide GetFreeBlock, Fresh;
    if k < c.lanes {
      var t := s.(blocks := s.blocks[k := s.free[0]], free := s.free[1..], nFree := s.nFree - 1);
      OpensOne(c, s, k);
      var u := t.(last := s.last[k := k]);
      assert OpenLanes(c, s, k) == OpenLanes(c, u, k + 1);
      hide OpenLanes;
      assert Opening(c, u, k + 1);
      OpensInOrder(c, u, k + 1);
    }
  }

  lemma OpensOne(c: Config, s: State, k: nat)
    requires 0 < c.lanes && Opening(c, s, k) && k < c.lanes
    ensures GetFreeBlock(c, s, k) ==
            Ok((s.(blocks := s.blocks[k := s.free[0]], free := s.free[1..], nFree := s.nFree - 1), k))
  {
    assert s.free[0].idx == k && LaneOf(c, k) == k;
    assert Own(c, s.free, k, 0);
    TakesOwn(c, s.free, k, 0);
    assert s.free[..0] + s.free[1..] == s.free[1..];
  }

  lemma StartsInOrder(c: Config)
    requires 0 < c.lanes <= c.physicalBlocks
    ensures Start(c).Ok? && Opening(c, Start(c).value, c.lanes)
  {
    var s := Blank(c);
    hide Fresh;
    assert forall i :: 0 <= i < |s.free| ==> s.free[i] == Fresh(i, c.pages);
    OpensInOrder(c, s, 0);
  }

  // ---- the first lap -----------------------------------------------------------------------

  /** The lanes whose turn is still to come in the first lap. */
  function Pending(c: Config, lane: nat, zero: bool): set<nat> {
    set v | v in Below(c.lanes) && (lane < v || (zero && v == 0))
  }

  ghost predicate AllNew(s: State) {
    && (forall v :: v in s.blocks ==> s.blocks[v].eraseCount == 0)
    && (forall i :: 0 <= i < |s.free| ==> s.free[i].eraseCount == 0)
  }

  ghost predicate FirstLap(c: Config, s: State) {
    && 3 <= c.lanes == |s.last| && s.lane < c.lanes < c.physicalBlocks && s.recycled == [] && AllNew(s)
    && (forall k :: 0 <= k < c.lanes ==> s.last[k] == k && k in s.blocks)
    && |s.free| == c.physicalBlocks - c.lanes
    && (forall i :: 0 <= i < |s.free| ==> s.free[i].idx == c.lanes + i)
  }

  lemma FirstLapStays(c: Config, s: State, t: State)
    requires FirstLap(c, s) && t.lane < c.lanes
    requires t.last == s.last && t.recycled == s.recycled && t.free == s.free && t.blocks.Keys == s.blocks.Keys
    requires forall x :: x in s.blocks ==> t.blocks[x].eraseCount == s.blocks[x].eraseCount
    ensures FirstLap(c, t)
  {
    assert forall x :: x in t.blocks <==> x in s.blocks;
  }

  lemma FillBlank(c: Config, s: State, blank: set<nat>) returns (t: State)
    requires FirstLap(c, s) && Tidy(c, s, blank) && (if s.lane + 1 == c.lanes then 0 else s.lane + 1) in blank
    ensures FirstLap(c, t) && t.lane == (if s.lane + 1 == c.lanes then 0 else s.lane + 1)
    ensures Tidy(c, t, blank - {t.lane}) && Reaches(c, s, t)
  {
    Rotates(c, s, blank);
    hide Orderly, Reaches, NextLane;
    t := BlankWrite(c, s, blank, NextLane(c, s));
    hide Tidy;
    FirstLapStays(c, s, t);
  }

  /** Every lane fills the blank block it was given; lane 0 is first under the random tweak, and last otherwise. */
  lemma {:induction false} FillBlanks(c: Config, s: State, zero: bool) returns (t: State)
    requires FirstLap(c, s) && Tidy(c, s, Pending(c, s.lane, zero))
    ensures FirstLap(c, t) && Tidy(c, t, {}) && Reaches(c, s, t)
    ensures t.lane == if zero then 0 else c.lanes - 1
    decreases c.lanes - s.lane
  {
    var blank := Pending(c, s.lane, zero);
    hide Orderly, Reaches;
    if s.lane + 1 < c.lanes {
      var u := FillBlank(c, s, blank);
      assert blank - {s.lane + 1} == Pending(c, u.lane, zero);
      hide FirstLap, Pending, Tidy;
      t := FillBlanks(c, u, zero);
      ReachesOn(c, s, u, t);
    } else if zero {
      t := FillBlank(c, s, blank);
      assert blank - {0} == {};
    } else {
      t := s;
      ReachesSelf(c, s);
      assert blank == {};
    }
  }

  lemma AfterStart(c: Config) returns (t: State)
    requires c.pages == 1 && 3 <= c.lanes < c.physicalBlocks
    ensures Start(c).Ok? && FirstLap(c, t) && Tidy(c, t, {}) && Reaches(c, Start(c).value, t)
    ensures t.lane == if c.tweak then c.lanes - 1 else 0
  {
    hide Reaches, Invariant;
    StartsInOrder(c);
    StartKeeps(c);
    var s := Start(c).value;
    assert Orderly(c, s, s.blocks.Keys);
    if c.tweak {
      var u := BlankWrite(c, s, s.blocks.Keys, 0);
      assert s.blocks.Keys - {0} == Pending(c, 0, false);
      t := FillBlanks(c, u, false);
      ReachesOn(c, s, u, t);
    } else {
      assert s.blocks.Keys == Pending(c, 0, true);
      t := FillBlanks(c, s, true);
    }
  }

  // ---- the laps that use up the free blocks ------------------------------------------------

  lemma LaneAfter(c: Config, x: nat)
    requires 0 < c.lanes && 0 < x
    ensures LaneOf(c, x) == if LaneOf(c, x - 1) + 1 == c.lanes then 0 else LaneOf(c, x - 1) + 1
  {
    var q, r := (x - 1) / c.lanes, (x - 1) % c.lanes;
    if r + 1 == c.lanes {
      assert x == (q + 1) * c.lanes + 0;
      DivModUnique(x, c.lanes, q + 1, 0);
    } else {
      assert x == q * c.lanes + (r + 1);
      DivModUnique(x, c.lanes, q, r + 1);
    }
  }

  ghost predicate OwnNew(c: Config, s: State, from: nat)
    requires 0 < c.lanes
  {
    forall k :: from <= k < |s.last| ==>
      s.last[k] in s.blocks && LaneOf(c, s.last[k]) == k && s.blocks[s.last[k]].eraseCount == 0
  }

  /** Every lane holds a full block of its own, none of them ever erased, and the lanes have taken the blocks up
      to x. */
  ghost predicate Lapping(c: Config, s: State, x: nat) {
    && 3 <= c.lanes == |s.last| && c.lanes < x <= c.physicalBlocks && s.recycled == []
    && s.lane == LaneOf(c, x - 1) && OwnNew(c, s, 0) && |s.free| == c.physicalBlocks - x + 1
  }

  /** A block of lane 0's is left in front of the others: lane 0 takes it in its turn, and leaves its next. */
  ghost predicate ReserveFront(c: Config, s: State, x: nat)
    requires 0 < c.lanes
  {
    && s.free != [] && LaneOf(c, s.free[0].idx) == 0 && s.free[0].eraseCount == 0
    && forall i :: 1 <= i < |s.free| ==> s.free[i].idx == x + i - 1 && s.free[i].eraseCount == 0
  }

  /** Or behind them, erased once. */
  ghost predicate ReserveBack(c: Config, s: State, x: nat)
    requires 0 < c.lanes
  {
    var n := |s.free| - 1;
    && 0 <= n && LaneOf(c, s.free[n].idx) == 0 && s.free[n].eraseCount == 1
    && forall i :: 0 <= i < n ==> s.free[i].idx == x + i && s.free[i].eraseCount == 0
  }

  /** A lane takes a new block of its own. */
  lemma LapTakes(c: Config, s: State, x: nat, i: nat) returns (t: State)
    requires Tidy(c, s, {}) && Lapping(c, s, x) && x < c.physicalBlocks
    requires Own(c, s.free, LaneOf(c, x), i) && s.free[i].eraseCount == 0
    ensures Tidy(c, t, {}) && Lapping(c, t, x + 1) && t.free == Removed(s.free, i) && Reaches(c, s, t)
  {
    Rotates(c, s, {});
    LaneAfter(c, x);
    hide Tidy, Reaches, NextLane, LaneOf, FreePosition, Took;
    TakesOwn(c, s.free, LaneOf(c, x), i);
    t := TakeWrite(c, s, i);
    LapHolds(c, s, x, i, t);
  }

  lemma LapHolds(c: Config, s: State, x: nat, i: nat, t: State)
    requires Lapping(c, s, x) && x < c.physicalBlocks && Own(c, s.free, LaneOf(c, x), i) && s.free[i].eraseCount == 0
    requires Took(c, s, i, t) && NextLane(c, s) == LaneOf(c, x)
    ensures Lapping(c, t, x + 1) && t.free == Removed(s.free, i)
  {
    hide Tidy, NextLane, LaneOf;
  }

  lemma {:induction false} LapFront(c: Config, s: State, x: nat) returns (t: State)
    requires Tidy(c, s, {}) && Lapping(c, s, x) && ReserveFront(c, s, x)
    ensures Tidy(c, t, {}) && Reaches(c, s, t)
    ensures Lapping(c, t, c.physicalBlocks) && ReserveFront(c, t, c.physicalBlocks)
    decreases c.physicalBlocks - x
  {
    hide Tidy, Reaches, LaneOf, OwnNew;
    if x == c.physicalBlocks {
      t := s;
      ReachesSelf(c, s);
    } else {
      var i := if LaneOf(c, x) == 0 then 0 else 1;
      assert Own(c, s.free, LaneOf(c, x), i);
      var u := LapTakes(c, s, x, i);
      assert ReserveFront(c, u, x + 1);
      hide Lapping, ReserveFront;
      t := LapFront(c, u, x + 1);
      ReachesOn(c, s, u, t);
    }
  }

  lemma {:induction false} LapBack(c: Config, s: State, x: nat) returns (t: State)
    requires Tidy(c, s, {}) && Lapping(c, s, x) && ReserveBack(c, s, x)
    ensures Tidy(c, t, {}) && Reaches(c, s, t)
    ensures Lapping(c, t, c.physicalBlocks) && ReserveBack(c, t, c.physicalBlocks)
    decreases c.physicalBlocks - x
  {
    hide Tidy, Reaches, LaneOf, OwnNew;
    if x == c.physicalBlocks {
      t := s;
      ReachesSelf(c, s);
    } else {
      assert Own(c, s.free, LaneOf(c, x), 0);
      var u := LapTakes(c, s, x, 0);
      assert ReserveBack(c, u, x + 1);
      hide Lapping, ReserveBack;
      t := LapBack(c, u, x + 1);
      ReachesOn(c, s, u, t);
    }
  }

  lemma SmallLane(c: Config, k: nat)
    requires 0 < c.lanes
    ensures k < c.lanes ==> LaneOf(c, k) == k
    ensures LaneOf(c, c.lanes) == 0
  {
  }

  lemma BeginFront(c: Config, s: State)
    requires FirstLap(c, s) && s.lane == 0
    ensures Lapping(c, s, c.lanes + 1) && ReserveFront(c, s, c.lanes + 1)
  {
    hide Tidy, LaneOf;
    forall k: nat | k < c.lanes
      ensures LaneOf(c, k) == k
    {
      SmallLane(c, k);
    }
    SmallLane(c, 0);
  }

  lemma InsertedBack(free: seq<Block>, b: Block)
    requires free != [] && free[|free| - 1].eraseCount <= b.eraseCount
    ensures Inserted(free, b) == free + [b]
  {
  }

  /** Under the random tweak it is lane 0's turn: it gives its block back, and takes the next. */
  lemma BeginBack(c: Config, s: State) returns (t: State)
    requires FirstLap(c, s) && Tidy(c, s, {}) && s.lane == c.lanes - 1 && 1 < c.badBlockAt
    ensures Tidy(c, t, {}) && Lapping(c, t, c.lanes + 1) && ReserveBack(c, t, c.lanes + 1) && Reaches(c, s, t)
  {
    hide Tidy, Reaches, LaneOf, FreePosition, NextLane, Inserted;
    var u, worn := Recycle(c, s, 0);
    InsertedBack(s.free, worn);
    Rotates(c, u, {});
    SmallLane(c, 0);
    assert Own(c, u.free, 0, 0);
    TakesOwn(c, u.free, 0, 0);
    hide Took;
    t := TakeWrite(c, u, 0);
    BackHolds(c, s, u, worn, t);
    ReachesOn(c, s, u, t);
  }

  lemma BackHolds(c: Config, s: State, u: State, worn: Block, t: State)
    requires FirstLap(c, s) && GaveBack(c, s, 0, worn, u) && u.free == s.free + [worn] && worn.eraseCount == 1
    requires u.free != [] && Took(c, u, 0, t) && NextLane(c, u) == 0
    ensures Lapping(c, t, c.lanes + 1) && ReserveBack(c, t, c.lanes + 1)
  {
    hide Tidy, LaneOf, NextLane;
    forall k: nat | k < c.lanes
      ensures LaneOf(c, k) == k
    {
      SmallLane(c, k);
    }
    SmallLane(c, 0);
    WithoutLast([], u.last[0]);
    assert u.recycled == [] + [u.last[0]];
  }

  // ---- the rest of the last lap ------------------------------------------------------------

  /** One block is free, lane 0's; the lanes whose turn is still to come hold blocks that were never erased, and so does
      lane 0, and the others' were erased once at most. */
  ghost predicate LastLap(c: Config, s: State) {
    && 3 <= c.lanes == |s.last| && s.lane < c.lanes && s.recycled == [] && 3 <= c.badBlockAt
    && OwnFull(c, s, 0) && OwnNew(c, s, s.lane + 1)
    && s.last[0] in s.blocks && s.blocks[s.last[0]].eraseCount == 0
    && |s.free| == 1 && LaneOf(c, s.free[0].idx) == 0 && s.free[0].eraseCount <= 1
  }

  lemma LastLapRefresh(c: Config, s: State) returns (t: State)
    requires Tidy(c, s, {}) && LastLap(c, s) && s.lane + 1 < c.lanes
    ensures Tidy(c, t, {}) && LastLap(c, t) && t.lane == s.lane + 1 && Reaches(c, s, t)
  {
    Rotates(c, s, {});
    hide Tidy, Reaches, LaneOf, NextLane, Refreshed;
    t := Refresh(c, s);
    RefreshHolds(c, s, t);
  }

  lemma RefreshHolds(c: Config, s: State, t: State)
    requires LastLap(c, s) && Refreshed(c, s, t) && NextLane(c, s) == s.lane + 1 < c.lanes
    ensures LastLap(c, t) && t.lane == s.lane + 1
  {
    hide LaneOf, NextLane;
  }

  /** Lane 0 gives its block back and takes the free one. */
  lemma LastLapSwap(c: Config, s: State) returns (t: State)
    requires Tidy(c, s, {}) && LastLap(c, s) && s.lane + 1 == c.lanes
    ensures Tidy(c, t, {}) && Primed(c, t) && Reaches(c, s, t)
  {
    hide Tidy, Reaches, LaneOf, FreePosition, NextLane, Inserted;
    var u, worn := Recycle(c, s, s.last[0]);
    assert s.free == [s.free[0]];
    OneInserted(s.free, s.free[0], worn);
    Rotates(c, u, {});
    assert Own(c, u.free, 0, 0);
    TakesOwn(c, u.free, 0, 0);
    hide Took;
    t := TakeWrite(c, u, 0);
    SwapPrimes(c, s, u, worn, t);
    ReachesOn(c, s, u, t);
  }

  lemma SwapPrimes(c: Config, s: State, u: State, worn: Block, t: State)
    requires LastLap(c, s) && GaveBack(c, s, s.last[0], worn, u) && u.free == [s.free[0], worn]
    requires Took(c, u, 0, t) && NextLane(c, u) == 0
    ensures Primed(c, t)
  {
    hide Tidy, LaneOf, NextLane;
    WithoutLast([], u.last[0]);
    assert u.recycled == [] + [u.last[0]];
  }

  lemma {:induction false} Settle(c: Config, s: State) returns (t: State)
    requires Tidy(c, s, {}) && LastLap(c, s) && s.lane != 0
    ensures Tidy(c, t, {}) && Primed(c, t) && Reaches(c, s, t)
    decreases c.lanes - s.lane
  {
    hide Tidy, Reaches, LaneOf, OwnFull, OwnNew, Primed;
    if s.lane + 1 == c.lanes {
      t := LastLapSwap(c, s);
    } else {
      var u := LastLapRefresh(c, s);
      t := Settle(c, u);
      ReachesOn(c, s, u, t);
    }
  }

  lemma LapEnds(c: Config, s: State) returns (t: State)
    requires Tidy(c, s, {}) && Lapping(c, s, c.physicalBlocks) && s.free != [] && LaneOf(c, s.free[0].idx) == 0
    requires s.free[0].eraseCount + 1 < c.badBlockAt && s.free[0].eraseCount <= 1
    requires s.lane == 0 || 3 <= c.badBlockAt
    ensures Tidy(c, t, {}) && Primed(c, t) && Reaches(c, s, t)
  {
    hide Tidy, Reaches, LaneOf;
    if s.lane == 0 {
      t := s;
      ReachesSelf(c, s);
    } else {
      assert LastLap(c, s);
      t := Settle(c, s);
    }
  }

  // ---- the drives --------------------------------------------------------------------------

  lemma ReachesPrimed(c: Config) returns (t: State)
    requires c.pages == 1 && 3 <= c.lanes < c.physicalBlocks
    requires 3 <= c.badBlockAt || (c.badBlockAt == 2 && !c.tweak && c.physicalBlocks % c.lanes == 1)
    ensures Start(c).Ok? && Tidy(c, t, {}) && Primed(c, t) && Reaches(c, Start(c).value, t)
  {
    hide Tidy, Reaches, FirstLap, Primed;
    var s := AfterStart(c);
    var n := c.physicalBlocks;
    var u: State;
    if c.tweak {
      var v := BeginBack(c, s);
      u := LapBack(c, v, c.lanes + 1);
      ReachesOn(c, s, v, u);
    } else {
      BeginFront(c, s);
      u := LapFront(c, s, c.lanes + 1);
      LaneAfter(c, n);
    }
    t := LapEnds(c, u);
    ReachesOn(c, Start(c).value, s, u);
    ReachesOn(c, Start(c).value, u, t);
  }

  /** Left open: two lanes and one page per block, and blocks that survive a single erasure only, but for the drives of
      the theorem. */
  ghost predicate Undecided(c: Config)
    requires 0 < c.lanes
  {
    && c.pages == 1 && c.lanes < c.physicalBlocks && 2 <= c.badBlockAt
    && (c.lanes == 2 || (3 <= c.lanes && c.badBlockAt == 2 && (c.tweak || c.physicalBlocks % c.lanes != 1)))
  }

  /** A legal run from start-up that ends in "Corrupted" exists exactly on the drives with one page per block, three
      lanes or more, more blocks than lanes, and blocks that survive an erasure. */
  lemma {:induction false} CorruptedIff(c: Config)
    requires Geometry(c) && Start(c).Ok? && !Undecided(c)
    ensures (exists ops :: EndsCorrupted(c, Start(c).value, ops)) <==>
              c.pages == 1 && 3 <= c.lanes < c.physicalBlocks && 2 <= c.badBlockAt
  {
    hide Reaches, Primed, Start;
    if c.pages == 1 && 3 <= c.lanes < c.physicalBlocks && 2 <= c.badBlockAt {
      var t := ReachesPrimed(c);
      PrimedEnds(c, t);
      var ops :| EndsCorrupted(c, t, ops);
      EndsFrom(c, Start(c).value, t, ops);
    } else {
      forall ops
        ensures !EndsCorrupted(c, Start(c).value, ops)
      {
        if LegalRun(c, Start(c).value, ops) {
          OutOfReach(c, ops);
        }
      }
    }
  }

  lemma OutOfReach(c: Config, ops: seq<Op>)
    requires Geometry(c) && Start(c).Ok? && LegalRun(c, Start(c).value, ops) && (KeepsTrack(c) || NeverReuses(c))
    ensures Run(c, Start(c).value, ops) != Panic(Corrupted)
  {
    hide Start, Run, LegalRun, Invariant;
    if KeepsTrack(c) {
      StartKeeps(c);
      RunKeeps(c, Start(c).value, ops);
    } else {
      NeverCorrupted(c, ops);
    }
  }

  lemma EndsFrom(c: Config, s: State, t: State, ops: seq<Op>)
    requires Reaches(c, s, t) && EndsCorrupted(c, t, ops)
    ensures exists more :: EndsCorrupted(c, s, more)
  {
    hide LegalRun, Run;
    var before :| Leads(c, s, before, t);
    LeadsOn(c, s, before, t, ops);
    assert EndsCorrupted(c, s, before + ops);
  }
}
