/** Moves on a drive with one page per block whose blocks in use are all full, each page named after its block: a write
    that takes a block off the free list, and a block given back. */
module FtlMoves {
  import opened Outcome
  import opened Blocks
  import opened FtlSpec
  import opened FtlInvariant
  import opened FtlTheorems
  import opened FtlRuns

  // ---- what a run can reach ----------------------------------------------------------------

  ghost predicate Leads(c: Config, s: State, ops: seq<Op>, t: State) {
    LegalRun(c, s, ops) && Run(c, s, ops) == Ok(t)
  }

  ghost predicate Reaches(c: Config, s: State, t: State) {
    exists ops :: Leads(c, s, ops, t)
  }

  lemma {:induction false} LeadsOn(c: Config, s: State, ops: seq<Op>, t: State, more: seq<Op>)
    requires Leads(c, s, ops, t)
    ensures Run(c, s, ops + more) == Run(c, t, more)
    ensures LegalRun(c, s, ops + more) <==> LegalRun(c, t, more)
    decreases |ops|
  {
    hide Step, LegalStep;
    if ops == [] {
      assert ops + more == more;
    } else {
      assert (ops + more)[1..] == ops[1..] + more;
      LeadsOn(c, Step(c, s, ops[0]).value, ops[1..], t, more);
    }
  }

  lemma ReachesOn(c: Config, s: State, t: State, u: State)
    requires Reaches(c, s, t) && Reaches(c, t, u)
    ensures Reaches(c, s, u)
  {
    hide Run, LegalRun;
    var ops, more :| Leads(c, s, ops, t) && Leads(c, t, more, u);
    LeadsOn(c, s, ops, t, more);
    assert Leads(c, s, ops + more, u);
  }

  lemma ReachesSelf(c: Config, s: State)
    ensures Reaches(c, s, s)
  {
    assert Leads(c, s, [], s);
  }

  lemma OneStep(c: Config, s: State, op: Op, t: State)
    requires LegalStep(c, s, op) && Step(c, s, op) == Ok(t)
    ensures Reaches(c, s, t)
  {
    hide Step, LegalStep;
    assert [op][1..] == [] && Run(c, t, []) == Ok(t) && LegalRun(c, t, []);
    assert Leads(c, s, [op], t);
  }

  // ---- tidy states -------------------------------------------------------------------------

  ghost predicate Full(b: Block, v: nat) {
    b.next == 1 && b.valid == {0} && b.lpns == [v]
  }

  /** The lanes take turns: always, but for the very first write under the random tweak. */
  ghost predicate Tidy(c: Config, s: State, blank: set<nat>) {
    Orderly(c, s, blank) && (c.tweak ==> s.ioMap)
  }

  /** Every block in use is full, its page valid and named after it, but for the blank ones. */
  ghost predicate Orderly(c: Config, s: State, blank: set<nat>) {
    && c.pages == 1 && Invariant(c, s) && blank <= s.blocks.Keys
    && (forall v :: v in s.blocks ==> if v in blank then s.blocks[v].next == 0 else Full(s.blocks[v], v))
    && (forall l :: l in s.table <==> l in s.blocks && l !in blank)
    && (forall l :: l in s.table ==> s.table[l] == Ppa(l, 0))
  }

  function Removed(free: seq<Block>, i: nat): seq<Block>
    requires i < |free|
  {
    free[..i] + free[i + 1..]
  }

  function Inserted(free: seq<Block>, b: Block): seq<Block> {
    var i := InsertPosition(free, |free|, b.eraseCount);
    free[..i] + [b] + free[i..]
  }

  /** What a write that takes a block off the free list does: the lane drops its own block for block v. */
  ghost predicate Took(c: Config, s: State, i: nat, t: State)
    requires i < |s.free|
  {
    var k, v := NextLane(c, s), s.free[i].idx;
    && k < |s.last| && t.lane == k && t.last == s.last[k := v]
    && t.recycled == ListedAfter(s, k)
    && t.free == Removed(s.free, i)
    && t.blocks.Keys == s.blocks.Keys + {v} && v !in s.blocks
    && t.blocks[v].eraseCount == s.free[i].eraseCount
    && forall x :: x in s.blocks ==> t.blocks[x] == s.blocks[x]
  }

  lemma FreeBlock(c: Config, s: State, i: nat)
    requires Invariant(c, s) && i < |s.free|
    ensures s.free[i].WellFormed(c.pages) && s.free[i].next == 0 && s.free[i].idx !in s.blocks
    ensures s.nFree == |s.free| && |s.last| == c.lanes && NextLane(c, s) < c.lanes
  {
    assert s.free[i].idx in FreeIds(s.free);
  }

  lemma FillsBlank(b: Block, v: nat)
    requires b.WellFormed(1) && b.next == 0
    ensures b.Write(0, v).Ok? && Full(b.Write(0, v).value, v) && b.Write(0, v).value.eraseCount == b.eraseCount
  {
    WriteAtNext(b, 1, v);
    assert b.valid == {};
  }

  lemma TidyFacts(c: Config, s: State, v: nat)
    requires Tidy(c, s, {})
    ensures c.pages == 1 && Invariant(c, s) && (v in s.blocks ==> s.blocks[v].next == 1)
  {
  }

  /** What the lane has dropped leaves the list. */
  function ListedAfter(s: State, k: nat): seq<nat>
    requires k < |s.last|
  {
    if s.last[k] in s.recycled then Without(s.recycled, s.last[k]) else s.recycled
  }

  /** A page v that is not mapped, and the free block i that the lane takes for it. */
  lemma TakeOpens(c: Config, s: State, i: nat, v: nat) returns (u: State)
    requires c.pages == 1 && Invariant(c, s) && NextLane(c, s) < |s.last|
    requires s.free != [] && i == FreePosition(c, s.free, NextLane(c, s)) && v == s.free[i].idx && v !in s.table
    requires var x := s.last[NextLane(c, s)]; x in s.recycled || (x in s.blocks && s.blocks[x].next == 1)
    ensures GetLastFreeBlock(c, Detach(c, s, v)) == Ok((u, v)) && u.nFree == |u.free|
    ensures v in u.blocks && u.blocks == s.blocks[v := s.free[i]]
    ensures u.table == s.table[v := Ppa(c.physicalBlocks, 1)] && u.free == Removed(s.free, i)
    ensures var k := NextLane(c, s);
      u.last == s.last[k := v] && u.lane == k && u.recycled == ListedAfter(s, k)
  {
    FreeBlock(c, s, i);
    var d := s.(table := s.table[v := Ppa(c.physicalBlocks, 1)]);
    assert Detach(c, s, v) == d && NextLane(c, d) == NextLane(c, s);
    hide Invariant, FreePosition, Without, GetLastFreeBlock, Detach, NextLane;
    Takes(c, d, i);
    u := Taken(c, d, i);
  }

  /** The page written is named after the block it goes to. */
  lemma TakeLike(c: Config, s: State, i: nat) returns (w: Block)
    requires Tidy(c, s, {}) && s.free != [] && i == FreePosition(c, s.free, NextLane(c, s))
    requires NextLane(c, s) < |s.last|
    requires s.last[NextLane(c, s)] in s.recycled || s.last[NextLane(c, s)] in s.blocks
    ensures var k, v, r := NextLane(c, s), s.free[i].idx, Write(c, s, s.free[i].idx, 0);
      && Full(w, v) && w.eraseCount == s.free[i].eraseCount && v !in s.blocks
      && r.Ok?
      && Like(r.value, s.table[v := Ppa(v, 0)], s.blocks[v := w], Removed(s.free, i), s.last[k := v], k,
              ListedAfter(s, k))
  {
    FreeBlock(c, s, i);
    var v := s.free[i].idx;
    TidyFacts(c, s, s.last[NextLane(c, s)]);
    assert v !in s.table;
    hide Tidy, Invariant, FreePosition, GetLastFreeBlock, Write, Full, Block.Write, Detach, NextLane, ListedAfter;
    hide Block.WellFormed, Like, Removed;
    FillsBlank(s.free[i], v);
    w := s.free[i].Write(0, v).value;
    var u := TakeOpens(c, s, i, v);
    ProgramTaken(c, s, u, v, s.free[i], w, Ppa(c.physicalBlocks, 1));
  }

  lemma ProgramTaken(c: Config, s: State, u: State, v: nat, b: Block, w: Block, a: Ppa)
    requires GetLastFreeBlock(c, Detach(c, s, v)) == Ok((u, v)) && u.nFree == |u.free|
    requires u.blocks == s.blocks[v := b] && b.next == 0 && b.Write(0, v) == Ok(w) && u.table == s.table[v := a]
    ensures var r := Write(c, s, v, 0);
      && r.Ok?
      && Like(r.value, s.table[v := Ppa(v, 0)], s.blocks[v := w], u.free, u.last, u.lane, u.recycled)
  {
    hide GetLastFreeBlock, Detach, Write, Block.Write, Like;
    assert u.table[v := Ppa(v, 0)] == s.table[v := Ppa(v, 0)] && u.blocks[v := w] == s.blocks[v := w];
    WriteOn(c, s, v, 0, u, v, w);
  }

  lemma WriteRotates(c: Config, s: State, lpn: nat, data: int)
    requires Write(c, s, lpn, data).Ok?
    ensures Write(c, s, lpn, data).value.ioMap
  {
    hide FreePosition, Without, InvalidateAt, Block.Write;
  }

  lemma TakeWrite(c: Config, s: State, i: nat) returns (t: State)
    requires Tidy(c, s, {}) && s.free != [] && i == FreePosition(c, s.free, NextLane(c, s))
    requires NextLane(c, s) < |s.last|
    requires s.last[NextLane(c, s)] in s.recycled || s.last[NextLane(c, s)] in s.blocks
    ensures Tidy(c, t, {}) && Took(c, s, i, t) && Reaches(c, s, t)
  {
    hide Invariant, FreePosition, Without, Write, Full, Reaches, NextLane;
    var v := s.free[i].idx;
    var w := TakeLike(c, s, i);
    t := Write(c, s, v, 0).value;
    WriteKeeps(c, s, v, 0);
    WriteRotates(c, s, v, 0);
    OneStep(c, s, WriteOp(v, 0), t);
  }

  // ---- recycling a block -------------------------------------------------------------------

  /** A victim without valid pages is only erased. */
  lemma CollectEmpty(c: Config, s: State, v: nat)
    requires c.pages == 1 && v in s.blocks && s.blocks[v].valid == {}
    ensures CollectGarbage(c, s, [v]) == EraseInternal(c, s.(recycled := s.recycled + [v]), v)
  {
    hide EraseInternal;
    assert CopyPages(c, s, v, 1, []) == Ok((s, []));
    assert CopyVictims(c, s, [v], 1, []) == Ok((s, []));
    assert CopyVictims(c, s, [v], 0, []) == Ok((s, []));
    var e := EraseInternal(c, s.(recycled := s.recycled + [v]), v);
    assert e.Ok? ==> EraseVictims(c, e.value, [v], 1) == e;
    assert EraseVictims(c, s, [v], 0) == e;
  }

  /** What trimming the page of block v and collecting the block does: the block comes back worn, or is retired. */
  ghost predicate GaveBack(c: Config, s: State, v: nat, worn: Block, t: State) {
    && t.lane == s.lane && t.ioMap == s.ioMap && t.last == s.last && t.recycled == s.recycled + [v]
    && t.blocks == s.blocks - {v} && v in s.blocks
    && worn.idx == v && worn.eraseCount == s.blocks[v].eraseCount + 1
    && t.free == if worn.eraseCount < c.badBlockAt then Inserted(s.free, worn) else s.free
  }

  lemma TrimFull(c: Config, s: State, v: nat) returns (t: State)
    requires Tidy(c, s, {}) && v in s.blocks
    ensures t == s.(blocks := s.blocks[v := s.blocks[v].Invalidate(0)], table := s.table - {v})
    ensures Invariant(c, t) && Reaches(c, s, t)
  {
    hide Invariant, Reaches;
    TrimKeeps(c, s, v);
    t := Trim(s, v).value;
    OneStep(c, s, TrimOp(v), t);
  }

  lemma EraseGives(c: Config, s: State, v: nat, b: Block) returns (t: State, worn: Block)
    requires v in s.blocks && b == s.blocks[v] && b.idx == v && s.free != []
    ensures EraseInternal(c, s, v) == Ok(t)
    ensures t.lane == s.lane && t.ioMap == s.ioMap && t.last == s.last && t.recycled == s.recycled
    ensures t.table == s.table
    ensures t.blocks == s.blocks - {v} && worn.idx == v && worn.eraseCount == b.eraseCount + 1
    ensures t.free == if worn.eraseCount < c.badBlockAt then Inserted(s.free, worn) else s.free
  {
    hide InsertPosition, WipeBlock, Below;
    worn := b.Erase();
    t := EraseInternal(c, s, v).value;
  }

  lemma IdxInUse(c: Config, s: State, v: nat)
    requires Invariant(c, s) && v in s.blocks
    ensures s.blocks[v].idx == v
  {
  }

  lemma CollectTrimmed(c: Config, s: State, v: nat) returns (t: State, worn: Block)
    requires c.pages == 1 && Invariant(c, s) && v in s.blocks && s.free != []
    requires s.blocks[v].valid == {} && s.blocks[v].next == 1
    ensures GaveBack(c, s, v, worn, t) && t.table == s.table && Invariant(c, t) && Reaches(c, s, t)
  {
    IdxInUse(c, s, v);
    hide Invariant, Reaches, Inserted, EraseInternal, CollectGarbage, Contents, Unavoidable;
    var u := s.(recycled := s.recycled + [v]);
    t, worn := EraseGives(c, u, v, s.blocks[v]);
    CollectEmpty(c, s, v);
    CollectGarbageKeeps(c, s, [v]);
    OneStep(c, s, CollectOp([v]), t);
  }

  lemma Recycle(c: Config, s: State, v: nat) returns (t: State, worn: Block)
    requires Tidy(c, s, {}) && v in s.blocks && s.free != []
    ensures Tidy(c, t, {}) && GaveBack(c, s, v, worn, t) && Reaches(c, s, t)
  {
    hide Invariant, Reaches, Inserted;
    var u := TrimFull(c, s, v);
    t, worn := CollectTrimmed(c, u, v);
    assert t.blocks == s.blocks - {v};
    ReachesOn(c, s, u, t);
  }

  // ---- which free block a lane takes -------------------------------------------------------

  /** The lane a block belongs to. */
  function LaneOf(c: Config, x: nat): (k: nat)
    requires 0 < c.lanes
    ensures k < c.lanes
  {
    x % c.lanes
  }

  /** The free block at position i is the first of lane k's own. */
  ghost predicate Own(c: Config, free: seq<Block>, k: nat, i: nat)
    requires 0 < c.lanes
  {
    i < |free| && LaneOf(c, free[i].idx) == k && forall j :: 0 <= j < i ==> LaneOf(c, free[j].idx) != k
  }

  ghost predicate NoneOwn(c: Config, free: seq<Block>, k: nat)
    requires 0 < c.lanes
  {
    forall j :: 0 <= j < |free| ==> LaneOf(c, free[j].idx) != k
  }

  lemma {:induction false} OwnPosition(c: Config, free: seq<Block>, k: nat, i: nat, from: nat)
    requires 0 < c.lanes && Own(c, free, k, i) && from <= i
    ensures LanePosition(c, free, k, from) == i
    decreases i - from
  {
    if from < i {
      OwnPosition(c, free, k, i, from + 1);
    }
  }

  lemma {:induction false} NoPosition(c: Config, free: seq<Block>, k: nat, from: nat)
    requires 0 < c.lanes && NoneOwn(c, free, k) && from <= |free|
    ensures LanePosition(c, free, k, from) == |free|
    decreases |free| - from
  {
    if from < |free| {
      NoPosition(c, free, k, from + 1);
    }
  }

  lemma TakesOwn(c: Config, free: seq<Block>, k: nat, i: nat)
    requires 0 < c.lanes && Own(c, free, k, i)
    ensures FreePosition(c, free, k) == i
  {
    OwnPosition(c, free, k, i, 0);
  }

  lemma TakesFront(c: Config, free: seq<Block>, k: nat)
    requires 0 < c.lanes && free != [] && NoneOwn(c, free, k)
    ensures FreePosition(c, free, k) == 0
  {
    NoPosition(c, free, k, 0);
  }

  /** Lane k would take block x. */
  ghost predicate Picks(c: Config, free: seq<Block>, k: nat, x: nat)
    requires 0 < c.lanes
  {
    exists i: nat :: Own(c, free, k, i) && free[i].idx == x
  }

  lemma InsertedAt(free: seq<Block>, b: Block) returns (p: nat)
    ensures p <= |free| && p == InsertPosition(free, |free|, b.eraseCount)
    ensures |Inserted(free, b)| == |free| + 1
    ensures Inserted(free, b)[p] == b && (forall j :: 0 <= j < p ==> Inserted(free, b)[j] == free[j])
    ensures forall j :: p < j <= |free| ==> Inserted(free, b)[j] == free[j - 1]
    ensures Removed(Inserted(free, b), p) == free
  {
    hide InsertPosition;
    p := InsertPosition(free, |free|, b.eraseCount);
  }

  /** Another lane's block makes no difference. */
  lemma InsertedPicks(c: Config, free: seq<Block>, b: Block, k: nat, x: nat)
    requires 0 < c.lanes && Picks(c, free, k, x) && LaneOf(c, b.idx) != k
    ensures Picks(c, Inserted(free, b), k, x)
  {
    hide LaneOf;
    var p := InsertedAt(free, b);
    hide Inserted;
    var i: nat :| Own(c, free, k, i) && free[i].idx == x;
    var r := Inserted(free, b);
    assert forall j :: 0 <= j <= |free| ==> r[j] == if j < p then free[j] else if j == p then b else free[j - 1];
    assert Own(c, r, k, if i < p then i else i + 1);
  }

  lemma RemovedPicks(c: Config, free: seq<Block>, i: nat, k: nat, x: nat)
    requires 0 < c.lanes && Picks(c, free, k, x) && i < |free| && LaneOf(c, free[i].idx) != k
    ensures Picks(c, Removed(free, i), k, x)
  {
    hide LaneOf;
    var j: nat :| Own(c, free, k, j) && free[j].idx == x;
    assert Own(c, Removed(free, i), k, if j < i then j else j - 1);
  }

  /** The only one of its lane. */
  lemma InsertedOwn(c: Config, free: seq<Block>, b: Block, k: nat) returns (p: nat)
    requires 0 < c.lanes && NoneOwn(c, free, k) && LaneOf(c, b.idx) == k
    ensures p <= |free| && Own(c, Inserted(free, b), k, p) && Inserted(free, b)[p] == b
    ensures Removed(Inserted(free, b), p) == free && |Inserted(free, b)| == |free| + 1
    ensures Picks(c, Inserted(free, b), k, b.idx)
  {
    hide LaneOf;
    p := InsertedAt(free, b);
    hide Inserted;
    assert Inserted(free, b)[p] == b;
    assert forall j :: 0 <= j < p ==> Inserted(free, b)[j] == free[j];
    assert Own(c, Inserted(free, b), k, p);
  }

  lemma {:induction false} WithoutLast(ids: seq<nat>, x: nat)
    requires x !in ids
    ensures Without(ids + [x], x) == ids
  {
    if ids == [] {
      assert ids + [x] == [x];
    } else {
      assert (ids + [x])[1..] == ids[1..] + [x];
      WithoutLast(ids[1..], x);
    }
  }

  /** The next lane's own block is given back and taken again: all but its erase count is as before, and the lane has
      had its turn. */
  ghost predicate Refreshed(c: Config, s: State, t: State) {
    var k := NextLane(c, s);
    && k < |s.last| && s.last[k] in s.blocks
    && t.lane == k && t.last == s.last && t.recycled == s.recycled && t.free == s.free
    && t.blocks.Keys == s.blocks.Keys
    && t.blocks[s.last[k]].eraseCount == s.blocks[s.last[k]].eraseCount + 1
    && forall x :: x in s.blocks && x != s.last[k] ==> t.blocks[x] == s.blocks[x]
  }

  lemma Refresh(c: Config, s: State) returns (t: State)
    requires Tidy(c, s, {}) && 0 < c.lanes && s.free != [] && NextLane(c, s) < |s.last|
    requires var k := NextLane(c, s); var o := s.last[k];
      && NoneOwn(c, s.free, k) && o in s.blocks && LaneOf(c, o) == k && o !in s.recycled
      && s.blocks[o].eraseCount + 1 < c.badBlockAt
    ensures Tidy(c, t, {}) && Refreshed(c, s, t) && Reaches(c, s, t)
  {
    hide LaneOf;
    hide Tidy, Reaches, Inserted, Removed, FreePosition, Without, NoneOwn;
    var k := NextLane(c, s);
    var o := s.last[k];
    var u, worn := Recycle(c, s, o);
    assert NextLane(c, u) == k;
    var p := InsertedOwn(c, s.free, worn, k);
    TakesOwn(c, u.free, k, p);
    t := TakeWrite(c, u, p);
    WithoutLast(s.recycled, o);
    assert t.last == s.last;
    ReachesOn(c, s, u, t);
  }

  // ---- a blank block -----------------------------------------------------------------------

  /** The next lane's block is blank, and written. */
  lemma BlankWrite(c: Config, s: State, blank: set<nat>, v: nat) returns (t: State)
    requires Orderly(c, s, blank) && NextLane(c, s) < |s.last| && v == s.last[NextLane(c, s)]
    requires v in blank && v !in s.recycled
    ensures Tidy(c, t, blank - {v}) && Reaches(c, s, t)
    ensures t.lane == NextLane(c, s) && t.last == s.last && t.recycled == s.recycled && t.free == s.free
    ensures t.blocks.Keys == s.blocks.Keys
    ensures forall x :: x in s.blocks ==> t.blocks[x].eraseCount == s.blocks[x].eraseCount
  {
    var w := BlankLike(c, s, blank, v);
    hide Invariant, Write, Full, Reaches, NextLane, LosesLane, NeedsBlock;
    t := Write(c, s, v, 0).value;
    WriteKeeps(c, s, v, 0);
    WriteRotates(c, s, v, 0);
    OneStep(c, s, WriteOp(v, 0), t);
    assert t.blocks == s.blocks[v := w] && t.table == s.table[v := Ppa(v, 0)];
    hide Contents, Like;
    LessBlank(c, s, t, blank, v, w);
  }

  lemma LessBlank(c: Config, s: State, t: State, blank: set<nat>, v: nat, w: Block)
    requires Orderly(c, s, blank) && v in blank && Full(w, v) && Invariant(c, t) && t.ioMap
    requires t.blocks == s.blocks[v := w] && t.table == s.table[v := Ppa(v, 0)]
    ensures Tidy(c, t, blank - {v}) && t.blocks.Keys == s.blocks.Keys
  {
    hide Invariant, Full;
    assert forall x :: x in t.blocks <==> x in s.blocks;
  }

  lemma BlankLike(c: Config, s: State, blank: set<nat>, v: nat) returns (w: Block)
    requires Orderly(c, s, blank) && NextLane(c, s) < |s.last| && v == s.last[NextLane(c, s)]
    requires v in blank && v !in s.recycled
    ensures var r := Write(c, s, v, 0);
      && Full(w, v) && w.eraseCount == s.blocks[v].eraseCount && r.Ok?
      && Like(r.value, s.table[v := Ppa(v, 0)], s.blocks[v := w], s.free, s.last, NextLane(c, s), s.recycled)
  {
    InUse(c, s, v);
    var d := s.(table := s.table[v := Ppa(c.physicalBlocks, 1)]);
    assert v !in s.table && s.blocks[v].next == 0;
    hide Orderly, Invariant, GetLastFreeBlock, Write, Full, Block.Write, Like;
    assert Detach(c, s, v) == d && NextLane(c, d) == NextLane(c, s);
    hide Detach, NextLane;
    Stays(c, d);
    FillsBlank(s.blocks[v], v);
    w := s.blocks[v].Write(0, v).value;
    var u := d.(lane := NextLane(c, d), ioMap := true);
    assert s.blocks[v := s.blocks[v]] == s.blocks;
    ProgramTaken(c, s, u, v, s.blocks[v], w, Ppa(c.physicalBlocks, 1));
  }

  lemma InUse(c: Config, s: State, v: nat)
    requires Invariant(c, s) && v in s.blocks
    ensures s.blocks[v].WellFormed(c.pages) && s.nFree == |s.free|
    ensures |s.last| == c.lanes && 0 < c.lanes && NextLane(c, s) < c.lanes
  {
  }
}
