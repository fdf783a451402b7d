/** The invariant of the page-mapping FTL and the steps that keep it. */
module FtlInvariant {
  import opened Outcome
  import opened Blocks
  import opened FtlSpec

  // ---- the invariant -----------------------------------------------------------------------

  ghost predicate Geometry(c: Config) {
    0 < c.pages && 0 < c.lanes
  }

  /** The drives on which no lane ever loses its block: at least two pages per block, or a single lane. */
  ghost predicate KeepsTrack(c: Config) {
    2 <= c.pages || c.lanes == 1
  }

  function FreeIds(free: seq<Block>): set<nat> {
    set i | 0 <= i < |free| :: free[i].idx
  }

  ghost predicate Sorted(free: seq<Block>) {
    forall i, j :: 0 <= i < j < |free| ==> free[i].eraseCount <= free[j].eraseCount
  }

  ghost predicate FreeListOk(c: Config, free: seq<Block>) {
    && (forall i :: 0 <= i < |free| ==> free[i].WellFormed(c.pages) && free[i].next == 0)
    && (forall i, j :: 0 <= i < j < |free| ==> free[i].idx != free[j].idx)
    && Sorted(free)
  }

  ghost predicate BlocksOk(c: Config, blocks: map<nat, Block>) {
    forall b :: b in blocks ==> blocks[b].idx == b && blocks[b].WellFormed(c.pages)
  }

  /** Every block is in use, free or retired, and only one of the three. */
  ghost predicate Partitioned(c: Config, blocks: map<nat, Block>, free: seq<Block>, retired: set<nat>) {
    && blocks.Keys !! FreeIds(free)
    && retired !! blocks.Keys
    && retired !! FreeIds(free)
    && blocks.Keys + FreeIds(free) + retired == Below(c.physicalBlocks)
  }

  ghost predicate PoolOf(c: Config, blocks: map<nat, Block>, free: seq<Block>, nFree: int, retired: set<nat>) {
    && BlocksOk(c, blocks)
    && FreeListOk(c, free)
    && nFree == |free|
    && Partitioned(c, blocks, free, retired)
  }

  ghost predicate Pool(c: Config, s: State) {
    PoolOf(c, s.blocks, s.free, s.nFree, s.retired)
  }

  /** Mapping table and blocks are inverse to each other: a mapped page number points at a valid page
      that stores it, and each valid page is what its stored page number is mapped to. */
  ghost predicate Bijection(table: map<nat, Ppa>, blocks: map<nat, Block>) {
    && (forall l :: l in table ==> Points(table[l], l, blocks))
    && (forall b, p :: b in blocks && p in blocks[b].valid ==>
          && p < |blocks[b].lpns|
          && blocks[b].lpns[p] in table
          && table[blocks[b].lpns[p]] == Ppa(b, p))
  }

  ghost predicate Points(a: Ppa, l: nat, blocks: map<nat, Block>) {
    && a.block in blocks
    && a.page in blocks[a.block].valid
    && a.page < |blocks[a.block].lpns|
    && blocks[a.block].lpns[a.page] == l
  }

  /** Every lane's open block is in use or listed as erased. At most two lanes name the same block; if
      two do, it is in use and listed. A listed block in use has at most one page written. */
  ghost predicate Tracked(c: Config, last: seq<nat>, blocks: map<nat, Block>, recycled: seq<nat>)
    requires |last| == c.lanes
  {
    && (forall i :: 0 <= i < c.lanes ==> last[i] in blocks || last[i] in recycled)
    && (forall i, j :: 0 <= i < j < c.lanes && last[i] == last[j] ==> last[i] in blocks && last[i] in recycled)
    && (forall b :: b in recycled && b in blocks ==> blocks[b].next <= 1 && b in last)
    && (forall i, j, k :: 0 <= i < j < k < c.lanes ==> !(last[i] == last[j] == last[k]))
  }

  ghost predicate LanesOf(c: Config, last: seq<nat>, lane: nat, blocks: map<nat, Block>, recycled: seq<nat>) {
    |last| == c.lanes && lane < c.lanes && (KeepsTrack(c) ==> Tracked(c, last, blocks, recycled))
  }

  ghost predicate Lanes(c: Config, s: State) {
    LanesOf(c, s.last, s.lane, s.blocks, s.recycled)
  }

  ghost predicate Invariant(c: Config, s: State) {
    && Geometry(c)
    && Pool(c, s)
    && Lanes(c, s)
    && Bijection(s.table, s.blocks)
  }

  lemma InUseInRange(c: Config, s: State, b: nat)
    requires Pool(c, s) && b in s.blocks
    ensures b < c.physicalBlocks && s.blocks[b].WellFormed(c.pages)
  {
    assert b in Below(c.physicalBlocks);
  }

  lemma MappedInRange(c: Config, s: State, l: nat)
    requires Pool(c, s) && Bijection(s.table, s.blocks) && l in s.table
    ensures Points(s.table[l], l, s.blocks)
    ensures s.table[l].block < c.physicalBlocks && s.table[l].page < c.pages
  {
    InUseInRange(c, s, s.table[l].block);
  }

  lemma MappedPoints(table: map<nat, Ppa>, blocks: map<nat, Block>, l: nat)
    requires Bijection(table, blocks) && l in table
    ensures Points(table[l], l, blocks)
  {
  }

  lemma ValidMapped(table: map<nat, Ppa>, blocks: map<nat, Block>, b: nat, p: nat)
    requires Bijection(table, blocks) && b in blocks && p in blocks[b].valid
    ensures p < |blocks[b].lpns| && blocks[b].lpns[p] in table && table[blocks[b].lpns[p]] == Ppa(b, p)
  {
  }

  // ---- taking a free block -----------------------------------------------------------------

  lemma FreeIdsRemove(free: seq<Block>, i: nat)
    requires i < |free|
    requires forall j, k :: 0 <= j < k < |free| ==> free[j].idx != free[k].idx
    ensures FreeIds(free[..i] + free[i + 1..]) == FreeIds(free) - {free[i].idx}
  {
    var rest := free[..i] + free[i + 1..];
    forall x | x in FreeIds(free) - {free[i].idx}
      ensures x in FreeIds(rest)
    {
      var j :| 0 <= j < |free| && free[j].idx == x;
      assert rest[if j < i then j else j - 1] == free[j];
    }
    forall x | x in FreeIds(rest)
      ensures x in FreeIds(free) - {free[i].idx}
    {
      var j :| 0 <= j < |rest| && rest[j].idx == x;
      assert rest[j] == free[if j < i then j else j + 1];
    }
  }

  lemma FreeListRemove(c: Config, free: seq<Block>, i: nat)
    requires FreeListOk(c, free) && i < |free|
    ensures FreeListOk(c, free[..i] + free[i + 1..])
  {
    var rest := free[..i] + free[i + 1..];
    forall j | 0 <= j < |rest|
      ensures rest[j] == free[if j < i then j else j + 1]
    {
    }
  }

  /** A block taken from the free list is a blank one the map does not hold; the pool stays partitioned,
      and the only way to fail is an empty free list. */
  lemma GetFreeBlockKeeps(c: Config, s: State, k: nat)
    requires Pool(c, s) && k < c.lanes
    ensures GetFreeBlock(c, s, k).Panic? ==> GetFreeBlock(c, s, k).fault == NoFreeBlock
    ensures GetFreeBlock(c, s, k).Panic? <==> s.free == []
    ensures GetFreeBlock(c, s, k).Ok? ==>
              var (t, b) := GetFreeBlock(c, s, k).value;
              && Pool(c, t)
              && b !in s.blocks && b in t.blocks
              && t.blocks[b].next == 0 && t.blocks[b].valid == {}
              && t.blocks == s.blocks[b := t.blocks[b]]
              && |t.free| == |s.free| - 1
              && t == s.(blocks := t.blocks, free := t.free, nFree := t.nFree)
  {
    if s.free != [] {
      var i := FreePosition(c, s.free, k);
      var b := s.free[i];
      assert b.idx in FreeIds(s.free);
      FreeIdsRemove(s.free, i);
      FreeListRemove(c, s.free, i);
      var (t, x) := GetFreeBlock(c, s, k).value;
      assert t.blocks.Keys == s.blocks.Keys + {b.idx};
      assert t.blocks.Keys + FreeIds(t.free) == s.blocks.Keys + FreeIds(s.free);
    }
  }

  lemma LanePositionIsFirst(c: Config, free: seq<Block>, lane: nat, from: nat)
    requires 0 < c.lanes && from <= |free|
    ensures var i := LanePosition(c, free, lane, from);
      && (i < |free| ==> free[i].idx % c.lanes == lane)
      && (forall j :: from <= j < i ==> free[j].idx % c.lanes != lane)
    decreases |free| - from
  {
  }

  /** Wear levelling of allocation: the block handed to a lane is least worn among the lane's free blocks,
      and least worn of all when the lane has none. */
  lemma {:induction false} GetFreeBlockLeastWorn(c: Config, s: State, k: nat)
    requires Pool(c, s) && k < c.lanes && s.free != []
    ensures GetFreeBlock(c, s, k).Ok?
    ensures var (t, b) := GetFreeBlock(c, s, k).value;
      forall i :: 0 <= i < |s.free| && (s.free[i].idx % c.lanes == k || b % c.lanes != k) ==>
                    t.blocks[b].eraseCount <= s.free[i].eraseCount
    ensures var (t, b) := GetFreeBlock(c, s, k).value;
      (b % c.lanes == k) <==> exists i :: 0 <= i < |s.free| && s.free[i].idx % c.lanes == k
  {
    GetFreeBlockKeeps(c, s, k);
    LanePositionIsFirst(c, s.free, k, 0);
  }

  // ---- choosing the block for the next write -----------------------------------------------

  /** What is tracked when lane k is about to be given another block. */
  ghost predicate TrackedExcept(c: Config, s: State, k: nat)
    requires |s.last| == c.lanes
  {
    && (forall i :: 0 <= i < c.lanes && i != k ==> s.last[i] in s.blocks || s.last[i] in s.recycled)
    && (forall i, j :: 0 <= i < j < c.lanes && i != k && j != k && s.last[i] == s.last[j] ==>
          s.last[i] in s.blocks && s.last[i] in s.recycled)
    && (forall b :: b in s.recycled && b in s.blocks ==>
          s.blocks[b].next <= 1 && exists i :: 0 <= i < c.lanes && i != k && s.last[i] == b)
    && (forall i, j, m :: 0 <= i < j < m < c.lanes && k != i && k != j && k != m ==>
          !(s.last[i] == s.last[j] == s.last[m]))
  }

  ghost predicate LanesExcept(c: Config, s: State, k: nat) {
    |s.last| == c.lanes && s.lane < c.lanes && (KeepsTrack(c) ==> TrackedExcept(c, s, k))
  }

  lemma DropLane(c: Config, s: State, k: nat)
    requires |s.last| == c.lanes && Tracked(c, s.last, s.blocks, s.recycled) && k < c.lanes
    ensures s.last[k] in s.recycled ==>
              TrackedExcept(c, s.(recycled := Without(s.recycled, s.last[k])), k)
    ensures s.last[k] !in s.recycled ==> TrackedExcept(c, s, k)
  {
    var t := s.(recycled := Without(s.recycled, s.last[k]));
    forall b | b in t.recycled && b in s.blocks
      ensures exists i :: 0 <= i < c.lanes && i != k && s.last[i] == b
    {
      assert b in s.last;
      var i :| 0 <= i < c.lanes && s.last[i] == b;
    }
    if s.last[k] in s.recycled {
      forall i, j | 0 <= i < j < c.lanes && i != k && j != k && s.last[i] == s.last[j]
        ensures s.last[i] in t.recycled
      {
      }
    } else {
      forall b | b in s.recycled && b in s.blocks
        ensures exists i :: 0 <= i < c.lanes && i != k && s.last[i] == b
      {
        assert b in s.last;
        var i :| 0 <= i < c.lanes && s.last[i] == b;
      }
    }
  }

  lemma RenewLane(c: Config, s: State, k: nat, b: nat, blank: Block)
    requires |s.last| == c.lanes && TrackedExcept(c, s, k) && k < c.lanes
    requires b !in s.blocks && blank.next == 0
    ensures Tracked(c, s.last[k := b], s.blocks[b := blank], s.recycled)
  {
    var t := s.(blocks := s.blocks[b := blank], last := s.last[k := b]);
    forall x | x in t.recycled && x in t.blocks
      ensures t.blocks[x].next <= 1 && x in t.last
    {
      if x == b {
        assert t.last[k] == b;
      } else {
        var i :| 0 <= i < c.lanes && i != k && s.last[i] == x;
        assert t.last[i] == x;
      }
    }
    forall i, j | 0 <= i < j < c.lanes && t.last[i] == t.last[j]
      ensures t.last[i] in t.blocks && t.last[i] in t.recycled
    {
      if i == k || j == k {
        var o := if i == k then j else i;
        assert s.last[o] == b;
      }
    }
    forall i, j, m | 0 <= i < j < m < c.lanes
      ensures !(t.last[i] == t.last[j] == t.last[m])
    {
    }
  }

  /** Blocks may join the map blank; nothing else about it changes. */
  ghost predicate Grown(before: map<nat, Block>, after: map<nat, Block>) {
    && (forall b :: b in before ==> b in after && after[b] == before[b])
    && (forall b :: b in after && b !in before ==> after[b].valid == {} && after[b].next == 0)
  }

  lemma BijectionGrown(table: map<nat, Ppa>, before: map<nat, Block>, after: map<nat, Block>)
    requires Bijection(table, before) && Grown(before, after)
    ensures Bijection(table, after)
  {
  }

  /** What getLastFreeBlock leaves alone. */
  ghost predicate SameData(s: State, t: State) {
    s.table == t.table && s.flash == t.flash && s.retired == t.retired
  }

  /** Block b can take a page now, and the lane invariant will survive that. */
  ghost predicate Open(c: Config, s: State, b: nat) {
    && b in s.blocks
    && s.blocks[b].next < c.pages
    && (b in s.recycled ==> s.blocks[b].next == 0)
  }

  lemma RenewKeeps(c: Config, s: State, k: nat)
    requires Geometry(c) && Pool(c, s) && k < c.lanes && LanesExcept(c, s, k)
    ensures Renew(c, s, k).Panic? ==> Renew(c, s, k).fault == NoFreeBlock
    ensures Renew(c, s, k).Panic? <==> s.free == []
    ensures Renew(c, s, k).Ok? ==>
              var t := Renew(c, s, k).value;
              && Pool(c, t) && Lanes(c, t) && Open(c, t, t.last[k]) && t.blocks[t.last[k]].next == 0
              && Grown(s.blocks, t.blocks) && SameData(s, t)
              && t.recycled == s.recycled && t.lane == s.lane
  {
    GetFreeBlockKeeps(c, s, k);
    if s.free != [] {
      var (u, b) := GetFreeBlock(c, s, k).value;
      if KeepsTrack(c) {
        RenewLane(c, s, k, b, u.blocks[b]);
      }
      var t := Renew(c, s, k).value;
      assert t == s.(blocks := s.blocks[b := u.blocks[b]], last := s.last[k := b], free := u.free, nFree := u.nFree);
      assert t.last[k] == b;
    }
  }

  /** Whether the lane's block has to be replaced before the next write. */
  ghost predicate NeedsBlock(c: Config, s: State) {
    var k := NextLane(c, s);
    k < |s.last| && (s.last[k] in s.recycled || (s.last[k] in s.blocks && s.blocks[s.last[k]].next == c.pages))
  }

  /** The lane's block is neither in use nor listed as erased. */
  ghost predicate LosesLane(c: Config, s: State) {
    var k := NextLane(c, s);
    k < |s.last| && s.last[k] !in s.recycled && s.last[k] !in s.blocks
  }

  /** How choosing a block can fail at all. */
  ghost predicate Shortage(c: Config, f: Fault) {
    f == NoFreeBlock || (f == Corrupted && !KeepsTrack(c))
  }

  lemma RenewIgnoresRecycled(c: Config, s: State, k: nat, ids: seq<nat>)
    requires k < |s.last| && Pool(c, s) && k < c.lanes
    ensures var u := s.(recycled := ids);
      && Pool(c, u)
      && (Renew(c, s, k).Panic? <==> Renew(c, u, k).Panic?)
      && (Renew(c, s, k).Panic? ==> Renew(c, s, k).fault == Renew(c, u, k).fault)
      && (Renew(c, s, k).Ok? ==> Renew(c, u, k).value == Renew(c, s, k).value.(recycled := ids))
      && (Renew(c, s, k).Ok? ==> Renew(c, s, k).value.recycled == s.recycled)
  {
    GetFreeBlockKeeps(c, s, k);
  }

  lemma ReplaceKeeps(c: Config, s: State, k: nat)
    requires Geometry(c) && Pool(c, s) && Lanes(c, s) && k < c.lanes
    ensures Replace(c, s, k).Panic? ==> Replace(c, s, k).fault == NoFreeBlock
    ensures Replace(c, s, k).Panic? <==> s.last[k] in s.recycled && s.free == []
    ensures Replace(c, s, k).Ok? ==>
              var t := Replace(c, s, k).value;
              && Pool(c, t) && Lanes(c, t) && Grown(s.blocks, t.blocks) && SameData(s, t)
              && (s.last[k] in s.recycled ==> t.last[k] in t.blocks && t.blocks[t.last[k]].next == 0)
              && (s.last[k] !in s.recycled ==> t == s)
  {
    hide PoolOf, Renew, Tracked, TrackedExcept;
    var held := s.last[k];
    if KeepsTrack(c) {
      DropLane(c, s, k);
    }
    if held in s.recycled {
      var ids := Without(s.recycled, held);
      RenewIgnoresRecycled(c, s, k, ids);
      RenewKeeps(c, s.(recycled := ids), k);
    }
  }

  lemma RefillKeeps(c: Config, s: State, k: nat)
    requires Geometry(c) && Pool(c, s) && Lanes(c, s) && k < c.lanes
    requires s.last[k] in s.blocks
    requires s.last[k] in s.recycled ==> s.blocks[s.last[k]].next == 0
    ensures Refill(c, s, k).Panic? ==> Refill(c, s, k).fault == NoFreeBlock
    ensures Refill(c, s, k).Panic? <==> s.blocks[s.last[k]].next == c.pages && s.free == []
    ensures Refill(c, s, k).Ok? ==>
              var (t, b) := Refill(c, s, k).value;
              && Pool(c, t) && Lanes(c, t) && Open(c, t, b) && Grown(s.blocks, t.blocks) && SameData(s, t)
              && b == t.last[k]
  {
    assert s.blocks[s.last[k]].WellFormed(c.pages);
    if s.blocks[s.last[k]].next == c.pages {
      if KeepsTrack(c) {
        DropLane(c, s, k);
      }
      RenewKeeps(c, s, k);
    }
  }

  /** The index panic is out of reach, and "Corrupted" happens exactly when the lane's block is neither in use nor
      listed; a drive that keeps track never gets there. Otherwise the only failure is a lane that needs a block
      while the free list is empty. On success the chosen block is open. */
  lemma {:induction false} GetLastFreeBlockKeeps(c: Config, s: State)
    requires Geometry(c) && Pool(c, s) && Lanes(c, s)
    ensures LosesLane(c, s) ==> !KeepsTrack(c)
    ensures GetLastFreeBlock(c, s).Panic? <==> LosesLane(c, s) || (NeedsBlock(c, s) && s.free == [])
    ensures GetLastFreeBlock(c, s).Panic? ==>
              GetLastFreeBlock(c, s).fault == if LosesLane(c, s) then Corrupted else NoFreeBlock
    ensures GetLastFreeBlock(c, s).Ok? ==>
              var (t, b) := GetLastFreeBlock(c, s).value;
              && Pool(c, t) && Lanes(c, t) && Open(c, t, b)
              && Grown(s.blocks, t.blocks) && SameData(s, t)
              && b == t.last[NextLane(c, s)]
  {
    var k := NextLane(c, s);
    var u := s.(lane := k, ioMap := true);
    assert Pool(c, u) && Lanes(c, u);
    ReplaceKeeps(c, u, k);
    if Replace(c, u, k).Ok? && !LosesLane(c, s) {
      RefillKeeps(c, Replace(c, u, k).value, k);
    }
  }

  /** The lanes take turns, save that the first choice on a drive with the random tweak stays where it is. Only the
      lane whose turn it is may get another block, which it then writes; the flag that asks for more to be reclaimed is
      raised exactly when that lane's block was full and not listed as erased. */
  lemma {:induction false} LanesTakeTurns(c: Config, s: State)
    requires Geometry(c) && Pool(c, s) && Lanes(c, s) && GetLastFreeBlock(c, s).Ok?
    ensures var (t, b) := GetLastFreeBlock(c, s).value;
      && t.lane == (if c.tweak && !s.ioMap then s.lane else (s.lane + 1) % c.lanes) && t.ioMap
      && t.lane < |s.last| == |t.last| && b == t.last[t.lane]
      && (forall k :: 0 <= k < |s.last| && k != t.lane ==> t.last[k] == s.last[k])
      && (s.last[t.lane] !in s.recycled ==> s.last[t.lane] in s.blocks)
      && (if s.last[t.lane] !in s.recycled && s.blocks[s.last[t.lane]].next < c.pages
          then b == s.last[t.lane]
          else b !in s.blocks)
      && t.reclaimMore ==
         (s.reclaimMore || (s.last[t.lane] !in s.recycled && s.blocks[s.last[t.lane]].next == c.pages))
  {
    hide GetFreeBlock, Partitioned, Without;
    var k := NextLane(c, s);
    var u := s.(lane := k, ioMap := true);
    NextIsModulo(s.lane, c.lanes);
    GetFreeBlockKeeps(c, u, k);
    if s.last[k] !in s.recycled {
      assert Replace(c, u, k) == Ok(u) && s.last[k] in s.blocks;
      assert s.blocks[s.last[k]].WellFormed(c.pages);
    }
  }

  lemma NextIsModulo(k: nat, n: nat)
    requires k < n
    ensures (k + 1) % n == if k + 1 == n then 0 else k + 1
  {
  }

  // ---- invalidating and programming a page -------------------------------------------------

  ghost predicate SameShape(before: map<nat, Block>, after: map<nat, Block>) {
    && before.Keys == after.Keys
    && forall b :: b in before ==> after[b].next == before[b].next
  }

  lemma InvalidateKeeps(c: Config, s: State, a: Ppa)
    requires Pool(c, s) && Lanes(c, s)
    ensures var t := s.(blocks := InvalidateAt(s.blocks, a));
      Pool(c, t) && Lanes(c, t) && SameShape(s.blocks, t.blocks)
  {
    hide FreeListOk;
    var t := s.(blocks := InvalidateAt(s.blocks, a));
    assert t.blocks.Keys == s.blocks.Keys;
    assert BlocksOk(c, t.blocks);
  }

  lemma InvalidateUnmaps(table: map<nat, Ppa>, blocks: map<nat, Block>, lpn: nat)
    requires Bijection(table, blocks) && lpn in table
    ensures Bijection(table - {lpn}, InvalidateAt(blocks, table[lpn]))
  {
  }

  /** Programming an open block maps lpn to a page that was not valid before. */
  lemma ProgramKeeps(c: Config, s: State, b: nat, lpn: nat)
    requires Geometry(c) && Pool(c, s) && Lanes(c, s) && Open(c, s, b)
    requires Bijection(s.table - {lpn}, s.blocks)
    ensures Program(s, b, lpn).Ok?
    ensures var (t, at) := Program(s, b, lpn).value;
      && Pool(c, t) && Lanes(c, t) && Bijection(t.table, t.blocks)
      && at.block == b && at == t.table[lpn] && t.table == s.table[lpn := at]
      && at.page !in s.blocks[b].valid
      && t == s.(blocks := s.blocks[b := t.blocks[b]], table := t.table)
      && t.blocks[b].next == s.blocks[b].next + 1
  {
    hide FreeListOk, Bijection;
    WriteAtNext(s.blocks[b], c.pages, lpn);
    var (t, at) := Program(s, b, lpn).value;
    assert t.blocks.Keys == s.blocks.Keys;
    assert BlocksOk(c, t.blocks);
    ProgramMaps(s.table, s.blocks, b, lpn, t.blocks[b], c.pages);
  }

  lemma ProgramMaps(table: map<nat, Ppa>, blocks: map<nat, Block>, b: nat, lpn: nat, w: Block, pages: nat)
    requires Bijection(table - {lpn}, blocks)
    requires b in blocks && blocks[b].WellFormed(pages) && blocks[b].next < pages
    requires blocks[b].Write(blocks[b].next, lpn) == Ok(w)
    ensures Bijection(table[lpn := Ppa(b, blocks[b].next)], blocks[b := w])
  {
    var after, t := blocks[b := w], table[lpn := Ppa(b, blocks[b].next)];
    forall l | l in t
      ensures Points(t[l], l, after)
    {
      if l != lpn {
        assert l in table - {lpn} && (table - {lpn})[l] == t[l];
        assert Points(t[l], l, blocks);
      }
    }
    forall x, p | x in after && p in after[x].valid
      ensures p < |after[x].lpns| && after[x].lpns[p] in t && t[after[x].lpns[p]] == Ppa(x, p)
    {
      if !(x == b && p == blocks[b].next) {
        assert x in blocks && p in blocks[x].valid;
        var l := blocks[x].lpns[p];
        assert l in table - {lpn};
      }
    }
  }
}
