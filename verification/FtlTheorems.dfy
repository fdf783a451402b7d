/** What every operation, and every run of operations, of the page-mapping FTL does to the logical contents. */
module FtlTheorems {
  import opened Outcome
  import opened Blocks
  import opened FtlSpec
  import opened FtlInvariant

  // ---- host operations ---------------------------------------------------------------------

  lemma DetachKeeps(c: Config, s: State, lpn: nat)
    requires Invariant(c, s)
    ensures var t := Detach(c, s, lpn);
      && Pool(c, t) && Lanes(c, t) && Bijection(t.table - {lpn}, t.blocks)
      && t == s.(blocks := t.blocks, table := t.table)
      && t.table - {lpn} == s.table - {lpn}
      && SameShape(s.blocks, t.blocks)
  {
    hide PoolOf, LanesOf, Bijection;
    var t := Detach(c, s, lpn);
    if lpn in s.table {
      MappedInRange(c, s, lpn);
      InvalidateKeeps(c, s, s.table[lpn]);
      InvalidateUnmaps(s.table, s.blocks, lpn);
    } else {
      assert t.table - {lpn} == s.table;
      assert s.table - {lpn} == s.table;
    }
  }

  lemma ContentsWritten(before: State, after: State, lpn: nat, data: int)
    requires after.table.Keys == before.table.Keys + {lpn}
    requires ReadFlash(after.flash, after.table[lpn]) == data
    requires forall l :: l in before.table && l != lpn ==>
               ReadFlash(after.flash, after.table[l]) == ReadFlash(before.flash, before.table[l])
    ensures Contents(after) == Contents(before)[lpn := data]
  {
    assert Contents(after).Keys == Contents(before)[lpn := data].Keys;
  }

  lemma WriteElsewhere(s: State, s2: State, s3: State, lpn: nat, at: Ppa)
    requires Bijection(s2.table - {lpn}, s2.blocks)
    requires s2.table - {lpn} == s.table - {lpn}
    requires s3.table == s2.table[lpn := at]
    requires at.block in s2.blocks && at.page !in s2.blocks[at.block].valid
    ensures s3.table.Keys == s.table.Keys + {lpn}
    ensures forall l :: l in s.table && l != lpn ==> s3.table[l] == s.table[l] != at
  {
    forall l | l in s.table && l != lpn
      ensures l in s2.table && s2.table[l] == s.table[l] != at
    {
      assert l in s2.table - {lpn} && (s2.table - {lpn})[l] == s.table[l];
      MappedPoints(s2.table - {lpn}, s2.blocks, l);
    }
    forall l | l in s2.table && l != lpn
      ensures l in s.table
    {
      assert l in s.table - {lpn};
    }
  }

  /** A write maps lpn to the new data and changes no other page; it fails only when its lane needs a block
      and none is free, or when the lane has lost its block, which no drive that keeps track does. */
  lemma {:induction false} WriteKeeps(c: Config, s: State, lpn: nat, data: int)
    requires Invariant(c, s)
    ensures LosesLane(c, s) ==> !KeepsTrack(c)
    ensures Write(c, s, lpn, data).Panic? <==> LosesLane(c, s) || (NeedsBlock(c, s) && s.free == [])
    ensures Write(c, s, lpn, data).Panic? ==>
              Write(c, s, lpn, data).fault == if LosesLane(c, s) then Corrupted else NoFreeBlock
    ensures Write(c, s, lpn, data).Ok? ==>
              var t := Write(c, s, lpn, data).value;
              && Invariant(c, t)
              && Contents(t) == Contents(s)[lpn := data]
  {
    hide PoolOf, LanesOf, Bijection, GetLastFreeBlock, Program, Detach, Contents;
    DetachKeeps(c, s, lpn);
    var s1 := Detach(c, s, lpn);
    assert (NeedsBlock(c, s1) <==> NeedsBlock(c, s)) && (LosesLane(c, s1) <==> LosesLane(c, s));
    GetLastFreeBlockKeeps(c, s1);
    if GetLastFreeBlock(c, s1).Ok? {
      var (s2, b) := GetLastFreeBlock(c, s1).value;
      BijectionGrown(s1.table - {lpn}, s1.blocks, s2.blocks);
      ProgramKeeps(c, s2, b, lpn);
      var (s3, at) := Program(s2, b, lpn).value;
      WriteElsewhere(s, s2, s3, lpn, at);
      ContentsWritten(s, s3.(flash := s3.flash[at := data]), lpn, data);
    }
  }

  /** A trim unmaps lpn, changes no other page, and cannot fail. */
  lemma {:induction false} TrimKeeps(c: Config, s: State, lpn: nat)
    requires Invariant(c, s)
    ensures Trim(s, lpn).Ok?
    ensures Invariant(c, Trim(s, lpn).value)
    ensures Contents(Trim(s, lpn).value) == Contents(s) - {lpn}
  {
    hide PoolOf, LanesOf, Bijection;
    if lpn in s.table {
      MappedInRange(c, s, lpn);
      InvalidateKeeps(c, s, s.table[lpn]);
      InvalidateUnmaps(s.table, s.blocks, lpn);
    } else {
      assert Contents(s) - {lpn} == Contents(s);
    }
  }

  /** A read cannot fail. It returns the contents exactly when the page is mapped and its block is not listed
      as erased; a mapped page whose block is listed is silently dropped. */
  lemma {:induction false} ReadReturnsContents(c: Config, s: State, lpn: nat)
    requires Invariant(c, s)
    ensures Read(c, s, lpn).Ok?
    ensures Read(c, s, lpn).value == Unmapped <==> lpn !in Contents(s)
    ensures Read(c, s, lpn).value == Dropped <==> lpn in s.table && s.table[lpn].block in s.recycled
    ensures Read(c, s, lpn).value.Data? <==> lpn in s.table && s.table[lpn].block !in s.recycled
    ensures Read(c, s, lpn).value.Data? ==> Read(c, s, lpn).value.value == Contents(s)[lpn]
  {
    hide PoolOf, LanesOf, Bijection;
    if lpn in s.table {
      MappedInRange(c, s, lpn);
    }
  }

  // ---- the copy phase of garbage collection ------------------------------------------------

  /** The flash array as it will be once the queued reads and writes are done. */
  function Settled(flash: map<Ppa, int>, moves: seq<Move>): map<Ppa, int> {
    WriteBack(flash, moves, ReadAll(flash, moves), 0)
  }

  lemma {:induction false} WriteBackExtends(flash: map<Ppa, int>, moves: seq<Move>, data: seq<int>, m: Move, d: int,
                                            i: nat)
    requires |data| == |moves| && i <= |moves|
    ensures WriteBack(flash, moves + [m], data + [d], i) == WriteBack(flash, moves, data, i)[m.dst := d]
    decreases |moves| - i
  {
    if i < |moves| {
      WriteBackExtends(flash[moves[i].dst := data[i]], moves, data, m, d, i + 1);
    } else {
      assert (moves + [m])[i] == m;
      var f := flash[m.dst := d];
      assert WriteBack(f, moves + [m], data + [d], i + 1) == f;
    }
  }

  lemma SettledExtends(flash: map<Ppa, int>, moves: seq<Move>, m: Move)
    ensures Settled(flash, moves + [m]) == Settled(flash, moves)[m.dst := ReadFlash(flash, m.src)]
  {
    assert ReadAll(flash, moves + [m]) == ReadAll(flash, moves) + [ReadFlash(flash, m.src)];
    WriteBackExtends(flash, moves, ReadAll(flash, moves), m, ReadFlash(flash, m.src), 0);
  }

  lemma {:induction false} WriteBackElsewhere(flash: map<Ppa, int>, moves: seq<Move>, data: seq<int>, i: nat, a: Ppa)
    requires |data| == |moves|
    requires forall j :: 0 <= j < |moves| ==> moves[j].dst != a
    ensures ReadFlash(WriteBack(flash, moves, data, i), a) == ReadFlash(flash, a)
    decreases |moves| - i
  {
    if i < |moves| {
      WriteBackElsewhere(flash[moves[i].dst := data[i]], moves, data, i + 1, a);
    }
  }

  lemma SettledElsewhere(flash: map<Ppa, int>, moves: seq<Move>, a: Ppa)
    requires forall j :: 0 <= j < |moves| ==> moves[j].dst != a
    ensures ReadFlash(Settled(flash, moves), a) == ReadFlash(flash, a)
  {
    WriteBackElsewhere(flash, moves, ReadAll(flash, moves), 0, a);
  }

  /** The logical contents as they will be once the queued I/O is done. */
  ghost predicate WillHold(s: State, moves: seq<Move>, m: map<nat, int>) {
    && s.table.Keys == m.Keys
    && forall l :: l in m ==> ReadFlash(Settled(s.flash, moves), s.table[l]) == m[l]
  }

  ghost predicate Outside(moves: seq<Move>, victims: set<nat>) {
    forall i :: 0 <= i < |moves| ==> moves[i].dst.block !in victims
  }

  /** The victims are in use and full, so no page is ever programmed into one. */
  ghost predicate AllFull(c: Config, s: State, victims: set<nat>) {
    forall v :: v in victims ==> v in s.blocks && s.blocks[v].next == c.pages
  }

  /** What the copy phase keeps from page to page: m are the contents it must preserve. */
  ghost predicate Copying(c: Config, s: State, moves: seq<Move>, victims: set<nat>, m: map<nat, int>) {
    && Invariant(c, s)
    && AllFull(c, s, victims)
    && Outside(moves, victims)
    && WillHold(s, moves, m)
  }

  /** Full blocks other than v are left as they are. */
  ghost predicate OtherFullSame(c: Config, s: State, t: State, v: nat) {
    forall x :: x in s.blocks && s.blocks[x].next == c.pages && x != v ==> x in t.blocks && t.blocks[x] == s.blocks[x]
  }

  lemma CopyPageMoves(c: Config, s: State, v: nat, p: nat)
    requires Invariant(c, s) && v in s.blocks && s.blocks[v].next == c.pages && p in s.blocks[v].valid
    ensures CopyPage(c, s, v, p).Panic? ==> Shortage(c, CopyPage(c, s, v, p).fault)
    ensures CopyPage(c, s, v, p).Ok? ==>
              var (t, mv) := CopyPage(c, s, v, p).value;
              && Invariant(c, t)
              && v in t.blocks && t.blocks[v] == s.blocks[v].Invalidate(p)
              && OtherFullSame(c, s, t, v)
              && mv.src == Ppa(v, p)
              && (mv.dst.block in s.blocks ==> s.blocks[mv.dst.block].next < c.pages)
              && s.blocks[v].lpns[p] in s.table && s.table[s.blocks[v].lpns[p]] == mv.src
              && t.table == s.table[s.blocks[v].lpns[p] := mv.dst]
              && t.flash == s.flash && t.retired == s.retired
  {
    hide PoolOf, LanesOf, Bijection, GetLastFreeBlock, Program;
    InUseInRange(c, s, v);
    ValidMapped(s.table, s.blocks, v, p);
    var lpn := s.blocks[v].lpns[p];
    GetLastFreeBlockKeeps(c, s);
    if GetLastFreeBlock(c, s).Ok? {
      var (s1, b) := GetLastFreeBlock(c, s).value;
      BijectionGrown(s.table, s.blocks, s1.blocks);
      InvalidateKeeps(c, s1, Ppa(v, p));
      InvalidateUnmaps(s1.table, s1.blocks, lpn);
      var s2 := s1.(blocks := InvalidateAt(s1.blocks, Ppa(v, p)));
      ProgramKeeps(c, s2, b, lpn);
    }
  }

  lemma CopyPageCopying(c: Config, s: State, v: nat, p: nat, moves: seq<Move>, victims: set<nat>, m: map<nat, int>)
    requires Copying(c, s, moves, victims, m) && v in victims && p in s.blocks[v].valid
    ensures CopyPage(c, s, v, p).Panic? ==> Shortage(c, CopyPage(c, s, v, p).fault)
    ensures CopyPage(c, s, v, p).Ok? ==>
              var (t, mv) := CopyPage(c, s, v, p).value;
              && Copying(c, t, moves + [mv], victims, m)
              && t.blocks[v].valid == s.blocks[v].valid - {p}
              && OtherFullSame(c, s, t, v)
  {
    hide PoolOf, LanesOf, Bijection, CopyPage, Settled, WriteBack;
    CopyPageMoves(c, s, v, p);
    if CopyPage(c, s, v, p).Ok? {
      var (t, mv) := CopyPage(c, s, v, p).value;
      ValidMapped(s.table, s.blocks, v, p);
      var lpn := s.blocks[v].lpns[p];
      SettledExtends(s.flash, moves, mv);
      SettledElsewhere(s.flash, moves, mv.src);
      MappedPoints(t.table, t.blocks, lpn);
      forall l | l in m && l != lpn
        ensures t.table[l] == s.table[l] != mv.dst
      {
        MappedPoints(t.table, t.blocks, l);
      }
    }
  }

  /** The page loop over one victim: on success no valid page is left in it. */
  lemma {:induction false} CopyPagesKeeps(c: Config, s: State, v: nat, p: nat, moves: seq<Move>, victims: set<nat>,
                                          m: map<nat, int>)
    requires Copying(c, s, moves, victims, m) && v in victims
    requires forall q :: q in s.blocks[v].valid ==> p <= q
    ensures CopyPages(c, s, v, p, moves).Panic? ==> Shortage(c, CopyPages(c, s, v, p, moves).fault)
    ensures CopyPages(c, s, v, p, moves).Ok? ==>
              var (t, ms) := CopyPages(c, s, v, p, moves).value;
              && Copying(c, t, ms, victims, m)
              && t.blocks[v].valid == {}
              && OtherFullSame(c, s, t, v)
    decreases c.pages - p
  {
    hide LanesOf, FreeListOk, Partitioned, Bijection, Outside, WillHold, CopyPage;
    assert s.blocks[v].WellFormed(c.pages);
    if p < c.pages {
      if p in s.blocks[v].valid {
        CopyPageCopying(c, s, v, p, moves, victims, m);
        if CopyPage(c, s, v, p).Ok? {
          var (t, mv) := CopyPage(c, s, v, p).value;
          CopyPagesKeeps(c, t, v, p + 1, moves + [mv], victims, m);
        }
      } else {
        CopyPagesKeeps(c, s, v, p + 1, moves, victims, m);
      }
    }
  }

  ghost predicate Emptied(s: State, victims: seq<nat>, n: nat) {
    forall i :: 0 <= i < n && i < |victims| ==> victims[i] in s.blocks && s.blocks[victims[i]].valid == {}
  }

  lemma {:induction false} CopyVictimsKeeps(c: Config, s: State, victims: seq<nat>, i: nat, moves: seq<Move>,
                                            m: map<nat, int>)
    requires i <= |victims|
    requires forall j, k :: 0 <= j < k < |victims| ==> victims[j] != victims[k]
    requires Copying(c, s, moves, (set v | v in victims), m)
    requires Emptied(s, victims, i)
    ensures CopyVictims(c, s, victims, i, moves).Panic? ==> Shortage(c, CopyVictims(c, s, victims, i, moves).fault)
    ensures CopyVictims(c, s, victims, i, moves).Ok? ==>
              var (t, ms) := CopyVictims(c, s, victims, i, moves).value;
              && Copying(c, t, ms, (set v | v in victims), m)
              && Emptied(t, victims, |victims|)
    decreases |victims| - i
  {
    hide PoolOf, LanesOf, Bijection, Outside, WillHold;
    if i < |victims| {
      var vs := set v | v in victims;
      assert victims[i] in vs;
      CopyPagesKeeps(c, s, victims[i], 0, moves, vs, m);
      if CopyPages(c, s, victims[i], 0, moves).Ok? {
        var (t, ms) := CopyPages(c, s, victims[i], 0, moves).value;
        forall j | 0 <= j < i + 1
          ensures victims[j] in t.blocks && t.blocks[victims[j]].valid == {}
        {
          assert victims[j] in vs;
        }
        CopyVictimsKeeps(c, t, victims, i + 1, ms, m);
      }
    }
  }

  // ---- the erase phase ---------------------------------------------------------------------

  lemma {:induction false} InsertPositionSorted(free: seq<Block>, n: nat, b: Block)
    requires Sorted(free) && n <= |free|
    requires n < |free| ==> b.eraseCount < free[n].eraseCount
    ensures var i := InsertPosition(free, n, b.eraseCount);
      && (forall j :: 0 <= j < i ==> free[j].eraseCount <= b.eraseCount)
      && (forall j :: i <= j < |free| ==> b.eraseCount < free[j].eraseCount)
      && Sorted(free[..i] + [b] + free[i..])
  {
    if n != 0 && free[n - 1].eraseCount > b.eraseCount {
      InsertPositionSorted(free, n - 1, b);
    } else {
      SplicedSorted(free, n, b);
    }
  }

  lemma SplicedSorted(free: seq<Block>, i: nat, b: Block)
    requires Sorted(free) && i <= |free|
    requires 0 < i ==> free[i - 1].eraseCount <= b.eraseCount
    requires i < |free| ==> b.eraseCount < free[i].eraseCount
    ensures forall j :: 0 <= j < i ==> free[j].eraseCount <= b.eraseCount
    ensures forall j :: i <= j < |free| ==> b.eraseCount < free[j].eraseCount
    ensures Sorted(free[..i] + [b] + free[i..])
  {
    var r := free[..i] + [b] + free[i..];
    forall j, k | 0 <= j < k < |r|
      ensures r[j].eraseCount <= r[k].eraseCount
    {
      assert r[j] == if j < i then free[j] else if j == i then b else free[j - 1];
      assert r[k] == if k < i then free[k] else if k == i then b else free[k - 1];
    }
  }

  lemma FreeIdsInsert(free: seq<Block>, b: Block, i: nat)
    requires i <= |free|
    ensures FreeIds(free[..i] + [b] + free[i..]) == FreeIds(free) + {b.idx}
  {
    var list := free[..i] + [b] + free[i..];
    forall x | x in FreeIds(free)
      ensures x in FreeIds(list)
    {
      var j :| 0 <= j < |free| && free[j].idx == x;
      assert list[if j < i then j else j + 1] == free[j];
    }
    forall x | x in FreeIds(list)
      ensures x in FreeIds(free) + {b.idx}
    {
      var j :| 0 <= j < |list| && list[j].idx == x;
      if j != i {
        assert free[if j < i then j else j - 1] == list[j];
      }
    }
    assert list[i] == b;
  }

  lemma SplicedOk(c: Config, free: seq<Block>, b: Block, i: nat)
    requires i <= |free|
    requires forall j :: 0 <= j < |free| ==> free[j].WellFormed(c.pages) && free[j].next == 0 && free[j].idx != b.idx
    requires forall j, k :: 0 <= j < k < |free| ==> free[j].idx != free[k].idx
    requires b.WellFormed(c.pages) && b.next == 0
    ensures var list := free[..i] + [b] + free[i..];
      && (forall j :: 0 <= j < |list| ==> list[j].WellFormed(c.pages) && list[j].next == 0)
      && (forall j, k :: 0 <= j < k < |list| ==> list[j].idx != list[k].idx)
  {
    hide *;
    var list := free[..i] + [b] + free[i..];
    forall j | 0 <= j < |list|
      ensures list[j] == if j < i then free[j] else if j == i then b else free[j - 1]
    {
    }
  }

  lemma FreeListInsert(c: Config, free: seq<Block>, b: Block)
    requires FreeListOk(c, free)
    requires b.WellFormed(c.pages) && b.next == 0 && b.idx !in FreeIds(free)
    ensures var i := InsertPosition(free, |free|, b.eraseCount);
      FreeListOk(c, free[..i] + [b] + free[i..])
  {
    hide InsertPosition, Block.WellFormed, Sorted;
    InsertPositionSorted(free, |free|, b);
    forall j | 0 <= j < |free|
      ensures free[j].idx != b.idx
    {
      assert free[j].idx in FreeIds(free);
    }
    SplicedOk(c, free, b, InsertPosition(free, |free|, b.eraseCount));
  }

  /** Erasing a full victim without valid pages: the one failure is inserting into an empty free list. */
  lemma EraseKeepsPool(c: Config, s: State, v: nat)
    requires Pool(c, s) && v in s.blocks
    ensures EraseInternal(c, s, v).Panic? ==> EraseInternal(c, s, v).fault == EmptyFreeList
    ensures EraseInternal(c, s, v).Panic? <==> s.blocks[v].eraseCount + 1 < c.badBlockAt && s.free == []
    ensures EraseInternal(c, s, v).Ok? ==>
              var t := EraseInternal(c, s, v).value;
              && Pool(c, t)
              && t.blocks == s.blocks - {v} && t.table == s.table && t.flash == WipeBlock(s.flash, v)
              && t.last == s.last && t.lane == s.lane && t.recycled == s.recycled
  {
    var b := s.blocks[v].Erase();
    assert s.blocks[v].WellFormed(c.pages) && b.WellFormed(c.pages);
    if EraseInternal(c, s, v).Ok? {
      var t := EraseInternal(c, s, v).value;
      assert t.blocks.Keys == s.blocks.Keys - {v};
      if b.eraseCount < c.badBlockAt {
        FreeListInsert(c, s.free, b);
        FreeIdsInsert(s.free, b, InsertPosition(s.free, |s.free|, b.eraseCount));
        assert t.blocks.Keys + FreeIds(t.free) == s.blocks.Keys + FreeIds(s.free);
      } else {
        assert t.blocks.Keys + t.retired == s.blocks.Keys + s.retired;
      }
    }
  }

  lemma EraseKeepsLanes(c: Config, s: State, v: nat)
    requires Geometry(c) && Lanes(c, s) && v in s.blocks && s.blocks[v].next == c.pages
    ensures Lanes(c, s.(recycled := s.recycled + [v], blocks := s.blocks - {v}))
  {
  }

  lemma BijectionErased(table: map<nat, Ppa>, blocks: map<nat, Block>, v: nat)
    requires Bijection(table, blocks) && v in blocks && blocks[v].valid == {}
    ensures Bijection(table, blocks - {v})
    ensures forall l :: l in table ==> table[l].block != v
  {
  }

  /** What is left to erase: full, empty of valid pages, and pairwise distinct. */
  ghost predicate Erasable(c: Config, s: State, victims: seq<nat>, i: nat) {
    && (forall j, k :: 0 <= j < k < |victims| ==> victims[j] != victims[k])
    && forall j :: i <= j < |victims| ==>
         && victims[j] in s.blocks
         && s.blocks[victims[j]].next == c.pages
         && s.blocks[victims[j]].valid == {}
  }

  lemma {:induction false} EraseVictimsKeeps(c: Config, s: State, victims: seq<nat>, i: nat)
    requires Invariant(c, s) && Erasable(c, s, victims, i) && i <= |victims|
    ensures EraseVictims(c, s, victims, i).Panic? ==> EraseVictims(c, s, victims, i).fault == EmptyFreeList
    ensures EraseVictims(c, s, victims, i).Ok? ==>
              var t := EraseVictims(c, s, victims, i).value;
              && Invariant(c, t)
              && Contents(t) == Contents(s)
              && t.table == s.table
              && (forall j :: i <= j < |victims| ==> victims[j] !in t.blocks)
              && (forall b :: b in t.blocks ==> b in s.blocks && t.blocks[b] == s.blocks[b])
    decreases |victims| - i
  {
    hide PoolOf, LanesOf, Bijection;
    if i < |victims| {
      var v := victims[i];
      var u := s.(recycled := s.recycled + [v]);
      EraseKeepsPool(c, u, v);
      EraseKeepsLanes(c, s, v);
      if EraseInternal(c, u, v).Ok? {
        var t := EraseInternal(c, u, v).value;
        BijectionErased(s.table, s.blocks, v);
        assert forall l :: l in s.table ==>
            ReadFlash(t.flash, s.table[l]) == ReadFlash(s.flash, s.table[l]);
        assert Contents(t) == Contents(s);
        EraseVictimsKeeps(c, t, victims, i + 1);
      }
    }
  }

  // ---- garbage collection as a whole -------------------------------------------------------

  function CopyAndSettle(c: Config, s: State, victims: seq<nat>): Result<State> {
    var (t, moves) :- CopyVictims(c, s, victims, 0, []);
    Ok(t.(flash := Settled(t.flash, moves)))
  }

  lemma SettledContents(s: State, moves: seq<Move>, m: map<nat, int>)
    requires WillHold(s, moves, m)
    ensures Contents(s.(flash := Settled(s.flash, moves))) == m
  {
    hide Settled;
  }

  lemma NothingQueued(s: State)
    ensures WillHold(s, [], Contents(s))
  {
    assert Settled(s.flash, []) == s.flash;
  }

  lemma CopyAndSettleKeeps(c: Config, s: State, victims: seq<nat>)
    requires Invariant(c, s) && Victims(c, s, victims)
    ensures CopyAndSettle(c, s, victims).Panic? ==> Shortage(c, CopyAndSettle(c, s, victims).fault)
    ensures CopyAndSettle(c, s, victims).Ok? ==>
              var u := CopyAndSettle(c, s, victims).value;
              Invariant(c, u) && Contents(u) == Contents(s) && Erasable(c, u, victims, 0)
  {
    hide PoolOf, LanesOf, Bijection, CopyVictims, Settled, WillHold, Contents;
    var vs := set v | v in victims;
    NothingQueued(s);
    CopyVictimsKeeps(c, s, victims, 0, [], Contents(s));
    if CopyVictims(c, s, victims, 0, []).Ok? {
      var (t, moves) := CopyVictims(c, s, victims, 0, []).value;
      SettledContents(t, moves, Contents(s));
      forall j | 0 <= j < |victims|
        ensures victims[j] in vs
      {
      }
    }
  }

  /** The faults that remain: a shortage of free blocks, and a lane that has lost its block on a drive that does not
      keep track. */
  ghost predicate Unavoidable(c: Config, f: Fault) {
    Shortage(c, f) || f == EmptyFreeList
  }

  /** Garbage collection of any distinct, full victims moves everything and loses nothing: the logical
      contents are untouched, the victims leave the block map, and the invariant holds again. It fails only
      for want of a free block, while copying or when the first erased block meets an empty list, or when a
      lane has lost its block. */
  lemma {:induction false} CollectGarbageKeeps(c: Config, s: State, victims: seq<nat>)
    requires Invariant(c, s) && Victims(c, s, victims)
    ensures CollectGarbage(c, s, victims).Panic? ==> Unavoidable(c, CollectGarbage(c, s, victims).fault)
    ensures CollectGarbage(c, s, victims).Ok? ==>
              var t := CollectGarbage(c, s, victims).value;
              && Invariant(c, t)
              && Contents(t) == Contents(s)
              && (forall l :: l in t.table ==> t.table[l].block !in victims)
              && (forall v :: v in victims ==> v !in t.blocks)
  {
    hide PoolOf, LanesOf, Bijection, CopyVictims, EraseVictims, WriteBack, Contents;
    CopyAndSettleKeeps(c, s, victims);
    if CopyAndSettle(c, s, victims).Ok? {
      var u := CopyAndSettle(c, s, victims).value;
      EraseVictimsKeeps(c, u, victims, 0);
      if EraseVictims(c, u, victims, 0).Ok? {
        var w := EraseVictims(c, u, victims, 0).value;
        forall l | l in w.table
          ensures w.table[l].block !in victims
        {
          MappedPoints(w.table, w.blocks, l);
        }
      }
    }
  }

  // ---- runs --------------------------------------------------------------------------------

  lemma BlankPool(c: Config)
    requires Geometry(c)
    ensures Pool(c, Blank(c)) && FreeIds(Blank(c).free) == Below(c.physicalBlocks)
  {
    var free := Blank(c).free;
    forall b | b in Below(c.physicalBlocks)
      ensures b in FreeIds(free)
    {
      assert free[b].idx == b;
    }
  }

  lemma {:induction false} OpenLanesKeeps(c: Config, s: State, k: nat)
    requires Geometry(c) && Pool(c, s) && |s.last| == c.lanes && k <= c.lanes
    requires forall i :: 0 <= i < k ==> s.last[i] in s.blocks
    requires forall i, j :: 0 <= i < j < k ==> s.last[i] != s.last[j]
    requires forall b :: b in s.blocks ==> s.blocks[b].next == 0
    requires s.recycled == [] && s.lane == 0 && s.table == map[]
    ensures OpenLanes(c, s, k).Panic? ==> OpenLanes(c, s, k).fault == NoFreeBlock
    ensures OpenLanes(c, s, k).Panic? <==> |s.free| < c.lanes - k
    ensures OpenLanes(c, s, k).Ok? ==> Invariant(c, OpenLanes(c, s, k).value) && OpenLanes(c, s, k).value.table == map[]
    decreases c.lanes - k
  {
    hide PoolOf, GetFreeBlock;
    if k < c.lanes {
      GetFreeBlockKeeps(c, s, k);
      if s.free != [] {
        var (t, b) := GetFreeBlock(c, s, k).value;
        OpenLanesKeeps(c, t.(last := s.last[k := b]), k + 1);
      }
    } else {
      forall b | b in s.blocks
        ensures s.blocks[b].valid == {}
      {
        InUseInRange(c, s, b);
      }
    }
  }

  /** Start-up succeeds exactly when there is a block for every lane, and yields an empty drive. */
  lemma {:induction false} StartKeeps(c: Config)
    requires Geometry(c)
    ensures Start(c).Panic? <==> c.physicalBlocks < c.lanes
    ensures Start(c).Ok? ==> Invariant(c, Start(c).value) && Contents(Start(c).value) == map[]
  {
    BlankPool(c);
    OpenLanesKeeps(c, Blank(c), 0);
  }

  lemma {:induction false} StepKeeps(c: Config, s: State, op: Op)
    requires Invariant(c, s) && LegalStep(c, s, op)
    ensures Step(c, s, op).Panic? ==> Unavoidable(c, Step(c, s, op).fault)
    ensures Step(c, s, op).Ok? ==>
              Invariant(c, Step(c, s, op).value) && Contents(Step(c, s, op).value) == HostStep(Contents(s), op)
  {
    match op
    case WriteOp(lpn, data) => WriteKeeps(c, s, lpn, data);
    case TrimOp(lpn) => TrimKeeps(c, s, lpn);
    case CollectOp(victims) => CollectGarbageKeeps(c, s, victims);
  }

  lemma {:induction false} FreeIdsCount(free: seq<Block>)
    requires forall i, j :: 0 <= i < j < |free| ==> free[i].idx != free[j].idx
    ensures |FreeIds(free)| == |free|
  {
    if free != [] {
      var n := |free| - 1;
      FreeIdsRemove(free, n);
      FreeIdsCount(free[..n] + free[n + 1..]);
      assert free[n].idx in FreeIds(free);
    }
  }

  lemma {:induction false} BelowCount(n: nat)
    ensures |Below(n)| == n
  {
    if n > 0 {
      BelowCount(n - 1);
    }
  }

  /** No block is ever lost or counted twice: in use, free (as the code counts them) and retired ones add up to
      the drive. */
  lemma {:induction false} BlocksConserved(c: Config, s: State)
    requires Invariant(c, s)
    ensures |s.blocks| + s.nFree + |s.retired| == c.physicalBlocks
  {
    FreeIdsCount(s.free);
    BelowCount(c.physicalBlocks);
    var inUse, free := s.blocks.Keys, FreeIds(s.free);
    assert |inUse + free| == |inUse| + |free|;
    assert |inUse + free + s.retired| == |inUse + free| + |s.retired|;
  }

  /** Every run of writes, trims and garbage collections keeps the invariant and agrees with a plain map from
      page numbers to data that has never heard of blocks; the only way a run can end early is a shortage of
      free blocks or, on a drive that does not keep track, a lane that has lost its block. */
  lemma {:induction false} RunKeeps(c: Config, s: State, ops: seq<Op>)
    requires Invariant(c, s) && LegalRun(c, s, ops)
    ensures Run(c, s, ops).Panic? ==> Unavoidable(c, Run(c, s, ops).fault)
    ensures Run(c, s, ops).Ok? ==>
              Invariant(c, Run(c, s, ops).value) && Contents(Run(c, s, ops).value) == HostRun(Contents(s), ops)
    decreases |ops|
  {
    if ops != [] {
      StepKeeps(c, s, ops[0]);
      if Step(c, s, ops[0]).Ok? {
        RunKeeps(c, Step(c, s, ops[0]).value, ops[1..]);
      }
    }
  }
}
