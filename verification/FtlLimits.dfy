/** Where the page-mapping FTL falls short of what it is for, and exactly when. */
module FtlLimits {
  import opened Outcome
  import opened Blocks
  import opened FtlSpec
  import opened FtlInvariant
  import opened FtlTheorems
  import opened FtlLeak

  // ---- reading back what was written -------------------------------------------------------

  /** The next lane needs a block, and the one it will get is still listed in erased_block_id. */
  ghost predicate GetsListedBlock(c: Config, s: State) {
    && Geometry(c) && NeedsBlock(c, s) && s.free != []
    && var b := s.free[FreePosition(c, s.free, NextLane(c, s))].idx;
       b in s.recycled && b != s.last[NextLane(c, s)]
  }

  lemma NextBlockListed(c: Config, s: State)
    requires Geometry(c) && Pool(c, s) && Lanes(c, s) && GetLastFreeBlock(c, s).Ok?
    ensures var (t, b) := GetLastFreeBlock(c, s).value;
      b in t.recycled <==> GetsListedBlock(c, s)
  {
    hide PoolOf, GetLastFreeBlock;
    GetLastFreeBlockKeeps(c, s);
    GetLastFreeBlockLanes(c, s);
    var (t, b) := GetLastFreeBlock(c, s).value;
    if NeedsBlock(c, s) {
      NewBlockIsFirstFree(c, s);
    } else {
      assert b == s.last[NextLane(c, s)];
    }
  }

  lemma NewBlockIsFirstFree(c: Config, s: State)
    requires Geometry(c) && Pool(c, s) && Lanes(c, s) && GetLastFreeBlock(c, s).Ok? && NeedsBlock(c, s)
    ensures s.free != []
    ensures GetLastFreeBlock(c, s).value.1 == s.free[FreePosition(c, s.free, NextLane(c, s))].idx
  {
    var k := NextLane(c, s);
    var u := s.(lane := k, ioMap := true);
    assert Pool(c, u) && Lanes(c, u);
    hide PoolOf;
    GetFreeBlockKeeps(c, u, k);
    ReplaceKeeps(c, u, k);
  }

  /** Reading a page straight after writing it returns the data, unless the write opened a block that was still
      listed as erased; then the read is dropped. The condition can be checked before the write. */
  lemma {:induction false} WriteThenRead(c: Config, s: State, lpn: nat, data: int)
    requires Invariant(c, s) && Write(c, s, lpn, data).Ok?
    ensures Read(c, Write(c, s, lpn, data).value, lpn) ==
            Ok(if GetsListedBlock(c, s) then Dropped else Data(data))
  {
    hide PoolOf, LanesOf, Bijection, GetLastFreeBlock, Detach, NeedsBlock;
    DetachKeeps(c, s, lpn);
    var u := Detach(c, s, lpn);
    DetachListed(c, s, lpn);
    NextBlockListed(c, u);
    GetLastFreeBlockKeeps(c, u);
    WriteKeeps(c, s, lpn, data);
    var t := Write(c, s, lpn, data).value;
    assert Contents(t)[lpn] == data;
    ReadReturnsContents(c, t, lpn);
    assert t.table[lpn].block == GetLastFreeBlock(c, u).value.1;
  }

  lemma DetachListed(c: Config, s: State, lpn: nat)
    requires Invariant(c, s)
    ensures GetsListedBlock(c, Detach(c, s, lpn)) <==> GetsListedBlock(c, s)
  {
    hide PoolOf, LanesOf, Bijection;
    DetachKeeps(c, s, lpn);
  }

  // ---- victims that repeat -----------------------------------------------------------------

  lemma {:induction false} ErasedTwice(c: Config, s: State, victims: seq<nat>, i: nat, v: nat)
    requires v !in s.blocks && i <= |victims|
    requires exists j :: i <= j < |victims| && victims[j] == v
    ensures EraseVictims(c, s, victims, i).Panic?
    decreases |victims| - i
  {
    if victims[i] != v {
      var u := EraseInternal(c, s.(recycled := s.recycled + [victims[i]]), victims[i]);
      if u.Ok? {
        ErasedTwice(c, u.value, victims, i + 1, v);
      }
    }
  }

  lemma {:induction false} DuplicatesPanic(c: Config, s: State, victims: seq<nat>, i: nat, j: nat, k: nat)
    requires i <= j < k < |victims| && victims[j] == victims[k]
    ensures EraseVictims(c, s, victims, i).Panic?
    decreases |victims| - i
  {
    var u := EraseInternal(c, s.(recycled := s.recycled + [victims[i]]), victims[i]);
    if u.Ok? {
      if i == j {
        ErasedTwice(c, u.value, victims, i + 1, victims[k]);
      } else {
        DuplicatesPanic(c, u.value, victims, i + 1, j, k);
      }
    }
  }

  /** Collecting full blocks in use: a list that names a victim twice always aborts; otherwise only a shortage of free
      blocks can, or a lane that has lost its block. */
  lemma {:induction false} CollectGarbageNeedsDistinctVictims(c: Config, s: State, victims: seq<nat>)
    requires Invariant(c, s)
    requires forall v :: v in victims ==> v in s.blocks && s.blocks[v].next == c.pages
    ensures (exists j, k :: 0 <= j < k < |victims| && victims[j] == victims[k]) ==>
              CollectGarbage(c, s, victims).Panic?
    ensures (forall j, k :: 0 <= j < k < |victims| ==> victims[j] != victims[k]) ==>
              CollectGarbage(c, s, victims).Ok? || Unavoidable(c, CollectGarbage(c, s, victims).fault)
  {
    hide PoolOf, LanesOf, Bijection, CopyVictims, EraseVictims, WriteBack, Contents;
    if exists j, k :: 0 <= j < k < |victims| && victims[j] == victims[k] {
      var j, k :| 0 <= j < k < |victims| && victims[j] == victims[k];
      var r := CopyVictims(c, s, victims, 0, []);
      if r.Ok? {
        var (t, moves) := r.value;
        DuplicatesPanic(c, t.(flash := WriteBack(t.flash, moves, ReadAll(t.flash, moves), 0)), victims, 0, j, k);
      }
    } else {
      CollectGarbageKeeps(c, s, victims);
    }
  }
}
