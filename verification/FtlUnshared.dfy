/** Drives on which no erased block is ever used again, because each is worn out by its first erasure or because the
    free list stays empty: no two lanes ever hold one block, and so none loses it, however few pages a block has. */
module FtlUnshared {
  import opened Outcome
  import opened Blocks
  import opened FtlSpec
  import opened FtlInvariant
  import opened FtlTheorems

  ghost predicate NeverReuses(c: Config) {
    c.badBlockAt <= 1 || c.physicalBlocks <= c.lanes
  }

  /** The lanes hold different blocks, each in use or listed as erased, and no listed block is free. Lane k may be
      about to get another block; k == c.lanes stands for none. */
  ghost predicate UnsharedExcept(c: Config, s: State, k: nat) {
    && |s.last| == c.lanes
    && (forall i, j :: 0 <= i < j < c.lanes && i != k && j != k ==> s.last[i] != s.last[j])
    && (forall i :: 0 <= i < c.lanes && i != k ==> s.last[i] in s.blocks || s.last[i] in s.recycled)
    && (forall b :: b in s.recycled ==> b !in FreeIds(s.free))
    && (1 < c.badBlockAt ==> s.free == [])
  }

  ghost predicate Unshared(c: Config, s: State) {
    UnsharedExcept(c, s, c.lanes)
  }

  ghost predicate SameHolders(s: State, t: State) {
    t.blocks.Keys == s.blocks.Keys && t.last == s.last && t.recycled == s.recycled && t.free == s.free
  }

  lemma HoldersSuffice(c: Config, s: State, t: State)
    requires Unshared(c, s) && SameHolders(s, t)
    ensures Unshared(c, t)
  {
    hide FreeIds;
    assert forall b :: b in s.blocks <==> b in t.blocks;
  }

  lemma RenewStays(c: Config, s: State, k: nat)
    requires Pool(c, s) && k < c.lanes && UnsharedExcept(c, s, k) && Renew(c, s, k).Ok?
    ensures Unshared(c, Renew(c, s, k).value)
  {
    hide BlocksOk, FreeListOk, GetFreeBlock, FreeIds;
    GetFreeBlockKeeps(c, s, k);
    var (t, b) := GetFreeBlock(c, s, k).value;
    assert t.blocks.Keys == s.blocks.Keys + {b};
    assert b in Below(c.physicalBlocks) && b in FreeIds(s.free);
    forall x | x in FreeIds(t.free)
      ensures x in FreeIds(s.free)
    {
      assert x in Below(c.physicalBlocks);
    }
    forall i | 0 <= i < c.lanes && i != k
      ensures s.last[i] != b
    {
    }
  }

  lemma ReplaceStays(c: Config, s: State, k: nat)
    requires Geometry(c) && Pool(c, s) && Unshared(c, s) && k < c.lanes && Replace(c, s, k).Ok?
    ensures Unshared(c, Replace(c, s, k).value)
  {
    hide PoolOf, Renew, FreeIds;
    if s.last[k] in s.recycled {
      var ids := Without(s.recycled, s.last[k]);
      RenewIgnoresRecycled(c, s, k, ids);
      RenewStays(c, s.(recycled := ids), k);
    }
  }

  lemma RefillStays(c: Config, s: State, k: nat)
    requires Pool(c, s) && Unshared(c, s) && k < c.lanes && Refill(c, s, k).Ok?
    ensures Unshared(c, Refill(c, s, k).value.0)
  {
    hide PoolOf, Renew, FreeIds;
    if s.blocks[s.last[k]].next == c.pages {
      RenewStays(c, s, k);
    }
  }

  /** Choosing a block does not fail for a lost lane, and leaves the lanes apart. */
  lemma NextBlockStays(c: Config, s: State)
    requires Geometry(c) && Pool(c, s) && Lanes(c, s) && Unshared(c, s)
    ensures !LosesLane(c, s)
    ensures GetLastFreeBlock(c, s).Panic? ==> GetLastFreeBlock(c, s).fault != Corrupted
    ensures GetLastFreeBlock(c, s).Ok? ==> Unshared(c, GetLastFreeBlock(c, s).value.0)
  {
    hide PoolOf, Replace, Refill, FreeIds;
    GetLastFreeBlockKeeps(c, s);
    var k := NextLane(c, s);
    var u := s.(lane := k, ioMap := true);
    ReplaceKeeps(c, u, k);
    if GetLastFreeBlock(c, s).Ok? {
      ReplaceStays(c, u, k);
      RefillStays(c, Replace(c, u, k).value, k);
    }
  }

  lemma ProgramHolds(c: Config, s: State, b: nat, lpn: nat)
    requires Program(s, b, lpn).Ok?
    ensures SameHolders(s, Program(s, b, lpn).value.0)
  {
  }

  lemma WriteStays(c: Config, s: State, lpn: nat, data: int)
    requires Invariant(c, s) && Unshared(c, s)
    ensures Write(c, s, lpn, data).Panic? ==> Write(c, s, lpn, data).fault != Corrupted
    ensures Write(c, s, lpn, data).Ok? ==> Unshared(c, Write(c, s, lpn, data).value)
  {
    hide PoolOf, LanesOf, Bijection, GetLastFreeBlock, Program, UnsharedExcept;
    WriteKeeps(c, s, lpn, data);
    NextBlockStays(c, s);
    DetachKeeps(c, s, lpn);
    var d := Detach(c, s, lpn);
    HoldersSuffice(c, s, d);
    NextBlockStays(c, d);
    if Write(c, s, lpn, data).Ok? {
      var (t, b) := GetLastFreeBlock(c, d).value;
      ProgramHolds(c, t, b, lpn);
      HoldersSuffice(c, t, Write(c, s, lpn, data).value);
    }
  }

  lemma CopyPageStays(c: Config, s: State, v: nat, p: nat)
    requires Invariant(c, s) && Unshared(c, s)
    requires v in s.blocks && s.blocks[v].next == c.pages && p in s.blocks[v].valid
    ensures CopyPage(c, s, v, p).Panic? ==> CopyPage(c, s, v, p).fault != Corrupted
    ensures CopyPage(c, s, v, p).Ok? ==> Unshared(c, CopyPage(c, s, v, p).value.0)
  {
    hide PoolOf, LanesOf, Bijection, GetLastFreeBlock, Program, UnsharedExcept;
    InUseInRange(c, s, v);
    ValidMapped(s.table, s.blocks, v, p);
    GetLastFreeBlockKeeps(c, s);
    NextBlockStays(c, s);
    if GetLastFreeBlock(c, s).Ok? {
      var (s1, b) := GetLastFreeBlock(c, s).value;
      var lpn := s.blocks[v].lpns[p];
      BijectionGrown(s.table, s.blocks, s1.blocks);
      InvalidateKeeps(c, s1, Ppa(v, p));
      InvalidateUnmaps(s1.table, s1.blocks, lpn);
      var s2 := s1.(blocks := InvalidateAt(s1.blocks, Ppa(v, p)));
      ProgramKeeps(c, s2, b, lpn);
      ProgramHolds(c, s2, b, lpn);
      HoldersSuffice(c, s1, s2);
      HoldersSuffice(c, s2, Program(s2, b, lpn).value.0);
    }
  }

  lemma {:induction false} CopyPagesStays(c: Config, s: State, v: nat, p: nat, moves: seq<Move>, victims: set<nat>,
                                          m: map<nat, int>)
    requires Copying(c, s, moves, victims, m) && v in victims && Unshared(c, s)
    requires forall q :: q in s.blocks[v].valid ==> p <= q
    ensures CopyPages(c, s, v, p, moves).Panic? ==> CopyPages(c, s, v, p, moves).fault != Corrupted
    ensures CopyPages(c, s, v, p, moves).Ok? ==> Unshared(c, CopyPages(c, s, v, p, moves).value.0)
    decreases c.pages - p
  {
    hide LanesOf, PoolOf, Bijection, Outside, WillHold, CopyPage, UnsharedExcept;
    InUseInRange(c, s, v);
    if p < c.pages {
      if p in s.blocks[v].valid {
        CopyPageCopying(c, s, v, p, moves, victims, m);
        CopyPageStays(c, s, v, p);
        if CopyPage(c, s, v, p).Ok? {
          var (t, mv) := CopyPage(c, s, v, p).value;
          CopyPagesStays(c, t, v, p + 1, moves + [mv], victims, m);
        }
      } else {
        CopyPagesStays(c, s, v, p + 1, moves, victims, m);
      }
    }
  }

  lemma {:induction false} CopyVictimsStays(c: Config, s: State, victims: seq<nat>, i: nat, moves: seq<Move>,
                                            m: map<nat, int>)
    requires i <= |victims| && Unshared(c, s)
    requires Copying(c, s, moves, (set v | v in victims), m)
    ensures CopyVictims(c, s, victims, i, moves).Panic? ==> CopyVictims(c, s, victims, i, moves).fault != Corrupted
    ensures CopyVictims(c, s, victims, i, moves).Ok? ==> Unshared(c, CopyVictims(c, s, victims, i, moves).value.0)
    decreases |victims| - i
  {
    hide PoolOf, LanesOf, Bijection, Outside, WillHold, CopyPages, UnsharedExcept;
    if i < |victims| {
      var vs := set v | v in victims;
      assert victims[i] in vs;
      CopyPagesKeeps(c, s, victims[i], 0, moves, vs, m);
      CopyPagesStays(c, s, victims[i], 0, moves, vs, m);
      if CopyPages(c, s, victims[i], 0, moves).Ok? {
        var (t, ms) := CopyPages(c, s, victims[i], 0, moves).value;
        CopyVictimsStays(c, t, victims, i + 1, ms, m);
      }
    }
  }

  /** An erasure either fails for want of a free block to insert beside, or retires the block. */
  lemma EraseStays(c: Config, s: State, v: nat)
    requires Pool(c, s) && v in s.blocks && Unshared(c, s)
    ensures var u := s.(recycled := s.recycled + [v]);
      EraseInternal(c, u, v).Ok? ==> Unshared(c, EraseInternal(c, u, v).value)
  {
    hide BlocksOk, FreeListOk, FreeIds;
  }

  lemma {:induction false} EraseVictimsStays(c: Config, s: State, victims: seq<nat>, i: nat)
    requires Invariant(c, s) && Erasable(c, s, victims, i) && i <= |victims| && Unshared(c, s)
    ensures EraseVictims(c, s, victims, i).Panic? ==> EraseVictims(c, s, victims, i).fault != Corrupted
    ensures EraseVictims(c, s, victims, i).Ok? ==> Unshared(c, EraseVictims(c, s, victims, i).value)
    decreases |victims| - i
  {
    hide PoolOf, LanesOf, Bijection, UnsharedExcept;
    if i < |victims| {
      var v := victims[i];
      var u := s.(recycled := s.recycled + [v]);
      EraseKeepsPool(c, u, v);
      EraseKeepsLanes(c, s, v);
      BijectionErased(s.table, s.blocks, v);
      EraseStays(c, s, v);
      if EraseInternal(c, u, v).Ok? {
        EraseVictimsStays(c, EraseInternal(c, u, v).value, victims, i + 1);
      }
    }
  }

  lemma CollectStays(c: Config, s: State, victims: seq<nat>)
    requires Invariant(c, s) && Victims(c, s, victims) && Unshared(c, s)
    ensures CollectGarbage(c, s, victims).Panic? ==> CollectGarbage(c, s, victims).fault != Corrupted
    ensures CollectGarbage(c, s, victims).Ok? ==> Unshared(c, CollectGarbage(c, s, victims).value)
  {
    hide PoolOf, LanesOf, Bijection, CopyVictims, EraseVictims, WillHold, Contents, UnsharedExcept;
    NothingQueued(s);
    var vs := set v | v in victims;
    CopyVictimsStays(c, s, victims, 0, [], Contents(s));
    CopyAndSettleKeeps(c, s, victims);
    if CopyVictims(c, s, victims, 0, []).Ok? {
      var t, u := CopyVictims(c, s, victims, 0, []).value.0, CopyAndSettle(c, s, victims).value;
      HoldersSuffice(c, t, u);
      EraseVictimsStays(c, u, victims, 0);
    }
  }

  lemma {:induction false} RunStays(c: Config, s: State, ops: seq<Op>)
    requires Invariant(c, s) && LegalRun(c, s, ops) && Unshared(c, s)
    ensures Run(c, s, ops) != Panic(Corrupted)
    decreases |ops|
  {
    hide Invariant, UnsharedExcept, Write, Trim, CollectGarbage;
    if ops != [] {
      var op := ops[0];
      StepKeeps(c, s, op);
      match op {
        case WriteOp(lpn, data) => WriteStays(c, s, lpn, data);
        case TrimOp(lpn) => TrimStays(c, s, lpn);
        case CollectOp(victims) => CollectStays(c, s, victims);
      }
      if Step(c, s, op).Ok? {
        RunStays(c, Step(c, s, op).value, ops[1..]);
      }
    }
  }

  lemma TrimStays(c: Config, s: State, lpn: nat)
    requires Invariant(c, s) && Unshared(c, s)
    ensures Trim(s, lpn).Ok? && Unshared(c, Trim(s, lpn).value)
  {
    hide UnsharedExcept, PoolOf, LanesOf, Bijection;
    TrimKeeps(c, s, lpn);
    HoldersSuffice(c, s, Trim(s, lpn).value);
  }

  lemma {:induction false} LanesStartApart(c: Config, s: State, k: nat)
    requires Geometry(c) && Pool(c, s) && |s.last| == c.lanes && k <= c.lanes && s.recycled == []
    requires forall i :: 0 <= i < k ==> s.last[i] in s.blocks
    requires forall i, j :: 0 <= i < j < k ==> s.last[i] != s.last[j]
    requires 1 < c.badBlockAt ==> |s.free| <= c.lanes - k
    ensures OpenLanes(c, s, k).Ok? ==> Unshared(c, OpenLanes(c, s, k).value)
    decreases c.lanes - k
  {
    hide PoolOf, GetFreeBlock, FreeIds;
    if k < c.lanes {
      GetFreeBlockKeeps(c, s, k);
      if s.free != [] {
        var (t, b) := GetFreeBlock(c, s, k).value;
        LanesStartApart(c, t.(last := s.last[k := b]), k + 1);
      }
    }
  }

  /** From start-up, on such a drive, no legal run ends in the panic "Corrupted". */
  lemma {:induction false} NeverCorrupted(c: Config, ops: seq<Op>)
    requires Geometry(c) && NeverReuses(c) && Start(c).Ok? && LegalRun(c, Start(c).value, ops)
    ensures Run(c, Start(c).value, ops) != Panic(Corrupted)
  {
    hide Invariant, UnsharedExcept, Run, LegalRun, OpenLanes;
    BlankPool(c);
    StartKeeps(c);
    LanesStartApart(c, Blank(c), 0);
    RunStays(c, Start(c).value, ops);
  }
}
