/** Class PageMapping of simplessd/ftl/page_mapping.cc: the same operations as FtlSpec, done in place with the
    loops of the source. Each method is proved to take the fields where the specification function takes their
    snapshot, and to panic exactly when the function does; after a panic the process is gone, so nothing is
    said about the fields. */
module PageMapping {
  import opened Outcome
  import opened Blocks
  import opened FtlSpec
  import opened FtlInvariant
  import opened FtlTheorems

  /** A method's outcome r and the state v it leaves are what the specification computes. */
  ghost predicate Matches<T>(spec: Result<(State, T)>, r: Result<T>, v: State) {
    if spec.Panic? then r == Panic(spec.fault) else r == Ok(spec.value.1) && v == spec.value.0
  }

  ghost predicate MatchesState(spec: Result<State>, r: Result<()>, v: State) {
    if spec.Panic? then r == Panic(spec.fault) else r.Ok? && v == spec.value
  }

  /** Fewest valid pages first; std::sort leaves the order of ties open. */
  ghost predicate ByWeight(ids: seq<nat>, blocks: map<nat, Block>) {
    && (forall i :: 0 <= i < |ids| ==> ids[i] in blocks)
    && (forall i, j :: 0 <= i < j < |ids| ==> |blocks[ids[i]].valid| <= |blocks[ids[j]].valid|)
  }

  ghost predicate Distinct(ids: seq<nat>) {
    forall i, j :: 0 <= i < j < |ids| ==> ids[i] != ids[j]
  }

  /** One insertion of the sort by weight. */
  method InsertByWeight(ids: seq<nat>, blocks: map<nat, Block>, b: nat) returns (r: seq<nat>)
    requires ByWeight(ids, blocks) && b in blocks && b !in ids && Distinct(ids)
    ensures ByWeight(r, blocks) && Distinct(r)
    ensures forall x :: x in r <==> x in ids || x == b
  {
    var i := 0;
    while i < |ids| && |blocks[ids[i]].valid| < |blocks[b].valid|
      invariant 0 <= i <= |ids|
      invariant forall j :: 0 <= j < i ==> |blocks[ids[j]].valid| <= |blocks[b].valid|
    {
      i := i + 1;
    }
    r := Spliced(ids, i, b);
    forall j, k | 0 <= j < k < |r|
      ensures |blocks[r[j]].valid| <= |blocks[r[k]].valid| && r[j] != r[k]
    {
      assert i <= j ==> |blocks[ids[i]].valid| >= |blocks[b].valid|;
      assert i < k ==> k - 1 == i || |blocks[ids[i]].valid| <= |blocks[ids[k - 1]].valid|;
    }
  }

  function Spliced(ids: seq<nat>, i: nat, b: nat): (r: seq<nat>)
    requires i <= |ids|
    ensures |r| == |ids| + 1
    ensures forall j :: 0 <= j < |r| ==> r[j] == if j < i then ids[j] else if j == i then b else ids[j - 1]
    ensures forall x :: x in r <==> x in ids || x == b
  {
    var r := ids[..i] + [b] + ids[i..];
    assert ids == ids[..i] + ids[i..];
    r
  }

  /** Of the blocks that are written full, the n with the fewest valid pages, in order of their number; all of them
      when there are no more than n. */
  ghost predicate Selected(c: Config, s: State, n: nat, list: seq<nat>) {
    && Victims(c, s, list)
    && |list| <= n
    && (|list| < n ==> forall w :: w in s.blocks && s.blocks[w].next == c.pages ==> w in list)
    && (forall v, w :: v in list && w in s.blocks && s.blocks[w].next == c.pages && w !in list ==>
          |s.blocks[v].valid| <= |s.blocks[w].valid|)
    && (forall i, j :: 0 <= i < j < |list| ==> |s.blocks[list[i]].valid| <= |s.blocks[list[j]].valid|)
  }

  /** The ratio of free blocks is below the threshold. */
  ghost predicate RunsLow(c: Config, s: State, gcThreshold: real) {
    s.nFree as real < gcThreshold * c.physicalBlocks as real
  }

  ghost predicate SomeFull(c: Config, s: State) {
    exists v :: v in s.blocks && s.blocks[v].next == c.pages
  }

  /** From state u the blocks in the list have been selected, and their collection has given r and state t. */
  ghost predicate Collects(c: Config, u: State, n: nat, list: seq<nat>, r: Result<()>, t: State) {
    Selected(c, u, n, list) && MatchesState(CollectGarbage(c, u.(reclaimMore := false), list), r, t)
  }

  lemma SelectedAreVictims(c: Config, s: State, n: nat, list: seq<nat>)
    requires Selected(c, s, n, list)
    ensures Victims(c, s.(reclaimMore := false), list)
    ensures forall v :: v in list ==> v in s.blocks && s.blocks[v].next == c.pages
  {
  }

  lemma SelectedNotEmpty(c: Config, s: State, n: nat, list: seq<nat>)
    requires Selected(c, s, n, list) && 0 < n && SomeFull(c, s)
    ensures list != []
  {
  }

  class PageMapping {
    const c: Config
    var table: map<nat, Ppa>
    var blocks: map<nat, Block>
    var freeBlocks: seq<Block>
    var nFreeBlocks: int
    var lastFreeBlock: seq<nat>
    var lastFreeBlockIndex: nat
    var lastFreeBlockIOMap: bool
    var erasedBlockId: seq<nat>
    var bReclaimMore: bool
    var flash: map<Ppa, int>
    ghost var retired: set<nat>

    ghost function View(): State
      reads this
    {
      State(table, blocks, freeBlocks, nFreeBlocks, lastFreeBlock, lastFreeBlockIndex, lastFreeBlockIOMap,
            erasedBlockId, bReclaimMore, retired, flash)
    }

    constructor (c: Config)
      ensures this.c == c && View() == Blank(c)
    {
      this.c := c;
      table, blocks, flash := map[], map[], map[];
      freeBlocks := seq(c.physicalBlocks, i requires 0 <= i => Fresh(i, c.pages));
      nFreeBlocks := c.physicalBlocks;
      lastFreeBlock, lastFreeBlockIndex, lastFreeBlockIOMap := seq(c.lanes, _ => 0), 0, false;
      erasedBlockId, bReclaimMore := [], false;
      retired := {};
    }

    /** The rest of the constructor: an open block for every lane. */
    method OpenAllLanes() returns (r: Result<()>)
      requires View() == Blank(c)
      modifies this
      ensures MatchesState(Start(c), r, View())
    {
      var k := 0;
      while k < c.lanes
        invariant k <= c.lanes && |lastFreeBlock| == c.lanes
        invariant OpenLanes(c, View(), k) == Start(c)
      {
        ghost var s := View();
        var b :- GetFreeBlock(k);
        lastFreeBlock := lastFreeBlock[k := b];
        k := k + 1;
      }
      return Ok(());
    }

    method GetFreeBlock(lane: nat) returns (r: Result<nat>)
      modifies this
      ensures Matches(FtlSpec.GetFreeBlock(c, old(View()), lane), r, View())
    {
      if lane >= c.lanes {
        return Panic(IndexOutOfRange);
      }
      if nFreeBlocks <= 0 || |freeBlocks| == 0 {
        return Panic(NoFreeBlock);
      }
      var i := 0;
      while i < |freeBlocks| && freeBlocks[i].idx % c.lanes != lane
        invariant i <= |freeBlocks|
        invariant LanePosition(c, freeBlocks, lane, i) == LanePosition(c, freeBlocks, lane, 0)
      {
        i := i + 1;
      }
      if i == |freeBlocks| {
        i := 0;
      }
      var b := freeBlocks[i];
      if b.idx in blocks {
        return Panic(Corrupted);
      }
      blocks := blocks[b.idx := b];
      freeBlocks := freeBlocks[..i] + freeBlocks[i + 1..];
      nFreeBlocks := nFreeBlocks - 1;
      return Ok(b.idx);
    }

    method ReplaceErased(k: nat) returns (r: Result<()>)
      requires k < |lastFreeBlock|
      modifies this
      ensures MatchesState(Replace(c, old(View()), k), r, View())
    {
      if lastFreeBlock[k] in erasedBlockId {
        var erasedBlock := lastFreeBlock[k];
        var b :- GetFreeBlock(k);
        lastFreeBlock := lastFreeBlock[k := b];
        erasedBlockId := Without(erasedBlockId, erasedBlock);
      }
      return Ok(());
    }

    method RefillFull(k: nat) returns (r: Result<nat>)
      modifies this
      ensures Matches(Refill(c, old(View()), k), r, View())
    {
      if k >= |lastFreeBlock| || lastFreeBlock[k] !in blocks {
        return Panic(Corrupted);
      }
      if blocks[lastFreeBlock[k]].next == c.pages {
        var b :- GetFreeBlock(k);
        lastFreeBlock := lastFreeBlock[k := b];
        bReclaimMore := true;
      }
      return Ok(lastFreeBlock[k]);
    }

    method GetLastFreeBlock() returns (r: Result<nat>)
      modifies this
      ensures Matches(FtlSpec.GetLastFreeBlock(c, old(View())), r, View())
    {
      hide Replace, Refill;
      if !c.tweak || lastFreeBlockIOMap {
        lastFreeBlockIndex := lastFreeBlockIndex + 1;
        if lastFreeBlockIndex == c.lanes {
          lastFreeBlockIndex := 0;
        }
      }
      lastFreeBlockIOMap := true;
      if lastFreeBlockIndex >= |lastFreeBlock| {
        return Panic(IndexOutOfRange);
      }
      var k := lastFreeBlockIndex;
      var _ :- ReplaceErased(k);
      r := RefillFull(k);
    }

    method ProgramPage(b: nat, lpn: nat) returns (r: Result<Ppa>)
      modifies this
      ensures Matches(Program(old(View()), b, lpn), r, View())
    {
      if b !in blocks {
        return Panic(NoSuchBlock);
      }
      var page := blocks[b].next;
      var w :- blocks[b].Write(page, lpn);
      blocks := blocks[b := w];
      table := table[lpn := Ppa(b, page)];
      return Ok(Ppa(b, page));
    }

    method InvalidatePage(a: Ppa)
      modifies this
      ensures View() == old(View()).(blocks := InvalidateAt(old(blocks), a))
    {
      if a.block in blocks {
        blocks := blocks[a.block := blocks[a.block].Invalidate(a.page)];
      }
    }

    /** writeInternal up to its trailing garbage collection. */
    method WritePage(lpn: nat, data: int) returns (r: Result<()>)
      modifies this
      ensures MatchesState(Write(c, old(View()), lpn, data), r, View())
    {
      if lpn in table {
        var mapping := table[lpn];
        if mapping.block < c.physicalBlocks && mapping.page < c.pages {
          InvalidatePage(mapping);
        }
      } else {
        table := table[lpn := Ppa(c.physicalBlocks, c.pages)];
      }
      assert View() == Detach(c, old(View()), lpn);
      var b :- GetLastFreeBlock();
      var at :- ProgramPage(b, lpn);
      flash := flash[at := data];
      return Ok(());
    }

    /** writeInternal, with the garbage collection that follows exactly when free blocks run low: the write is all a
        host can tell has happened, whichever victims were picked. */
    method WriteInternal(lpn: nat, data: int, gcThreshold: real, nBlocks: nat) returns (r: Result<()>)
      requires Invariant(c, View())
      modifies this
      ensures r.Ok? ==> Invariant(c, View()) && Contents(View()) == Contents(old(View()))[lpn := data]
      ensures r.Panic? ==> Unavoidable(c, r.fault)
      ensures var w := Write(c, old(View()), lpn, data);
        match w
        case Panic(fault) => r == Panic(fault)
        case Ok(u) =>
          if RunsLow(c, u, gcThreshold) then
            && (exists list :: Collects(c, u, nBlocks, list, r, View()))
            && (r.Ok? && 0 < nBlocks && SomeFull(c, u) ==>
                  exists v :: v in u.blocks && u.blocks[v].next == c.pages && v !in View().blocks)
          else r.Ok? && View() == u
    {
      hide PoolOf, LanesOf, Bijection, Write, CollectGarbage, Selected, Victims;
      WriteKeeps(c, View(), lpn, data);
      var _ :- WritePage(lpn, data);
      ghost var u := View();
      if nFreeBlocks as real < gcThreshold * c.physicalBlocks as real {
        var list := SelectVictimBlock(nBlocks);
        SelectedAreVictims(c, u, nBlocks, list);
        CollectGarbageKeeps(c, View(), list);
        r := DoGarbageCollection(list);
        assert Collects(c, u, nBlocks, list, r, View());
        if r.Ok? && 0 < nBlocks && SomeFull(c, u) {
          SelectedNotEmpty(c, u, nBlocks, list);
          assert list[0] in list && list[0] !in View().blocks;
        }
        return;
      }
      return Ok(());
    }

    method TrimInternal(lpn: nat) returns (r: Result<()>)
      modifies this
      ensures MatchesState(Trim(old(View()), lpn), r, View())
    {
      if lpn in table {
        var mapping := table[lpn];
        if mapping.block !in blocks {
          return Panic(BlockNotInUse);
        }
        InvalidatePage(mapping);
        table := table - {lpn};
      }
      return Ok(());
    }

    method ReadInternal(lpn: nat) returns (r: Result<ReadResult>)
      ensures r == Read(c, View(), lpn)
    {
      if lpn !in table {
        return Ok(Unmapped);
      }
      var mapping := table[lpn];
      if !(mapping.block < c.physicalBlocks && mapping.page < c.pages) {
        return Ok(Unmapped);
      }
      if mapping.block in erasedBlockId {
        return Ok(Dropped);
      }
      if mapping.block !in blocks {
        return Panic(BlockNotInUse);
      }
      return Ok(Data(ReadFlash(flash, mapping)));
    }

    /** selectVictimBlock under the greedy policy. */
    method SelectVictimBlock(n: nat) returns (list: seq<nat>)
      modifies this`bReclaimMore
      ensures View() == old(View()).(reclaimMore := false)
      ensures Selected(c, old(View()), n, list)
    {
      bReclaimMore := false;
      var weight: seq<nat> := [];
      var todo := blocks.Keys;
      while todo != {}
        invariant todo <= blocks.Keys && !bReclaimMore
        invariant ByWeight(weight, blocks) && Distinct(weight)
        invariant forall x :: x in weight <==> x in blocks && x !in todo && blocks[x].next == c.pages
        decreases todo
      {
        var b :| b in todo;
        if blocks[b].next == c.pages {
          weight := InsertByWeight(weight, blocks, b);
        }
        todo := todo - {b};
      }
      list := weight[..if n < |weight| then n else |weight|];
      assert forall i :: 0 <= i < |list| ==> list[i] == weight[i];
    }

    /** One page of a victim: find an open block, invalidate the old page, remap, program. */
    method CopyOut(v: nat, p: nat) returns (r: Result<Move>)
      modifies this
      ensures Matches(CopyPage(c, old(View()), v, p), r, View())
    {
      if v !in blocks || p >= |blocks[v].lpns| {
        return Panic(InvalidBlock);
      }
      var lpn := blocks[v].lpns[p];
      var b :- GetLastFreeBlock();
      InvalidatePage(Ppa(v, p));
      if lpn !in table {
        return Panic(InvalidMapping);
      }
      var at :- ProgramPage(b, lpn);
      return Ok(Move(Ppa(v, p), at));
    }

    method CopyVictim(v: nat, queued: seq<Move>) returns (r: Result<seq<Move>>)
      modifies this
      ensures Matches(CopyPages(c, old(View()), v, 0, queued), r, View())
    {
      var moves := queued;
      var p := 0;
      while p < c.pages
        invariant p <= c.pages
        invariant CopyPages(c, View(), v, p, moves) == CopyPages(c, old(View()), v, 0, queued)
      {
        if v !in blocks {
          return Panic(InvalidBlock);
        }
        if p in blocks[v].valid {
          var m :- CopyOut(v, p);
          moves := moves + [m];
        }
        p := p + 1;
      }
      return Ok(moves);
    }

    method EraseBlock(v: nat) returns (r: Result<()>)
      modifies this
      ensures MatchesState(EraseInternal(c, old(View()), v), r, View())
    {
      if v !in blocks {
        return Panic(NoSuchBlock);
      }
      var b := blocks[v].Erase();
      flash := WipeBlock(flash, v);
      if b.eraseCount < c.badBlockAt {
        if |freeBlocks| == 0 {
          return Panic(EmptyFreeList);
        }
        var i := |freeBlocks|;
        while i > 0 && freeBlocks[i - 1].eraseCount > b.eraseCount
          invariant 0 <= i <= |freeBlocks|
          invariant InsertPosition(freeBlocks, i, b.eraseCount) ==
                    InsertPosition(freeBlocks, |freeBlocks|, b.eraseCount)
        {
          i := i - 1;
        }
        freeBlocks := freeBlocks[..i] + [b] + freeBlocks[i..];
        nFreeBlocks := nFreeBlocks + 1;
      } else {
        retired := retired + {v};
      }
      blocks := blocks - {v};
      return Ok(());
    }

    /** The queued reads, then the queued writes. */
    method DoQueuedIO(moves: seq<Move>)
      modifies this`flash
      ensures View() == old(View()).(flash := Settled(old(flash), moves))
    {
      var data: seq<int> := [];
      var i := 0;
      while i < |moves|
        invariant i == |data| <= |moves|
        invariant forall j :: 0 <= j < i ==> data[j] == ReadFlash(flash, moves[j].src)
      {
        data := data + [ReadFlash(flash, moves[i].src)];
        i := i + 1;
      }
      assert data == ReadAll(flash, moves);
      i := 0;
      while i < |moves|
        invariant 0 <= i <= |moves|
        invariant View() == old(View()).(flash := flash)
        invariant WriteBack(flash, moves, data, i) == Settled(old(flash), moves)
      {
        flash := flash[moves[i].dst := data[i]];
        i := i + 1;
      }
    }

    method DoGarbageCollection(victims: seq<nat>) returns (r: Result<()>)
      modifies this
      ensures MatchesState(CollectGarbage(c, old(View()), victims), r, View())
    {
      var moves: seq<Move> := [];
      var i := 0;
      while i < |victims|
        invariant 0 <= i <= |victims|
        invariant CopyVictims(c, View(), victims, i, moves) == CopyVictims(c, old(View()), victims, 0, [])
      {
        if victims[i] !in blocks {
          return Panic(InvalidBlock);
        }
        moves :- CopyVictim(victims[i], moves);
        i := i + 1;
      }
      DoQueuedIO(moves);
      ghost var s := View();
      i := 0;
      while i < |victims|
        invariant 0 <= i <= |victims|
        invariant EraseVictims(c, View(), victims, i) == EraseVictims(c, s, victims, 0)
      {
        erasedBlockId := erasedBlockId + [victims[i]];
        var _ :- EraseBlock(victims[i]);
        i := i + 1;
      }
      return Ok(());
    }
  }
}
