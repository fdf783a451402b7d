/** A run from start-up that ends where FtlLimits and FtlLeak say a drive can end: a read that is dropped, and a block
    that is stranded. */
module FtlRuns {
  import opened Outcome
  import opened Blocks
  import opened FtlSpec
  import opened FtlInvariant
  import opened FtlTheorems
  import opened FtlLeak
  import opened FtlLimits

  // ---- states, but for what the flash array holds ------------------------------------------

  /** A block with `next` pages written. */
  function B(idx: nat, valid: set<nat>, next: nat, lpns: seq<nat>, eraseCount: nat): Block {
    Block(idx, valid, Below(|lpns|) - Below(next), lpns, next, eraseCount)
  }

  lemma Written(idx: nat, valid: set<nat>, next: nat, lpns: seq<nat>, eraseCount: nat, lpn: nat,
                valid': set<nat>, lpns': seq<nat>)
    requires next < |lpns| && valid' == valid + {next} && lpns' == lpns[next := lpn]
    ensures B(idx, valid, next, lpns, eraseCount).Write(next, lpn) == Ok(B(idx, valid', next + 1, lpns', eraseCount))
  {
    assert Below(|lpns|) - Below(next) - {next} == Below(|lpns|) - Below(next + 1);
  }

  lemma Erased(b: Block)
    ensures b.Erase() == B(b.idx, {}, 0, b.lpns, b.eraseCount + 1)
  {
    assert Below(|b.lpns|) - Below(0) == Below(|b.lpns|);
  }

  ghost predicate Like(s: State, table: map<nat, Ppa>, blocks: map<nat, Block>, free: seq<Block>, last: seq<nat>,
                       lane: nat, recycled: seq<nat>) {
    && s.table == table && s.blocks == blocks && s.free == free && s.nFree == |free|
    && s.last == last && s.lane == lane && s.recycled == recycled
  }

  // ---- single steps ------------------------------------------------------------------------

  /** The lane's block has room. */
  lemma Stays(c: Config, s: State)
    requires |s.last| == c.lanes && NextLane(c, s) < c.lanes
    requires var b := s.last[NextLane(c, s)]; b !in s.recycled && b in s.blocks && s.blocks[b].next != c.pages
    ensures GetLastFreeBlock(c, s) == Ok((s.(lane := NextLane(c, s), ioMap := true), s.last[NextLane(c, s)]))
  {
  }

  /** The lane's block is full or listed as erased, and the lane takes the block at position i. */
  function Taken(c: Config, s: State, i: nat): State
    requires i < |s.free| && NextLane(c, s) < |s.last|
  {
    var k, b := NextLane(c, s), s.free[i];
    s.(lane := k, ioMap := true, blocks := s.blocks[b.idx := b], free := s.free[..i] + s.free[i + 1..],
       nFree := s.nFree - 1, last := s.last[k := b.idx],
       recycled := if s.last[k] in s.recycled then Without(s.recycled, s.last[k]) else s.recycled,
       reclaimMore := s.reclaimMore || s.last[k] !in s.recycled)
  }

  lemma Takes(c: Config, s: State, i: nat)
    requires 0 < c.pages && |s.last| == c.lanes && NextLane(c, s) < c.lanes
    requires i < |s.free| == s.nFree && FreePosition(c, s.free, NextLane(c, s)) == i
    requires s.free[i].idx !in s.blocks && s.free[i].next == 0
    requires var b := s.last[NextLane(c, s)]; b in s.recycled || (b in s.blocks && s.blocks[b].next == c.pages)
    ensures GetLastFreeBlock(c, s) == Ok((Taken(c, s, i), s.free[i].idx))
  {
    hide FreePosition, Without;
    var k := NextLane(c, s);
    var u := s.(lane := k, ioMap := true);
    var b := s.free[i];
    var v := u.(blocks := u.blocks[b.idx := b], free := u.free[..i] + u.free[i + 1..], nFree := u.nFree - 1);
    assert GetFreeBlock(c, u, k) == Ok((v, b.idx));
    if u.last[k] in u.recycled {
      var w := v.(last := v.last[k := b.idx], recycled := Without(u.recycled, u.last[k]));
      assert Replace(c, u, k) == Ok(w);
      assert Refill(c, w, k) == Ok((w, b.idx));
    }
  }

  /** Programming block b of state u. */
  ghost predicate Programs(u: State, b: nat, lpn: nat, w: Block) {
    b in u.blocks && u.blocks[b].Write(u.blocks[b].next, lpn) == Ok(w)
  }

  lemma WriteOn(c: Config, s: State, lpn: nat, data: int, u: State, b: nat, w: Block)
    requires GetLastFreeBlock(c, Detach(c, s, lpn)) == Ok((u, b)) && Programs(u, b, lpn, w) && u.nFree == |u.free|
    ensures var r := Write(c, s, lpn, data);
      && r.Ok?
      && Like(r.value, u.table[lpn := Ppa(b, u.blocks[b].next)], u.blocks[b := w], u.free, u.last, u.lane, u.recycled)
  {
  }

  lemma CopyOn(c: Config, s: State, v: nat, p: nat, u: State, b: nat, w: Block)
    requires v in s.blocks && p < |s.blocks[v].lpns| && GetLastFreeBlock(c, s) == Ok((u, b)) && u.nFree == |u.free|
    requires var lpn := s.blocks[v].lpns[p];
      lpn in u.table && Programs(u.(blocks := InvalidateAt(u.blocks, Ppa(v, p))), b, lpn, w)
    ensures var r := CopyPage(c, s, v, p);
      && r.Ok?
      && var blocks := InvalidateAt(u.blocks, Ppa(v, p));
         Like(r.value.0, u.table[s.blocks[v].lpns[p] := Ppa(b, blocks[b].next)], blocks[b := w], u.free, u.last, u.lane,
              u.recycled)
  {
  }

  /** Both pages of a two-page victim are valid and can be moved. */
  lemma CopyBoth(c: Config, s: State, v: nat)
    requires c.pages == 2
    ensures var r := CopyPage(c, s, v, 0);
      v in s.blocks && 0 in s.blocks[v].valid && r.Ok? ==>
        var (t, m) := r.value;
        var q := CopyPage(c, t, v, 1);
        v in t.blocks && 1 in t.blocks[v].valid && q.Ok? ==>
          CopyPages(c, s, v, 0, []) == Ok((q.value.0, [m] + [q.value.1]))
  {
    hide CopyPage;
    if v in s.blocks && 0 in s.blocks[v].valid && CopyPage(c, s, v, 0).Ok? {
      var (t, m) := CopyPage(c, s, v, 0).value;
      if v in t.blocks && 1 in t.blocks[v].valid && CopyPage(c, t, v, 1).Ok? {
        var (u, n) := CopyPage(c, t, v, 1).value;
        assert [] + [m] == [m];
        assert CopyPages(c, u, v, 2, [m] + [n]) == Ok((u, [m] + [n]));
        assert CopyPages(c, t, v, 1, [m]) == Ok((u, [m] + [n]));
      }
    }
  }

  /** The victim goes back to position i of the free list. */
  lemma CollectOn(c: Config, s: State, v: nat, t: State, moves: seq<Move>, i: nat)
    requires v in s.blocks && CopyPages(c, s, v, 0, []) == Ok((t, moves)) && v in t.blocks && t.nFree == |t.free|
    requires t.blocks[v].idx == v
    requires t.blocks[v].eraseCount + 1 < c.badBlockAt && t.free != []
    requires InsertPosition(t.free, |t.free|, t.blocks[v].eraseCount + 1) == i
    ensures var r, b := CollectGarbage(c, s, [v]), t.blocks[v];
      && r.Ok?
      && Like(r.value, t.table, t.blocks - {v}, t.free[..i] + [B(v, {}, 0, b.lpns, b.eraseCount + 1)] + t.free[i..],
              t.last, t.lane, t.recycled + [v])
  {
    hide InsertPosition, CopyPages, WriteBack;
    assert CopyVictims(c, t, [v], 1, moves) == Ok((t, moves));
    assert CopyVictims(c, s, [v], 0, []) == Ok((t, moves));
    Erased(t.blocks[v]);
    var u := t.(flash := WriteBack(t.flash, moves, ReadAll(t.flash, moves), 0));
    var e := EraseInternal(c, u.(recycled := u.recycled + [v]), v);
    assert EraseVictims(c, e.value, [v], 1) == e;
    assert EraseVictims(c, u, [v], 0) == e;
  }

  lemma RunsOn(c: Config, s: State, op: Op, rest: seq<Op>)
    requires LegalStep(c, s, op) && Step(c, s, op).Ok?
    ensures Run(c, s, [op] + rest) == Run(c, Step(c, s, op).value, rest)
    ensures LegalRun(c, s, [op] + rest) <==> LegalRun(c, Step(c, s, op).value, rest)
  {
    assert ([op] + rest)[1..] == rest;
  }

  // ---- a dropped read and a stranded block -------------------------------------------------

  function LeakConfig(): Config {
    Config(3, 2, 1, 100, false)
  }

  lemma LeakStart()
    ensures Start(LeakConfig()).Ok?
    ensures Like(Start(LeakConfig()).value, map[], map[0 := B(0, {}, 0, [0, 0], 0)],
                 [B(1, {}, 0, [0, 0], 0), B(2, {}, 0, [0, 0], 0)], [0], 0, [])
  {
    var c := LeakConfig();
    var s := Blank(c);
    assert s.free == [Fresh(0, 2), Fresh(1, 2), Fresh(2, 2)];
    assert Below(2) - Below(0) == Below(2) && seq(2, _ => 0) == [0, 0];
    assert FreePosition(c, s.free, 0) == 0;
    assert s.free[..0] + s.free[1..] == [Fresh(1, 2), Fresh(2, 2)];
    assert s.last == [0];
  }

  lemma LeakWrite1(s: State)
    requires Like(s, map[], map[0 := B(0, {}, 0, [0, 0], 0)],
                  [B(1, {}, 0, [0, 0], 0), B(2, {}, 0, [0, 0], 0)], [0], 0, [])
    ensures var r := Write(LeakConfig(), s, 1, 10);
      r.Ok? && Like(r.value, map[1 := Ppa(0, 0)], map[0 := B(0, {0}, 1, [1, 0], 0)],
                    [B(1, {}, 0, [0, 0], 0), B(2, {}, 0, [0, 0], 0)], [0], 0, [])
  {
    var c := LeakConfig();
    var d := Detach(c, s, 1);
    Stays(c, d);
    Written(0, {}, 0, [0, 0], 0, 1, {0}, [1, 0]);
    WriteOn(c, s, 1, 10, d.(lane := 0, ioMap := true), 0, B(0, {0}, 1, [1, 0], 0));
  }

  lemma LeakWrite2(s: State)
    requires Like(s, map[1 := Ppa(0, 0)], map[0 := B(0, {0}, 1, [1, 0], 0)],
                  [B(1, {}, 0, [0, 0], 0), B(2, {}, 0, [0, 0], 0)], [0], 0, [])
    ensures var r := Write(LeakConfig(), s, 2, 20);
      r.Ok? && Like(r.value, map[1 := Ppa(0, 0), 2 := Ppa(0, 1)], map[0 := B(0, {0, 1}, 2, [1, 2], 0)],
                    [B(1, {}, 0, [0, 0], 0), B(2, {}, 0, [0, 0], 0)], [0], 0, [])
  {
    var c := LeakConfig();
    var d := Detach(c, s, 2);
    Stays(c, d);
    Written(0, {0}, 1, [1, 0], 0, 2, {0, 1}, [1, 2]);
    WriteOn(c, s, 2, 20, d.(lane := 0, ioMap := true), 0, B(0, {0, 1}, 2, [1, 2], 0));
  }

  /** Collecting the lane's own block v, both pages of which are valid, moves them to the first free block x. */
  lemma MoveFirst(s: State, v: nat, e: nat, x: Block, y: Block, recycled: seq<nat>)
    requires v != x.idx && v !in recycled && x == B(x.idx, {}, 0, x.lpns, x.eraseCount) && |x.lpns| == 2
    requires Like(s, map[1 := Ppa(v, 0), 2 := Ppa(v, 1)], map[v := B(v, {0, 1}, 2, [1, 2], e)],
                  [x, y], [v], 0, recycled)
    ensures var r := CopyPage(LeakConfig(), s, v, 0);
      r.Ok? && Like(r.value.0, map[1 := Ppa(x.idx, 0), 2 := Ppa(v, 1)],
                    map[v := B(v, {1}, 2, [1, 2], e), x.idx := B(x.idx, {0}, 1, [1, x.lpns[1]], x.eraseCount)],
                    [y], [x.idx], 0, recycled)
  {
    var c := LeakConfig();
    assert FreePosition(c, s.free, 0) == 0;
    Takes(c, s, 0);
    var w := B(x.idx, {0}, 1, [1, x.lpns[1]], x.eraseCount);
    Written(x.idx, {}, 0, x.lpns, x.eraseCount, 1, {0}, [1, x.lpns[1]]);
    var u := Taken(c, s, 0);
    assert u.free == [y];
    assert {0, 1} - {0} == {1};
    CopyOn(c, s, v, 0, u, x.idx, w);
  }

  lemma MoveSecond(s: State, v: nat, e: nat, x: nat, l: nat, ex: nat, y: Block, recycled: seq<nat>)
    requires v != x && x !in recycled
    requires Like(s, map[1 := Ppa(x, 0), 2 := Ppa(v, 1)],
                  map[v := B(v, {1}, 2, [1, 2], e), x := B(x, {0}, 1, [1, l], ex)], [y], [x], 0, recycled)
    ensures var r := CopyPage(LeakConfig(), s, v, 1);
      r.Ok? && Like(r.value.0, map[1 := Ppa(x, 0), 2 := Ppa(x, 1)],
                    map[v := B(v, {}, 2, [1, 2], e), x := B(x, {0, 1}, 2, [1, 2], ex)], [y], [x], 0, recycled)
  {
    var c := LeakConfig();
    Stays(c, s);
    Written(x, {0}, 1, [1, l], ex, 2, {0, 1}, [1, 2]);
    assert {1} - {1} == {};
    CopyOn(c, s, v, 1, s.(lane := 0, ioMap := true), x, B(x, {0, 1}, 2, [1, 2], ex));
  }

  lemma MoveAll(s: State, v: nat, e: nat, x: Block, y: Block, recycled: seq<nat>)
    requires v != x.idx && v !in recycled && x.idx !in recycled && e < 10 && y.eraseCount <= e + 1
    requires x == B(x.idx, {}, 0, x.lpns, x.eraseCount) && |x.lpns| == 2
    requires Like(s, map[1 := Ppa(v, 0), 2 := Ppa(v, 1)], map[v := B(v, {0, 1}, 2, [1, 2], e)],
                  [x, y], [v], 0, recycled)
    ensures LegalStep(LeakConfig(), s, CollectOp([v]))
    ensures var r := CollectGarbage(LeakConfig(), s, [v]);
      r.Ok? && Like(r.value, map[1 := Ppa(x.idx, 0), 2 := Ppa(x.idx, 1)],
                    map[x.idx := B(x.idx, {0, 1}, 2, [1, 2], x.eraseCount)],
                    [y, B(v, {}, 0, [1, 2], e + 1)], [x.idx], 0, recycled + [v])
  {
    hide CopyPage, CopyPages, CollectGarbage;
    var c := LeakConfig();
    MoveFirst(s, v, e, x, y, recycled);
    var (t, m) := CopyPage(c, s, v, 0).value;
    MoveSecond(t, v, e, x.idx, x.lpns[1], x.eraseCount, y, recycled);
    var (u, n) := CopyPage(c, t, v, 1).value;
    CopyBoth(c, s, v);
    assert InsertPosition([y], 1, e + 1) == 1;
    CollectOn(c, s, v, u, [m] + [n], 1);
    assert u.blocks - {v} == map[x.idx := B(x.idx, {0, 1}, 2, [1, 2], x.eraseCount)];
  }

  lemma LeakCollect1(s: State)
    requires Like(s, map[1 := Ppa(0, 0), 2 := Ppa(0, 1)], map[0 := B(0, {0, 1}, 2, [1, 2], 0)],
                  [B(1, {}, 0, [0, 0], 0), B(2, {}, 0, [0, 0], 0)], [0], 0, [])
    ensures LegalStep(LeakConfig(), s, CollectOp([0]))
    ensures var r := CollectGarbage(LeakConfig(), s, [0]);
      r.Ok? && Like(r.value, map[1 := Ppa(1, 0), 2 := Ppa(1, 1)], map[1 := B(1, {0, 1}, 2, [1, 2], 0)],
                    [B(2, {}, 0, [0, 0], 0), B(0, {}, 0, [1, 2], 1)], [1], 0, [0])
  {
    hide CollectGarbage, Below;
    MoveAll(s, 0, 0, B(1, {}, 0, [0, 0], 0), B(2, {}, 0, [0, 0], 0), []);
    assert [] + [0] == [0];
  }

  lemma LeakCollect2(s: State)
    requires Like(s, map[1 := Ppa(1, 0), 2 := Ppa(1, 1)], map[1 := B(1, {0, 1}, 2, [1, 2], 0)],
                  [B(2, {}, 0, [0, 0], 0), B(0, {}, 0, [1, 2], 1)], [1], 0, [0])
    ensures LegalStep(LeakConfig(), s, CollectOp([1]))
    ensures var r := CollectGarbage(LeakConfig(), s, [1]);
      r.Ok? && Like(r.value, map[1 := Ppa(2, 0), 2 := Ppa(2, 1)], map[2 := B(2, {0, 1}, 2, [1, 2], 0)],
                    [B(0, {}, 0, [1, 2], 1), B(1, {}, 0, [1, 2], 1)], [2], 0, [0, 1])
  {
    hide CollectGarbage, Below;
    MoveAll(s, 1, 0, B(2, {}, 0, [0, 0], 0), B(0, {}, 0, [1, 2], 1), [0]);
    assert [0] + [1] == [0, 1];
  }

  /** The lane's block 2 is full, and the one it is given next, block 0, is still listed. */
  lemma LeakWrite3(s: State)
    requires Like(s, map[1 := Ppa(2, 0), 2 := Ppa(2, 1)], map[2 := B(2, {0, 1}, 2, [1, 2], 0)],
                  [B(0, {}, 0, [1, 2], 1), B(1, {}, 0, [1, 2], 1)], [2], 0, [0, 1])
    ensures GetsListedBlock(LeakConfig(), s)
    ensures var r := Write(LeakConfig(), s, 3, 30);
      r.Ok? && Like(r.value, map[1 := Ppa(2, 0), 2 := Ppa(2, 1), 3 := Ppa(0, 0)],
                    map[0 := B(0, {0}, 1, [3, 2], 1), 2 := B(2, {0, 1}, 2, [1, 2], 0)],
                    [B(1, {}, 0, [1, 2], 1)], [0], 0, [0, 1])
  {
    hide GetLastFreeBlock, Taken;
    var c := LeakConfig();
    var d := Detach(c, s, 3);
    LeakOpen3(d);
    Written(0, {}, 0, [1, 2], 1, 3, {0}, [3, 2]);
    WriteOn(c, s, 3, 30, Taken(c, d, 0), 0, B(0, {0}, 1, [3, 2], 1));
  }

  lemma LeakOpen3(d: State)
    requires Like(d, d.table, map[2 := B(2, {0, 1}, 2, [1, 2], 0)],
                  [B(0, {}, 0, [1, 2], 1), B(1, {}, 0, [1, 2], 1)], [2], 0, [0, 1])
    ensures NextLane(LeakConfig(), d) == 0
    ensures var u := Taken(LeakConfig(), d, 0);
      && GetLastFreeBlock(LeakConfig(), d) == Ok((u, 0)) && u.nFree == 1
      && Like(u, d.table, map[0 := B(0, {}, 0, [1, 2], 1), 2 := B(2, {0, 1}, 2, [1, 2], 0)],
              [B(1, {}, 0, [1, 2], 1)], [0], 0, [0, 1])
  {
    hide GetLastFreeBlock;
    var c := LeakConfig();
    assert FreePosition(c, d.free, 0) == 0;
    Takes(c, d, 0);
  }

  /** The next write makes the lane drop block 0, one page written, for block 1. */
  lemma LeakWrite4(s: State)
    requires Like(s, map[1 := Ppa(2, 0), 2 := Ppa(2, 1), 3 := Ppa(0, 0)],
                  map[0 := B(0, {0}, 1, [3, 2], 1), 2 := B(2, {0, 1}, 2, [1, 2], 0)],
                  [B(1, {}, 0, [1, 2], 1)], [0], 0, [0, 1])
    ensures var r := Write(LeakConfig(), s, 4, 40);
      r.Ok? && r.value.last == [1] && r.value.recycled == [1]
      && 0 in r.value.blocks && r.value.blocks[0] == B(0, {0}, 1, [3, 2], 1)
  {
    hide GetLastFreeBlock, Taken;
    var c := LeakConfig();
    var d := Detach(c, s, 4);
    LeakOpen4(d);
    Written(1, {}, 0, [1, 2], 1, 4, {0}, [4, 2]);
    WriteOn(c, s, 4, 40, Taken(c, d, 0), 1, B(1, {0}, 1, [4, 2], 1));
  }

  lemma LeakOpen4(d: State)
    requires Like(d, d.table, map[0 := B(0, {0}, 1, [3, 2], 1), 2 := B(2, {0, 1}, 2, [1, 2], 0)],
                  [B(1, {}, 0, [1, 2], 1)], [0], 0, [0, 1])
    ensures NextLane(LeakConfig(), d) == 0
    ensures var u := Taken(LeakConfig(), d, 0);
      && GetLastFreeBlock(LeakConfig(), d) == Ok((u, 1)) && u.nFree == 0
      && Like(u, d.table,
              map[0 := B(0, {0}, 1, [3, 2], 1), 1 := B(1, {}, 0, [1, 2], 1), 2 := B(2, {0, 1}, 2, [1, 2], 0)],
              [], [1], 0, [1])
  {
    hide GetLastFreeBlock;
    var c := LeakConfig();
    assert FreePosition(c, d.free, 0) == 0;
    assert Without([0, 1], 0) == [1];
    Takes(c, d, 0);
  }

  /** Two writes that fill block 0, and two collections that move the pages on to block 1 and then to block 2. */
  function LeakOps(): seq<Op> {
    [WriteOp(1, 10)] + ([WriteOp(2, 20)] + ([CollectOp([0])] + ([CollectOp([1])] + [])))
  }

  lemma LeakRun() returns (s: State)
    ensures Start(LeakConfig()).Ok? && LegalRun(LeakConfig(), Start(LeakConfig()).value, LeakOps())
    ensures Run(LeakConfig(), Start(LeakConfig()).value, LeakOps()) == Ok(s) && Invariant(LeakConfig(), s)
    ensures Like(s, map[1 := Ppa(2, 0), 2 := Ppa(2, 1)], map[2 := B(2, {0, 1}, 2, [1, 2], 0)],
                 [B(0, {}, 0, [1, 2], 1), B(1, {}, 0, [1, 2], 1)], [2], 0, [0, 1])
  {
    hide Start, Write, CollectGarbage, Run, LegalRun, Invariant, Victims, Like;
    var c := LeakConfig();
    LeakStart();
    StartKeeps(c);
    var s0 := Start(c).value;
    LeakWrite1(s0);
    var s1 := Write(c, s0, 1, 10).value;
    LeakWrite2(s1);
    var s2 := Write(c, s1, 2, 20).value;
    LeakCollect1(s2);
    var s3 := CollectGarbage(c, s2, [0]).value;
    LeakCollect2(s3);
    s := CollectGarbage(c, s3, [1]).value;
    RunsOn(c, s3, CollectOp([1]), []);
    RunsOn(c, s2, CollectOp([0]), [CollectOp([1])] + []);
    RunsOn(c, s1, WriteOp(2, 20), [CollectOp([0])] + ([CollectOp([1])] + []));
    RunsOn(c, s0, WriteOp(1, 10), [WriteOp(2, 20)] + ([CollectOp([0])] + ([CollectOp([1])] + [])));
    NoOps(c, s);
    RunKeeps(c, s0, LeakOps());
  }

  lemma NoOps(c: Config, s: State)
    ensures Run(c, s, []) == Ok(s) && LegalRun(c, s, [])
  {
  }

  /** After that run, from start-up, a page is written and not read back. */
  lemma ReadCanBeDropped()
    ensures var c, s0 := LeakConfig(), Start(LeakConfig()).value;
      && Start(c).Ok? && LegalRun(c, s0, LeakOps()) && Run(c, s0, LeakOps()).Ok?
      && var s := Run(c, s0, LeakOps()).value;
         Write(c, s, 3, 30).Ok? && Read(c, Write(c, s, 3, 30).value, 3) == Ok(Dropped)
  {
    hide Start, Write, Read, Run, LegalRun, Invariant, GetsListedBlock;
    var s := LeakRun();
    LeakWrite3(s);
    WriteThenRead(LeakConfig(), s, 3, 30);
  }

  /** One more write strands that page's block with a single page written, for good. */
  lemma BlockCanBeStranded()
    ensures var c, s0 := LeakConfig(), Start(LeakConfig()).value;
      && Start(c).Ok? && LegalRun(c, s0, LeakOps()) && Run(c, s0, LeakOps()).Ok?
      && var s := Run(c, s0, LeakOps()).value;
         && Write(c, s, 3, 30).Ok?
         && var t := Write(c, s, 3, 30).value;
            Strands(c, t) && Write(c, t, 4, 40).Ok? && Stuck(c, Write(c, t, 4, 40).value, 0, 1)
  {
    hide Start, Write, Run, LegalRun, Invariant;
    var c := LeakConfig();
    var s := LeakRun();
    LeakWrite3(s);
    LeakWrite4(Write(c, s, 3, 30).value);
  }
}
