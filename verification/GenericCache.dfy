/** Class GenericCache of simplessd/icl/generic_cache.cc with read and write caching on: lines and eviction
    candidates are arrays changed in place, and an eviction candidate is a pointer into the line array. */
module GenericCache {
  import opened Helpers
  import opened CacheModel
  import opened CacheReads

  class GenericCache {
    const g: Shape
    const policy: Policy
    const superPageEviction: bool   // evictMode == MODE_SUPERPAGE
    const wholeStripe: bool         // prefetchMode == MODE_ALL || !bSuperPage
    const lineSize: nat
    const useReadPrefetch: bool
    const latency: nat -> nat       // stands for every DRAM, CPU and FTL latency
    const cacheData: array2<Line>
    const evictData: array2<Option<Loc>>

    var readDetectEnabled: bool
    var prefetchTrigger: Option<nat>
    var lastPrefetched: nat
    var ftl: map<(nat, nat), int>

    /** What a host reads at each logical address. */
    ghost var mem: map<nat, int>

    ghost predicate Shaped()
    {
      && g.Sane()
      && cacheData.Length0 == g.sets && cacheData.Length1 == g.ways
      && evictData.Length0 == g.units && evictData.Length1 == g.parallel
    }

    ghost function Snap(): Lines
      requires Shaped()
      reads cacheData
    {
      imap p: Loc | g.InRange(p) :: cacheData[p.row, p.way]
    }

    /** No eviction is under way. */
    ghost predicate NoCandidates()
      requires Shaped()
      reads evictData
    {
      forall r, c :: 0 <= r < g.units && 0 <= c < g.parallel ==> evictData[r, c] == None
    }

    ghost predicate Valid()
      reads this, cacheData, evictData
    {
      Shaped() && NoCandidates() && Agrees(g, Snap(), {}, ftl, mem)
    }

    /** A cache of at least one line over an FTL that already holds data. */
    constructor (g: Shape, policy: Policy, superPageEviction: bool, wholeStripe: bool, lineSize: nat,
                 useReadPrefetch: bool, latency: nat -> nat, ftl: map<(nat, nat), int>, ghost mem: map<nat, int>)
      requires g.Sane()
      requires forall lca: nat :: Look(mem, lca) == FtlLook(g, ftl, lca)
      ensures Valid() && this.mem == mem && this.ftl == ftl && this.g == g
      ensures fresh(cacheData) && fresh(evictData)
    {
      this.g, this.policy, this.superPageEviction, this.wholeStripe := g, policy, superPageEviction, wholeStripe;
      this.lineSize, this.useReadPrefetch, this.latency := lineSize, useReadPrefetch, latency;
      cacheData := new Line[g.sets, g.ways]((_, _) => Line(0, 0, 0, false, false, 0, 0));
      evictData := new Option<Loc>[g.units, g.parallel]((_, _) => None);
      readDetectEnabled, prefetchTrigger, lastPrefetched := false, None, 0;
      this.ftl, this.mem := ftl, mem;
      new;
      assert forall p, lca: nat :: !Holds(Snap(), {}, p, lca);
    }

    function Later(tick: nat): nat {
      tick + latency(tick)
    }

    /** Changing one array element is changing the snapshot at that place. */
    method SetLine(p: Loc, l: Line)
      requires Shaped() && g.InRange(p)
      modifies cacheData
      ensures Snap() == old(Snap())[p := l]
    {
      cacheData[p.row, p.way] := l;
    }

    method GetValidWay(lca: nat) returns (way: nat)
      requires Shaped()
      ensures way <= g.ways
      ensures way < g.ways ==> cacheData[lca % g.sets, way].valid && cacheData[lca % g.sets, way].tag == lca
      ensures way == g.ways ==>
                forall w :: 0 <= w < g.ways ==>
                  !(cacheData[lca % g.sets, w].valid && cacheData[lca % g.sets, w].tag == lca)
    {
      way := 0;
      while way < g.ways && !(cacheData[lca % g.sets, way].valid && cacheData[lca % g.sets, way].tag == lca)
        invariant way <= g.ways
        invariant forall w :: 0 <= w < way ==>
                    !(cacheData[lca % g.sets, w].valid && cacheData[lca % g.sets, w].tag == lca)
      {
        way := way + 1;
      }
    }

    /** The empty way that has been empty longest, or waySize when every way is taken. */
    method GetEmptyWay(set_: nat) returns (way: nat)
      requires Shaped() && set_ < g.sets
      ensures way <= g.ways
      ensures way == g.ways <==> forall w :: 0 <= w < g.ways ==> cacheData[set_, w].valid
      ensures way < g.ways ==> LongestEmpty(SetOf(g, Snap(), set_), way)
    {
      ghost var lines := SetOf(g, Snap(), set_);
      way := g.ways;
      var w := 0;
      while w < g.ways
        invariant w <= g.ways
        invariant way < w || way == g.ways
        invariant way == g.ways <==> forall v :: 0 <= v < w ==> lines[v].valid
        invariant way < w ==> LongestEmpty(lines[..w], way)
      {
        if !cacheData[set_, w].valid {
          if way == g.ways || cacheData[set_, way].insertedAt > cacheData[set_, w].insertedAt {
            way := w;
          }
        }
        w := w + 1;
      }
      assert lines[..w] == lines;
      assert forall v :: 0 <= v < g.ways ==> lines[v] == cacheData[set_, v];
    }

    /** evictFunction: the policy's first line of the set. Under the clean-first policy the loop stops at the
        first clean way by index, whatever its age, and is least recently used only among dirty lines.
        CacheModel.EvictsMinimumIff says when that is the policy's minimum. */
    method EvictFunction(set_: nat) returns (way: nat)
      requires Shaped() && set_ < g.sets
      ensures Evicts(policy, SetOf(g, Snap(), set_), way)
    {
      ghost var lines := SetOf(g, Snap(), set_);
      way := 0;
      if policy == CleanFirst && !cacheData[set_, 0].dirty {
        return;
      }
      PolicyIsOrder(policy, cacheData[set_, 0], cacheData[set_, 0], cacheData[set_, 0]);
      var i := 1;
      while i < g.ways
        invariant 1 <= i <= g.ways && way < i
        invariant forall w :: 0 <= w < i ==> !Before(policy, lines[w], lines[way])
        invariant forall w :: 0 <= w < way ==> Before(policy, lines[way], lines[w])
        invariant policy == CleanFirst ==> forall w :: 0 <= w < i ==> lines[w].dirty
      {
        if policy == CleanFirst && !cacheData[set_, i].dirty {
          return i;
        }
        if Before(policy, cacheData[set_, i], cacheData[set_, way]) {
          forall w | 0 <= w < i
            ensures Before(policy, lines[i], lines[w])
          {
            PolicyIsOrder(policy, lines[i], lines[w], lines[way]);
          }
          way := i;
        }
        i := i + 1;
      }
    }

    /** compareFunction, on pointers. */
    method Compare(a: Option<Loc>, b: Option<Loc>) returns (r: Option<Loc>)
      requires Shaped() && (a.Some? ==> g.InRange(a.value)) && (b.Some? ==> g.InRange(b.value))
      ensures Picked(policy, Snap(), a, b, r)
    {
      if a.Some? && b.Some? {
        var x, y := cacheData[a.value.row, a.value.way], cacheData[b.value.row, b.value.way];
        PolicyIsOrder(policy, x, y, x);
        PolicyIsOrder(policy, x, x, x);
        PolicyIsOrder(policy, y, y, y);
        r := if Before(policy, x, y) then a else b;
      } else if a.Some? {
        PolicyIsOrder(policy, cacheData[a.value.row, a.value.way], cacheData[a.value.row, a.value.way],
                      cacheData[a.value.row, a.value.way]);
        r := a;
      } else {
        r := b;
      }
    }

    /** A candidate may be written back from its place: a dirty one sits in the row its unit asks for. */
    ghost predicate Placed(p: Loc, r: nat)
      requires Shaped()
      reads cacheData
    {
      g.InRange(p) && (cacheData[p.row, p.way].valid && cacheData[p.row, p.way].dirty ==>
                         g.Row(cacheData[p.row, p.way].tag) == r)
    }

    /** A line that is dirty goes to the FTL. */
    method WriteBack(l: Line, row: nat, tick: nat) returns (beginAt: nat)
      requires Shaped() && (l.valid && l.dirty ==> g.Row(l.tag) == row)
      modifies this`ftl
      ensures beginAt == if l.valid && l.dirty then Later(tick) else tick
      ensures ftl == if l.valid && l.dirty then old(ftl)[(l.tag / g.units, l.tag % g.units) := l.data] else old(ftl)
    {
      beginAt := tick;
      WriteBackAddress(g, l.tag);
      if l.valid && l.dirty {
        ftl := ftl[(l.tag / g.units, row) := l.data];
        beginAt := Later(tick);
      }
    }

    /** The body of evictCache's loops for one candidate. */
    method EvictCell(row: nat, col: nat, tick: nat, ghost pending: set<Loc>)
      requires Shaped() && row < g.units && col < g.parallel
      requires evictData[row, col].Some? && Placed(evictData[row, col].value, row)
      requires Agrees(g, Snap(), pending, ftl, mem)
      modifies this`ftl, cacheData, evictData
      ensures var p := old(evictData[row, col].value);
        var l := old(cacheData[p.row, p.way]);
        && Snap() == old(Snap())[p := Emptied(l, tick, Later(tick))]
        && ftl == (if l.valid && l.dirty then old(ftl)[(l.tag / g.units, l.tag % g.units) := l.data] else old(ftl))
        && Agrees(g, Snap(), pending - {p}, ftl, mem)
      ensures forall r, c :: 0 <= r < g.units && 0 <= c < g.parallel ==>
                evictData[r, c] == if r == row && c == col then None else old(evictData[r, c])
    {
      hide Agrees;
      var p := evictData[row, col].value;
      var l := cacheData[p.row, p.way];
      ghost var lines, f := Snap(), ftl;
      var beginAt := WriteBack(l, row, tick);
      hide FtlLook;
      var empty := l.(valid := false, tag := 0, accessCount := 0, insertedAt := beginAt, lastAccessed := beginAt,
                      dirty := false);
      FlushKeeps(g, lines, pending, f, mem, p, empty);
      SetLine(p, empty);
      evictData[row, col] := None;
    }

    /** Cells before (row, col) in the order of evictCache's loops. */
    ghost predicate Passed(r: int, c: int, row: int, col: int) {
      r < row || (r == row && c < col)
    }

    /** The candidates as they stand, by row and column. */
    ghost function Cells(): imap<Loc, Option<Loc>>
      requires Shaped()
      reads evictData
    {
      imap at: Loc | at.row < g.units && at.way < g.parallel :: evictData[at.row, at.way]
    }

    /** What evictCache, started at `tick` on the given lines, candidates and FTL, has done once it reaches (row, col),
        the set `evicted` of lines having been emptied. */
    ghost predicate EvictedUpTo(row: int, col: int, tick: nat, evicted: set<Loc>, pending: set<Loc>, lines: Lines,
                                cells: imap<Loc, Option<Loc>>, f: map<(nat, nat), int>)
      requires Shaped()
      reads this, cacheData, evictData
    {
      && EvictedTo(row, col, tick, evicted, lines, cells, Snap(), Cells())
      && Agrees(g, Snap(), pending - evicted, ftl, mem) && Spilled(g, lines, evicted, f, ftl)
    }

    /** That is, from lines and candidates to lines and candidates now. */
    ghost predicate EvictedTo(row: int, col: int, tick: nat, evicted: set<Loc>, lines: Lines,
                              cells: imap<Loc, Option<Loc>>, linesNow: Lines, cellsNow: imap<Loc, Option<Loc>>)
    {
      && (forall at :: at in cells <==> at.row < g.units && at.way < g.parallel)
      && cellsNow.Keys == cells.Keys
      && (forall p :: p in lines <==> g.InRange(p))
      && linesNow.Keys == lines.Keys
      && (forall at :: at in cells ==>
            cellsNow[at] == if Passed(at.row, at.way, row, col) then None else cells[at])
      && (forall p :: p in evicted <==>
            exists at :: at in cells && Passed(at.row, at.way, row, col) && cells[at] == Some(p))
      && (forall p :: g.InRange(p) ==>
            linesNow[p] == if p in evicted then Emptied(lines[p], tick, Later(tick)) else lines[p])
    }

    /** The given lines allow every candidate to be written back from its place, once. */
    ghost predicate AllPlaced(lines: Lines, cells: imap<Loc, Option<Loc>>)
      requires Shaped() && forall p :: p in lines <==> g.InRange(p)
    {
      && Apart(cells)
      && forall at :: at in cells && cells[at].Some? ==>
           var p := cells[at].value;
           g.InRange(p) && (lines[p].valid && lines[p].dirty ==> g.Row(lines[p].tag) == at.row)
    }

    /** One step of evictCache's loops. */
    method EvictNext(row: nat, col: nat, tick: nat, ghost evicted: set<Loc>, ghost pending: set<Loc>,
                     ghost lines: Lines, ghost cells: imap<Loc, Option<Loc>>, ghost f: map<(nat, nat), int>)
      returns (ghost more: set<Loc>)
      requires Shaped() && row < g.units && col < g.parallel
      requires EvictedUpTo(row, col, tick, evicted, pending, lines, cells, f) && AllPlaced(lines, cells)
      modifies this`ftl, cacheData, evictData
      ensures EvictedUpTo(row, col + 1, tick, more, pending, lines, cells, f)
    {
      hide EvictedTo, Agrees, Spilled;
      ghost var linesNow, cellsNow := Snap(), Cells();
      assert cellsNow[Loc(row, col)] == evictData[row, col];
      if evictData[row, col] != None {
        ghost var p := evictData[row, col].value;
        Unpassed(row, col, tick, evicted, lines, cells, linesNow, cellsNow);
        assert linesNow[p] == cacheData[p.row, p.way];
        SpilledMore(g, lines, evicted, p, f, ftl);
        EvictCell(row, col, tick, pending - evicted);
        more := evicted + {p};
        assert pending - evicted - {p} == pending - more;
        assert Cells() == cellsNow[Loc(row, col) := None];
        NextEvicted(row, col, tick, evicted, lines, cells, linesNow, cellsNow, p);
      } else {
        more := evicted;
        NextSkipped(row, col, tick, evicted, lines, cells, linesNow, cellsNow);
      }
    }

    lemma Unpassed(row: nat, col: nat, tick: nat, evicted: set<Loc>, lines: Lines, cells: imap<Loc, Option<Loc>>,
                   linesNow: Lines, cellsNow: imap<Loc, Option<Loc>>)
      requires Shaped() && EvictedTo(row, col, tick, evicted, lines, cells, linesNow, cellsNow)
      requires Loc(row, col) in cellsNow && cellsNow[Loc(row, col)].Some? && AllPlaced(lines, cells)
      ensures var p := cellsNow[Loc(row, col)].value;
        && Loc(row, col) in cells && cells[Loc(row, col)] == Some(p) && g.InRange(p) && p !in evicted
        && linesNow.Keys == lines.Keys && linesNow[p] == lines[p]
        && (linesNow[p].valid && linesNow[p].dirty ==> g.Row(linesNow[p].tag) == row)
    {
      hide Shape.Row, Emptied;
    }

    lemma NextSkipped(row: nat, col: nat, tick: nat, evicted: set<Loc>, lines: Lines, cells: imap<Loc, Option<Loc>>,
                      linesNow: Lines, cellsNow: imap<Loc, Option<Loc>>)
      requires EvictedTo(row, col, tick, evicted, lines, cells, linesNow, cellsNow)
      requires Loc(row, col) in cellsNow && cellsNow[Loc(row, col)] == None
      ensures EvictedTo(row, col + 1, tick, evicted, lines, cells, linesNow, cellsNow)
    {
      hide Emptied;
    }

    lemma NextEvicted(row: nat, col: nat, tick: nat, evicted: set<Loc>, lines: Lines, cells: imap<Loc, Option<Loc>>,
                      linesNow: Lines, cellsNow: imap<Loc, Option<Loc>>, p: Loc)
      requires EvictedTo(row, col, tick, evicted, lines, cells, linesNow, cellsNow)
      requires Loc(row, col) in cells && cells[Loc(row, col)] == Some(p) && p in linesNow && p !in evicted
      ensures EvictedTo(row, col + 1, tick, evicted + {p}, lines, cells,
                        linesNow[p := Emptied(lines[p], tick, Later(tick))], cellsNow[Loc(row, col) := None])
    {
      hide Emptied;
    }

    lemma RowDone(row: nat, tick: nat, evicted: set<Loc>, pending: set<Loc>, lines: Lines,
                  cells: imap<Loc, Option<Loc>>, f: map<(nat, nat), int>)
      requires Shaped() && EvictedUpTo(row, g.parallel, tick, evicted, pending, lines, cells, f)
      ensures EvictedUpTo(row + 1, 0, tick, evicted, pending, lines, cells, f)
    {
      hide Agrees, Spilled, Emptied;
      assert forall at :: at in cells ==>
        (Passed(at.row, at.way, row, g.parallel) <==> Passed(at.row, at.way, row + 1, 0));
    }

    lemma AllEvicted(tick: nat, evicted: set<Loc>, pending: set<Loc>, lines: Lines, cells: imap<Loc, Option<Loc>>,
                     f: map<(nat, nat), int>)
      requires Shaped() && EvictedUpTo(g.units, 0, tick, evicted, pending, lines, cells, f)
      ensures NoCandidates() && Agrees(g, Snap(), pending - evicted, ftl, mem) && Spilled(g, lines, evicted, f, ftl)
      ensures forall p :: p in evicted <==> exists at :: at in cells && cells[at] == Some(p)
      ensures forall p :: g.InRange(p) ==>
                p in lines && Snap()[p] == if p in evicted then Emptied(lines[p], tick, Later(tick)) else lines[p]
    {
      hide Agrees, Spilled, Emptied;
      forall r, c | 0 <= r < g.units && 0 <= c < g.parallel
        ensures evictData[r, c] == None
      {
        assert Cells()[Loc(r, c)] == evictData[r, c];
      }
    }

    /** evictCache: every candidate is written back if dirty, and emptied; nothing else changes, and the logical
        contents stay what they were. */
    method EvictCache(tick: nat, ghost pending: set<Loc>) returns (ghost evicted: set<Loc>)
      requires Shaped() && Agrees(g, Snap(), pending, ftl, mem) && AllPlaced(Snap(), Cells())
      modifies this`ftl, cacheData, evictData
      ensures NoCandidates() && Agrees(g, Snap(), pending - evicted, ftl, mem)
      ensures forall p :: p in evicted <==> exists at :: at in old(Cells()) && old(Cells())[at] == Some(p)
      ensures forall p :: g.InRange(p) ==>
                Snap()[p] == if p in evicted then Emptied(old(Snap())[p], tick, Later(tick)) else old(Snap())[p]
      ensures Spilled(g, old(Snap()), evicted, old(ftl), ftl)
    {
      hide EvictedUpTo, Agrees, Spilled, AllPlaced;
      ghost var lines, cells, f := Snap(), Cells(), ftl;
      evicted := {};
      NoneEvicted(tick, pending);
      var row := 0;
      while row < g.units
        invariant row <= g.units && EvictedUpTo(row, 0, tick, evicted, pending, lines, cells, f)
      {
        var col := 0;
        while col < g.parallel
          invariant col <= g.parallel && EvictedUpTo(row, col, tick, evicted, pending, lines, cells, f)
        {
          evicted := EvictNext(row, col, tick, evicted, pending, lines, cells, f);
          col := col + 1;
        }
        RowDone(row, tick, evicted, pending, lines, cells, f);
        row := row + 1;
      }
      AllEvicted(tick, evicted, pending, lines, cells, f);
    }

    lemma NoneEvicted(tick: nat, pending: set<Loc>)
      requires Shaped() && Agrees(g, Snap(), pending, ftl, mem)
      ensures EvictedUpTo(0, 0, tick, {}, pending, Snap(), Cells(), ftl)
    {
      hide Agrees, Emptied;
      assert pending - {} == pending;
    }

    /** Every I/O position's entry is what the policy evicts from it among the lines scanned so far. */
    ghost predicate Candidates(set_: int, way: int)
      requires Shaped()
      reads cacheData, evictData
    {
      forall r, c :: 0 <= r < g.units && 0 <= c < g.parallel ==>
        Best(g, policy, Snap(), evictData[r, c], r, c, c + 1, set_, way)
    }

    /** The scan of a full cache: one candidate for each I/O position of the stripe. */
    method CollectCandidates()
      requires Shaped() && NoCandidates()
      modifies evictData
      ensures Candidates(g.sets, 0)
    {
      var s := 0;
      while s < g.sets
        invariant s <= g.sets
        invariant Candidates(s, 0)
      {
        var w := 0;
        while w < g.ways
          invariant w <= g.ways
          invariant Candidates(s, w)
        {
          ScanLine(Loc(s, w));
          w := w + 1;
        }
        forall r, c | 0 <= r < g.units && 0 <= c < g.parallel
          ensures Best(g, policy, Snap(), evictData[r, c], r, c, c + 1, s + 1, 0)
        {
          BestNextSet(g, policy, Snap(), evictData[r, c], r, c, c + 1, s);
        }
        s := s + 1;
      }
    }

    method ScanLine(p: Loc)
      requires Shaped() && g.InRange(p) && Candidates(p.row, p.way)
      modifies evictData
      ensures Candidates(p.row, p.way + 1)
    {
      ghost var lines := Snap();
      var l := cacheData[p.row, p.way];
      if l.valid {
        WriteBackAddress(g, l.tag);
        var row, col := g.Row(l.tag), g.Col(l.tag);
        var e := evictData[row, col];
        assert Best(g, policy, lines, e, row, col, col + 1, p.row, p.way);
        var best := Compare(e, Some(p));
        evictData[row, col] := best;
      }
      forall r, c | 0 <= r < g.units && 0 <= c < g.parallel
        ensures Best(g, policy, lines, evictData[r, c], r, c, c + 1, p.row, p.way + 1)
      {
        BestScan(g, policy, lines, old(evictData[r, c]), evictData[r, c], r, c, c + 1, p);
      }
    }

    /** After the super-page fold a row's only entry, in its last column, is the best of the whole row. */
    ghost predicate RowCandidates()
      requires Shaped()
      reads cacheData, evictData
    {
      forall r, c :: 0 <= r < g.units && 0 <= c < g.parallel ==>
        if c < g.parallel - 1 then evictData[r, c] == None
        else Best(g, policy, Snap(), evictData[r, c], r, 0, g.parallel, g.sets, 0)
    }

    method FoldRow(row: nat)
      requires Shaped() && row < g.units
      requires forall c :: 0 <= c < g.parallel ==>
                 Best(g, policy, Snap(), evictData[row, c], row, c, c + 1, g.sets, 0)
      modifies evictData
      ensures forall c :: 0 <= c < g.parallel - 1 ==> evictData[row, c] == None
      ensures Best(g, policy, Snap(), evictData[row, g.parallel - 1], row, 0, g.parallel, g.sets, 0)
      ensures forall r, c :: 0 <= r < g.units && 0 <= c < g.parallel && r != row
                ==> evictData[r, c] == old(evictData[r, c])
    {
      hide Best, Picked;
      var col := 0;
      ghost var lines := Snap();
      while col < g.parallel - 1
        invariant col <= g.parallel - 1
        invariant Snap() == lines
        invariant forall c :: 0 <= c < col ==> evictData[row, c] == None
        invariant Best(g, policy, lines, evictData[row, col], row, 0, col + 1, g.sets, 0)
        invariant forall r, c :: 0 <= r < g.units && 0 <= c < g.parallel && (r != row || col < c) ==>
                    evictData[r, c] == old(evictData[r, c])
      {
        var a, b := evictData[row, col], evictData[row, col + 1];
        assert Best(g, policy, lines, b, row, col + 1, col + 2, g.sets, 0);
        CandidateInRange(lines, a, row, 0, col + 1);
        CandidateInRange(lines, b, row, col + 1, col + 2);
        var best := Compare(a, b);
        BestFold(g, policy, lines, a, b, best, row, 0, col + 1, col + 2, g.sets, 0);
        evictData[row, col + 1] := best;
        evictData[row, col] := None;
        col := col + 1;
      }
    }

    lemma CandidateInRange(lines: Lines, e: Option<Loc>, row: nat, from: int, to: int)
      requires Shaped() && Best(g, policy, lines, e, row, from, to, g.sets, 0)
      requires forall p :: p in lines <==> g.InRange(p)
      ensures e.Some? ==> g.InRange(e.value)
    {
    }

    method FoldSuperPages()
      requires Shaped() && Candidates(g.sets, 0)
      modifies evictData
      ensures RowCandidates()
    {
      hide Best;
      var row := 0;
      while row < g.units
        invariant row <= g.units
        invariant forall r, c :: 0 <= r < row && 0 <= c < g.parallel ==>
                    if c < g.parallel - 1 then evictData[r, c] == None
                    else Best(g, policy, Snap(), evictData[r, c], r, 0, g.parallel, g.sets, 0)
        invariant forall r, c :: row <= r < g.units && 0 <= c < g.parallel ==>
                    Best(g, policy, Snap(), evictData[r, c], r, c, c + 1, g.sets, 0)
      {
        FoldRow(row);
        row := row + 1;
      }
    }

    /** Every candidate is a valid line. */
    ghost predicate Listed()
      requires Shaped()
      reads cacheData, evictData
    {
      forall r, c :: 0 <= r < g.units && 0 <= c < g.parallel && evictData[r, c].Some? ==>
        var p := evictData[r, c].value;
        g.InRange(p) && cacheData[p.row, p.way].valid
    }

    /** Whether some candidate lies in the given set. */
    method HaveCandidateIn(target: nat) returns (have: bool)
      requires Shaped() && Listed() && Agrees(g, Snap(), {}, ftl, mem)
      ensures have <==> exists at :: at in Cells() && Cells()[at].Some? && Cells()[at].value.row == target
    {
      ghost var cells := Cells();
      have := false;
      var row := 0;
      while row < g.units
        invariant row <= g.units
        invariant have <==>
                    exists at :: at in cells && at.row < row && cells[at].Some? && cells[at].value.row == target
      {
        var col := 0;
        while col < g.parallel
          invariant col <= g.parallel
          invariant have <==>
                      exists at :: at in cells && Passed(at.row, at.way, row, col)
                        && cells[at].Some? && cells[at].value.row == target
        {
          assert Loc(row, col) in cells && cells[Loc(row, col)] == evictData[row, col];
          if evictData[row, col].Some? {
            var p := evictData[row, col].value;
            var l := cacheData[p.row, p.way];
            assert Holds(Snap(), {}, p, l.tag);
            if l.tag % g.sets == target {
              have := true;
            }
          }
          col := col + 1;
        }
        row := row + 1;
      }
    }

    /** The policy's first line of a set. */
    method BestOfSet(target: nat) returns (best: Option<Loc>)
      requires Shaped() && target < g.sets
      ensures best.Some? ==>
                && g.InRange(best.value) && Snap()[best.value].valid
                && BestInSet(policy, Snap(), target, best.value)
      ensures best.None? ==> forall w :: 0 <= w < g.ways ==> !cacheData[target, w].valid
    {
      best := None;
      var w := 0;
      while w < g.ways
        invariant w <= g.ways
        invariant best.Some? ==> g.InRange(best.value) && best.value.row == target && Snap()[best.value].valid
        invariant forall v :: 0 <= v < w && cacheData[target, v].valid ==>
                    best.Some? && !Before(policy, cacheData[target, v], Snap()[best.value])
      {
        if cacheData[target, w].valid {
          var old_ := best;
          best := Compare(best, Some(Loc(target, w)));
          forall v | 0 <= v < w && cacheData[target, v].valid
            ensures !Before(policy, cacheData[target, v], Snap()[best.value])
          {
            PolicyIsOrder(policy, cacheData[target, v], Snap()[old_.value], Snap()[best.value]);
          }
        }
        w := w + 1;
      }
    }

    lemma CellsAreBests()
      requires Shaped() && if superPageEviction then RowCandidates() else Candidates(g.sets, 0)
      ensures Bests(g, policy, superPageEviction, Snap(), Cells())
    {
      hide Best;
    }

    lemma BestsAreListed()
      requires Shaped() && Bests(g, policy, superPageEviction, Snap(), Cells())
      ensures Listed()
    {
      forall r, c | 0 <= r < g.units && 0 <= c < g.parallel && evictData[r, c].Some?
        ensures var p := evictData[r, c].value;
          g.InRange(p) && cacheData[p.row, p.way].valid
      {
        assert Cells()[Loc(r, c)] == evictData[r, c];
        BestIsDue(g, policy, superPageEviction, Snap(), Cells(), Loc(r, c));
      }
    }

    /** The scan, the super-page fold and the fallback: the best line of every I/O position, and one in the target
        set. */
    method ListCandidates(target: nat)
      requires Valid() && target < g.sets
      requires forall w :: 0 <= w < g.ways ==> cacheData[target, w].valid
      modifies evictData
      ensures Chosen(g, policy, superPageEviction, Snap(), target, Cells())
    {
      hide Agrees, Bests, Chosen, Candidates, RowCandidates, Before;
      ghost var lines := Snap();
      CollectCandidates();
      if superPageEviction {
        FoldSuperPages();
      }
      CellsAreBests();
      BestsAreListed();
      var have := HaveCandidateIn(target);
      if have {
        BestsSuffice(g, policy, superPageEviction, lines, target, Cells());
      } else {
        var best := BestOfSet(target);
        assert cacheData[target, 0].valid;
        var tag := cacheData[best.value.row, best.value.way].tag;
        WriteBackAddress(g, tag);
        ghost var cells := Cells();
        FallbackSuffices(g, policy, superPageEviction, lines, target, cells, best.value);
        evictData[g.Row(tag), g.Col(tag)] := best;
        assert Cells() == cells[Loc(g.Row(tag), g.Col(tag)) := best];
      }
    }

    /** Making room in a full set: the candidates go out together, and the target set gains an empty way. Every
        emptied line is one the policy lets go, and only dirty ones reach the FTL. */
    method MakeRoom(target: nat, tick: nat) returns (ghost evicted: set<Loc>)
      requires Valid() && target < g.sets
      requires forall w :: 0 <= w < g.ways ==> cacheData[target, w].valid
      modifies this`ftl, cacheData, evictData
      ensures Valid()
      ensures Roomed(g, policy, superPageEviction, old(Snap()), target, evicted, Snap(), tick, Later(tick))
      ensures Spilled(g, old(Snap()), evicted, old(ftl), ftl)
    {
      hide Agrees, Spilled, Chosen, Leaving;
      ListCandidates(target);
      ghost var lines, cells := Snap(), Cells();
      ChosenArePlaced(target);
      evicted := EvictCache(tick, {});
      assert {} - evicted == {};
      ChosenLeave(g, policy, superPageEviction, lines, target, cells, evicted);
    }

    lemma ChosenArePlaced(target: nat)
      requires Shaped() && Chosen(g, policy, superPageEviction, Snap(), target, Cells())
      ensures AllPlaced(Snap(), Cells())
    {
      hide BestInPlace, BestInSet, Covered;
    }

    ghost predicate HasEmptyWay(set_: nat)
      requires Shaped() && set_ < g.sets
      reads cacheData
    {
      exists w :: 0 <= w < g.ways && !cacheData[set_, w].valid
    }

    /** Puts new data into a line; f is what the FTL held before it was handed them too, if it was. */
    method Store(p: Loc, l: Line, ghost f: map<(nat, nat), int>)
      requires Shaped() && NoCandidates() && Agrees(g, Snap(), {}, f, mem) && g.InRange(p)
      requires l.valid && l.tag % g.sets == p.row
      requires Holds(Snap(), {}, p, l.tag) || (!Snap()[p].valid && !Cached(Snap(), {}, l.tag))
      requires forall lca: nat :: lca != l.tag ==> FtlLook(g, ftl, lca) == FtlLook(g, f, lca)
      requires !l.dirty ==> FtlLook(g, ftl, l.tag) == l.data
      modifies cacheData, this`mem
      ensures Valid() && mem == old(mem)[l.tag := l.data] && Snap() == old(Snap())[p := l]
    {
      hide Agrees, FtlLook, Cached;
      StoreKeeps(g, Snap(), f, ftl, mem, p, l);
      SetLine(p, l);
      mem := mem[l.tag := l.data];
    }

    /** True on a hit, and on a miss that found an empty way. Afterwards a host reads the new data at lca and what
        it read before everywhere else; the panic "Cache corrupted!" cannot happen. The data is in line p, the one that
        held lca or else the longest-empty one of the set; what p was chosen from is `room`, the lines as they were,
        or with the lines `evicted` emptied when the set was full. The line is dirty, and the FTL is not written, when
        the data fits a line; otherwise the FTL has the data too. */
    method Write(lca: nat, length: nat, data: int, tick: nat)
      returns (ret: bool, ghost p: Loc, ghost room: Lines, ghost evicted: set<Loc>)
      requires Valid()
      modifies this, cacheData, evictData
      ensures Valid() && mem == old(mem)[lca := data]
      ensures ret <==> old(Cached(Snap(), {}, lca)) || old(HasEmptyWay(lca % g.sets))
      ensures g.InRange(p) && p.row == lca % g.sets && (forall q :: q in room <==> g.InRange(q))
      ensures if old(Cached(Snap(), {}, lca)) then Holds(room, {}, p, lca)
              else LongestEmpty(SetOf(g, room, p.row), p.way)
      ensures var small := length <= lineSize;
        var at := if ret && small then Max(tick, room[p].insertedAt) else Later(tick);
        Snap() == room[p := Line(lca, at, at, small || !ret, true, if ret then room[p].accessCount + 1 else 1, data)]
      ensures var f := if length <= lineSize then old(ftl) else old(ftl)[(lca / g.units, lca % g.units) := data];
        if ret then room == old(Snap()) && ftl == f
        else
          && Roomed(g, policy, superPageEviction, old(Snap()), p.row, evicted, room, Later(tick), Later(Later(tick)))
          && Spilled(g, old(Snap()), evicted, f, ftl)
      ensures unchanged(`readDetectEnabled) && unchanged(`prefetchTrigger) && unchanged(`lastPrefetched)
    {
      hide Agrees, FtlLook, Cached, Roomed, Spilled, LongestEmpty, Holds, SetOf, HasEmptyWay;
      ret, evicted, room := false, {}, Snap();
      var dirty := length <= lineSize;
      var now, flash := tick, tick;
      ghost var f := ftl;
      if !dirty {
        ftl := ftl[(lca / g.units, lca % g.units) := data];
        flash := Later(tick);
      }
      WrittenThrough(f, lca, data);
      var set_ := lca % g.sets;
      var way := GetValidWay(lca);
      if way < g.ways {
        p := Loc(set_, way);
        var l := cacheData[set_, way];
        now := Max(now, l.insertedAt);
        var at := if dirty then now else flash;
        l := l.(insertedAt := at, lastAccessed := at, dirty := dirty, accessCount := l.accessCount + 1, data := data);
        HeldIsCached(p, lca);
        Store(Loc(set_, way), l, f);
        return true, p, room, evicted;
      }
      NotCached(lca, {}, f);
      way := GetEmptyWay(set_);
      if way < g.ways {
        p := Loc(set_, way);
        var l := cacheData[set_, way];
        now := Max(now, l.insertedAt);
        var at := if dirty then now else flash;
        l := Line(lca, at, at, dirty, true, l.accessCount + 1, data);
        assert !l.dirty ==> FtlLook(g, ftl, l.tag) == l.data;
        IsEmptyWay(set_, way);
        Store(Loc(set_, way), l, f);
        return true, p, room, evicted;
      }
      NoEmptyWay(set_);
      if !dirty {
        WriteThroughKeeps(g, Snap(), f, ftl, mem, lca, data);
        mem := mem[lca := data];
      }
      ghost var lines := Snap();
      evicted := MakeRoom(set_, Later(now));
      RoomedHasRoom(g, policy, superPageEviction, lines, set_, evicted, Snap(), Later(now), Later(Later(now)), lca);
      way := GetEmptyWay(set_);
      if way == g.ways {
        assert false;  // panic("Cache corrupted!")
      }
      p, room := Loc(set_, way), Snap();
      IsEmptyWay(set_, way);
      now := Later(now);
      var l := Line(lca, now, now, true, true, 1, data);
      Store(Loc(set_, way), l, ftl);
    }

    lemma WrittenThrough(f: map<(nat, nat), int>, lca: nat, data: int)
      requires Shaped()
      ensures forall x: nat :: FtlLook(g, f[(lca / g.units, lca % g.units) := data], x) ==
                               if x == lca then data else FtlLook(g, f, x)
    {
      forall x: nat
        ensures FtlLook(g, f[(lca / g.units, lca % g.units) := data], x) == if x == lca then data else FtlLook(g, f, x)
      {
        FtlStored(g, f, lca, data, x);
      }
    }

    lemma NoEmptyWay(set_: nat)
      requires Shaped() && set_ < g.sets && forall w :: 0 <= w < g.ways ==> cacheData[set_, w].valid
      ensures !HasEmptyWay(set_)
    {
    }

    lemma HeldIsCached(p: Loc, lca: nat)
      requires Shaped() && g.InRange(p) && cacheData[p.row, p.way].valid && cacheData[p.row, p.way].tag == lca
      ensures Holds(Snap(), {}, p, lca) && Cached(Snap(), {}, lca)
    {
      assert Snap()[p] == cacheData[p.row, p.way];
      assert Holds(Snap(), {}, p, lca);
    }

    lemma IsEmptyWay(set_: nat, way: nat)
      requires Shaped() && set_ < g.sets && LongestEmpty(SetOf(g, Snap(), set_), way)
      ensures way < g.ways && !cacheData[set_, way].valid && !Snap()[Loc(set_, way)].valid && HasEmptyWay(set_)
    {
    }

    lemma NotCached(lca: nat, pending: set<Loc>, f: map<(nat, nat), int>)
      requires Shaped() && Agrees(g, Snap(), pending, f, mem)
      requires forall w :: 0 <= w < g.ways ==>
                 !(cacheData[lca % g.sets, w].valid && cacheData[lca % g.sets, w].tag == lca)
      ensures !Cached(Snap(), pending, lca)
    {
      forall p: Loc
        ensures !Holds(Snap(), pending, p, lca)
      {
      }
    }

    // ---- read ------------------------------------------------------------------------------

    ghost predicate Queued(list: seq<(nat, Loc)>, from: nat, pending: set<Loc>)
      requires Shaped()
      reads cacheData
    {
      QueuedOn(g, Snap(), list, from, pending)
    }

    /** Evicts one line by itself. */
    method EvictOne(p: Loc, tick: nat, ghost pending: set<Loc>)
      requires Shaped() && NoCandidates() && Agrees(g, Snap(), pending, ftl, mem) && g.InRange(p)
      modifies this`ftl, cacheData, evictData
      ensures NoCandidates() && Agrees(g, Snap(), pending - {p}, ftl, mem)
      ensures Snap() == old(Snap())[p := Emptied(old(Snap())[p], tick, Later(tick))]
      ensures Spilled(g, old(Snap()), {p}, old(ftl), ftl)
    {
      hide Agrees, Shape.Row, Shape.Col, Spilled, Emptied, AllPlaced;
      var tag := cacheData[p.row, p.way].tag;
      WriteBackAddress(g, tag);
      evictData[g.Row(tag), g.Col(tag)] := Some(p);
      ghost var cells := Cells();
      assert cells[Loc(g.Row(tag), g.Col(tag))] == Some(p);
      OnePlaced(p, Loc(g.Row(tag), g.Col(tag)));
      ghost var evicted := EvictCache(tick, pending);
      assert evicted == {p};
    }

    lemma OnePlaced(p: Loc, at: Loc)
      requires Shaped() && g.InRange(p) && at in Cells() && Cells()[at] == Some(p)
      requires g.Row(cacheData[p.row, p.way].tag) == at.row
      requires forall b :: b in Cells() && b != at ==> Cells()[b] == None
      ensures AllPlaced(Snap(), Cells())
    {
      hide Shape.Row;
    }

    /** An empty line of the set, after evicting the policy's choice if there was none. */
    method ClaimLine(set_: nat, tick: nat, ghost pending: set<Loc>) returns (p: Loc, ghost still: set<Loc>)
      requires Shaped() && NoCandidates() && Agrees(g, Snap(), pending, ftl, mem) && set_ < g.sets
      modifies this`ftl, cacheData, evictData
      ensures p.row == set_ && ClaimsLine(g, policy, old(Snap()), p) && g.InRange(p) && !Snap()[p].valid
      ensures NoCandidates() && still == pending - {p} && Agrees(g, Snap(), still, ftl, mem)
      ensures SameBut(old(Snap()), Snap(), {p}) && Spilled(g, old(Snap()), {p}, old(ftl), ftl)
    {
      hide Agrees, Evicts, LongestEmpty, FtlLook;
      ReservedInUse(pending);
      still := pending;
      ghost var lines := SetOf(g, Snap(), set_);
      assert forall w :: 0 <= w < g.ways ==> lines[w] == cacheData[set_, w];
      var way := GetEmptyWay(set_);
      if way == g.ways {
        way := EvictFunction(set_);
        PickedInRange(lines, way);
        p := Loc(set_, way);
        EvictOne(p, tick, pending);
        still := pending - {p};
      } else {
        IsEmptyWay(set_, way);
        p := Loc(set_, way);
        assert p !in pending;
        assert pending - {p} == pending;
      }
    }

    lemma PickedInRange(lines: seq<Line>, way: nat)
      requires Evicts(policy, lines, way)
      ensures way < |lines|
    {
    }

    lemma ReservedInUse(pending: set<Loc>)
      requires Shaped() && Agrees(g, Snap(), pending, ftl, mem)
      ensures forall p :: p in pending ==> g.InRange(p) && Snap()[p].valid
    {
    }

    lemma QueuedMore(list: seq<(nat, Loc)>, pending: set<Loc>, before: Lines, was: set<Loc>, lca: nat, p: Loc)
      requires Shaped() && g.InRange(p) && lca % g.sets == p.row
      requires pending == was - {p} + {p}
      requires forall q :: q in before <==> g.InRange(q)
      requires forall q :: g.InRange(q) && q != p ==> Snap()[q] == before[q]
      requires Snap()[p].valid && !Snap()[p].dirty
      requires QueuedOn(g, before, list, 0, was)
      requires forall i :: 0 <= i < |list| ==> list[i].0 < lca
      requires !Cached(before, was, lca)
      ensures Queued(list + [(lca, p)], 0, pending)
    {
      var more := list + [(lca, p)];
      assert forall q, x: nat :: Holds(Snap(), pending, q, x) ==> Holds(before, was, q, x);
      forall q | q in pending
        ensures exists i :: 0 <= i < |more| && more[i].1 == q
      {
        if q == p {
          assert more[|list|].1 == p;
        } else {
          var i :| 0 <= i < |list| && list[i].1 == q;
          assert more[i].1 == q;
        }
      }
    }

    /** The first loop of a read miss for one address: skip it if it is there, else reserve a line for it. The
        line may even be one that was reserved for an earlier address a moment ago. */
    method ReserveLine(lca: nat, tick: nat, list: seq<(nat, Loc)>, ghost pending: set<Loc>)
      returns (more: seq<(nat, Loc)>, ghost still: set<Loc>)
      requires Shaped() && NoCandidates() && Agrees(g, Snap(), pending, ftl, mem)
      requires Queued(list, 0, pending)
      requires forall i :: 0 <= i < |list| ==> list[i].0 < lca
      modifies this`ftl, cacheData, evictData
      ensures NoCandidates() && Agrees(g, Snap(), still, ftl, mem) && Queued(more, 0, still)
      ensures if old(Found(g, Snap(), lca)) then more == list && Snap() == old(Snap()) && ftl == old(ftl)
              else
                && |more| == |list| + 1
                && var p := more[|list|].1;
                && more == list + [(lca, p)] && g.InRange(p) && p.row == lca % g.sets
                && ClaimsLine(g, policy, old(Snap()), p)
                && SameBut(old(Snap()), Snap(), {p}) && Spilled(g, old(Snap()), {p}, old(ftl), ftl)
      ensures pending == {} && !old(Cached(Snap(), {}, lca)) ==> !old(Found(g, Snap(), lca))
    {
      hide Agrees, QueuedOn, Cached, ClaimsLine, Spilled, Found;
      more, still := list, pending;
      var way := GetValidWay(lca);
      if way != g.ways {
        WayFound(lca, way);
        FoundIsCached(lca, pending);
        return;
      }
      NotCached(lca, pending, ftl);
      NotFound(lca);
      ghost var lines := Snap();
      var p: Loc;
      p, still := ClaimLine(lca % g.sets, tick, pending);
      var now := Later(tick);
      var l := cacheData[p.row, p.way].(insertedAt := now, lastAccessed := now, valid := true, dirty := false);
      ReserveKeeps(g, Snap(), still, ftl, mem, p, l);
      SetLine(p, l);
      still := still + {p};
      more := list + [(lca, p)];
      QueuedMore(list, still, lines, pending, lca, p);
    }

    lemma WayFound(lca: nat, way: nat)
      requires Shaped() && way < g.ways && cacheData[lca % g.sets, way].valid && cacheData[lca % g.sets, way].tag == lca
      ensures Found(g, Snap(), lca)
    {
      assert Snap()[Loc(lca % g.sets, way)] == cacheData[lca % g.sets, way];
    }

    lemma NotFound(lca: nat)
      requires Shaped()
      requires forall w :: 0 <= w < g.ways ==>
                 !(cacheData[lca % g.sets, w].valid && cacheData[lca % g.sets, w].tag == lca)
      ensures !Found(g, Snap(), lca)
    {
    }

    lemma FoundIsCached(lca: nat, pending: set<Loc>)
      requires Shaped() && Found(g, Snap(), lca)
      ensures pending == {} ==> Cached(Snap(), {}, lca)
    {
      var p :| g.InRange(p) && p.row == lca % g.sets && Snap()[p].valid && Snap()[p].tag == lca;
      assert Holds(Snap(), {}, p, lca);
    }

    /** The second loop of a read miss for one queued read: fetch the data and label the line. */
    method FillLine(list: seq<(nat, Loc)>, i: nat, tick: nat, ghost pending: set<Loc>) returns (data: int)
      requires Shaped() && Agrees(g, Snap(), pending, ftl, mem)
      requires Queued(list, i, pending) && i < |list|
      modifies cacheData
      ensures Agrees(g, Snap(), pending - {list[i].1}, ftl, mem)
      ensures Queued(list, i + 1, pending - {list[i].1})
      ensures data == Look(mem, list[i].0)
      ensures var at := Later(tick);
        g.InRange(list[i].1) &&
        Snap() == old(Snap())[list[i].1 := Line(list[i].0, at, at, false, true, 1, Look(mem, list[i].0))]
    {
      var (lca, p) := list[i];
      data := if (lca / g.units, lca % g.units) in ftl then ftl[(lca / g.units, lca % g.units)] else 0;
      var at := Later(tick);
      var l := cacheData[p.row, p.way].(insertedAt := at, lastAccessed := at, tag := lca, valid := true,
                                        accessCount := 1, data := data);
      FillKeeps(g, Snap(), pending, ftl, mem, p, l);
      SetLine(p, l);
      forall q | q in pending - {p}
        ensures exists j :: i + 1 <= j < |list| && list[j].1 == q
      {
        var j :| i <= j < |list| && list[j].1 == q;
      }
    }

    /** The first loop: a line for every address from begin to end that is not there. */
    method ReserveLines(begin: nat, end: nat, tick: nat) returns (list: seq<(nat, Loc)>, ghost pending: set<Loc>)
      requires Valid() && begin < end
      modifies this`ftl, cacheData, evictData
      ensures NoCandidates() && Agrees(g, Snap(), pending, ftl, mem) && Queued(list, 0, pending)
      ensures !old(Cached(Snap(), {}, begin)) ==> |list| > 0 && list[0].0 == begin
      ensures ReservedTo(g, policy, old(Snap()), Snap(), list, begin, end, old(ftl), ftl)
    {
      hide Agrees, QueuedOn, Cached, ReservedTo, ClaimsLine, Spilled, SameBut, Found;
      ghost var lines, f := Snap(), ftl;
      list, pending := [], {};
      assert Queued(list, 0, pending) by {
        NothingQueued();
      }
      NothingReserved(g, policy, lines, begin, f);
      var lca := begin;
      while lca < end
        invariant begin <= lca <= end
        invariant NoCandidates() && Agrees(g, Snap(), pending, ftl, mem) && Queued(list, 0, pending)
        invariant ReservedTo(g, policy, lines, Snap(), list, begin, lca, f, ftl)
        invariant lca == begin ==> list == [] && pending == {} && Snap() == lines
        invariant lca > begin && !Cached(lines, {}, begin) ==> |list| > 0 && list[0].0 == begin
      {
        ghost var was, now, f1 := list, Snap(), ftl;
        ReservedBefore(lines, list, begin, lca, f);
        ghost var found := Found(g, Snap(), lca);
        QueuedClean(list, pending);
        list, pending := ReserveLine(lca, tick, list, pending);
        if found {
          ReservedSkip(g, policy, lines, now, was, begin, lca, f, f1);
        } else {
          ReservedMore(g, policy, lines, now, Snap(), was, begin, lca, list[|was|].1, f, f1, ftl, mem);
        }
        lca := lca + 1;
      }
    }

    lemma ReservedBefore(lines: Lines, list: seq<(nat, Loc)>, begin: nat, lca: nat, f: map<(nat, nat), int>)
      requires Shaped() && ReservedTo(g, policy, lines, Snap(), list, begin, lca, f, ftl)
      ensures forall i :: 0 <= i < |list| ==> list[i].0 < lca
    {
      hide RightQueue, Spilled;
    }

    lemma QueuedClean(list: seq<(nat, Loc)>, pending: set<Loc>)
      requires Shaped() && Queued(list, 0, pending)
      ensures forall p :: p in Targets(list) ==> p in Snap() && !Snap()[p].dirty
    {
    }

    lemma NothingQueued()
      requires Shaped()
      ensures Queued([], 0, {})
    {
    }

    lemma AllFilled(list: seq<(nat, Loc)>, pending: set<Loc>)
      requires Shaped() && Queued(list, |list|, pending)
      ensures pending == {}
    {
    }

    /** The second loop: every queued read is served. */
    method FillLines(list: seq<(nat, Loc)>, begin: nat, tick: nat, ghost reserved: set<Loc>) returns (data: int)
      requires Shaped() && NoCandidates() && Agrees(g, Snap(), reserved, ftl, mem) && Queued(list, 0, reserved)
      modifies cacheData
      ensures Valid()
      ensures |list| > 0 && list[0].0 == begin ==> data == Look(mem, begin)
      ensures FilledTo(old(Snap()), Snap(), list, |list|, Later(tick), mem)
    {
      hide Agrees, QueuedOn, FilledTo;
      ghost var lines := Snap();
      data := 0;
      ghost var pending := reserved;
      NoneFilled(lines, list, Later(tick), mem);
      var i := 0;
      while i < |list|
        invariant i <= |list|
        invariant NoCandidates() && Agrees(g, Snap(), pending, ftl, mem) && Queued(list, i, pending)
        invariant i > 0 && list[0].0 == begin ==> data == Look(mem, begin)
        invariant FilledTo(lines, Snap(), list, i, Later(tick), mem)
      {
        ghost var now := Snap();
        var d := FillLine(list, i, tick, pending);
        FilledMore(lines, now, list, i, Later(tick), mem);
        if list[i].0 == begin {
          data := d;
        }
        pending := pending - {list[i].1};
        i := i + 1;
      }
      AllFilled(list, pending);
    }

    /** How far a read-ahead reaches. */
    function Span(): (r: nat)
      requires g.Sane()
      ensures 0 < r
    {
      MulMonotone(1, g.parallel, g.units);
      if wholeStripe then g.parallel * g.units else g.units
    }

    /** Reading from `begin` on, a whole stripe or just that address: reserve, evict, fetch. Nothing a host can read
        changes, an address that was not cached is fetched with the value a host must see, and CacheReads.FetchedAll
        and FetchedOne say what is cached afterwards. Only dirty lines that had to go reach the FTL. */
    method ReadAhead(begin: nat, tick: nat) returns (data: int, ghost list: seq<(nat, Loc)>)
      requires Valid()
      modifies this`ftl, this`prefetchTrigger, this`lastPrefetched, cacheData, evictData
      ensures Valid()
      ensures !old(Cached(Snap(), {}, begin)) ==> data == Look(mem, begin)
      ensures Fetched(g, policy, old(Snap()), Snap(), list, begin, begin + if readDetectEnabled then Span() else 1,
                      Later(tick), mem)
      ensures Spilled(g, old(Snap()), Targets(list), old(ftl), ftl)
      ensures if readDetectEnabled
              then prefetchTrigger == Some(begin + Span() / 2) && lastPrefetched == begin + Span()
              else unchanged(`prefetchTrigger) && unchanged(`lastPrefetched)
    {
      hide Agrees, QueuedOn, Cached, ReservedTo, FilledTo, Spilled, Span, AllPlaced, Fetched, Targets, Emptied;
      ghost var lines, f := Snap(), ftl;
      var end := begin + 1;
      if readDetectEnabled {
        var span := if wholeStripe then g.parallel * g.units else g.units;
        SpanIs(span);
        end := begin + span;
        prefetchTrigger := Some(begin + span / 2);
        lastPrefetched := end;
      }
      var queue: seq<(nat, Loc)>;
      ghost var pending: set<Loc>;
      queue, pending := ReserveLines(begin, end, tick);
      list := queue;
      ghost var mid, f1 := Snap(), ftl;
      EvictLeftover(Later(tick), pending);
      assert Queued(queue, 0, pending);
      ReservedSpilled(lines, mid, list, begin, end, f, f1);
      SpilledNothing(g, lines, mid, Targets(list), f, f1, ftl);
      data := FillLines(queue, begin, tick, pending);
      ReservedThenFilled(g, policy, lines, mid, Snap(), list, begin, end, Later(tick), mem, f, f1);
    }

    lemma ReservedSpilled(lines: Lines, mid: Lines, list: seq<(nat, Loc)>, begin: nat, end: nat,
                          f: map<(nat, nat), int>, f1: map<(nat, nat), int>)
      requires g.Sane() && ReservedTo(g, policy, lines, mid, list, begin, end, f, f1)
      ensures Spilled(g, lines, Targets(list), f, f1)
    {
      hide RightQueue, InOrder;
    }

    lemma SpanIs(span: nat)
      requires g.Sane() && span == if wholeStripe then g.parallel * g.units else g.units
      ensures span == Span() && 0 < span
    {
    }

    /** By the time the second loop starts there is no candidate left. */
    method EvictLeftover(tick: nat, ghost pending: set<Loc>)
      requires Shaped() && NoCandidates() && Agrees(g, Snap(), pending, ftl, mem)
      modifies this`ftl, cacheData, evictData
      ensures Snap() == old(Snap()) && NoCandidates() && Agrees(g, Snap(), pending, ftl, mem)
      ensures Spilled(g, old(Snap()), {}, old(ftl), ftl)
    {
      hide Agrees, Spilled, AllPlaced, Emptied;
      NonePlaced();
      ghost var none := EvictCache(tick, pending);
      assert none == {};
      assert pending - none == pending;
    }

    lemma NonePlaced()
      requires Shaped() && NoCandidates()
      ensures AllPlaced(Snap(), Cells()) && forall at :: at in Cells() ==> Cells()[at] == None
    {
    }

    /** A read returns what a host must see at lca and leaves every logical address as it was, through any number
        of evictions and however far it reads ahead. It is a hit exactly when lca was cached. A hit touches the line
        p that holds lca and, unless it triggers a prefetch, nothing else. A miss puts lca into line p, the one its set
        offers, and nothing else unless it reads ahead; then every address of the stripe is cached afterwards, if the
        stripe is no longer than the number of sets. */
    method Read(lca: nat, sequential: bool, tick: nat)
      returns (hit: bool, data: int, ghost p: Loc, ghost touched: Lines, ghost list: seq<(nat, Loc)>)
      requires Valid()
      modifies this, cacheData, evictData
      ensures Valid() && mem == old(mem)
      ensures data == Look(mem, lca)
      ensures hit <==> old(Cached(Snap(), {}, lca))
      ensures readDetectEnabled == if useReadPrefetch then sequential else old(readDetectEnabled)
      ensures g.InRange(p) && p.row == lca % g.sets && touched.Keys == old(Snap()).Keys
      ensures hit ==>
                && Holds(old(Snap()), {}, p, lca)
                && var l := old(Snap())[p];
                   touched == old(Snap())[p := l.(lastAccessed := Max(tick, l.insertedAt),
                                                  accessCount := l.accessCount + 1)]
      ensures hit && !(useReadPrefetch && old(prefetchTrigger) == Some(lca)) ==>
                && Snap() == touched && ftl == old(ftl)
                && unchanged(`prefetchTrigger) && unchanged(`lastPrefetched)
      ensures !hit ==> touched == old(Snap())
      ensures !hit && !readDetectEnabled ==>
                && ClaimsLine(g, policy, old(Snap()), p)
                && Snap() == old(Snap())[p := Line(lca, Later(tick), Later(tick), false, true, 1, Look(mem, lca))]
                && Spilled(g, old(Snap()), {p}, old(ftl), ftl)
      ensures !hit && readDetectEnabled && Span() <= g.sets ==>
                forall x: nat :: lca <= x < lca + Span() ==>
                  && Cached(Snap(), {}, x)
                  && (old(Cached(Snap(), {}, x)) || exists q :: Holds(Snap(), {}, q, x) && !Snap()[q].dirty)
      ensures var fetched := !hit || (useReadPrefetch && old(prefetchTrigger) == Some(lca));
        var begin := if hit then old(lastPrefetched) else lca;
        var span := if readDetectEnabled then Span() else 1;
        fetched ==>
          && Fetched(g, policy, touched, Snap(), list, begin, begin + span, Later(tick), mem)
          && Spilled(g, touched, Targets(list), old(ftl), ftl)
          && (if readDetectEnabled then prefetchTrigger == Some(begin + span / 2) && lastPrefetched == begin + span
              else unchanged(`prefetchTrigger) && unchanged(`lastPrefetched))
    {
      hide Agrees, Cached, Fetched, Spilled, ClaimsLine, Targets, Span;
      if useReadPrefetch {
        readDetectEnabled := sequential;
      }
      p, touched, list := Loc(lca % g.sets, 0), Snap(), [];
      ghost var f := ftl;
      var way := GetValidWay(lca);
      if way == g.ways {
        NotCached(lca, {}, ftl);
        data, list := ReadAhead(lca, tick);
        hit := false;
        if readDetectEnabled {
          AllFetched(touched, list, lca, tick, f);
        } else {
          p := JustFetched(touched, list, lca, tick, f);
        }
        return;
      }
      hit := true;
      p := Loc(lca % g.sets, way);
      var l := cacheData[lca % g.sets, way];
      HeldIsCached(p, lca);
      data := l.data;
      HeldData(p, lca);
      var now := Max(tick, l.insertedAt);
      l := l.(lastAccessed := now, accessCount := l.accessCount + 1);
      TouchKeeps(g, Snap(), ftl, mem, p, l);
      SetLine(Loc(lca % g.sets, way), l);
      touched := Snap();
      if useReadPrefetch && prefetchTrigger == Some(lca) {
        var ahead;
        ahead, list := ReadAhead(lastPrefetched, tick);
      }
    }

    lemma HeldData(p: Loc, lca: nat)
      requires Valid() && g.InRange(p) && Holds(Snap(), {}, p, lca)
      ensures cacheData[p.row, p.way].data == Look(mem, lca)
    {
      assert Snap()[p] == cacheData[p.row, p.way];
    }

    lemma AllFetched(before: Lines, list: seq<(nat, Loc)>, lca: nat, tick: nat, f: map<(nat, nat), int>)
      requires Shaped() && Agrees(g, before, {}, f, mem)
      requires Fetched(g, policy, before, Snap(), list, lca, lca + Span(), Later(tick), mem)
      ensures Span() <= g.sets ==> forall x: nat :: lca <= x < lca + Span() ==>
                && Cached(Snap(), {}, x)
                && (Cached(before, {}, x) || exists q :: Holds(Snap(), {}, q, x) && !Snap()[q].dirty)
    {
      hide Agrees, Fetched, Span, Cached;
      forall x: nat | Span() <= g.sets && lca <= x < lca + Span()
        ensures Cached(Snap(), {}, x)
        ensures Cached(before, {}, x) || exists q :: Holds(Snap(), {}, q, x) && !Snap()[q].dirty
      {
        FetchedAll(g, policy, before, Snap(), list, lca, lca + Span(), Later(tick), mem, f, x);
      }
    }

    lemma JustFetched(before: Lines, list: seq<(nat, Loc)>, lca: nat, tick: nat, f: map<(nat, nat), int>)
      returns (p: Loc)
      requires Shaped() && !Cached(before, {}, lca)
      requires Fetched(g, policy, before, Snap(), list, lca, lca + 1, Later(tick), mem)
      ensures g.InRange(p) && p.row == lca % g.sets && ClaimsLine(g, policy, before, p) && Targets(list) == {p}
      ensures Snap() == before[p := Line(lca, Later(tick), Later(tick), false, true, 1, Look(mem, lca))]
    {
      hide Fetched, ClaimsLine, Cached;
      FetchedOne(g, policy, before, Snap(), list, lca, Later(tick), mem);
      p := list[0].1;
    }
  }
}
