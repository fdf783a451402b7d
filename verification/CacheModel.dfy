/** The set-associative write-back cache of simplessd/icl/generic_cache.cc as a value: lines, the FTL behind
    them, and what the two together say each logical address holds. */
module CacheModel {
  import opened Helpers

  /** A cache line. The simulator moves no payload; `data` stands for what the line would hold. */
  datatype Line = Line(tag: nat, lastAccessed: nat, insertedAt: nat, dirty: bool, valid: bool, accessCount: nat,
                       data: int)

  /** A pointer into the line array: set (its row) and way. */
  datatype Loc = Loc(row: nat, way: nat)

  datatype Shape = Shape(sets: nat, ways: nat, units: nat, parallel: nat) {
    predicate Sane() {
      0 < sets && 0 < ways && 0 < units && 0 < parallel
    }

    predicate InRange(p: Loc) {
      p.row < sets && p.way < ways
    }

    /** calcIOPosition: lines of a super page make a row, super pages that run in parallel a column. */
    function Row(lca: nat): nat
      requires Sane()
    {
      (lca % (parallel * units)) % units
    }

    function Col(lca: nat): nat
      requires Sane()
    {
      (lca % (parallel * units)) / units
    }
  }

  type Lines = imap<Loc, Line>

  function Look(mem: map<nat, int>, lca: nat): int {
    if lca in mem then mem[lca] else 0
  }

  /** FTL contents are addressed by page number and unit; this is the unit of a logical cache address. */
  function FtlLook(g: Shape, ftl: map<(nat, nat), int>, lca: nat): int
    requires g.Sane()
  {
    var k := (lca / g.units, lca % g.units);
    if k in ftl then ftl[k] else 0
  }

  /** Position p holds lca, and is not merely reserved for a read still to come. */
  ghost predicate Holds(lines: Lines, pending: set<Loc>, p: Loc, lca: nat) {
    p in lines && lines[p].valid && p !in pending && lines[p].tag == lca
  }

  ghost predicate Cached(lines: Lines, pending: set<Loc>, lca: nat) {
    exists p :: Holds(lines, pending, p, lca)
  }

  ghost predicate LinesOk(g: Shape, lines: Lines, pending: set<Loc>, ftl: map<(nat, nat), int>, mem: map<nat, int>)
    requires g.Sane()
  {
    && (forall p :: p in lines <==> g.InRange(p))
    && (forall p :: p in pending ==> p in lines && lines[p].valid && !lines[p].dirty)
    && (forall p, lca: nat :: Holds(lines, pending, p, lca) ==>
          && lca % g.sets == p.row
          && lines[p].data == Look(mem, lca)
          && (!lines[p].dirty ==> lines[p].data == FtlLook(g, ftl, lca)))
    && (forall p, q, lca: nat :: Holds(lines, pending, p, lca) && Holds(lines, pending, q, lca) ==> p == q)
  }

  /** The cache agrees with its backing store: mem is what a host would read at each address. Valid lines sit in
      their set, tags are unique, clean lines equal the FTL, and what is not cached is what the FTL holds. */
  ghost predicate Agrees(g: Shape, lines: Lines, pending: set<Loc>, ftl: map<(nat, nat), int>, mem: map<nat, int>)
    requires g.Sane()
  {
    && LinesOk(g, lines, pending, ftl, mem)
    && forall lca: nat :: Cached(lines, pending, lca) || Look(mem, lca) == FtlLook(g, ftl, lca)
  }

  // ---- addresses ---------------------------------------------------------------------------

  lemma Regroup(q: int, m: int, n: int, a: int)
    ensures (q * m + a) * n == q * (m * n) + a * n
  {
    assert q * (m * n) == (q * m) * n;
  }

  lemma QuotientBound(r: nat, m: nat, n: nat)
    requires 0 < n && r < m * n
    ensures r / n < m
  {
    if r / n >= m {
      MulMonotone(m, r / n, n);
    }
  }

  lemma Decompose(x: nat, n: nat)
    requires 0 < n
    ensures x == (x / n) * n + x % n && x % n < n
  {
  }

  lemma Positive(m: nat, n: nat)
    requires 0 < m && 0 < n
    ensures 0 < m * n
  {
    MulMonotone(1, m, n);
  }

  /** r is what is left of x after whole blocks of m times n. */
  lemma ModOfRest(x: nat, q: nat, r: nat, m: nat, n: nat)
    requires 0 < n && r < m * n && x == q * (m * n) + r
    ensures r % n == x % n && r / n < m
  {
    var a, b := r / n, r % n;
    Decompose(r, n);
    QuotientBound(r, m, n);
    Regroup(q, m, n, a);
    MulMonotone(0, m, q);
    DivModUnique(x, n, q * m + a, b);
  }

  lemma ModOfMod(x: nat, m: nat, n: nat)
    requires 0 < m && 0 < n
    ensures 0 < m * n
    ensures (x % (m * n)) % n == x % n
    ensures (x % (m * n)) / n < m
  {
    Positive(m, n);
    Decompose(x, m * n);
    ModOfRest(x, x / (m * n), x % (m * n), m, n);
  }

  /** A line's place in a parallel I/O determines its unit, and the address the write-back goes to, page
      tag / units and unit row, decodes to exactly the tag. */
  lemma {:induction false} WriteBackAddress(g: Shape, tag: nat)
    requires g.Sane()
    ensures g.Row(tag) == tag % g.units && g.Row(tag) < g.units && g.Col(tag) < g.parallel
    ensures (tag / g.units) * g.units + g.Row(tag) == tag
  {
    ModOfMod(tag, g.parallel, g.units);
  }

  lemma FtlStored(g: Shape, ftl: map<(nat, nat), int>, tag: nat, d: int, lca: nat)
    requires g.Sane()
    ensures FtlLook(g, ftl[(tag / g.units, tag % g.units) := d], lca) == if lca == tag then d else FtlLook(g, ftl, lca)
  {
    if lca / g.units == tag / g.units && lca % g.units == tag % g.units {
      assert lca == (lca / g.units) * g.units + lca % g.units;
      assert tag == (tag / g.units) * g.units + tag % g.units;
    }
  }

  // ---- eviction ----------------------------------------------------------------------------

  /** A line as evictCache leaves it: empty since `tick`, or since the write-back is done if it was dirty. */
  function Emptied(l: Line, tick: nat, written: nat): Line {
    var at := if l.valid && l.dirty then written else tick;
    Line(0, at, at, false, false, 0, l.data)
  }

  /** The FTL changes only at addresses of dirty lines among those evicted. */
  ghost predicate Spilled(g: Shape, lines: Lines, evicted: set<Loc>, before: map<(nat, nat), int>,
                          after: map<(nat, nat), int>)
    requires g.Sane()
  {
    forall lca: nat :: FtlLook(g, after, lca) == FtlLook(g, before, lca) || Spills(lines, evicted, lca)
  }

  ghost predicate Spills(lines: Lines, evicted: set<Loc>, lca: nat) {
    exists p :: p in evicted && p in lines && lines[p].valid && lines[p].dirty && lines[p].tag == lca
  }

  lemma SpilledMore(g: Shape, lines: Lines, evicted: set<Loc>, p: Loc, before: map<(nat, nat), int>,
                    after: map<(nat, nat), int>)
    requires g.Sane() && p in lines && Spilled(g, lines, evicted, before, after)
    ensures var l := lines[p];
      var f := if l.valid && l.dirty then after[(l.tag / g.units, l.tag % g.units) := l.data] else after;
      Spilled(g, lines, evicted + {p}, before, f)
  {
    var l, more := lines[p], evicted + {p};
    var f := if l.valid && l.dirty then after[(l.tag / g.units, l.tag % g.units) := l.data] else after;
    forall lca: nat
      ensures FtlLook(g, f, lca) == FtlLook(g, before, lca) || Spills(lines, more, lca)
    {
      FtlStored(g, after, l.tag, l.data, lca);
      assert Spills(lines, evicted, lca) ==> Spills(lines, more, lca);
    }
  }

  /** No line is a candidate twice. */
  ghost predicate Apart(cells: imap<Loc, Option<Loc>>) {
    forall a, b :: a in cells && b in cells && cells[a].Some? && cells[a] == cells[b] ==> a == b
  }

  // ---- what the line operations keep -------------------------------------------------------

  /** evictCache on one line: a valid dirty line goes to the FTL, and the line is emptied. */
  lemma FlushKeeps(g: Shape, lines: Lines, pending: set<Loc>, ftl: map<(nat, nat), int>, mem: map<nat, int>, p: Loc,
                   empty: Line)
    requires g.Sane() && Agrees(g, lines, pending, ftl, mem) && p in lines
    requires !empty.valid
    ensures var l := lines[p];
      var f := if l.valid && l.dirty then ftl[(l.tag / g.units, l.tag % g.units) := l.data] else ftl;
      Agrees(g, lines[p := empty], pending - {p}, f, mem)
  {
    var l := lines[p];
    var f := if l.valid && l.dirty then ftl[(l.tag / g.units, l.tag % g.units) := l.data] else ftl;
    var after, rest := lines[p := empty], pending - {p};
    forall lca: nat
      ensures FtlLook(g, f, lca) == if l.valid && l.dirty && lca == l.tag then l.data else FtlLook(g, ftl, lca)
    {
      FtlStored(g, ftl, l.tag, l.data, lca);
    }
    assert forall q, lca: nat :: Holds(after, rest, q, lca) ==> Holds(lines, pending, q, lca);
    if l.valid && l.dirty {
      assert Holds(lines, pending, p, l.tag);
    }
    forall lca: nat
      ensures Cached(after, rest, lca) || Look(mem, lca) == FtlLook(g, f, lca)
    {
      if Cached(lines, pending, lca) {
        var q :| Holds(lines, pending, q, lca);
        if q != p {
          assert Holds(after, rest, q, lca);
        }
      }
    }
  }

  /** Reserving an empty line for a read still to come. */
  lemma ReserveKeeps(g: Shape, lines: Lines, pending: set<Loc>, ftl: map<(nat, nat), int>, mem: map<nat, int>, p: Loc,
                     l: Line)
    requires g.Sane() && Agrees(g, lines, pending, ftl, mem) && p in lines
    requires !lines[p].valid && l.valid && !l.dirty
    ensures Agrees(g, lines[p := l], pending + {p}, ftl, mem)
  {
    var after, more := lines[p := l], pending + {p};
    assert forall q, lca: nat :: Holds(after, more, q, lca) ==> Holds(lines, pending, q, lca);
    forall lca: nat
      ensures Cached(after, more, lca) || Look(mem, lca) == FtlLook(g, ftl, lca)
    {
      if Cached(lines, pending, lca) {
        var q :| Holds(lines, pending, q, lca);
        assert Holds(after, more, q, lca);
      }
    }
  }

  /** Filling a valid clean line, reserved or not, with an address that is not cached. */
  lemma FillKeeps(g: Shape, lines: Lines, pending: set<Loc>, ftl: map<(nat, nat), int>, mem: map<nat, int>, p: Loc,
                  l: Line)
    requires g.Sane() && Agrees(g, lines, pending, ftl, mem) && p in lines
    requires lines[p].valid && !lines[p].dirty && l.valid && !l.dirty
    requires l.tag % g.sets == p.row && l.data == FtlLook(g, ftl, l.tag)
    requires !Cached(lines, pending, l.tag)
    ensures Agrees(g, lines[p := l], pending - {p}, ftl, mem)
    ensures forall lca: nat :: Cached(lines[p := l], pending - {p}, lca) ==> Cached(lines, pending, lca) || lca == l.tag
  {
    var after, rest := lines[p := l], pending - {p};
    assert forall q, lca: nat :: Holds(after, rest, q, lca) ==>
      Holds(lines, pending, q, lca) || (q == p && lca == l.tag);
    forall q | Holds(lines, pending, q, l.tag)
      ensures false
    {
    }
    forall lca: nat
      ensures Cached(after, rest, lca) || Look(mem, lca) == FtlLook(g, ftl, lca)
    {
      if Cached(lines, pending, lca) {
        var q :| Holds(lines, pending, q, lca);
        if q != p {
          assert Holds(after, rest, q, lca);
        }
      }
    }
  }

  /** Writing d at lca into a line that holds lca, or into an empty one when lca is not cached. A clean result
      needs the FTL to hold d already. */
  lemma StoreKeeps(g: Shape, lines: Lines, ftl: map<(nat, nat), int>, f: map<(nat, nat), int>, mem: map<nat, int>,
                   p: Loc, l: Line)
    requires g.Sane() && Agrees(g, lines, {}, ftl, mem) && p in lines
    requires l.valid && l.tag % g.sets == p.row
    requires Holds(lines, {}, p, l.tag) || (!lines[p].valid && !Cached(lines, {}, l.tag))
    requires forall lca: nat :: lca != l.tag ==> FtlLook(g, f, lca) == FtlLook(g, ftl, lca)
    requires !l.dirty ==> FtlLook(g, f, l.tag) == l.data
    ensures Agrees(g, lines[p := l], {}, f, mem[l.tag := l.data])
  {
    var after, m := lines[p := l], mem[l.tag := l.data];
    forall q, lca: nat | Holds(after, {}, q, lca)
      ensures if lca == l.tag then q == p else q != p && Holds(lines, {}, q, lca)
    {
      if q != p {
        assert Holds(lines, {}, q, lca);
        assert Cached(lines, {}, lca);
      }
    }
    forall lca: nat
      ensures Cached(after, {}, lca) || Look(m, lca) == FtlLook(g, f, lca)
    {
      if lca == l.tag {
        assert Holds(after, {}, p, lca);
      } else if Cached(lines, {}, lca) {
        var q :| Holds(lines, {}, q, lca);
        assert Holds(after, {}, q, lca);
      }
    }
  }

  /** A write that goes straight to the FTL, past a cache that does not hold the address. */
  lemma WriteThroughKeeps(g: Shape, lines: Lines, ftl: map<(nat, nat), int>, f: map<(nat, nat), int>,
                          mem: map<nat, int>, lca: nat, d: int)
    requires g.Sane() && Agrees(g, lines, {}, ftl, mem) && !Cached(lines, {}, lca)
    requires forall x: nat :: FtlLook(g, f, x) == if x == lca then d else FtlLook(g, ftl, x)
    ensures Agrees(g, lines, {}, f, mem[lca := d])
  {
    forall q, x: nat | Holds(lines, {}, q, x)
      ensures x != lca
    {
      assert Cached(lines, {}, x);
    }
  }

  /** Changing a line's time stamps and access count. */
  lemma TouchKeeps(g: Shape, lines: Lines, ftl: map<(nat, nat), int>, mem: map<nat, int>, p: Loc, l: Line)
    requires g.Sane() && Agrees(g, lines, {}, ftl, mem) && p in lines
    requires var o := lines[p];
      l.tag == o.tag && l.valid == o.valid && l.dirty == o.dirty && l.data == o.data
    ensures Agrees(g, lines[p := l], {}, ftl, mem)
  {
    var after := lines[p := l];
    assert forall q, lca: nat :: Holds(after, {}, q, lca) <==> Holds(lines, {}, q, lca);
    forall lca: nat
      ensures Cached(after, {}, lca) || Look(mem, lca) == FtlLook(g, ftl, lca)
    {
      if Cached(lines, {}, lca) {
        var q :| Holds(lines, {}, q, lca);
        assert Holds(after, {}, q, lca);
      }
    }
  }

  // ---- queued reads ------------------------------------------------------------------------

  /** The reads queued: distinct addresses, each with a clean line of its set; those from index `from` on are
      not cached, and each reserved line belongs to one of them. */
  ghost predicate QueuedOn(g: Shape, lines: Lines, list: seq<(nat, Loc)>, from: nat, pending: set<Loc>)
    requires g.Sane() && forall p :: p in lines <==> g.InRange(p)
  {
    && (forall i, j :: 0 <= i < j < |list| ==> list[i].0 != list[j].0)
    && (forall i :: 0 <= i < |list| ==>
          && g.InRange(list[i].1) && list[i].0 % g.sets == list[i].1.row
          && lines[list[i].1].valid && !lines[list[i].1].dirty)
    && (forall i :: from <= i < |list| ==> !Cached(lines, pending, list[i].0))
    && (forall p :: p in pending ==> exists i :: from <= i < |list| && list[i].1 == p)
  }

  // ---- replacement policies ----------------------------------------------------------------

  datatype Policy = Fifo | LeastRecentlyUsed | CleanFirst | LeastFrequentlyUsed

  /** When the policy's compare function picks its first argument over its second. */
  predicate Before(policy: Policy, a: Line, b: Line) {
    match policy
    case Fifo => a.insertedAt < b.insertedAt
    case LeastRecentlyUsed => a.lastAccessed < b.lastAccessed
    case CleanFirst =>
      if !a.dirty && !b.dirty then a.lastAccessed < b.lastAccessed
      else if !a.dirty then true
      else if !b.dirty then false
      else a.lastAccessed < b.lastAccessed
    case LeastFrequentlyUsed =>
      if a.accessCount < b.accessCount then true
      else if b.accessCount < a.accessCount then false
      else a.lastAccessed < b.lastAccessed
  }

  /** Every policy is a strict weak order, so "no line comes before it" names the lines it may evict. */
  lemma {:induction false} PolicyIsOrder(policy: Policy, a: Line, b: Line, c: Line)
    ensures !(Before(policy, a, b) && Before(policy, b, a))
    ensures Before(policy, a, c) ==> Before(policy, a, b) || Before(policy, b, c)
  {
  }

  /** The lines of a set, by way. */
  function SetOf(g: Shape, lines: Lines, row: nat): seq<Line>
    requires row < g.sets && forall p :: g.InRange(p) ==> p in lines
  {
    assert forall w: nat :: w < g.ways ==> g.InRange(Loc(row, w));
    seq(g.ways, w requires 0 <= w < g.ways && Loc(row, w) in lines => lines[Loc(row, w)])
  }

  /** The empty way that has been empty longest, the first of those. */
  ghost predicate LongestEmpty(lines: seq<Line>, way: nat) {
    && way < |lines| && !lines[way].valid
    && (forall w :: 0 <= w < |lines| && !lines[w].valid ==> lines[way].insertedAt <= lines[w].insertedAt)
    && (forall w :: 0 <= w < way && !lines[w].valid ==> lines[way].insertedAt < lines[w].insertedAt)
  }

  /** The way a read takes: an empty one if there is one, else the one the policy evicts. */
  ghost predicate Claims(policy: Policy, lines: seq<Line>, way: nat) {
    if forall w :: 0 <= w < |lines| ==> lines[w].valid then Evicts(policy, lines, way) else LongestEmpty(lines, way)
  }

  /** What evictFunction picks from the lines of a set, by way: under the clean-first policy the first clean one,
      whatever its age, if there is one; else the first that no other comes before. */
  ghost predicate Evicts(policy: Policy, lines: seq<Line>, way: nat) {
    && way < |lines|
    && if policy == CleanFirst && !lines[way].dirty then
         forall w :: 0 <= w < way ==> lines[w].dirty
       else
         && (policy == CleanFirst ==> forall w :: 0 <= w < |lines| ==> lines[w].dirty)
         && (forall w :: 0 <= w < |lines| ==> !Before(policy, lines[w], lines[way]))
         && (forall w :: 0 <= w < way ==> Before(policy, lines[way], lines[w]))
  }

  /** The clean way first by index was accessed no later than any other clean one. */
  ghost predicate FirstCleanIsOldest(lines: seq<Line>) {
    forall i, j :: 0 <= i < j < |lines| && !lines[i].dirty && !lines[j].dirty && FirstClean(lines, i) ==>
      lines[i].lastAccessed <= lines[j].lastAccessed
  }

  ghost predicate FirstClean(lines: seq<Line>, way: nat)
    requires way <= |lines|
  {
    forall w :: 0 <= w < way ==> lines[w].dirty
  }

  /** No line of the set comes before the one picked, except when that one is clean, under the clean-first policy, and
      a later clean way was accessed longer ago. Whether that is so can be read off the set beforehand. */
  lemma {:induction false} EvictsMinimumIff(policy: Policy, lines: seq<Line>, way: nat)
    requires Evicts(policy, lines, way)
    ensures (forall w :: 0 <= w < |lines| ==> !Before(policy, lines[w], lines[way])) <==>
              (policy == CleanFirst && !lines[way].dirty ==>
                 forall w :: way < w < |lines| && !lines[w].dirty ==> lines[way].lastAccessed <= lines[w].lastAccessed)
    ensures (forall w :: 0 <= w < |lines| ==> !Before(policy, lines[w], lines[way])) <==>
              (policy == CleanFirst ==> FirstCleanIsOldest(lines))
  {
    if policy == CleanFirst && !lines[way].dirty {
      assert FirstClean(lines, way);
      forall w | way < w < |lines| && !lines[w].dirty
        ensures Before(policy, lines[w], lines[way]) <==> lines[w].lastAccessed < lines[way].lastAccessed
      {
      }
    }
  }

  /** Two clean ways, the first accessed at tick 9 and the second at tick 4: the first goes. */
  lemma EvictsTheYounger()
    ensures var lines := [Line(1, 9, 9, false, true, 1, 0), Line(2, 4, 4, false, true, 1, 0)];
      && Evicts(CleanFirst, lines, 0) && Before(CleanFirst, lines[1], lines[0])
      && forall way :: Evicts(CleanFirst, lines, way) ==> way == 0
  {
    var lines := [Line(1, 9, 9, false, true, 1, 0), Line(2, 4, 4, false, true, 1, 0)];
    assert !lines[0].dirty && !lines[1].dirty;
  }

  // ---- eviction candidates -----------------------------------------------------------------

  /** Lines before (set, way) in the order of the scan. */
  ghost predicate Seen(p: Loc, set_: int, way: int) {
    p.row < set_ || (p.row == set_ && p.way < way)
  }

  /** A valid line of the seen part whose I/O position lies in the given row, in columns from `from` up to `to`. */
  ghost predicate Eligible(g: Shape, lines: Lines, p: Loc, row: nat, from: int, to: int, set_: int, way: int)
    requires g.Sane()
  {
    p in lines && lines[p].valid && Seen(p, set_, way) && g.Row(lines[p].tag) == row && from <= g.Col(lines[p].tag) < to
  }

  /** Entry e is what the policy evicts from an I/O position: nothing when no line is eligible, otherwise an
      eligible line that no eligible line comes before. */
  ghost predicate Best(g: Shape, policy: Policy, lines: Lines, e: Option<Loc>, row: nat, from: int, to: int,
                       set_: int, way: int)
    requires g.Sane()
  {
    match e
    case None => forall q :: q in lines ==> !Eligible(g, lines, q, row, from, to, set_, way)
    case Some(p) =>
      && Eligible(g, lines, p, row, from, to, set_, way)
      && forall q :: Eligible(g, lines, q, row, from, to, set_, way) ==> !Before(policy, lines[q], lines[p])
  }

  /** r is one of a and b, and neither comes before it. */
  ghost predicate Picked(policy: Policy, lines: Lines, a: Option<Loc>, b: Option<Loc>, r: Option<Loc>) {
    && (r == a || r == b)
    && (r.None? <==> a.None? && b.None?)
    && (a.Some? ==> a.value in lines) && (b.Some? ==> b.value in lines)
    && (r.Some? && a.Some? ==> !Before(policy, lines[a.value], lines[r.value]))
    && (r.Some? && b.Some? ==> !Before(policy, lines[b.value], lines[r.value]))
  }

  /** Scanning one more valid line at this position. */
  lemma {:induction false} BestScan(g: Shape, policy: Policy, lines: Lines, e: Option<Loc>, r: Option<Loc>, row: nat,
                                    from: int, to: int, p: Loc)
    requires g.Sane() && g.InRange(p) && (forall q :: q in lines <==> g.InRange(q))
    requires Best(g, policy, lines, e, row, from, to, p.row, p.way)
    requires if lines[p].valid && g.Row(lines[p].tag) == row && from <= g.Col(lines[p].tag) < to
             then Picked(policy, lines, e, Some(p), r) else r == e
    ensures Best(g, policy, lines, r, row, from, to, p.row, p.way + 1)
  {
    forall q | Eligible(g, lines, q, row, from, to, p.row, p.way + 1)
      ensures r.Some? && !Before(policy, lines[q], lines[r.value])
    {
      if q != p {
        assert Eligible(g, lines, q, row, from, to, p.row, p.way);
        if e.Some? && r != e {
          PolicyIsOrder(policy, lines[q], lines[e.value], lines[r.value]);
        }
      }
    }
  }

  /** Folding column `to` onto the columns before it. */
  lemma {:induction false} BestFold(g: Shape, policy: Policy, lines: Lines, a: Option<Loc>, b: Option<Loc>,
                                    r: Option<Loc>, row: nat, from: int, mid: int, to: int, set_: int, way: int)
    requires g.Sane() && from <= mid <= to
    requires Best(g, policy, lines, a, row, from, mid, set_, way)
    requires Best(g, policy, lines, b, row, mid, to, set_, way)
    requires Picked(policy, lines, a, b, r)
    ensures Best(g, policy, lines, r, row, from, to, set_, way)
  {
    forall q | Eligible(g, lines, q, row, from, to, set_, way)
      ensures r.Some? && !Before(policy, lines[q], lines[r.value])
    {
      if g.Col(lines[q].tag) < mid {
        assert Eligible(g, lines, q, row, from, mid, set_, way);
        PolicyIsOrder(policy, lines[q], lines[a.value], lines[r.value]);
      } else {
        assert Eligible(g, lines, q, row, mid, to, set_, way);
        PolicyIsOrder(policy, lines[q], lines[b.value], lines[r.value]);
      }
    }
  }

  /** The end of one set is the start of the next. */
  lemma BestNextSet(g: Shape, policy: Policy, lines: Lines, e: Option<Loc>, row: nat, from: int, to: int, set_: int)
    requires g.Sane() && (forall q :: q in lines <==> g.InRange(q))
    requires Best(g, policy, lines, e, row, from, to, set_, g.ways)
    ensures Best(g, policy, lines, e, row, from, to, set_ + 1, 0)
  {
    forall q | Eligible(g, lines, q, row, from, to, set_ + 1, 0)
      ensures Eligible(g, lines, q, row, from, to, set_, g.ways)
    {
    }
  }

  /** Two addresses share an I/O position, or the row of it when super pages go out as a whole. */
  predicate SamePlace(g: Shape, wholeRow: bool, a: nat, b: nat)
    requires g.Sane()
  {
    g.Row(a) == g.Row(b) && (wholeRow || g.Col(a) == g.Col(b))
  }

  /** No valid line in the I/O position of line p (or its row) comes before it. */
  ghost predicate BestInPlace(g: Shape, policy: Policy, wholeRow: bool, lines: Lines, p: Loc)
    requires g.Sane() && p in lines
  {
    forall q :: q in lines && lines[q].valid && SamePlace(g, wholeRow, lines[q].tag, lines[p].tag) ==>
      !Before(policy, lines[q], lines[p])
  }

  /** No valid line of the target set, in which p lies, comes before it. */
  ghost predicate BestInSet(policy: Policy, lines: Lines, target: nat, p: Loc)
    requires p in lines
  {
    p.row == target && forall q :: q in lines && lines[q].valid && q.row == target ==>
      !Before(policy, lines[q], lines[p])
  }

  /** A line that making room in the target set may empty. */
  ghost predicate Due(g: Shape, policy: Policy, wholeRow: bool, lines: Lines, target: nat, p: Loc)
    requires g.Sane()
  {
    && p in lines && lines[p].valid
    && (BestInPlace(g, policy, wholeRow, lines, p) || BestInSet(policy, lines, target, p))
  }

  /** The candidates: for each I/O position (or row) with a valid line one that is due there, and one in the target set.
      That one is the best of its own position, unless no such line lies in the target set. */
  ghost predicate Chosen(g: Shape, policy: Policy, wholeRow: bool, lines: Lines, target: nat,
                         cells: imap<Loc, Option<Loc>>)
    requires g.Sane()
  {
    && Apart(cells)
    && (forall at :: at in cells && cells[at].Some? ==>
          var p := cells[at].value;
          && Due(g, policy, wholeRow, lines, target, p)
          && g.Row(lines[p].tag) == at.row && (!wholeRow ==> g.Col(lines[p].tag) == at.way))
    && (exists at :: at in cells && cells[at].Some? && cells[at].value.row == target)
    && (forall q :: q in lines && lines[q].valid ==> Covered(g, wholeRow, cells, lines[q].tag))
    && (forall a, b :: a in cells && b in cells && cells[a].Some? && cells[b].Some? && cells[b].value.row == target ==>
          a == b || BestInPlace(g, policy, wholeRow, lines, cells[a].value))
  }

  /** There is a candidate for the I/O position (or row) of the address. */
  ghost predicate Covered(g: Shape, wholeRow: bool, cells: imap<Loc, Option<Loc>>, tag: nat)
    requires g.Sane()
  {
    exists at :: at in cells && cells[at].Some? && at.row == g.Row(tag) && (wholeRow || at.way == g.Col(tag))
  }

  /** After the scan (and the fold) each cell has the best of its position (or the last of a row, that of the row). */
  ghost predicate Bests(g: Shape, policy: Policy, wholeRow: bool, lines: Lines, cells: imap<Loc, Option<Loc>>)
    requires g.Sane()
  {
    && (forall at :: at in cells <==> at.row < g.units && at.way < g.parallel)
    && forall at :: at in cells ==>
         if !wholeRow then Best(g, policy, lines, cells[at], at.row, at.way, at.way + 1, g.sets, 0)
         else if at.way < g.parallel - 1 then cells[at] == None
         else Best(g, policy, lines, cells[at], at.row, 0, g.parallel, g.sets, 0)
  }

  lemma BestIsDue(g: Shape, policy: Policy, wholeRow: bool, lines: Lines, cells: imap<Loc, Option<Loc>>, at: Loc)
    requires g.Sane() && (forall p :: p in lines <==> g.InRange(p)) && Bests(g, policy, wholeRow, lines, cells)
    requires at in cells && cells[at].Some?
    ensures var p := cells[at].value;
      && p in lines && lines[p].valid && BestInPlace(g, policy, wholeRow, lines, p)
      && g.Row(lines[p].tag) == at.row && (!wholeRow ==> g.Col(lines[p].tag) == at.way)
      && (wholeRow ==> at.way == g.parallel - 1)
  {
    var p := cells[at].value;
    forall q | q in lines && lines[q].valid && SamePlace(g, wholeRow, lines[q].tag, lines[p].tag)
      ensures !Before(policy, lines[q], lines[p])
    {
      WriteBackAddress(g, lines[q].tag);
      if wholeRow {
        assert Eligible(g, lines, q, at.row, 0, g.parallel, g.sets, 0);
      } else {
        assert Eligible(g, lines, q, at.row, at.way, at.way + 1, g.sets, 0);
      }
    }
  }

  lemma BestsCover(g: Shape, policy: Policy, wholeRow: bool, lines: Lines, cells: imap<Loc, Option<Loc>>, q: Loc)
    requires g.Sane() && (forall p :: p in lines <==> g.InRange(p)) && Bests(g, policy, wholeRow, lines, cells)
    requires q in lines && lines[q].valid
    ensures Covered(g, wholeRow, cells, lines[q].tag)
  {
    var tag := lines[q].tag;
    WriteBackAddress(g, tag);
    var at := Loc(g.Row(tag), if wholeRow then g.parallel - 1 else g.Col(tag));
    assert at in cells;
    if wholeRow {
      assert Eligible(g, lines, q, at.row, 0, g.parallel, g.sets, 0);
    } else {
      assert Eligible(g, lines, q, at.row, at.way, at.way + 1, g.sets, 0);
    }
  }

  /** All that the scan and the fold choose. */
  lemma BestsApart(g: Shape, policy: Policy, wholeRow: bool, lines: Lines, cells: imap<Loc, Option<Loc>>)
    requires g.Sane() && (forall p :: p in lines <==> g.InRange(p)) && Bests(g, policy, wholeRow, lines, cells)
    ensures Apart(cells) && (forall at :: at in cells <==> at.row < g.units && at.way < g.parallel)
    ensures forall at :: at in cells && cells[at].Some? ==>
              var p := cells[at].value;
              && p in lines && lines[p].valid && BestInPlace(g, policy, wholeRow, lines, p)
              && g.Row(lines[p].tag) == at.row && (!wholeRow ==> g.Col(lines[p].tag) == at.way)
    ensures forall q :: q in lines && lines[q].valid ==> Covered(g, wholeRow, cells, lines[q].tag)
  {
    forall at | at in cells && cells[at].Some?
      ensures var p := cells[at].value;
        && p in lines && lines[p].valid && BestInPlace(g, policy, wholeRow, lines, p)
        && g.Row(lines[p].tag) == at.row && (!wholeRow ==> g.Col(lines[p].tag) == at.way)
        && (wholeRow ==> at.way == g.parallel - 1)
    {
      BestIsDue(g, policy, wholeRow, lines, cells, at);
    }
    forall q | q in lines && lines[q].valid
      ensures Covered(g, wholeRow, cells, lines[q].tag)
    {
      BestsCover(g, policy, wholeRow, lines, cells, q);
    }
  }

  /** When one of them lies in the target set, nothing else is chosen. */
  lemma BestsSuffice(g: Shape, policy: Policy, wholeRow: bool, lines: Lines, target: nat,
                     cells: imap<Loc, Option<Loc>>)
    requires g.Sane() && (forall p :: p in lines <==> g.InRange(p)) && Bests(g, policy, wholeRow, lines, cells)
    requires exists at :: at in cells && cells[at].Some? && cells[at].value.row == target
    ensures Chosen(g, policy, wholeRow, lines, target, cells)
  {
    hide Bests, BestInPlace, Covered, BestInSet, Before;
    BestsApart(g, policy, wholeRow, lines, cells);
  }

  /** Otherwise the best line of the target set is chosen besides, in the place of the candidate of its position. */
  lemma FallbackSuffices(g: Shape, policy: Policy, wholeRow: bool, lines: Lines, target: nat,
                         cells: imap<Loc, Option<Loc>>, p: Loc)
    requires g.Sane() && (forall p :: p in lines <==> g.InRange(p)) && Bests(g, policy, wholeRow, lines, cells)
    requires !exists at :: at in cells && cells[at].Some? && cells[at].value.row == target
    requires p in lines && lines[p].valid && p.row == target && BestInSet(policy, lines, target, p)
    ensures var at := Loc(g.Row(lines[p].tag), g.Col(lines[p].tag));
      at in cells && Chosen(g, policy, wholeRow, lines, target, cells[at := Some(p)])
  {
    hide Bests, BestInPlace, BestInSet, Before, Covered, Shape.Row, Shape.Col, Apart;
    BestsApart(g, policy, wholeRow, lines, cells);
    WriteBackAddress(g, lines[p].tag);
    var at := Loc(g.Row(lines[p].tag), g.Col(lines[p].tag));
    assert at in cells;
    var more := cells[at := Some(p)];
    assert more[at] == Some(p);
    FallbackApart(cells, at, p);
    forall q | q in lines && lines[q].valid
      ensures Covered(g, wholeRow, more, lines[q].tag)
    {
      FallbackCovers(g, wholeRow, cells, lines[q].tag, at, p);
    }
  }

  lemma FallbackApart(cells: imap<Loc, Option<Loc>>, at: Loc, p: Loc)
    requires Apart(cells) && forall b :: b in cells ==> cells[b] != Some(p)
    ensures Apart(cells[at := Some(p)])
  {
  }

  lemma FallbackCovers(g: Shape, wholeRow: bool, cells: imap<Loc, Option<Loc>>, tag: nat, at: Loc, p: Loc)
    requires g.Sane() && Covered(g, wholeRow, cells, tag)
    ensures Covered(g, wholeRow, cells[at := Some(p)], tag)
  {
    hide Shape.Row, Shape.Col;
    var b :| b in cells && cells[b].Some? && b.row == g.Row(tag) && (wholeRow || b.way == g.Col(tag));
    var more := cells[at := Some(p)];
    assert b in more && more[b].Some?;
  }

  /** One of the lines evicted shares the I/O position (or row) of the address. */
  ghost predicate PlaceLost(g: Shape, wholeRow: bool, lines: Lines, evicted: set<Loc>, tag: nat)
    requires g.Sane()
  {
    exists p :: p in evicted && p in lines && SamePlace(g, wholeRow, lines[p].tag, tag)
  }

  /** No two lines evicted share an I/O position. */
  ghost predicate OneEach(g: Shape, lines: Lines, evicted: set<Loc>)
    requires g.Sane() && forall p :: p in evicted ==> p in lines
  {
    forall p, q :: p in evicted && q in evicted && SamePlace(g, false, lines[p].tag, lines[q].tag) ==> p == q
  }

  /** At most one line evicted is not the best of its place, and then it is the only one of the target set. */
  ghost predicate OneBesides(g: Shape, policy: Policy, wholeRow: bool, lines: Lines, target: nat, evicted: set<Loc>)
    requires g.Sane() && forall p :: p in evicted ==> p in lines
  {
    forall p, q :: p in evicted && q in evicted && q.row == target ==>
      p == q || BestInPlace(g, policy, wholeRow, lines, p)
  }

  /** The lines that go: every I/O position (or row) that has a valid line loses one, one that is due, and no other but
      perhaps one of the target set, when no position's best lies there. */
  ghost predicate Leaving(g: Shape, policy: Policy, wholeRow: bool, lines: Lines, target: nat, evicted: set<Loc>)
    requires g.Sane() && forall p :: p in evicted ==> p in lines
  {
    && (forall p :: p in evicted ==> Due(g, policy, wholeRow, lines, target, p))
    && (exists p :: p in evicted && p.row == target)
    && (forall q :: q in lines && lines[q].valid ==> PlaceLost(g, wholeRow, lines, evicted, lines[q].tag))
    && (!wholeRow ==> OneEach(g, lines, evicted))
    && OneBesides(g, policy, wholeRow, lines, target, evicted)
  }

  /** Room has been made in the target set: the lines that leave are empty, the others as they were. */
  ghost predicate Roomed(g: Shape, policy: Policy, wholeRow: bool, before: Lines, target: nat, evicted: set<Loc>,
                         after: Lines, tick: nat, written: nat)
    requires g.Sane()
  {
    && after.Keys == before.Keys
    && (forall p :: p in before ==> after[p] == if p in evicted then Emptied(before[p], tick, written) else before[p])
    && (forall p :: p in evicted ==> p in before)
    && Leaving(g, policy, wholeRow, before, target, evicted)
  }

  /** The lines evicted are those among the candidates. */
  ghost predicate Among(cells: imap<Loc, Option<Loc>>, evicted: set<Loc>) {
    forall p :: p in evicted <==> exists at :: at in cells && cells[at] == Some(p)
  }

  lemma ChosenOneEach(g: Shape, policy: Policy, lines: Lines, target: nat, cells: imap<Loc, Option<Loc>>,
                      evicted: set<Loc>)
    requires g.Sane() && Chosen(g, policy, false, lines, target, cells) && Among(cells, evicted)
    ensures (forall p :: p in evicted ==> p in lines) && OneEach(g, lines, evicted)
  {
    hide BestInPlace, BestInSet, Covered, Apart, Shape.Row, Shape.Col;
    forall p, q | p in evicted && q in evicted && SamePlace(g, false, lines[p].tag, lines[q].tag)
      ensures p == q
    {
      var a :| a in cells && cells[a] == Some(p);
      var b :| b in cells && cells[b] == Some(q);
    }
  }

  lemma ChosenOneBesides(g: Shape, policy: Policy, wholeRow: bool, lines: Lines, target: nat,
                         cells: imap<Loc, Option<Loc>>, evicted: set<Loc>)
    requires g.Sane() && Chosen(g, policy, wholeRow, lines, target, cells) && Among(cells, evicted)
    ensures (forall p :: p in evicted ==> p in lines) && OneBesides(g, policy, wholeRow, lines, target, evicted)
  {
    hide BestInPlace, BestInSet, Covered, Apart, Shape.Row, Shape.Col;
    forall p, q | p in evicted && q in evicted && q.row == target
      ensures p == q || BestInPlace(g, policy, wholeRow, lines, p)
    {
      var a :| a in cells && cells[a] == Some(p);
      var b :| b in cells && cells[b] == Some(q);
    }
  }

  lemma ChosenLeave(g: Shape, policy: Policy, wholeRow: bool, lines: Lines, target: nat,
                    cells: imap<Loc, Option<Loc>>, evicted: set<Loc>)
    requires g.Sane() && Chosen(g, policy, wholeRow, lines, target, cells) && Among(cells, evicted)
    ensures (forall p :: p in evicted ==> p in lines) && Leaving(g, policy, wholeRow, lines, target, evicted)
  {
    hide Due, OneEach, OneBesides, Apart, Shape.Row, Shape.Col, BestInPlace;
    ChosenOneBesides(g, policy, wholeRow, lines, target, cells, evicted);
    if !wholeRow {
      ChosenOneEach(g, policy, lines, target, cells, evicted);
    }
    forall q | q in lines && lines[q].valid
      ensures PlaceLost(g, wholeRow, lines, evicted, lines[q].tag)
    {
      CoveredIsLost(g, policy, wholeRow, lines, target, cells, evicted, lines[q].tag);
    }
    var at :| at in cells && cells[at].Some? && cells[at].value.row == target;
    assert cells[at].value in evicted;
  }

  lemma CoveredIsLost(g: Shape, policy: Policy, wholeRow: bool, lines: Lines, target: nat,
                      cells: imap<Loc, Option<Loc>>, evicted: set<Loc>, tag: nat)
    requires g.Sane() && Chosen(g, policy, wholeRow, lines, target, cells) && Among(cells, evicted)
    requires Covered(g, wholeRow, cells, tag)
    ensures PlaceLost(g, wholeRow, lines, evicted, tag)
  {
    hide BestInPlace, BestInSet, Apart, Shape.Row, Shape.Col;
    var at :| at in cells && cells[at].Some? && at.row == g.Row(tag) && (wholeRow || at.way == g.Col(tag));
    var p := cells[at].value;
    assert p in evicted && p in lines && SamePlace(g, wholeRow, lines[p].tag, tag);
  }

  lemma RoomedHasRoom(g: Shape, policy: Policy, wholeRow: bool, before: Lines, target: nat, evicted: set<Loc>,
                      after: Lines, tick: nat, written: nat, lca: nat)
    requires g.Sane() && (forall p :: p in before <==> g.InRange(p))
    requires Roomed(g, policy, wholeRow, before, target, evicted, after, tick, written)
    ensures exists p :: g.InRange(p) && p in after && p.row == target && !after[p].valid
    ensures !Cached(before, {}, lca) ==> !Cached(after, {}, lca)
  {
    hide Due, PlaceLost, OneEach, OneBesides;
    assert forall p :: Holds(after, {}, p, lca) ==> Holds(before, {}, p, lca);
    var p :| p in evicted && p.row == target;
    assert !after[p].valid;
  }
}
