/** The cache on top of the page-mapping FTL of FtlSpec, with one unit per page. CacheModel takes the FTL for a map;
    here it is the FTL itself, whose reads can be dropped. */
module CacheOverFtl {
  import opened Outcome
  import opened Blocks
  import opened FtlSpec
  import opened FtlInvariant
  import opened FtlTheorems
  import opened CacheModel

  /** The map is what the FTL holds. */
  ghost predicate Behind(s: State, g: Shape, ftl: map<(nat, nat), int>) {
    g.Sane() && g.units == 1 && forall lca: nat :: FtlLook(g, ftl, lca) == Look(Contents(s), lca)
  }

  /** What a write back, a trim or a collection does to the map. */
  function MapStep(ftl: map<(nat, nat), int>, op: Op): map<(nat, nat), int> {
    match op
    case WriteOp(lpn, data) => ftl[(lpn, 0) := data]
    case TrimOp(lpn) => ftl - {(lpn, 0)}
    case CollectOp(_) => ftl
  }

  function MapRun(ftl: map<(nat, nat), int>, ops: seq<Op>): map<(nat, nat), int>
    decreases |ops|
  {
    if ops == [] then ftl else MapRun(MapStep(ftl, ops[0]), ops[1..])
  }

  lemma OneUnit(lca: nat)
    ensures lca / 1 == lca && lca % 1 == 0
  {
  }

  /** The FTL goes on holding what the map does, through whatever it is asked to do. */
  lemma {:induction false} StaysBehind(c: Config, s: State, g: Shape, ftl: map<(nat, nat), int>, ops: seq<Op>)
    requires Invariant(c, s) && Behind(s, g, ftl) && LegalRun(c, s, ops) && Run(c, s, ops).Ok?
    ensures Behind(Run(c, s, ops).value, g, MapRun(ftl, ops))
    decreases |ops|
  {
    hide Invariant, Step, Contents;
    if ops != [] {
      var op := ops[0];
      StepKeeps(c, s, op);
      var t := Step(c, s, op).value;
      forall lca: nat
        ensures FtlLook(g, MapStep(ftl, op), lca) == Look(Contents(t), lca)
      {
        OneUnit(lca);
        assert FtlLook(g, ftl, lca) == Look(Contents(s), lca);
      }
      StaysBehind(c, t, g, MapStep(ftl, op), ops[1..]);
    }
  }

  /** What a line holds after the FTL's read: nothing arrives for a page that is not mapped, and a read that is dropped
      leaves what was there. */
  function Fetched(c: Config, s: State, lca: nat, stale: int): int {
    match Read(c, s, lca)
    case Ok(Data(value)) => value
    case Ok(Unmapped) => 0
    case _ => stale
  }

  ghost predicate Drops(c: Config, s: State, lca: nat) {
    Read(c, s, lca) == Ok(Dropped)
  }

  /** The line ends up with what the FTL holds, whatever was there, if and only if the read is not dropped. */
  lemma {:induction false} FetchedIff(c: Config, s: State, g: Shape, ftl: map<(nat, nat), int>, lca: nat)
    requires Invariant(c, s) && Behind(s, g, ftl)
    ensures (forall stale :: Fetched(c, s, lca, stale) == FtlLook(g, ftl, lca)) <==> !Drops(c, s, lca)
    ensures Drops(c, s, lca) <==> lca in s.table && s.table[lca].block in s.recycled
  {
    hide Invariant;
    ReadReturnsContents(c, s, lca);
    if Drops(c, s, lca) {
      var other := FtlLook(g, ftl, lca) + 1;
      assert Fetched(c, s, lca, other) == other;
    }
  }

  /** The lines once the queued reads from index i on have been served. */
  ghost function Served(c: Config, s: State, lines: Lines, list: seq<(nat, Loc)>, i: nat, stale: int, now: nat): Lines
    requires forall j :: i <= j < |list| ==> list[j].1 in lines
    decreases |list| - i
  {
    if i >= |list| then lines
    else
      var (lca, p) := list[i];
      var l := Line(lca, now, now, false, true, 1, Fetched(c, s, lca, stale));
      Served(c, s, lines[p := l], list, i + 1, stale, now)
  }

  /** When the FTL drops none of the reads of a stripe, every line of it gets the value a host must see, and cache and
      FTL agree again. */
  lemma {:induction false} StripeKeeps(c: Config, s: State, g: Shape, lines: Lines, pending: set<Loc>,
                                       ftl: map<(nat, nat), int>, mem: map<nat, int>, list: seq<(nat, Loc)>, i: nat,
                                       stale: int, now: nat)
    requires Invariant(c, s) && Behind(s, g, ftl) && Agrees(g, lines, pending, ftl, mem)
    requires QueuedOn(g, lines, list, i, pending) && i <= |list|
    requires forall j :: i <= j < |list| ==> !Drops(c, s, list[j].0)
    ensures Agrees(g, Served(c, s, lines, list, i, stale, now), {}, ftl, mem)
    ensures forall j :: i <= j < |list| ==> Fetched(c, s, list[j].0, stale) == Look(mem, list[j].0)
    decreases |list| - i
  {
    hide Invariant, Fetched, Drops, Contents, Cached;
    if i < |list| {
      var (lca, p) := list[i];
      FetchedIff(c, s, g, ftl, lca);
      var l := Line(lca, now, now, false, true, 1, Fetched(c, s, lca, stale));
      FillKeeps(g, lines, pending, ftl, mem, p, l);
      StillQueued(g, lines, list, i, pending, l);
      StripeKeeps(c, s, g, lines[p := l], pending - {p}, ftl, mem, list, i + 1, stale, now);
    } else {
      assert pending == {};
    }
  }

  lemma StillQueued(g: Shape, lines: Lines, list: seq<(nat, Loc)>, i: nat, pending: set<Loc>, l: Line)
    requires g.Sane() && (forall p :: p in lines <==> g.InRange(p)) && i < |list|
    requires QueuedOn(g, lines, list, i, pending) && l.valid && !l.dirty && l.tag == list[i].0
    requires forall x: nat :: Cached(lines[list[i].1 := l], pending - {list[i].1}, x) ==>
               Cached(lines, pending, x) || x == l.tag
    ensures QueuedOn(g, lines[list[i].1 := l], list, i + 1, pending - {list[i].1})
  {
    var p := list[i].1;
    hide Cached;
    forall q | q in pending - {p}
      ensures exists j :: i + 1 <= j < |list| && list[j].1 == q
    {
      var j :| i <= j < |list| && list[j].1 == q;
    }
  }

  /** A single dropped read is enough to break it: unless the line happens to hold the value already, cache and FTL
      disagree once it is filled. */
  lemma {:induction false} FillAgreesIff(c: Config, s: State, g: Shape, lines: Lines, pending: set<Loc>,
                                         ftl: map<(nat, nat), int>, mem: map<nat, int>, p: Loc, l: Line, stale: int)
    requires Invariant(c, s) && Behind(s, g, ftl) && Agrees(g, lines, pending, ftl, mem)
    requires p in lines && lines[p].valid && !lines[p].dirty && l.valid && !l.dirty && l.tag % g.sets == p.row
    requires !Cached(lines, pending, l.tag) && l.data == Fetched(c, s, l.tag, stale)
    ensures Agrees(g, lines[p := l], pending - {p}, ftl, mem) <==>
              !Drops(c, s, l.tag) || stale == FtlLook(g, ftl, l.tag)
  {
    hide Invariant;
    FetchedIff(c, s, g, ftl, l.tag);
    ReadReturnsContents(c, s, l.tag);
    if l.data == FtlLook(g, ftl, l.tag) {
      FillKeeps(g, lines, pending, ftl, mem, p, l);
    } else {
      assert Holds(lines[p := l], pending - {p}, p, l.tag);
    }
  }
}
