/** The choice of victims through findVictimBlock (simplessd/ftl/page_mapping.cc), which sorts the vector it is given
    and returns the block in front, and is called several times on one vector. Which of several equally light blocks
    the sort puts in front is left open, as std::sort leaves it. */
module FtlVictims {
  import opened Outcome
  import opened Blocks
  import opened FtlSpec
  import opened FtlInvariant
  import opened FtlTheorems
  import opened FtlLimits
  import opened FtlSpace

  datatype Weight = Weight(block: nat, cached: nat, valid: nat)

  /** The order of the sort: fewest valid pages first, then most cached ones. */
  predicate Lighter(a: Weight, b: Weight) {
    if a.valid != b.valid then a.valid < b.valid else a.cached > b.cached
  }

  ghost predicate SortedByWeight(w: seq<Weight>) {
    forall i, j :: 0 <= i < j < |w| ==> !Lighter(w[j], w[i])
  }

  /** One call on vector w: it leaves the vector sorted as w', and returns the block in front. */
  ghost predicate Finds(w: seq<Weight>, w': seq<Weight>, b: nat) {
    multiset(w') == multiset(w) && SortedByWeight(w') && w' != [] && w'[0].block == b
  }

  /** The victim list that calls on vector w, one for each entry, can produce. */
  ghost predicate Lists(w: seq<Weight>, list: seq<nat>)
    decreases |list|
  {
    list != [] ==> exists w' :: Finds(w, w', list[0]) && Lists(w', list[1..])
  }

  lemma SameElements(w: seq<Weight>, w': seq<Weight>, y: Weight)
    requires multiset(w') == multiset(w)
    ensures y in w <==> y in w'
  {
    assert y in w <==> y in multiset(w);
    assert y in w' <==> y in multiset(w');
  }

  // ---- what can come out -------------------------------------------------------------------

  ghost predicate Least(w: seq<Weight>, x: Weight) {
    x in w && forall y :: y in w ==> !Lighter(y, x)
  }

  /** The blocks than which none is lighter. */
  ghost function LeastBlocks(w: seq<Weight>): set<nat> {
    set x | x in w && Least(w, x) :: x.block
  }

  lemma SameLeast(w: seq<Weight>, w': seq<Weight>)
    requires multiset(w') == multiset(w)
    ensures LeastBlocks(w') == LeastBlocks(w)
  {
    forall y: Weight
      ensures y in w <==> y in w'
    {
      SameElements(w, w', y);
    }
    assert forall x: Weight :: x in w ==> (Least(w, x) <==> Least(w', x));
  }

  /** A vector can be sorted so that any of its least entries stands in front. */
  lemma {:induction false} SortWithFront(w: seq<Weight>, x: Weight) returns (r: seq<Weight>)
    requires Least(w, x)
    ensures multiset(r) == multiset(w) && SortedByWeight(r) && r != [] && r[0] == x
    decreases |w|
  {
    var k :| 0 <= k < |w| && w[k] == x;
    var rest := w[..k] + w[k + 1..];
    assert w == w[..k] + [x] + w[k + 1..];
    if rest == [] {
      r := [x];
    } else {
      var y := SomeLeast(rest);
      var tail := SortWithFront(rest, y);
      r := [x] + tail;
      forall z | z in tail
        ensures !Lighter(z, x)
      {
        SameElements(rest, tail, z);
      }
    }
  }

  lemma {:induction false} SomeLeast(w: seq<Weight>) returns (x: Weight)
    requires w != []
    ensures Least(w, x)
    decreases |w|
  {
    x := w[0];
    if |w| > 1 {
      var y := SomeLeast(w[1..]);
      assert forall z :: z in w ==> z == w[0] || z in w[1..];
      x := if Lighter(w[0], y) then w[0] else y;
    }
  }

  /** One call can return exactly the least blocks. */
  lemma FindsIff(w: seq<Weight>, b: nat)
    ensures (exists w' :: Finds(w, w', b)) <==> b in LeastBlocks(w)
  {
    if exists w' :: Finds(w, w', b) {
      var w' :| Finds(w, w', b);
      assert Least(w', w'[0]);
      SameLeast(w, w');
    }
    if b in LeastBlocks(w) {
      var x :| x in w && Least(w, x) && x.block == b;
      var w' := SortWithFront(w, x);
      assert Finds(w, w', b);
    }
  }

  /** So can each of several: the lists that can come out are exactly those of least blocks. */
  lemma {:induction false} ListsIff(w: seq<Weight>, list: seq<nat>)
    ensures Lists(w, list) <==> forall i :: 0 <= i < |list| ==> list[i] in LeastBlocks(w)
    decreases |list|
  {
    if list != [] {
      var b, rest := list[0], list[1..];
      FindsIff(w, b);
      forall w' | Finds(w, w', b)
        ensures Lists(w', rest) <==> forall i :: 0 <= i < |rest| ==> rest[i] in LeastBlocks(w)
      {
        ListsIff(w', rest);
        SameLeast(w, w');
      }
      assert forall i :: 1 <= i < |list| ==> list[i] == rest[i - 1];
    }
  }

  ghost predicate AllDiffer(list: seq<nat>) {
    forall i, j :: 0 <= i < j < |list| ==> list[i] != list[j]
  }

  lemma {:induction false} DistinctFit(list: seq<nat>, blocks: set<nat>)
    requires AllDiffer(list) && forall i :: 0 <= i < |list| ==> list[i] in blocks
    ensures |list| <= |blocks|
    decreases |list|
  {
    if list != [] {
      var n := |list| - 1;
      DistinctFit(list[..n], blocks - {list[n]});
    }
  }

  lemma {:induction false} SomeDistinct(blocks: set<nat>, n: nat) returns (list: seq<nat>)
    requires n <= |blocks|
    ensures |list| == n && AllDiffer(list) && forall i :: 0 <= i < |list| ==> list[i] in blocks
    decreases n
  {
    if n == 0 {
      list := [];
    } else {
      var b :| b in blocks;
      var rest := SomeDistinct(blocks - {b}, n - 1);
      list := [b] + rest;
    }
  }

  /** n calls can return n different victims if and only if n blocks are equally light, and lightest. */
  lemma DistinctListIff(w: seq<Weight>, n: nat)
    ensures (exists list :: |list| == n && Lists(w, list) && AllDiffer(list)) <==> n <= |LeastBlocks(w)|
  {
    if list :| |list| == n && Lists(w, list) && AllDiffer(list) {
      ListsIff(w, list);
      DistinctFit(list, LeastBlocks(w));
    }
    if n <= |LeastBlocks(w)| {
      var list := SomeDistinct(LeastBlocks(w), n);
      ListsIff(w, list);
    }
  }

  // ---- what becomes of the collection ------------------------------------------------------

  /** The vector weighs full blocks in use by their valid pages. */
  ghost predicate Weighs(c: Config, s: State, w: seq<Weight>) {
    forall x :: x in w ==> x.block in s.blocks && s.blocks[x.block].next == c.pages
                           && |s.blocks[x.block].valid| == x.valid
  }

  /** Asking for more victims than there are lightest blocks always aborts the collection; asking for no more can give a
      list that only a shortage of free blocks, or a lane that has lost its block, can stop. */
  lemma {:induction false} RepeatedChoiceAborts(c: Config, s: State, w: seq<Weight>, n: nat)
    requires Invariant(c, s) && Weighs(c, s, w)
    ensures n > |LeastBlocks(w)| ==>
              forall list :: |list| == n && Lists(w, list) ==> CollectGarbage(c, s, list).Panic?
    ensures n <= |LeastBlocks(w)| ==>
              exists list :: |list| == n && Lists(w, list) && Victims(c, s, list)
                && (CollectGarbage(c, s, list).Ok? || Unavoidable(c, CollectGarbage(c, s, list).fault))
  {
    hide CollectGarbage, Invariant, Lighter, Finds, Lists;
    DistinctListIff(w, n);
    if n > |LeastBlocks(w)| {
      forall list | |list| == n && Lists(w, list)
        ensures CollectGarbage(c, s, list).Panic?
      {
        ListedAreFull(c, s, w, list);
        CollectGarbageNeedsDistinctVictims(c, s, list);
      }
    } else {
      var list :| |list| == n && Lists(w, list) && AllDiffer(list);
      ListedAreFull(c, s, w, list);
      CollectGarbageNeedsDistinctVictims(c, s, list);
    }
  }

  lemma ListedAreFull(c: Config, s: State, w: seq<Weight>, list: seq<nat>)
    requires Weighs(c, s, w) && Lists(w, list)
    ensures forall v :: v in list ==> v in s.blocks && s.blocks[v].next == c.pages
  {
    ListsIff(w, list);
  }

  /** With room for what the lightest blocks hold, the collection is sure to abort if and only if it asks for more
      victims than there are lightest blocks. */
  lemma {:induction false} AbortsForCertainIff(c: Config, s: State, w: seq<Weight>, n: nat, x: Weight)
    requires Invariant(c, s) && KeepsTrack(c) && Weighs(c, s, w) && Least(w, x) && n * x.valid < |s.free|
    ensures (forall list :: |list| == n && Lists(w, list) ==> CollectGarbage(c, s, list).Panic?) <==>
              n > |LeastBlocks(w)|
  {
    hide CollectGarbage, Invariant, Finds, Lists, ValidPages;
    RepeatedChoiceAborts(c, s, w, n);
    if n <= |LeastBlocks(w)| {
      DistinctListIff(w, n);
      var list :| |list| == n && Lists(w, list) && AllDiffer(list);
      ListsIff(w, list);
      ListedAreFull(c, s, w, list);
      LeastHold(c, s, w, list, 0, x);
      CollectGarbageSucceeds(c, s, list);
      assert CollectGarbage(c, s, list).Ok?;
    }
  }

  /** Least blocks hold equally many valid pages. */
  lemma {:induction false} LeastHold(c: Config, s: State, w: seq<Weight>, list: seq<nat>, i: nat, x: Weight)
    requires Weighs(c, s, w) && Least(w, x) && i <= |list|
    requires forall j :: 0 <= j < |list| ==> list[j] in LeastBlocks(w) && list[j] in s.blocks
    ensures ValidPages(s, list, i) == (|list| - i) * x.valid
    decreases |list| - i
  {
    if i < |list| {
      var y :| y in w && Least(w, y) && y.block == list[i];
      assert !Lighter(x, y) && !Lighter(y, x);
      LeastHold(c, s, w, list, i + 1, x);
      assert (|list| - i) * x.valid == x.valid + (|list| - i - 1) * x.valid;
    }
  }
}
