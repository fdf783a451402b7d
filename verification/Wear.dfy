/** The wear statistics of simplessd/ftl/page_mapping.cc (calculateWearLeveling): erase counts and their
    squares, summed over the block map and the free list. */
module Wear {
  import opened Blocks
  import opened FtlInvariant

  function Square(e: nat): nat {
    e * e
  }

  datatype Sums = Sums(count: nat, total: nat, squares: nat) {
    /** The statistics after one more block with the given erase count. */
    function Add(e: nat): Sums {
      Sums(count + 1, total + e, squares + Square(e))
    }
  }

  ghost function Pick(ids: set<nat>): (b: nat)
    requires ids != {}
    ensures b in ids
  {
    var b :| b in ids;
    b
  }

  /** The erase counts of the blocks with the given indices, in any order. */
  ghost function SetSums(ids: set<nat>, blocks: map<nat, Block>): Sums
    requires ids <= blocks.Keys
  {
    if ids == {} then Sums(0, 0, 0)
    else
      SetSums(ids - {Pick(ids)}, blocks).Add(blocks[Pick(ids)].eraseCount)
  }

  /** The blocks counted so far, then the free blocks one by one. */
  function ListSums(s: Sums, free: seq<Block>): Sums {
    if free == [] then s else ListSums(s, free[..|free| - 1]).Add(free[|free| - 1].eraseCount)
  }

  /** What calculateWearLeveling is meant to sum: every block in use and every free block. */
  ghost function AllSums(blocks: map<nat, Block>, free: seq<Block>): Sums {
    ListSums(SetSums(blocks.Keys, blocks), free)
  }

  lemma {:induction false} SetSumsAnyOrder(ids: set<nat>, blocks: map<nat, Block>, b: nat)
    requires ids <= blocks.Keys && b in ids
    ensures SetSums(ids, blocks) == SetSums(ids - {b}, blocks).Add(blocks[b].eraseCount)
    decreases ids
  {
    hide Square, Pick;
    var x := Pick(ids);
    if x != b {
      SetSumsAnyOrder(ids - {x}, blocks, b);
      SetSumsAnyOrder(ids - {b}, blocks, x);
      assert ids - {x} - {b} == ids - {b} - {x};
    }
  }

  lemma {:induction false} SetSumsCount(ids: set<nat>, blocks: map<nat, Block>)
    requires ids <= blocks.Keys
    ensures SetSums(ids, blocks).count == |ids|
    decreases ids
  {
    if ids != {} {
      var b := Pick(ids);
      SetSumsCount(ids - {b}, blocks);
    }
  }

  ghost predicate CauchySchwarz(s: Sums) {
    s.total * s.total <= s.count * s.squares
  }

  lemma NonNegativeFactor(n: int, d: int)
    requires 0 < n && 0 <= n * d
    ensures 0 <= d
  {
  }

  lemma Expands(n: int, t: int, q: int, e: int)
    ensures n * (q + n * (e * e) - 2 * (t * e)) == n * q + (n * e) * (n * e) - 2 * (t * (n * e))
  {
    assert n * (n * (e * e)) == (n * e) * (n * e);
    assert n * (2 * (t * e)) == 2 * (t * (n * e));
  }

  lemma SquareOfDifference(a: int, b: int)
    ensures 0 <= (a - b) * (a - b) == a * a + b * b - 2 * (a * b)
  {
  }

  lemma CauchySchwarzAdd(s: Sums, e: nat)
    requires CauchySchwarz(s)
    ensures CauchySchwarz(s.Add(e))
  {
    var n, t, q := s.count, s.total, s.squares;
    if n == 0 {
      assert t * t <= 0;
      assert t == 0;
    } else {
      // n(q + ne² - 2te) >= t² + n²e² - 2tne = (t - ne)² >= 0
      var d := q + n * (e * e) - 2 * (t * e);
      Expands(n, t, q, e);
      SquareOfDifference(t, n * e);
      assert n * d >= 0;
      NonNegativeFactor(n, d);
      assert (t + e) * (t + e) == t * t + 2 * (t * e) + e * e;
      assert (n + 1) * (q + e * e) == n * q + n * (e * e) + q + e * e;
    }
  }

  lemma {:induction false} SetSumsCauchy(ids: set<nat>, blocks: map<nat, Block>)
    requires ids <= blocks.Keys
    ensures CauchySchwarz(SetSums(ids, blocks))
    decreases ids
  {
    if ids != {} {
      var b := Pick(ids);
      SetSumsCauchy(ids - {b}, blocks);
      CauchySchwarzAdd(SetSums(ids - {b}, blocks), blocks[b].eraseCount);
    }
  }

  lemma {:induction false} ListSumsCauchy(s: Sums, free: seq<Block>)
    requires CauchySchwarz(s)
    ensures CauchySchwarz(ListSums(s, free)) && ListSums(s, free).count == s.count + |free|
  {
    if free != [] {
      ListSumsCauchy(s, free[..|free| - 1]);
      CauchySchwarzAdd(ListSums(s, free[..|free| - 1]), free[|free| - 1].eraseCount);
    }
  }

  /** The squared sum of erase counts is at most the number of blocks times the sum of their squares, so the
      wear factor the code derives from the two is at most the ratio of those blocks to the logical ones. */
  lemma {:induction false} WearBound(blocks: map<nat, Block>, free: seq<Block>)
    ensures var s := AllSums(blocks, free);
      && s.count == |blocks| + |free|
      && s.total * s.total <= (|blocks| + |free|) * s.squares
  {
    SetSumsCount(blocks.Keys, blocks);
    SetSumsCauchy(blocks.Keys, blocks);
    ListSumsCauchy(SetSums(blocks.Keys, blocks), free);
    assert |blocks.Keys| == |blocks|;
  }

  /** In a sorted list the blocks in front of a never-erased one have never been erased either, so a sum taken
      from the back may stop there. */
  lemma {:induction false} SortedPrefixUnworn(s: Sums, free: seq<Block>, n: nat)
    requires Sorted(free) && n < |free| && free[n].eraseCount == 0
    ensures ListSums(s, free[..n + 1]).total == s.total
    ensures ListSums(s, free[..n + 1]).squares == s.squares
  {
    assert free[..n + 1][..n] == free[..n];
    if n > 0 {
      assert free[n - 1].eraseCount <= free[n].eraseCount;
      SortedPrefixUnworn(s, free, n - 1);
    } else {
      assert free[..0] == [];
    }
  }

  method SumInUse(blocks: map<nat, Block>) returns (total: nat, squares: nat)
    ensures total == SetSums(blocks.Keys, blocks).total && squares == SetSums(blocks.Keys, blocks).squares
  {
    hide Square;
    total, squares := 0, 0;
    var todo := blocks.Keys;
    ghost var done: set<nat> := {};
    while todo != {}
      invariant todo !! done && todo + done == blocks.Keys
      invariant total == SetSums(done, blocks).total && squares == SetSums(done, blocks).squares
      decreases todo
    {
      var b :| b in todo;
      SetSumsAnyOrder(done + {b}, blocks, b);
      assert done + {b} - {b} == done;
      total := total + blocks[b].eraseCount;
      squares := squares + Square(blocks[b].eraseCount);
      todo, done := todo - {b}, done + {b};
    }
    assert done == blocks.Keys;
  }

  /** The reverse loop over the free list, from sums s onwards. */
  method SumFree(free: seq<Block>, ghost s: Sums, total0: nat, squares0: nat) returns (total: nat, squares: nat)
    requires Sorted(free) && total0 == s.total && squares0 == s.squares
    ensures total == ListSums(s, free).total && squares == ListSums(s, free).squares
  {
    hide Square;
    total, squares := total0, squares0;
    var i := |free|;
    assert free[..i] == free;
    while i > 0 && free[i - 1].eraseCount != 0
      invariant 0 <= i <= |free|
      invariant total + ListSums(s, free[..i]).total == s.total + ListSums(s, free).total
      invariant squares + ListSums(s, free[..i]).squares == s.squares + ListSums(s, free).squares
    {
      assert free[..i][..i - 1] == free[..i - 1];
      total := total + free[i - 1].eraseCount;
      squares := squares + Square(free[i - 1].eraseCount);
      i := i - 1;
    }
    if i > 0 {
      SortedPrefixUnworn(s, free, i - 1);
    } else {
      assert free[..0] == [];
    }
  }

  /** calculateWearLeveling: sums over the block map, then over the free list from the back until a block was
      never erased; the two sums are those over all blocks. Without any erase there is no factor. */
  method CalculateWearLeveling(blocks: map<nat, Block>, free: seq<Block>, logicalBlocks: nat)
    returns (total: nat, squares: nat, factor: real)
    requires Sorted(free) && 0 < logicalBlocks
    ensures total == AllSums(blocks, free).total && squares == AllSums(blocks, free).squares
    ensures squares == 0 ==> factor == -1.0
    ensures squares != 0 ==>
              && factor * (logicalBlocks * squares) as real == (total * total) as real
              && factor * logicalBlocks as real <= (|blocks| + |free|) as real
  {
    hide SetSums, ListSums, Square, FactorBound;
    total, squares := SumInUse(blocks);
    total, squares := SumFree(free, SetSums(blocks.Keys, blocks), total, squares);
    if squares == 0 {
      return total, squares, -1.0;
    }
    WearBound(blocks, free);
    factor := FactorBound(total, squares, |blocks| + |free|, logicalBlocks);
  }

  function FactorBound(total: nat, squares: nat, count: nat, logicalBlocks: nat): (factor: real)
    requires 0 < logicalBlocks && 0 < squares && total * total <= count * squares
    ensures factor * (logicalBlocks * squares) as real == (total * total) as real
    ensures factor * logicalBlocks as real <= count as real
  {
    var n, d := (total * total) as real, (logicalBlocks * squares) as real;
    assert 0 < logicalBlocks * squares;
    var f := n / d;
    assert f * d == n;
    assert d == logicalBlocks as real * squares as real;
    assert (f * logicalBlocks as real) * squares as real <= count as real * squares as real by {
      assert (f * logicalBlocks as real) * squares as real == f * d;
      assert (count * squares) as real == count as real * squares as real;
    }
    RealCancel(f * logicalBlocks as real, count as real, squares as real);
    f
  }

  lemma RealCancel(a: real, b: real, q: real)
    requires 0.0 < q && a * q <= b * q
    ensures a <= b
  {
  }
}
