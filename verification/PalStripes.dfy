/** How the numbering of PalModel strides over the device: which digit of which index each field of an address is. The
    dimension named first varies fastest, units spread over the dimensions of the superblock, superblocks over the
    others. */
module PalStripes {
  import opened Helpers
  import opened PalModel

  /** Position i of the order names a dimension of the superblock (inner), or of the numbering of superblocks. */
  predicate Strides(l: Layout, i: nat, inner: bool)
    requires i < |l.order|
  {
    && !(l.multi && l.order[i] == Plane)
    && (l.order[i] in l.mask <==> inner)
  }

  /** The distance between two indices that differ by one in the digit at position k: the product of the sizes at the
      positions from i up to it. */
  function Stride(g: Geometry, l: Layout, i: nat, k: nat, inner: bool): nat
    requires i <= k <= |l.order|
    decreases k - i
  {
    if i == k then 1 else (if Strides(l, i, inner) then g.Size(l.order[i]) else 1) * Stride(g, l, i + 1, k, inner)
  }

  lemma StridePositive(g: Geometry, l: Layout, i: nat, k: nat, inner: bool)
    requires g.Sane() && i <= k <= |l.order|
    ensures 0 < Stride(g, l, i, k, inner)
    decreases k - i
  {
    if i < k {
      StridePositive(g, l, i + 1, k, inner);
      MulMonotone(1, if Strides(l, i, inner) then g.Size(l.order[i]) else 1, Stride(g, l, i + 1, k, inner));
    }
  }

  lemma DivDiv(x: nat, n: nat, m: nat)
    requires 0 < n && 0 < m
    ensures 0 < n * m && (x / n) / m == x / (n * m)
  {
    MulMonotone(1, n, m);
    var q, r := x / n, x % n;
    var p, s := q / m, q % m;
    Recompose(x, n);
    Recompose(q, m);
    assert n * q == n * (s + m * p) == n * s + n * (m * p);
    Regroup(n, m, p);
    assert n * (m * p) == p * (n * m);
    MulMonotone(s + 1, m, n);
    DivModUnique(x, n * m, p, n * s + r);
  }

  lemma DecodeFirst(g: Geometry, l: Layout, i: nat, inner: bool, x: nat, a: Address)
    requires g.Sane() && i < |l.order|
    ensures 0 < g.Size(l.order[i])
    ensures var d, rest := l.order[i], l.Digits(l.order[i + 1..], inner);
      Decode(g, l.Digits(l.order[i..], inner), x, a) ==
      if Strides(l, i, inner) then Decode(g, rest, x / g.Size(d), a.Put(d, x % g.Size(d))) else Decode(g, rest, x, a)
  {
    hide Decode, Layout.Digits, Geometry.Size, Address.Put;
    DigitsStep(l, l.order, i, inner);
    SizePositive(g, l.order[i]);
    var rest := l.Digits(l.order[i + 1..], inner);
    assert [] + rest == rest;
    DecodeStep(g, l.order[i], rest, x, a);
  }

  /** Decoding writes into the dimension at position k the digit of its stride. */
  lemma {:induction false} DigitAt(g: Geometry, l: Layout, i: nat, k: nat, inner: bool, x: nat, a: Address)
    requires g.Sane() && l.Sane() && i <= k < |l.order| && Strides(l, k, inner)
    ensures 0 < Stride(g, l, i, k, inner) && 0 < g.Size(l.order[k])
    ensures Decode(g, l.Digits(l.order[i..], inner), x, a).addr.Get(l.order[k]) ==
            (x / Stride(g, l, i, k, inner)) % g.Size(l.order[k])
    decreases k - i
  {
    hide Decode, Layout.Digits, Geometry.Size, Address.Put, Address.Get;
    StridePositive(g, l, i, k, inner);
    DecodeFirst(g, l, i, inner, x, a);
    var d, n := l.order[i], g.Size(l.order[i]);
    if i == k {
      LaterDigits(g, l, k, inner, x / n, a.Put(d, x % n));
      PutThenGet(a, d, x % n);
    } else if Strides(l, i, inner) {
      DigitAt(g, l, i + 1, k, inner, x / n, a.Put(d, x % n));
      DivDiv(x, n, Stride(g, l, i + 1, k, inner));
    } else {
      DigitAt(g, l, i + 1, k, inner, x, a);
    }
  }

  lemma PutThenGet(a: Address, d: Dim, v: nat)
    ensures a.Put(d, v).Get(d) == v
  {
  }

  /** The digits after position k leave that dimension alone. */
  lemma LaterDigits(g: Geometry, l: Layout, k: nat, inner: bool, x: nat, a: Address)
    requires g.Sane() && l.Sane() && k < |l.order|
    ensures Decode(g, l.Digits(l.order[k + 1..], inner), x, a).addr.Get(l.order[k]) == a.Get(l.order[k])
  {
    hide Layout.Digits, Geometry.Size, Decode;
    var rest := l.order[k + 1..];
    DigitsDistinct(l, rest, inner);
    DecodeWrites(g, l.Digits(rest, inner), x, a);
    forall j | 0 <= j < |rest|
      ensures rest[j] != l.order[k]
    {
      assert rest[j] == l.order[k + 1 + j];
    }
    assert l.order[k] !in l.Digits(rest, inner);
  }

  /** What is left of an index once the digits from position i on have been peeled off. */
  lemma {:induction false} RestFrom(g: Geometry, l: Layout, i: nat, inner: bool, x: nat, a: Address)
    requires g.Sane() && i <= |l.order|
    ensures 0 < Stride(g, l, i, |l.order|, inner)
    ensures Decode(g, l.Digits(l.order[i..], inner), x, a).rest == x / Stride(g, l, i, |l.order|, inner)
    decreases |l.order| - i
  {
    hide Decode, Layout.Digits, Geometry.Size, Address.Put, Strides;
    StridePositive(g, l, i, |l.order|, inner);
    if i < |l.order| {
      DecodeFirst(g, l, i, inner, x, a);
      var d, n := l.order[i], g.Size(l.order[i]);
      if Strides(l, i, inner) {
        RestFrom(g, l, i + 1, inner, x / n, a.Put(d, x % n));
        DivDiv(x, n, Stride(g, l, i + 1, |l.order|, inner));
      } else {
        RestFrom(g, l, i + 1, inner, x, a);
      }
    } else {
      assert l.order[i..] == [];
      NoDigits(g, l, x, a);
    }
  }

  /** Where a unit lies, field by field. A dimension of the superblock holds the digit of the unit's index at its place
      in the order, so the one named first changes from each unit to the next; any other dimension holds the digit of
      the superblock's index, and the block number what is left of that. In multi-plane operation the plane is 0. */
  lemma {:induction false} FieldsOfUnit(g: Geometry, l: Layout, blockIndex: nat, unit: nat, page: nat, blank: Address,
                                        k: nat)
    requires g.Sane() && l.Sane() && k < 4
    ensures 0 < Stride(g, l, 0, k, true) && 0 < Stride(g, l, 0, k, false) && 0 < Stride(g, l, 0, 4, false)
    ensures 0 < g.Size(l.order[k])
    ensures var a, d := Locate(g, l, blockIndex, unit, page, blank), l.order[k];
      && a.Get(d) == (if l.multi && d == Plane then 0
                      else if d in l.mask then (unit / Stride(g, l, 0, k, true)) % g.Size(d)
                      else (blockIndex / Stride(g, l, 0, k, false)) % g.Size(d))
      && a.block == blockIndex / Stride(g, l, 0, 4, false) && a.page == page
  {
    hide Decode, Layout.Digits, Geometry.Size, Address.Get;
    assert l.order[0..] == l.order;
    var blank0, base := blank.(plane := 0), Base(g, l, blockIndex, page, blank);
    StridePositive(g, l, 0, k, true);
    StridePositive(g, l, 0, k, false);
    RestFrom(g, l, 0, false, blockIndex, blank0);
    SizePositive(g, l.order[k]);
    DigitsDistinct(l, l.order, true);
    DigitsDistinct(l, l.order, false);
    DecodeWrites(g, l.Inner(), unit, base);
    DecodeWrites(g, l.Outer(), blockIndex, blank0);
    BaseKeeps(Decode(g, l.Outer(), blockIndex, blank0), page, base, l.order[k]);
    if Strides(l, k, true) {
      DigitAt(g, l, 0, k, true, unit, base);
    } else if Strides(l, k, false) {
      DigitAt(g, l, 0, k, false, blockIndex, blank0);
    } else {
      PlaneOf(blank0);
    }
  }

  lemma PlaneOf(a: Address)
    ensures a.Get(Plane) == a.plane
  {
  }

  lemma BaseKeeps(s: Split, page: nat, base: Address, d: Dim)
    requires base == s.addr.(block := s.rest, page := page)
    ensures base.Get(d) == s.addr.Get(d)
  {
  }
}
