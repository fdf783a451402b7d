/** Where the flash abstraction puts each unit of each superblock (simplessd/pal/pal_old.cc and pal.cc): a mixed-radix
    numbering whose digits are the channel, the package, the die and the plane, in a configurable order. */
module PalModel {
  import opened Helpers

  datatype Dim = Channel | Package | Die | Plane

  datatype Geometry = Geometry(channel: nat, package: nat, die: nat, plane: nat, block: nat, pageSize: nat) {
    function Size(d: Dim): nat {
      match d
      case Channel => channel
      case Package => package
      case Die => die
      case Plane => plane
    }

    ghost predicate Sane() {
      0 < channel && 0 < package && 0 < die && 0 < plane && 0 < block && 0 < pageSize
    }
  }

  datatype Address = Address(channel: nat, package: nat, die: nat, plane: nat, block: nat, page: nat) {
    function Get(d: Dim): nat {
      match d
      case Channel => channel
      case Package => package
      case Die => die
      case Plane => plane
    }

    function Put(d: Dim, v: nat): Address {
      match d
      case Channel => this.(channel := v)
      case Package => this.(package := v)
      case Die => this.(die := v)
      case Plane => this.(plane := v)
    }
  }

  ghost predicate Distinct(dims: seq<Dim>) {
    forall i, j :: 0 <= i < j < |dims| ==> dims[i] != dims[j]
  }

  /** Page allocation order, least significant first; the dimensions a superblock spans; multi-plane operation. */
  datatype Layout = Layout(order: seq<Dim>, mask: set<Dim>, multi: bool) {
    ghost predicate Sane() {
      |order| == 4 && Distinct(order)
    }

    /** In multi-plane operation the plane is no digit at all. */
    predicate Counts(d: Dim) {
      d == Plane ==> !multi
    }

    /** The digits of a block index. */
    function Outer(): seq<Dim> {
      Digits(order, false)
    }

    /** The digits of a unit's index within its superpage. */
    function Inner(): seq<Dim> {
      Digits(order, true)
    }

    function Digits(dims: seq<Dim>, inner: bool): (r: seq<Dim>)
      ensures forall d :: d in r <==> d in dims && Counts(d) && (d in mask <==> inner)
      ensures |r| <= |dims|
      decreases |dims|
    {
      if dims == [] then []
      else
        (if Counts(dims[0]) && (dims[0] in mask <==> inner) then [dims[0]] else []) + Digits(dims[1..], inner)
    }
  }

  function Product(g: Geometry, dims: seq<Dim>): nat
    decreases |dims|
  {
    if dims == [] then 1 else g.Size(dims[0]) * Product(g, dims[1..])
  }

  datatype Split = Split(addr: Address, rest: nat)

  /** Peel the digits of x off into the address, least significant first. */
  function Decode(g: Geometry, dims: seq<Dim>, x: nat, a: Address): Split
    requires g.Sane()
    decreases |dims|
  {
    if dims == [] then Split(a, x)
    else Decode(g, dims[1..], x / g.Size(dims[0]), a.Put(dims[0], x % g.Size(dims[0])))
  }

  function Encode(g: Geometry, dims: seq<Dim>, a: Address, rest: nat): nat
    decreases |dims|
  {
    if dims == [] then rest else a.Get(dims[0]) + g.Size(dims[0]) * Encode(g, dims[1..], a, rest)
  }

  function SuperBlocks(g: Geometry, l: Layout): nat {
    g.block * Product(g, l.Outer())
  }

  function UnitsInSuperPage(g: Geometry, l: Layout): nat {
    Product(g, l.Inner())
  }

  /** The address of unit `unit` of page `page` of superblock `blockIndex`. The fields of `blank` hold nothing yet. */
  function Locate(g: Geometry, l: Layout, blockIndex: nat, unit: nat, page: nat, blank: Address): Address
    requires g.Sane()
  {
    Decode(g, l.Inner(), unit, Base(g, l, blockIndex, page, blank)).addr
  }

  /** The part of the address that the whole superpage shares. */
  function Base(g: Geometry, l: Layout, blockIndex: nat, page: nat, blank: Address): Address
    requires g.Sane()
  {
    var s := Decode(g, l.Outer(), blockIndex, blank.(plane := 0));
    s.addr.(block := s.rest, page := page)
  }

  function BlockIndexOf(g: Geometry, l: Layout, a: Address): nat {
    Encode(g, l.Outer(), a, a.block)
  }

  function UnitOf(g: Geometry, l: Layout, a: Address): nat {
    Encode(g, l.Inner(), a, 0)
  }

  ghost predicate InGeometry(g: Geometry, l: Layout, a: Address) {
    && a.channel < g.channel && a.package < g.package && a.die < g.die && a.block < g.block
    && (if l.multi then a.plane == 0 else a.plane < g.plane)
  }

  // ---- arithmetic --------------------------------------------------------------------------

  lemma Regroup(a: int, b: int, c: int)
    ensures a * (b * c) == b * (a * c)
  {
  }

  lemma DivMod(n: nat, q: nat, r: nat)
    requires r < n
    ensures (r + n * q) / n == q && (r + n * q) % n == r
  {
    var x := r + n * q;
    DivModUnique(x, n, q, r);
  }

  lemma Recompose(x: nat, n: nat)
    requires 0 < n
    ensures x % n + n * (x / n) == x && x % n < n
  {
  }

  /** x has its digits within bounds and its rest below `top` exactly when x is below the product of them all. */
  lemma QuotientBelow(x: nat, n: nat, p: nat)
    requires 0 < n
    ensures x / n < p <==> x < n * p
  {
    Recompose(x, n);
    if x / n < p {
      MulMonotone(x / n + 1, p, n);
    } else {
      MulMonotone(p, x / n, n);
    }
  }

  // ---- decoding and encoding are inverse ---------------------------------------------------

  lemma DistinctTail(dims: seq<Dim>)
    requires Distinct(dims) && dims != []
    ensures Distinct(dims[1..]) && dims[0] !in dims[1..]
  {
  }

  /** Decoding writes exactly the digits, each within its size, and no other field. */
  lemma {:induction false} DecodeWrites(g: Geometry, dims: seq<Dim>, x: nat, a: Address)
    requires g.Sane() && Distinct(dims)
    ensures var s := Decode(g, dims, x, a);
      && (forall d :: d in dims ==> s.addr.Get(d) < g.Size(d))
      && (forall d :: d !in dims ==> s.addr.Get(d) == a.Get(d))
      && s.addr.block == a.block && s.addr.page == a.page
    decreases |dims|
  {
    if dims != [] {
      DistinctTail(dims);
      DecodeWrites(g, dims[1..], x / g.Size(dims[0]), a.Put(dims[0], x % g.Size(dims[0])));
      forall d | d in dims
        ensures Decode(g, dims, x, a).addr.Get(d) < g.Size(d)
      {
        if d != dims[0] {
          assert d in dims[1..];
        }
      }
    }
  }

  /** What a decoded number encodes to is that number. */
  lemma {:induction false} EncodeDecode(g: Geometry, dims: seq<Dim>, x: nat, a: Address, b: Address)
    requires g.Sane() && Distinct(dims)
    requires var s := Decode(g, dims, x, a); forall d :: d in dims ==> b.Get(d) == s.addr.Get(d)
    ensures Encode(g, dims, b, Decode(g, dims, x, a).rest) == x
    decreases |dims|
  {
    if dims != [] {
      DistinctTail(dims);
      var n := g.Size(dims[0]);
      EncodeDecode(g, dims[1..], x / n, a.Put(dims[0], x % n), b);
      DecodeWrites(g, dims[1..], x / n, a.Put(dims[0], x % n));
      Recompose(x, n);
    }
  }

  /** Decoding an encoded address writes its digits back and leaves the rest. */
  lemma {:induction false} DecodeEncode(g: Geometry, dims: seq<Dim>, a: Address, rest: nat, b: Address)
    requires g.Sane() && Distinct(dims) && forall d :: d in dims ==> a.Get(d) < g.Size(d)
    ensures var s := Decode(g, dims, Encode(g, dims, a, rest), b);
      s.rest == rest && forall d :: d in dims ==> s.addr.Get(d) == a.Get(d)
    decreases |dims|
  {
    if dims != [] {
      DistinctTail(dims);
      var n, inner := g.Size(dims[0]), Encode(g, dims[1..], a, rest);
      var c := b.Put(dims[0], a.Get(dims[0]));
      DivMod(n, inner, a.Get(dims[0]));
      DecodeEncode(g, dims[1..], a, rest, c);
      DecodeWrites(g, dims[1..], inner, c);
    }
  }

  /** The rest of a decoded number is below `top` exactly when the number is below the product times `top`. */
  lemma {:induction false} RestBelow(g: Geometry, dims: seq<Dim>, x: nat, a: Address, top: nat)
    requires g.Sane()
    ensures Decode(g, dims, x, a).rest < top <==> x < top * Product(g, dims)
    decreases |dims|
  {
    if dims != [] {
      var n, p := g.Size(dims[0]), Product(g, dims[1..]);
      RestBelow(g, dims[1..], x / n, a.Put(dims[0], x % n), top);
      QuotientBelow(x, n, top * p);
      Regroup(n, top, p);
    }
  }

  // ---- the layout's digits -----------------------------------------------------------------

  lemma {:induction false} DigitsDistinct(l: Layout, dims: seq<Dim>, inner: bool)
    requires Distinct(dims)
    ensures Distinct(l.Digits(dims, inner))
    decreases |dims|
  {
    if dims != [] {
      DistinctTail(dims);
      DigitsDistinct(l, dims[1..], inner);
    }
  }

  /** Four distinct dimensions are all of them. */
  lemma OrderCovers(order: seq<Dim>, d: Dim)
    requires |order| == 4 && Distinct(order)
    ensures d in order
  {
    assert order[0] != order[1] && order[0] != order[2] && order[0] != order[3];
    assert order[1] != order[2] && order[1] != order[3] && order[2] != order[3];
  }

  // ---- the bijection -----------------------------------------------------------------------

  /** Every unit of every superblock has a physical address of its own: the address determines them. */
  lemma {:induction false} LocateThenFind(g: Geometry, l: Layout, blockIndex: nat, unit: nat, page: nat, blank: Address)
    requires g.Sane() && l.Sane()
    requires blockIndex < SuperBlocks(g, l) && unit < UnitsInSuperPage(g, l)
    ensures var a := Locate(g, l, blockIndex, unit, page, blank);
      && InGeometry(g, l, a) && a.page == page
      && BlockIndexOf(g, l, a) == blockIndex && UnitOf(g, l, a) == unit
  {
    hide Decode, Encode, Product, Geometry.Size, Address.Put, Layout.Digits;
    var outer, inner := l.Outer(), l.Inner();
    DigitsDistinct(l, l.order, false);
    DigitsDistinct(l, l.order, true);
    var blank0 := blank.(plane := 0);
    var s := Decode(g, outer, blockIndex, blank0);
    var base := Base(g, l, blockIndex, page, blank);
    var t := Decode(g, inner, unit, base);
    DecodeWrites(g, outer, blockIndex, blank0);
    DecodeWrites(g, inner, unit, base);
    RestBelow(g, outer, blockIndex, blank0, g.block);
    RestBelow(g, inner, unit, base, 1);
    forall d | d in outer
      ensures t.addr.Get(d) == s.addr.Get(d)
    {
      assert d !in inner;
    }
    EncodeDecode(g, outer, blockIndex, blank0, t.addr);
    EncodeDecode(g, inner, unit, base, t.addr);
    LocateInGeometry(g, l, blank0, s.addr, t.addr);
  }

  /** Every digit lies within its size once the outer and then the inner ones have been written. */
  lemma LocateInGeometry(g: Geometry, l: Layout, blank: Address, s: Address, t: Address)
    requires g.Sane() && l.Sane() && blank.plane == 0
    requires forall d :: if d in l.Outer() then s.Get(d) < g.Size(d) else s.Get(d) == blank.Get(d)
    requires forall d :: if d in l.Inner() then t.Get(d) < g.Size(d) else t.Get(d) == s.Get(d)
    ensures forall d: Dim :: l.Counts(d) ==> t.Get(d) < g.Size(d)
    ensures t.channel < g.channel && t.package < g.package && t.die < g.die
    ensures if l.multi then t.plane == 0 else t.plane < g.plane
  {
    forall d: Dim
      ensures l.Counts(d) ==> t.Get(d) < g.Size(d)
    {
      OrderCovers(l.order, d);
    }
    assert t.Get(Channel) < g.Size(Channel) && t.Get(Package) < g.Size(Package) && t.Get(Die) < g.Size(Die);
    assert l.Counts(Plane) ==> t.Get(Plane) < g.Size(Plane);
    assert Plane !in l.Outer() && Plane !in l.Inner() ==> t.Get(Plane) == blank.Get(Plane);
  }

  /** Every physical address is that of some unit of some superblock. */
  lemma {:induction false} FindThenLocate(g: Geometry, l: Layout, a: Address, blank: Address)
    requires g.Sane() && l.Sane() && InGeometry(g, l, a)
    ensures BlockIndexOf(g, l, a) < SuperBlocks(g, l) && UnitOf(g, l, a) < UnitsInSuperPage(g, l)
    ensures Locate(g, l, BlockIndexOf(g, l, a), UnitOf(g, l, a), a.page, blank) == a
  {
    var outer, inner := l.Outer(), l.Inner();
    DigitsDistinct(l, l.order, false);
    DigitsDistinct(l, l.order, true);
    assert forall d :: d in outer + inner ==> a.Get(d) < g.Size(d);
    var blank0, x, u := blank.(plane := 0), BlockIndexOf(g, l, a), UnitOf(g, l, a);
    var base := Base(g, l, x, a.page, blank);
    DecodeEncode(g, outer, a, a.block, blank0);
    DecodeEncode(g, inner, a, 0, base);
    RestBelow(g, outer, x, blank0, g.block);
    RestBelow(g, inner, u, base, 1);
    DecodeWrites(g, outer, x, blank0);
    DecodeWrites(g, inner, u, base);
    var t := Locate(g, l, x, u, a.page, blank);
    forall d: Dim
      ensures t.Get(d) == a.Get(d)
    {
      OrderCovers(l.order, d);
      if l.Counts(d) && d !in l.mask {
        assert d in outer && d !in inner;
      } else if l.Counts(d) {
        assert d in inner;
      } else {
        assert d !in outer && d !in inner;
      }
    }
    assert t.Get(Channel) == a.Get(Channel) && t.Get(Package) == a.Get(Package);
    assert t.Get(Die) == a.Get(Die) && t.Get(Plane) == a.Get(Plane);
  }

  /** So no two units of the device share an address. */
  lemma LocateIsInjective(g: Geometry, l: Layout, b1: nat, u1: nat, b2: nat, u2: nat, page: nat, blank: Address)
    requires g.Sane() && l.Sane()
    requires b1 < SuperBlocks(g, l) && u1 < UnitsInSuperPage(g, l)
    requires b2 < SuperBlocks(g, l) && u2 < UnitsInSuperPage(g, l)
    requires Locate(g, l, b1, u1, page, blank) == Locate(g, l, b2, u2, page, blank)
    ensures b1 == b2 && u1 == u2
  {
    LocateThenFind(g, l, b1, u1, page, blank);
    LocateThenFind(g, l, b2, u2, page, blank);
  }

  // ---- the sizes do not depend on the order ------------------------------------------------

  function Factor(g: Geometry, dims: set<Dim>, d: Dim): nat {
    if d in dims then g.Size(d) else 1
  }

  lemma ProductNonNegative(a: nat, b: nat)
    ensures 0 <= a * b
  {
  }

  function Volume(g: Geometry, dims: set<Dim>): nat {
    var (c, p, d) := (Factor(g, dims, Channel), Factor(g, dims, Package), Factor(g, dims, Die));
    ProductNonNegative(c, p);
    ProductNonNegative(c * p, d);
    ProductNonNegative(c * p * d, Factor(g, dims, Plane));
    Factor(g, dims, Channel) * Factor(g, dims, Package) * Factor(g, dims, Die) * Factor(g, dims, Plane)
  }

  lemma PullOut(a: int, b: int, c: int, d: int)
    ensures a * b * c * d == a * (1 * b * c * d) == b * (a * 1 * c * d) == c * (a * b * 1 * d) == d * (a * b * c * 1)
  {
    Regroup(a, b, c * d);
    Regroup(a * b, c, d);
    Regroup(a, c, d);
    assert a * b * c * d == a * (b * (c * d));
    assert a * c * d == a * (c * d);
    assert a * b * c * d == (a * b) * (c * d);
  }

  lemma VolumeGrows(g: Geometry, dims: set<Dim>, d: Dim)
    requires d !in dims
    ensures Volume(g, dims + {d}) == g.Size(d) * Volume(g, dims)
  {
    var more := dims + {d};
    PullOut(Factor(g, more, Channel), Factor(g, more, Package), Factor(g, more, Die), Factor(g, more, Plane));
  }

  lemma {:induction false} ProductIsVolume(g: Geometry, dims: seq<Dim>)
    requires Distinct(dims)
    ensures Product(g, dims) == Volume(g, set d | d in dims)
    decreases |dims|
  {
    if dims == [] {
      assert (set d | d in dims) == {};
    } else {
      DistinctTail(dims);
      ProductIsVolume(g, dims[1..]);
      var tail := set d | d in dims[1..];
      assert (set d | d in dims) == tail + {dims[0]};
      VolumeGrows(g, tail, dims[0]);
    }
  }

  // ---- one digit at a time -----------------------------------------------------------------

  lemma DigitsStep(l: Layout, dims: seq<Dim>, i: nat, inner: bool)
    requires i < |dims|
    ensures l.Digits(dims[i..], inner) ==
            (if l.Counts(dims[i]) && (dims[i] in l.mask <==> inner) then [dims[i]] else []) +
            l.Digits(dims[i + 1..], inner)
  {
    assert dims[i..][1..] == dims[i + 1..];
  }

  lemma SizePositive(g: Geometry, d: Dim)
    requires g.Sane()
    ensures 0 < g.Size(d)
  {
  }

  lemma NoDigits(g: Geometry, l: Layout, x: nat, a: Address)
    requires g.Sane()
    ensures Decode(g, [], x, a) == Split(a, x) && l.Digits([], true) == l.Digits([], false) == []
  {
  }

  lemma DecodeStep(g: Geometry, d: Dim, dims: seq<Dim>, x: nat, a: Address)
    requires g.Sane()
    ensures Decode(g, [d] + dims, x, a) == Decode(g, dims, x / g.Size(d), a.Put(d, x % g.Size(d)))
  {
    assert ([d] + dims)[1..] == dims;
  }
}
