/** The imperative code behind PalModel: parsing the page allocation order (simplessd/pal/config.cc), deriving the
    sizes of superblock and superpage (pal.cc), and listing the addresses of one request (pal_old.cc). */
module PalConvert {
  import opened Helpers
  import opened PalModel

  // ---- the configuration -------------------------------------------------------------------

  datatype Slot = Unset | Is(d: Dim)

  /** The dimension a letter stands for; any other character is skipped. */
  function Letter(c: char): Slot {
    if c == 'C' || c == 'c' then Is(Channel)
    else if c == 'W' || c == 'w' then Is(Package)
    else if c == 'D' || c == 'd' then Is(Die)
    else if c == 'P' || c == 'p' then Is(Plane)
    else Unset
  }

  function Letters(s: string): seq<Dim> {
    if s == [] then []
    else Letters(s[..|s| - 1]) + (if Letter(s[|s| - 1]).Is? then [Letter(s[|s| - 1]).d] else [])
  }

  lemma NoLetters(s: string)
    ensures Letters(s[..0]) == [] && Distinct([])
  {
  }

  lemma LettersStep(s: string, n: nat)
    requires n < |s|
    ensures Letters(s[..n + 1]) == Letters(s[..n]) + (if Letter(s[n]).Is? then [Letter(s[n]).d] else [])
  {
    assert s[..n + 1][..n] == s[..n];
  }

  lemma {:induction false} LettersOfPrefix(s: string, n: nat)
    requires n <= |s|
    ensures Letters(s[..n]) <= Letters(s)
    decreases |s|
  {
    if n < |s| {
      assert s[..|s| - 1][..n] == s[..n];
      LettersOfPrefix(s[..|s| - 1], n);
    } else {
      assert s[..n] == s;
    }
  }

  /** The settings that are accepted: the first four letters name the four dimensions. */
  ghost predicate Accepted(setting: string) {
    |Letters(setting)| >= 4 && Distinct(Letters(setting)[..4])
  }

  ghost predicate IsLetter(c: char) {
    c in {'C', 'c', 'W', 'w', 'D', 'd', 'P', 'p'}
  }

  /** `at` are the first |at| positions of a character that names a dimension. */
  ghost predicate FirstLetters(setting: string, at: seq<nat>) {
    && (forall k :: 0 <= k < |at| ==> at[k] < |setting| && IsLetter(setting[at[k]]))
    && (forall j, k :: 0 <= j < k < |at| ==> at[j] < at[k])
    && forall i, k :: 0 <= k < |at| && 0 <= i < at[k] && IsLetter(setting[i]) ==> i in at
  }

  /** The characters at the positions include one for each dimension. */
  ghost predicate OneOfEach(setting: string, at: seq<nat>)
    requires FirstLetters(setting, at)
  {
    && (exists k :: 0 <= k < |at| && setting[at[k]] in {'C', 'c'})
    && (exists k :: 0 <= k < |at| && setting[at[k]] in {'W', 'w'})
    && (exists k :: 0 <= k < |at| && setting[at[k]] in {'D', 'd'})
    && (exists k :: 0 <= k < |at| && setting[at[k]] in {'P', 'p'})
  }

  /** The list of dimensions the characters at the positions name. */
  ghost predicate Spells(setting: string, at: seq<nat>, dims: seq<Dim>)
    requires FirstLetters(setting, at)
  {
    && |dims| == |at|
    && (forall k :: 0 <= k < |at| ==> (dims[k] == Channel <==> setting[at[k]] in {'C', 'c'}))
    && (forall k :: 0 <= k < |at| ==> (dims[k] == Package <==> setting[at[k]] in {'W', 'w'}))
    && (forall k :: 0 <= k < |at| ==> (dims[k] == Die <==> setting[at[k]] in {'D', 'd'}))
    && (forall k :: 0 <= k < |at| ==> (dims[k] == Plane <==> setting[at[k]] in {'P', 'p'}))
  }

  /** The positions of all the characters that name a dimension, and the list they spell. */
  lemma {:induction false} SpellAll(s: string) returns (at: seq<nat>)
    ensures FirstLetters(s, at) && Spells(s, at, Letters(s))
    ensures forall i :: 0 <= i < |s| && IsLetter(s[i]) ==> i in at
    decreases |s|
  {
    if s == [] {
      at := [];
    } else {
      var last := |s| - 1;
      at := SpellAll(s[..last]);
      SpellMore(s, at, Letters(s[..last]));
      if Letter(s[last]).Is? {
        at := at + [last];
      }
    }
  }

  /** One character more adds its own position and dimension if it names one. */
  lemma SpellMore(s: string, at: seq<nat>, dims: seq<Dim>)
    requires s != [] && FirstLetters(s[..|s| - 1], at) && Spells(s[..|s| - 1], at, dims)
    requires forall i :: 0 <= i < |s| - 1 && IsLetter(s[i]) ==> i in at
    ensures FirstLetters(s, at) && Spells(s, at, dims)
    ensures var c := Letter(s[|s| - 1]);
      c.Is? ==> FirstLetters(s, at + [|s| - 1]) && Spells(s, at + [|s| - 1], dims + [c.d])
  {
    var init := s[..|s| - 1];
    forall k | 0 <= k < |at|
      ensures s[at[k]] == init[at[k]]
    {
    }
    forall i, k | 0 <= k < |at| && 0 <= i < at[k] && IsLetter(s[i])
      ensures i in at
    {
      assert init[i] == s[i];
    }
  }

  /** The first four positions of a character that names a dimension, or all of them when there are fewer. */
  ghost predicate FirstFour(setting: string, at: seq<nat>) {
    && FirstLetters(setting, at) && |at| <= 4
    && (|at| < 4 ==> forall i :: 0 <= i < |setting| && IsLetter(setting[i]) ==> i in at)
  }

  /** Accepted in terms of the characters: four name a dimension, and the first four include one for each. */
  lemma AcceptedIff(s: string) returns (at: seq<nat>)
    ensures FirstFour(s, at) && (Accepted(s) <==> |at| == 4 && OneOfEach(s, at))
    ensures Accepted(s) ==> Spells(s, at, Letters(s)[..4])
  {
    at := SpellAll(s);
    if |at| >= 4 {
      at := at[..4];
      OneOfEachIff(s, at, Letters(s)[..4]);
    }
  }

  /** Four letters include one for each dimension exactly if they are distinct. */
  lemma OneOfEachIff(s: string, at: seq<nat>, dims: seq<Dim>)
    requires FirstLetters(s, at) && Spells(s, at, dims) && |dims| == 4
    ensures OneOfEach(s, at) <==> Distinct(dims)
  {
    if Distinct(dims) {
      OrderCovers(dims, Channel);
      OrderCovers(dims, Package);
      OrderCovers(dims, Die);
      OrderCovers(dims, Plane);
    } else if OneOfEach(s, at) {
      NamesAll(dims);
    }
  }

  /** A dimension is among the letters exactly if one of its two characters occurs. */
  lemma {:induction false} OccursIff(s: string)
    ensures Channel in Letters(s) <==> 'C' in s || 'c' in s
    ensures Package in Letters(s) <==> 'W' in s || 'w' in s
    ensures Die in Letters(s) <==> 'D' in s || 'd' in s
    ensures Plane in Letters(s) <==> 'P' in s || 'p' in s
    decreases |s|
  {
    if s != [] {
      var init := s[..|s| - 1];
      OccursIff(init);
      assert s == init + [s[|s| - 1]];
    }
  }

  function MovedFirst<T>(s: seq<T>, p: nat): seq<T>
    requires p < |s|
  {
    [s[p]] + s[..p] + s[p + 1..]
  }

  /** Appending to a list without duplicates keeps it so exactly when the element is new. */
  lemma Appended(dims: seq<Dim>, d: Dim)
    ensures Distinct(dims + [d]) <==> Distinct(dims) && d !in dims
  {
    var more := dims + [d];
    forall i, j | Distinct(more) && 0 <= i < j < |dims|
      ensures dims[i] != dims[j]
    {
      assert more[i] != more[j];
    }
    forall i | Distinct(more) && 0 <= i < |dims|
      ensures dims[i] != d
    {
      assert more[i] != more[|dims|];
    }
  }

  const ALL: set<Dim> := {Channel, Package, Die, Plane}

  /** At most four letters name every dimension exactly when they are four and distinct. */
  lemma AllNamed(dims: seq<Dim>, named: set<Dim>)
    requires |dims| <= 4 && named == set d | d in dims
    ensures named == ALL <==> |dims| == 4 && Distinct(dims)
  {
    if |dims| == 4 && Distinct(dims) {
      OrderCovers(dims, Channel);
      OrderCovers(dims, Package);
      OrderCovers(dims, Die);
      OrderCovers(dims, Plane);
    } else if named == ALL {
      NamesAll(dims);
    }
  }

  lemma NamesAll(dims: seq<Dim>)
    requires |dims| <= 4 && Channel in dims && Package in dims && Die in dims && Plane in dims
    ensures |dims| == 4 && Distinct(dims)
  {
  }

  lemma RotationDistinct(order: seq<Dim>, p: nat)
    requires p < |order| && Distinct(order)
    ensures Distinct(MovedFirst(order, p))
  {
    var m := MovedFirst(order, p);
    forall i, j | 0 <= i < j < |m|
      ensures m[i] != m[j]
    {
      var i', j' := if i == 0 then p else if i <= p then i - 1 else i, if j <= p then j - 1 else j;
      assert m[i] == order[i'] && m[j] == order[j'];
    }
  }

  lemma {:induction false} DigitsSplit(l: Layout, a: seq<Dim>, b: seq<Dim>, inner: bool)
    ensures l.Digits(a + b, inner) == l.Digits(a, inner) + l.Digits(b, inner)
    decreases |a|
  {
    if a == [] {
      assert a + b == b;
    } else {
      assert (a + b)[1..] == a[1..] + b;
      DigitsSplit(l, a[1..], b, inner);
    }
  }

  lemma PlaneIsNoDigit(l: Layout, inner: bool)
    requires l.multi
    ensures l.Digits([Plane], inner) == []
  {
  }

  /** In multi-plane operation it does not matter where the plane stands in the order. */
  lemma {:induction false} RotationKeepsDigits(l: Layout, order: seq<Dim>, p: nat, inner: bool)
    requires l.multi && p < |order| && order[p] == Plane
    ensures l.Digits(MovedFirst(order, p), inner) == l.Digits(order, inner)
  {
    hide Layout.Digits;
    var plane, a, b := [Plane], order[..p], order[p + 1..];
    assert MovedFirst(order, p) == plane + (a + b);
    assert order == a + (plane + b);
    DigitsSplit(l, plane, a + b, inner);
    DigitsSplit(l, a, b, inner);
    DigitsSplit(l, a, plane + b, inner);
    DigitsSplit(l, plane, b, inner);
    PlaneIsNoDigit(l, inner);
  }

  class Config {
    const useMultiPlane: bool
    const pageAllocation: array<Slot>
    var superblock: set<Dim>

    constructor (useMultiPlane: bool, superblock: set<Dim>)
      ensures this.useMultiPlane == useMultiPlane && this.superblock == superblock
      ensures fresh(pageAllocation) && pageAllocation.Length == 4
    {
      this.useMultiPlane, this.superblock := useMultiPlane, superblock;
      pageAllocation := new Slot[4](_ => Unset);
    }

    ghost predicate Holds(order: seq<Dim>)
      reads pageAllocation
    {
      pageAllocation.Length == 4 && |order| <= 4 && forall k :: 0 <= k < |order| ==> pageAllocation[k] == Is(order[k])
    }

    /** Record the letters up to the fourth. `fail` is raised unless they are the four dimensions in some order. */
    method ParseAllocation(setting: string) returns (fail: bool, ghost at: seq<nat>, ghost order: seq<Dim>)
      requires pageAllocation.Length == 4
      modifies pageAllocation
      ensures FirstFour(setting, at) && (fail <==> |at| < 4 || !OneOfEach(setting, at))
      ensures !fail ==> Holds(order) && Spells(setting, at, order)
    {
      hide Letters, Distinct;
      var i := 0;
      var check: set<Dim> := {};
      fail := false;
      var n := 0;
      NoLetters(setting);
      while n < |setting|
        invariant n <= |setting| && i == |Letters(setting[..n])| < 4
        invariant Holds(Letters(setting[..n]))
        invariant check == set d | d in Letters(setting[..n])
        invariant fail <==> !Distinct(Letters(setting[..n]))
        decreases |setting| - n
      {
        LettersStep(setting, n);
        var letter := Letter(setting[n]);
        ghost var before := Letters(setting[..n]);
        assert before + [] == before;
        if letter.Is? {
          assert Letters(setting[..n + 1]) == before + [letter.d];
          if letter.d in check {
            fail := true;
          }
          Appended(before, letter.d);
          pageAllocation[i] := letter;
          i := i + 1;
          check := check + {letter.d};
        }
        n := n + 1;
        if i == 4 {
          break;
        }
      }
      ghost var recorded := Letters(setting[..n]);
      LettersOfPrefix(setting, n);
      assert n == |setting| ==> setting[..n] == setting;
      assert i == 4 ==> recorded == Letters(setting)[..4];
      assert recorded[..|recorded|] == recorded;
      AllNamed(recorded, check);
      if check != ALL {
        fail := true;
      }
      at := AcceptedIff(setting);
      order := recorded;
    }

    /** Move entry i to the front, shifting the ones before it up by one. */
    method Rotate(i: nat)
      requires i < pageAllocation.Length
      modifies pageAllocation
      ensures pageAllocation[..] == MovedFirst(old(pageAllocation[..]), i)
    {
      var moved := pageAllocation[i];
      var j: int := i;
      while j > 0
        invariant 0 <= j <= i
        invariant forall k :: 0 <= k <= j ==> pageAllocation[k] == old(pageAllocation[k])
        invariant forall k :: j < k <= i ==> pageAllocation[k] == old(pageAllocation[k - 1])
        invariant forall k :: i < k < pageAllocation.Length ==> pageAllocation[k] == old(pageAllocation[k])
      {
        pageAllocation[j] := pageAllocation[j - 1];
        j := j - 1;
      }
      pageAllocation[0] := moved;
    }

    /** Only the first plane found moves, then the search stops. */
    method PlaneToFront()
      requires pageAllocation.Length == 4
      modifies pageAllocation
      ensures var was := old(pageAllocation[..]);
        if Is(Plane) !in was then pageAllocation[..] == was
        else exists p: nat :: p < 4 && was[p] == Is(Plane) && Is(Plane) !in was[..p] &&
                              pageAllocation[..] == MovedFirst(was, p)
    {
      ghost var was := pageAllocation[..];
      var i := 0;
      while i < 4
        invariant i <= 4 && pageAllocation[..] == was && Is(Plane) !in was[..i]
      {
        assert was[i] == pageAllocation[i];
        if pageAllocation[i] == Is(Plane) {
          Rotate(i);
          return;
        }
        i := i + 1;
      }
      assert was[..i] == was;
    }

    /** A dimension is in a mask that is set exactly if one of its two characters occurs; in multi-plane operation
        the plane always is. An empty setting leaves the mask as it was. */
    method ParseSuperblock(setting: string)
      modifies `superblock
      ensures setting == [] ==> superblock == old(superblock) + if useMultiPlane then {Plane} else {}
      ensures setting != [] ==>
                && (Channel in superblock <==> 'C' in setting || 'c' in setting)
                && (Package in superblock <==> 'W' in setting || 'w' in setting)
                && (Die in superblock <==> 'D' in setting || 'd' in setting)
                && (Plane in superblock <==> 'P' in setting || 'p' in setting || useMultiPlane)
    {
      if |setting| > 0 {
        superblock := {};
        var n := 0;
        while n < |setting|
          invariant n <= |setting| && superblock == set d | d in Letters(setting[..n])
        {
          assert setting[..n + 1][..n] == setting[..n];
          var letter := Letter(setting[n]);
          if letter.Is? {
            superblock := superblock + {letter.d};
          }
          n := n + 1;
        }
        assert setting[..n] == setting;
        OccursIff(setting);
      }
      if useMultiPlane {
        superblock := superblock + {Plane};
      }
    }

    /** A setting is refused exactly when its first four letters do not name each of the four dimensions. One that is
        accepted yields a sane layout whose digits, whatever the rotation, are those of the order as written. */
    method Update(allocation: string, superblockSetting: string)
      returns (ok: bool, ghost l: Layout, ghost at: seq<nat>, ghost written: seq<Dim>)
      requires pageAllocation.Length == 4
      modifies this`superblock, pageAllocation
      ensures FirstFour(allocation, at) && (ok <==> |at| == 4 && OneOfEach(allocation, at))
      ensures ok ==> |written| == 4 && forall k :: 0 <= k < 4 ==>
                && (written[k] == Channel <==> allocation[at[k]] == 'C' || allocation[at[k]] == 'c')
                && (written[k] == Package <==> allocation[at[k]] == 'W' || allocation[at[k]] == 'w')
                && (written[k] == Die <==> allocation[at[k]] == 'D' || allocation[at[k]] == 'd')
                && (written[k] == Plane <==> allocation[at[k]] == 'P' || allocation[at[k]] == 'p')
      ensures ok ==>
                && l.mask == superblock && l.multi == useMultiPlane && l.Sane() && Holds(l.order)
                && var plain := Layout(written, superblock, useMultiPlane);
                   l.Outer() == plain.Outer() && l.Inner() == plain.Inner()
      ensures ok && !useMultiPlane ==> l.order == written
      ensures ok && useMultiPlane ==> exists p :: 0 <= p < 4 && written[p] == Plane && l.order == MovedFirst(written, p)
      ensures !ok || superblockSetting == [] ==>
                superblock == old(superblock) + if ok && useMultiPlane then {Plane} else {}
      ensures ok && superblockSetting != [] ==>
                && (Channel in superblock <==> 'C' in superblockSetting || 'c' in superblockSetting)
                && (Package in superblock <==> 'W' in superblockSetting || 'w' in superblockSetting)
                && (Die in superblock <==> 'D' in superblockSetting || 'd' in superblockSetting)
                && (Plane in superblock <==> 'P' in superblockSetting || 'p' in superblockSetting || useMultiPlane)
    {
      var fail;
      fail, at, written := ParseAllocation(allocation);
      ghost var slots := pageAllocation[..];
      if useMultiPlane {
        PlaneToFront();
      }
      l := Layout([], {}, false);
      if fail {
        return false, l, at, written;
      }
      OneOfEachIff(allocation, at, written);
      ParseSuperblock(superblockSetting);
      l := Layout(written, superblock, useMultiPlane);
      if useMultiPlane {
        l := Rotated(l, slots);
      }
      return true, l, at, written;
    }

    /** What the rotation in place did to the layout as written. */
    lemma Rotated(l: Layout, slots: seq<Slot>) returns (rotated: Layout)
      requires l.Sane() && l.multi && |slots| == 4 == pageAllocation.Length
      requires forall k :: 0 <= k < 4 ==> slots[k] == Is(l.order[k])
      requires Is(Plane) in slots ==>
                 exists p :: 0 <= p < 4 && slots[p] == Is(Plane) && pageAllocation[..] == MovedFirst(slots, p)
      ensures rotated.mask == l.mask && rotated.multi && rotated.Sane() && Holds(rotated.order)
      ensures rotated.Outer() == l.Outer() && rotated.Inner() == l.Inner()
      ensures exists p :: 0 <= p < 4 && l.order[p] == Plane && rotated.order == MovedFirst(l.order, p)
    {
      hide Layout.Digits;
      OrderCovers(l.order, Plane);
      var w: nat :| w < 4 && l.order[w] == Plane;
      assert slots[w] == Is(Plane);
      var p: nat :| p < 4 && slots[p] == Is(Plane) && pageAllocation[..] == MovedFirst(slots, p);
      rotated := l.(order := MovedFirst(l.order, p));
      RotationDistinct(l.order, p);
      RotationKeepsDigits(l, l.order, p, false);
      RotationKeepsDigits(l, l.order, p, true);
      DigitsIgnoreOrder(l, rotated, rotated.order, false);
      DigitsIgnoreOrder(l, rotated, rotated.order, true);
      RotationHolds(l.order, slots, p);
    }

    lemma RotationHolds(written: seq<Dim>, slots: seq<Slot>, p: nat)
      requires |written| == 4 == |slots| == pageAllocation.Length && p < 4
      requires forall k :: 0 <= k < 4 ==> slots[k] == Is(written[k])
      requires pageAllocation[..] == MovedFirst(slots, p)
      ensures Holds(MovedFirst(written, p))
    {
      var m := MovedFirst(written, p);
      forall k | 0 <= k < 4
        ensures pageAllocation[k] == Is(m[k])
      {
        assert pageAllocation[k] == pageAllocation[..][k];
      }
    }
  }

  /** The digits of a list of dimensions depend on the mask and the mode, not on the order the layout has. */
  lemma {:induction false} DigitsIgnoreOrder(l: Layout, m: Layout, dims: seq<Dim>, inner: bool)
    requires l.mask == m.mask && l.multi == m.multi
    ensures l.Digits(dims, inner) == m.Digits(dims, inner)
    decreases |dims|
  {
    if dims != [] {
      DigitsIgnoreOrder(l, m, dims[1..], inner);
    }
  }

  // ---- the sizes ---------------------------------------------------------------------------

  ghost function OuterDims(mask: set<Dim>, multi: bool): set<Dim> {
    ALL - mask - (if multi then {Plane} else {})
  }

  ghost function InnerDims(mask: set<Dim>, multi: bool): set<Dim> {
    mask - (if multi then {Plane} else {})
  }

  /** The sizes are the same for every allocation order. */
  lemma SizesOfAnyOrder(g: Geometry, l: Layout)
    requires l.Sane()
    ensures SuperBlocks(g, l) == g.block * Volume(g, OuterDims(l.mask, l.multi))
    ensures UnitsInSuperPage(g, l) == Volume(g, InnerDims(l.mask, l.multi))
  {
    DigitsDistinct(l, l.order, false);
    DigitsDistinct(l, l.order, true);
    ProductIsVolume(g, l.Outer());
    ProductIsVolume(g, l.Inner());
    forall d: Dim
      ensures d in l.order && d in ALL
    {
      OrderCovers(l.order, d);
    }
    assert (set d | d in l.Outer()) == OuterDims(l.mask, l.multi);
    assert (set d | d in l.Inner()) == InnerDims(l.mask, l.multi);
  }

  lemma Divides(n: nat, x: nat)
    requires 0 < n
    ensures (x * n) / n == x
  {
    DivMod(n, x, 0);
  }

  lemma Associate(b: nat, c: nat, w: nat, d: nat, p: nat)
    ensures b * c * w * d * p == b * (c * w * d * p) == (c * w * d * p) * b
  {
    Regroup(b, c, w);
    assert b * c * w == b * (c * w);
    assert b * c * w * d == b * (c * w * d);
    assert b * c * w * d * p == b * (c * w * d * p);
  }

  class Pal {
    const g: Geometry
    const mask: set<Dim>
    const multi: bool
    var superBlock: nat
    var superPageSize: nat
    var pageInSuperPage: nat

    /** A dimension either belongs to the superblock and widens the superpage, or multiplies the superblocks. */
    method Span(included: bool, size: nat)
      modifies this
      ensures superPageSize == old(superPageSize) * (if included then size else 1)
      ensures superBlock == old(superBlock) * (if included then 1 else size)
    {
      if included {
        superPageSize := superPageSize * size;
      } else {
        superBlock := superBlock * size;
      }
    }

    /** The sizes derived step by step are those of the numbering: the products of its outer and inner digits. */
    constructor (g: Geometry, mask: set<Dim>, multi: bool)
      requires g.Sane()
      ensures this.g == g && this.mask == mask && this.multi == multi
      ensures forall l: Layout :: l.Sane() && l.mask == mask && l.multi == multi ==>
                superBlock == SuperBlocks(g, l) && pageInSuperPage == UnitsInSuperPage(g, l)
      ensures superPageSize == Volume(g, if multi then mask + {Plane} else mask) * g.pageSize
    {
      this.g, this.mask, this.multi := g, mask, multi;
      superBlock, superPageSize := g.block, g.pageSize;
      pageInSuperPage := 0;
      new;
      Span(Channel in mask, g.channel);
      Span(Package in mask, g.package);
      Span(Die in mask, g.die);
      Span(multi || Plane in mask, g.plane);
      hide Volume, SuperBlocks, UnitsInSuperPage;
      ghost var spanned := if multi then mask + {Plane} else mask;
      SizesUnrolled(g, OuterDims(mask, multi), g.block);
      SizesUnrolled(g, spanned, g.pageSize);
      Divides(g.pageSize, Volume(g, spanned));
      pageInSuperPage := superPageSize / g.pageSize;
      if multi {
        WithoutPlane(g, mask);
        pageInSuperPage := pageInSuperPage / g.plane;
      } else {
        assert InnerDims(mask, multi) == mask;
      }
      forall l: Layout | l.Sane() && l.mask == mask && l.multi == multi
        ensures superBlock == SuperBlocks(g, l) && pageInSuperPage == UnitsInSuperPage(g, l)
      {
        SizesOfAnyOrder(g, l);
      }
    }
  }

  lemma SizesUnrolled(g: Geometry, dims: set<Dim>, n: nat)
    ensures n * Factor(g, dims, Channel) * Factor(g, dims, Package) * Factor(g, dims, Die) * Factor(g, dims, Plane) ==
            n * Volume(g, dims) == Volume(g, dims) * n
  {
    Associate(n, Factor(g, dims, Channel), Factor(g, dims, Package), Factor(g, dims, Die), Factor(g, dims, Plane));
  }

  lemma WithoutPlane(g: Geometry, mask: set<Dim>)
    requires 0 < g.plane
    ensures Volume(g, mask + {Plane}) / g.plane == Volume(g, InnerDims(mask, true))
  {
    var inner := InnerDims(mask, true);
    assert mask + {Plane} == inner + {Plane};
    VolumeGrows(g, inner, Plane);
    Divides(g.plane, Volume(g, inner));
  }

  // ---- listing the addresses of a request --------------------------------------------------

  /** The positions of the set flags below n, in order. */
  function SetFlags(flags: seq<bool>, n: nat): (r: seq<nat>)
    requires n <= |flags|
    ensures forall i :: 0 <= i < |r| ==> r[i] < n && flags[r[i]]
    ensures forall i, j :: 0 <= i < j < |r| ==> r[i] < r[j]
    ensures forall u :: 0 <= u < n && flags[u] ==> u in r
  {
    if n == 0 then [] else SetFlags(flags, n - 1) + (if flags[n - 1] then [n - 1] else [])
  }

  /** The list holds the addresses of the units whose flags are set, below n. */
  ghost predicate Listed(g: Geometry, dims: seq<Dim>, base: Address, flags: seq<bool>, n: nat, list: seq<Address>)
    requires g.Sane()
  {
    && n <= |flags|
    && |list| == |SetFlags(flags, n)|
    && forall i :: 0 <= i < |list| ==> list[i] == Decode(g, dims, SetFlags(flags, n)[i], base).addr
  }

  /** The number that the given digits spell. */
  function Mix(g: Geometry, dims: seq<Dim>, digits: seq<nat>): nat
    requires |dims| == |digits|
    decreases |dims|
  {
    if dims == [] then 0 else digits[0] + g.Size(dims[0]) * Mix(g, dims[1..], digits[1..])
  }

  ghost predicate InRange(g: Geometry, dims: seq<Dim>, digits: seq<nat>) {
    |dims| == |digits| && forall i :: 0 <= i < |dims| ==> digits[i] < g.Size(dims[i])
  }

  function PutAll(a: Address, dims: seq<Dim>, digits: seq<nat>): Address
    requires |dims| == |digits|
    decreases |dims|
  {
    if dims == [] then a else PutAll(a.Put(dims[0], digits[0]), dims[1..], digits[1..])
  }

  /** The two addresses differ only in digits the nest is going to write. */
  ghost predicate SameBut(dims: seq<Dim>, a: Address, b: Address) {
    a.block == b.block && a.page == b.page && forall d: Dim :: d !in dims ==> a.Get(d) == b.Get(d)
  }

  lemma DigitBelow(n: nat, d: nat, m: nat, p: nat)
    requires d < n && m < p
    ensures d + n * m < n * p
  {
    MulMonotone(m + 1, p, n);
  }

  lemma {:induction false} MixBelow(g: Geometry, dims: seq<Dim>, digits: seq<nat>)
    requires InRange(g, dims, digits)
    ensures Mix(g, dims, digits) < Product(g, dims)
    decreases |dims|
  {
    if dims != [] {
      var n, m, p := g.Size(dims[0]), Mix(g, dims[1..], digits[1..]), Product(g, dims[1..]);
      assert InRange(g, dims[1..], digits[1..]);
      MixBelow(g, dims[1..], digits[1..]);
      DigitBelow(n, digits[0], m, p);
    }
  }

  /** Writing the digits of a number is decoding it. */
  lemma {:induction false} PutAllDecodes(g: Geometry, dims: seq<Dim>, digits: seq<nat>, a: Address, base: Address)
    requires g.Sane() && InRange(g, dims, digits) && SameBut(dims, a, base)
    ensures PutAll(a, dims, digits) == Decode(g, dims, Mix(g, dims, digits), base).addr
    decreases |dims|
  {
    if dims == [] {
      assert a.Get(Channel) == base.Get(Channel) && a.Get(Package) == base.Get(Package);
      assert a.Get(Die) == base.Get(Die) && a.Get(Plane) == base.Get(Plane);
    } else {
      var d := dims[0];
      DivMod(g.Size(d), Mix(g, dims[1..], digits[1..]), digits[0]);
      forall e: Dim | e !in dims[1..]
        ensures a.Put(d, digits[0]).Get(e) == base.Put(d, digits[0]).Get(e)
      {
        if e != d {
          assert e !in dims;
        }
      }
      PutAllDecodes(g, dims[1..], digits[1..], a.Put(d, digits[0]), base.Put(d, digits[0]));
    }
  }

  lemma {:induction false} PutAllWrites(dims: seq<Dim>, digits: seq<nat>, a: Address)
    requires |dims| == |digits|
    ensures SameBut(dims, PutAll(a, dims, digits), a)
    decreases |dims|
  {
    if dims != [] {
      PutAllWrites(dims[1..], digits[1..], a.Put(dims[0], digits[0]));
    }
  }

  lemma StillSame(dims: seq<Dim>, digits: seq<nat>, a: Address, base: Address)
    requires |dims| == |digits| && SameBut(dims, a, base)
    ensures SameBut(dims, PutAll(a, dims, digits), base)
  {
    PutAllWrites(dims, digits, a);
  }

  lemma {:induction false} ProductTake(g: Geometry, dims: seq<Dim>, k: nat)
    requires 0 < k <= |dims|
    ensures Product(g, dims[..k]) == Product(g, dims[..k - 1]) * g.Size(dims[k - 1])
    decreases k
  {
    var head, tail := dims[..k], dims[1..];
    assert head[1..] == tail[..k - 1];
    if k == 1 {
      assert dims[..0] == [] && Product(g, tail[..0]) == 1;
    } else {
      ProductTake(g, tail, k - 1);
      var shorter := dims[..k - 1];
      assert shorter[1..] == tail[..k - 2];
      hide Geometry.Size;
      Reassociate(g.Size(dims[0]), Product(g, tail[..k - 2]), g.Size(dims[k - 1]));
    }
  }

  lemma Reassociate(a: nat, b: nat, c: nat)
    ensures a * (b * c) == (a * b) * c
  {
  }

  /** The index of the first flag under the given digits of the outer loops. */
  function FlagIndex(g: Geometry, ptr: seq<Dim>, level: nat, outer: seq<nat>): nat
    requires level + |outer| == |ptr|
  {
    Product(g, ptr[..level]) * Mix(g, ptr[level..], outer)
  }

  /** Pass x of a loop starts x times the length of the loops inside it further on. */
  lemma NextPass(g: Geometry, ptr: seq<Dim>, level: nat, outer: seq<nat>, x: nat)
    requires 0 < level && level + |outer| == |ptr| && InRange(g, ptr[level..], outer) && x < g.Size(ptr[level - 1])
    ensures InRange(g, ptr[level - 1..], [x] + outer)
    ensures FlagIndex(g, ptr, level - 1, [x] + outer) ==
            FlagIndex(g, ptr, level, outer) + x * Product(g, ptr[..level - 1])
  {
    hide Product, Mix, Geometry.Size;
    PassDigits(g, ptr, level, outer, x);
    ProductTake(g, ptr, level);
    Distribute(Product(g, ptr[..level - 1]), x, g.Size(ptr[level - 1]), Mix(g, ptr[level..], outer));
  }

  /** Around the outermost loop: no digit is fixed, no flag has been looked at. */
  lemma WholeNest(g: Geometry, ptr: seq<Dim>, base: Address, flags: seq<bool>)
    requires g.Sane()
    ensures InRange(g, ptr[|ptr|..], []) && FlagIndex(g, ptr, |ptr|, []) == 0
    ensures Product(g, ptr[..|ptr|]) == Product(g, ptr) && Listed(g, ptr, base, flags, 0, [])
  {
    assert ptr[..|ptr|] == ptr && ptr[|ptr|..] == [];
  }

  lemma FlagIndexOfAll(g: Geometry, ptr: seq<Dim>, digits: seq<nat>)
    requires |digits| == |ptr|
    ensures ptr[0..] == ptr && FlagIndex(g, ptr, 0, digits) == Mix(g, ptr, digits) && Product(g, ptr[..0]) == 1
  {
    assert ptr[0..] == ptr && ptr[..0] == [];
  }

  lemma Distribute(p: nat, x: nat, n: nat, m: nat)
    ensures p * (x + n * m) == (p * n) * m + x * p
  {
    Reassociate(p, n, m);
  }

  lemma OneMore(p: nat, x: nat)
    ensures x * p + p == (x + 1) * p
  {
  }

  datatype Conversion = Addresses(list: seq<Address>) | InvalidFlagSize | Miscounted

  lemma PassDigits(g: Geometry, ptr: seq<Dim>, level: nat, outer: seq<nat>, x: nat)
    requires 0 < level <= |ptr| && InRange(g, ptr[level..], outer) && x < g.Size(ptr[level - 1])
    ensures InRange(g, ptr[level - 1..], [x] + outer)
    ensures Mix(g, ptr[level - 1..], [x] + outer) == x + g.Size(ptr[level - 1]) * Mix(g, ptr[level..], outer)
  {
    assert ptr[level - 1..][1..] == ptr[level..];
    assert ([x] + outer)[1..] == outer;
  }

  class PalOld {
    const g: Geometry
    const l: Layout
    const pageInSuperPage: nat
    const randomTweak: bool

    constructor (g: Geometry, l: Layout, pageInSuperPage: nat, randomTweak: bool)
      ensures this.g == g && this.l == l
      ensures this.pageInSuperPage == pageInSuperPage && this.randomTweak == randomTweak
    {
      this.g, this.l, this.pageInSuperPage, this.randomTweak := g, l, pageInSuperPage, randomTweak;
    }

    /** Write one digit per pointer. */
    method WriteDigits(ptr: seq<Dim>, digits: seq<nat>, addr: Address) returns (r: Address)
      requires |ptr| == |digits|
      ensures r == PutAll(addr, ptr, digits)
    {
      r := addr;
      var i := 0;
      while i < |ptr|
        invariant i <= |ptr| && PutAll(r, ptr[i..], digits[i..]) == PutAll(addr, ptr, digits)
      {
        assert ptr[i..][1..] == ptr[i + 1..] && digits[i..][1..] == digits[i + 1..];
        r := r.Put(ptr[i], digits[i]);
        i := i + 1;
      }
    }

    /** The innermost step: list the address if its flag is set. */
    method Test(ptr: seq<Dim>, digits: seq<nat>, flags: seq<bool>, ghost base: Address,
                addr: Address, list: seq<Address>, tmp: nat)
      returns (addr': Address, list': seq<Address>)
      requires g.Sane() && InRange(g, ptr, digits) && tmp == Mix(g, ptr, digits) && Product(g, ptr) <= |flags|
      requires Listed(g, ptr, base, flags, tmp, list) && SameBut(ptr, addr, base)
      ensures Listed(g, ptr, base, flags, tmp + 1, list') && SameBut(ptr, addr', base)
    {
      hide Decode, Product, SameBut;
      addr', list' := addr, list;
      MixBelow(g, ptr, digits);
      if flags[tmp] {
        addr' := WriteDigits(ptr, digits, addr');
        PutAllDecodes(g, ptr, digits, addr, base);
        StillSame(ptr, digits, addr, base);
        list' := list' + [addr'];
      }
    }

    /** The loops over the lowest `level` pointers, for fixed values `outer` of the ones above: the nests of four,
        three, two and one loops, and the single test without any, are this for the respective number of pointers.
        `tmp` is the index of the next flag. */
    method Sweep(ptr: seq<Dim>, level: nat, outer: seq<nat>, flags: seq<bool>, ghost base: Address,
                 addr: Address, list: seq<Address>, tmp: nat)
      returns (addr': Address, list': seq<Address>, tmp': nat)
      requires g.Sane() && level + |outer| == |ptr| && InRange(g, ptr[level..], outer)
      requires Product(g, ptr) <= |flags| && tmp == FlagIndex(g, ptr, level, outer)
      requires Listed(g, ptr, base, flags, tmp, list) && SameBut(ptr, addr, base)
      ensures tmp' == FlagIndex(g, ptr, level, outer) + Product(g, ptr[..level])
      ensures Listed(g, ptr, base, flags, tmp', list') && SameBut(ptr, addr', base)
      decreases level
    {
      hide Listed, SameBut, Product, FlagIndex, InRange, Geometry.Size;
      addr', list', tmp' := addr, list, tmp;
      if level == 0 {
        FlagIndexOfAll(g, ptr, outer);
        addr', list' := Test(ptr, outer, flags, base, addr', list', tmp');
        tmp' := tmp' + 1;
      } else {
        var n := g.Size(ptr[level - 1]);
        ghost var p := Product(g, ptr[..level - 1]);
        ProductTake(g, ptr, level);
        var x := 0;
        while x < n
          invariant x <= n && tmp' == FlagIndex(g, ptr, level, outer) + x * p
          invariant Listed(g, ptr, base, flags, tmp', list') && SameBut(ptr, addr', base)
        {
          NextPass(g, ptr, level, outer, x);
          addr', list', tmp' := Sweep(ptr, level - 1, [x] + outer, flags, base, addr', list', tmp');
          OneMore(p, x);
          x := x + 1;
        }
      }
    }

    /** Up to digit i the order has been split into the pointers the nest runs over and the digits of the block
        index, and the latter have been peeled off. */
    ghost predicate Peeled(i: nat, ptr: seq<Dim>, tmp: nat, addr: Address, all: Split)
      requires g.Sane() && i <= |l.order|
    {
      ptr + l.Digits(l.order[i..], true) == l.Inner() && Decode(g, l.Digits(l.order[i..], false), tmp, addr) == all
    }

    lemma PeelOne(i: nat, ptr: seq<Dim>, tmp: nat, addr: Address, all: Split)
      requires g.Sane() && i < |l.order| && Peeled(i, ptr, tmp, addr, all)
      ensures var d := l.order[i];
        if !l.Counts(d) then Peeled(i + 1, ptr, tmp, addr, all)
        else if d in l.mask then Peeled(i + 1, ptr + [d], tmp, addr, all)
        else Peeled(i + 1, ptr, tmp / g.Size(d), addr.Put(d, tmp % g.Size(d)), all)
    {
      hide Layout.Digits, Decode;
      var d := l.order[i];
      var inner, outer := l.Digits(l.order[i + 1..], true), l.Digits(l.order[i + 1..], false);
      DigitsStep(l, l.order, i, true);
      DigitsStep(l, l.order, i, false);
      assert [] + inner == inner && [] + outer == outer;
      assert (ptr + [d]) + inner == ptr + ([d] + inner);
      DecodeStep(g, d, outer, tmp, addr);
    }

    method PeelBlockIndex(blockIndex: nat, pageIndex: nat, blank: Address) returns (ptr: seq<Dim>, addr: Address)
      requires g.Sane() && l.Sane()
      ensures ptr == l.Inner() && addr == Base(g, l, blockIndex, pageIndex, blank)
    {
      hide Layout.Digits, Decode, Peeled, Geometry.Size;
      var tmp: nat := blockIndex;
      addr := blank.(plane := 0);
      ghost var all := Decode(g, l.Outer(), blockIndex, addr);
      ptr := [];
      var i := 0;
      NonePeeled(tmp, addr);
      while i < 4
        invariant i <= 4 && Peeled(i, ptr, tmp, addr, all)
      {
        SizePositive(g, l.order[i]);
        PeelOne(i, ptr, tmp, addr, all);
        var idx := l.order[i];
        if idx != Plane || !l.multi {
          if idx in l.mask {
            ptr := ptr + [idx];
          } else {
            addr, tmp := addr.Put(idx, tmp % g.Size(idx)), tmp / g.Size(idx);
          }
        }
        i := i + 1;
      }
      AllPeeled(ptr, tmp, addr, all);
      addr := addr.(block := tmp, page := pageIndex);
    }

    lemma NonePeeled(blockIndex: nat, addr: Address)
      requires g.Sane() && l.Sane()
      ensures Peeled(0, [], blockIndex, addr, Decode(g, l.Outer(), blockIndex, addr))
    {
      assert l.order[0..] == l.order && [] + l.Inner() == l.Inner();
    }

    lemma AllPeeled(ptr: seq<Dim>, tmp: nat, addr: Address, all: Split)
      requires g.Sane() && |l.order| == 4 && Peeled(4, ptr, tmp, addr, all)
      ensures ptr == l.Inner() && all == Split(addr, tmp)
    {
      NoDigits(g, l, tmp, addr);
      assert l.order[4..] == [] && ptr + [] == ptr;
    }

    /** One address for every set flag, in the order of the flags, each that of its unit. Flags of the wrong number
        are refused when they matter and replaced by all-set ones otherwise; the closing count always agrees. */
    method ConvertCPDPBP(blockIndex: nat, pageIndex: nat, ioFlag: seq<bool>, blank: Address)
      returns (r: Conversion, flags: seq<bool>)
      requires g.Sane() && l.Sane() && pageInSuperPage == UnitsInSuperPage(g, l)
      ensures r.InvalidFlagSize? <==> randomTweak && |ioFlag| != pageInSuperPage
      ensures !r.Miscounted?
      ensures flags == if randomTweak || |ioFlag| == pageInSuperPage then ioFlag
                       else seq(pageInSuperPage, _ => true)
      ensures r.Addresses? ==>
                && |flags| == pageInSuperPage && |r.list| == |SetFlags(flags, |flags|)|
                && forall i :: 0 <= i < |r.list| ==>
                     r.list[i] == Locate(g, l, blockIndex, SetFlags(flags, |flags|)[i], pageIndex, blank)
    {
      flags := ioFlag;
      if randomTweak && |ioFlag| != pageInSuperPage {
        return InvalidFlagSize, flags;
      }
      if !randomTweak && |ioFlag| != pageInSuperPage {
        flags := seq(pageInSuperPage, _ => true);
      }
      var ptr, addr := PeelBlockIndex(blockIndex, pageIndex, blank);
      ghost var base := addr;
      hide Decode, Base, Product, Layout.Digits, FlagIndex, InRange;
      WholeNest(g, ptr, base, flags);
      var list, tmp;
      addr, list, tmp := Sweep(ptr, |ptr|, [], flags, base, addr, [], 0);
      if tmp != pageInSuperPage {
        return Miscounted, flags;
      }
      return Addresses(list), flags;
    }
  }
}
