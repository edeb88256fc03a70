/** Sizing of the namespaces of a persistent-memory region: the alignment they must keep,
    and how many of which size fit. */
module Namespaces {
  import opened Arithmetic

  // ----- greatest common divisor and least common multiple -----

  function Gcd(a: nat, b: nat): (g: nat)
    ensures g > 0 <==> a > 0 || b > 0
    decreases b
  {
    if b == 0 then a else Gcd(b, a % b)
  }

  function Lcm(one: int, two: int): int
    requires one != 0 || two != 0
  {
    Abs(one * two) / Gcd(Abs(one), Abs(two))
  }

  lemma {:induction false} GcdDivides(a: nat, b: nat)
    ensures Divides(Gcd(a, b), a) && Divides(Gcd(a, b), b)
    decreases b
  {
    if b == 0 {
      DividesMultiple(a, 1);
      DividesMultiple(a, 0);
    } else {
      GcdDivides(b, a % b);
      DividesScaled(Gcd(a, b), b, a / b);
      DividesSum(Gcd(a, b), b * (a / b), a % b);
      assert b * (a / b) + a % b == a;
    }
  }

  /** The gcd is a combination of its arguments. */
  lemma {:induction false} Bezout(a: nat, b: nat) returns (u: int, v: int)
    ensures u * a + v * b == Gcd(a, b)
    decreases b
  {
    if b == 0 {
      u, v := 1, 0;
    } else {
      var u', v' := Bezout(b, a % b);
      u, v := v', u' - v' * (a / b);
      BezoutStep(a, b, a / b, a % b, u', v');
    }
  }

  lemma BezoutStep(a: int, b: int, q: int, r: int, u: int, v: int)
    requires a == b * q + r
    ensures v * a + (u - v * q) * b == u * b + v * r
  {
    assert v * a == v * (b * q) + v * r;
    assert (u - v * q) * b == u * b - v * q * b;
    assert v * (b * q) == v * q * b;
  }

  /** The quotient the code computes is exact. */
  lemma LcmIsExact(one: int, two: int)
    requires one != 0 || two != 0
    ensures Gcd(Abs(one), Abs(two)) * Lcm(one, two) == Abs(one * two) == Abs(one) * Abs(two)
    ensures Divides(Abs(one), Lcm(one, two)) && Divides(Abs(two), Lcm(one, two))
  {
    var a, b := Abs(one), Abs(two);
    var g := Gcd(a, b);
    GcdDivides(a, b);
    assert Abs(one * two) == a * b by {
      AbsOfProduct(one, two);
    }
    var a' :| g * a' == a;
    var b' :| g * b' == b;
    ExactQuotient(g, a', b, a);
    ExactQuotient(g, b', a, b);
    DividesMultiple(b, a');
    DividesMultiple(a, b');
  }

  lemma AbsOfProduct(one: int, two: int)
    ensures Abs(one * two) == Abs(one) * Abs(two)
  {
    if one >= 0 && two >= 0 {
      assert one * two >= 0;
    } else if one < 0 && two < 0 {
      assert one * two == (-one) * (-two) && one * two > 0;
    } else if one < 0 {
      assert one * two == -((-one) * two) && (-one) * two >= 0;
    } else {
      assert one * two == -(one * (-two)) && one * (-two) >= 0;
    }
  }

  /** With g*x == a, the product a*b is g times b*x, and dividing by g gives b*x. */
  lemma ExactQuotient(g: int, x: int, b: int, a: int)
    requires g > 0 && g * x == a
    ensures a * b / g == b * x && g * (b * x) == a * b && b * a == a * b
  {
    assert g * (b * x) == b * (g * x);
    var n := a * b;
    DividesMultiple(g, b * x);
    DividesIffMod(g, n);
    CancelFactor(g, n / g, b * x);
  }

  lemma DividesAbs(d: int, n: int)
    ensures Divides(Abs(d), n) <==> Divides(d, n)
  {
    if Divides(d, n) {
      var q: int :| d * q == n;
      assert Abs(d) * (if d < 0 then -q else q) == n;
    }
    if Divides(Abs(d), n) {
      var q: int :| Abs(d) * q == n;
      assert d * (if d < 0 then -q else q) == n;
    }
  }

  /** The common multiples of two numbers, not both zero, are the multiples of their lcm. */
  lemma LcmCommonMultiples(one: int, two: int, m: int)
    requires one != 0 || two != 0
    ensures Divides(one, m) && Divides(two, m) <==> Divides(Lcm(one, two), m)
  {
    var l := Lcm(one, two);
    LcmIsExact(one, two);
    DividesAbs(one, l);
    DividesAbs(two, l);
    if Divides(l, m) {
      DividesTransitive(one, l, m);
      DividesTransitive(two, l, m);
    }
    if Divides(one, m) && Divides(two, m) {
      DividesAbs(one, m);
      DividesAbs(two, m);
      LcmDividesMultiple(Abs(one), Abs(two), l, m);
    }
  }

  lemma LcmDividesMultiple(a: nat, b: nat, l: int, m: int)
    requires Gcd(a, b) > 0 && Gcd(a, b) * l == a * b
    requires Divides(a, m) && Divides(b, m)
    ensures Divides(l, m)
  {
    var g := Gcd(a, b);
    var u, v := Bezout(a, b);
    var x: int :| a * x == m;
    var y: int :| b * y == m;
    var k := u * y + v * x;
    CombinedMultiple(a, b, u, v, x, y, m);
    DividesByFactor(g, l, m, a * b, k);
  }

  lemma DividesByFactor(g: int, l: int, m: int, n: int, k: int)
    requires g > 0 && g * l == n && g * m == n * k
    ensures Divides(l, m)
  {
    assert g * (l * k) == g * l * k;
    CancelFactor(g, l * k, m);
    DividesMultiple(l, k);
  }

  /** A common multiple, times a combination of the two numbers, is a multiple of their
      product. */
  lemma CombinedMultiple(a: int, b: int, u: int, v: int, x: int, y: int, m: int)
    requires a * x == m && b * y == m
    ensures (u * a + v * b) * m == a * b * (u * y + v * x)
  {
    assert u * a * (b * y) == a * b * (u * y);
    assert v * b * (a * x) == a * b * (v * x);
    assert (u * a + v * b) * m == u * a * m + v * b * m;
    assert a * b * (u * y + v * x) == a * b * (u * y) + a * b * (v * x);
  }

  lemma CancelFactor(g: int, p: int, q: int)
    requires g > 0 && g * p == g * q
    ensures p == q
  {
    ProductOrder(g, p - q);
    ProductOrder(g, q - p);
    assert g * (p - q) == 0 && g * (q - p) == 0;
  }

  // ----- sizes -----

  /** The alignment of namespace sizes: the lcm of the region's alignment (1 when it is not
      exported) and the mapping alignment, without which the test is cancelled. */
  function SizeAlignval(regionAlign: Option<int>, mapAlign: Option<int>): Option<int>
    requires regionAlign.Some? ==> regionAlign.value > 0
    requires mapAlign.Some? ==> mapAlign.value > 0
  {
    match mapAlign
    case None => None
    case Some(m) => Some(Lcm(if regionAlign.Some? then regionAlign.value else 1, m))
  }

  /** A size suits the alignment used for sizing if and only if it is a multiple of the
      mapping alignment and of the region's alignment, if it has one. */
  lemma SizeAlignvalMultiples(regionAlign: Option<int>, mapAlign: int, size: int)
    requires (regionAlign.Some? ==> regionAlign.value > 0) && mapAlign > 0
    ensures var align := SizeAlignval(regionAlign, Some(mapAlign));
            && align.Some? && align.value > 0
            && (size % align.value == 0 <==>
                size % mapAlign == 0 && (regionAlign.Some? ==> size % regionAlign.value == 0))
  {
    hide Lcm;
    var one := if regionAlign.Some? then regionAlign.value else 1;
    LcmIsPositive(one, mapAlign);
    LcmCommonMultiples(one, mapAlign, size);
    DividesIffMod(Lcm(one, mapAlign), size);
    DividesIffMod(mapAlign, size);
    DividesIffMod(one, size);
  }

  /** An equal share of the region for every slot, cut to the alignment. */
  function AutoSize(regionSize: nat, slots: nat, align: int): int
    requires slots > 0 && align > 0
  {
    regionSize / slots / align * align
  }

  lemma AtMostQuotient(n: int, d: int, q: int)
    requires d > 0
    ensures q <= n / d <==> q * d <= n
  {
    assert n / d * d <= n < n / d * d + d;
    ProductOrder(d, q - n / d);
    ProductOrder(d, n / d - q);
    assert d * (q - n / d) == q * d - n / d * d && d * (n / d - q) == n / d * d - q * d;
  }

  /** The automatic size is the largest aligned size of which one namespace per slot fits. */
  lemma AutoSizeIsLargest(regionSize: nat, slots: nat, align: int, size: int)
    requires slots > 0 && align > 0 && Divides(align, size)
    ensures Divides(align, AutoSize(regionSize, slots, align))
    ensures slots * size <= regionSize <==> size <= AutoSize(regionSize, slots, align)
  {
    var share := regionSize / slots;
    var auto := AutoSize(regionSize, slots, align);
    DividesMultiple(align, share / align);
    var q: int :| align * q == size;
    AtMostQuotient(regionSize, slots, size);
    AtMostQuotient(share, align, q);
    FactorOrder(align, q, share / align);
  }

  /** One namespace per slot fits, and less than one alignment per slot is left over. */
  lemma AutoSizeFillsRegion(regionSize: nat, slots: nat, align: int)
    requires slots > 0 && align > 0
    ensures var auto := AutoSize(regionSize, slots, align);
            && auto >= 0
            && 0 <= regionSize - slots * auto < slots * align
  {
    var auto := AutoSize(regionSize, slots, align);
    DividesMultiple(align, regionSize / slots / align);
    DividesMultiple(align, 1);
    DividesSum(align, auto, align);
    DividesMultiple(align, 0);
    AutoSizeIsLargest(regionSize, slots, align, auto);
    AutoSizeIsLargest(regionSize, slots, align, auto + align);
    AutoSizeIsLargest(regionSize, slots, align, 0);
    assert slots * (auto + align) == slots * auto + slots * align;
  }

  // ----- a region and its namespaces -----

  datatype Mode = Fsdax | Sector | Other

  datatype Namespace = Namespace(size: int, align: int, mode: Mode)

  class Region {
    const size: nat
    const slots: nat
    /** The alignment the tool gives to new namespaces of this region, and reports. */
    const toolAlign: int
    /** Whether the tool succeeds in the k-th creation. */
    const accepts: nat -> bool
    var asked: nat
    var namespaces: seq<Namespace>

    constructor (size: nat, slots: nat, toolAlign: int, accepts: nat -> bool)
      ensures this.size == size && this.slots == slots && this.toolAlign == toolAlign
      ensures this.accepts == accepts && asked == 0 && namespaces == []
    {
      this.size, this.slots, this.toolAlign, this.accepts := size, slots, toolAlign, accepts;
      asked, namespaces := 0, [];
    }

    method DestroyNamespaces()
      modifies this`namespaces
      ensures namespaces == []
    {
      namespaces := [];
    }

    method CreateNamespace(size: int, mode: Mode) returns (ok: bool)
      modifies this
      ensures asked == old(asked) + 1 && ok == accepts(old(asked))
      ensures namespaces == old(namespaces) + if ok then [Namespace(size, toolAlign, mode)] else []
    {
      ok := accepts(asked);
      asked := asked + 1;
      if ok {
        namespaces := namespaces + [Namespace(size, toolAlign, mode)];
      }
    }

    /** Creates `count` equal namespaces, stopping at the first failure. */
    method CreateAll(size: int, count: int, mode: Mode) returns (ok: bool)
      modifies this
      ensures var k := |namespaces| - |old(namespaces)|;
              && 0 <= k <= Max(count, 0)
              && namespaces == old(namespaces) + Copies(Namespace(size, toolAlign, mode), k)
              && ok == (k == Max(count, 0))
              && asked == old(asked) + k + (if ok then 0 else 1)
              && (forall j | old(asked) <= j < old(asked) + k :: accepts(j))
              && (!ok ==> !accepts(old(asked) + k))
    {
      var done := 0;
      ok := true;
      while done < count
        invariant 0 <= done <= Max(count, 0)
        invariant namespaces == old(namespaces) + Copies(Namespace(size, toolAlign, mode), done)
        invariant asked == old(asked) + done
        invariant forall j | old(asked) <= j < asked :: accepts(j)
      {
        ok := CreateNamespace(size, mode);
        if !ok {
          return;
        }
        done := done + 1;
      }
      return true;
    }
  }

  function Copies(ns: Namespace, count: int): (s: seq<Namespace>)
    ensures |s| == Max(count, 0) && forall other | other in s :: other == ns
  {
    seq(Max(count, 0), i => ns)
  }

  function TotalSize(namespaces: seq<Namespace>): int {
    if namespaces == [] then 0
    else TotalSize(namespaces[..|namespaces| - 1]) + namespaces[|namespaces| - 1].size
  }

  lemma {:induction false} TotalOfCopies(ns: Namespace, count: nat)
    ensures TotalSize(Copies(ns, count)) == count * ns.size
  {
    if count > 0 {
      TotalOfCopies(ns, count - 1);
      assert Copies(ns, count)[..count - 1] == Copies(ns, count - 1);
      assert count * ns.size == (count - 1) * ns.size + ns.size;
    }
  }

  // ----- the alignment check -----

  predicate NamespacePasses(ns: Namespace, mapAlign: int)
    requires mapAlign > 0
  {
    mapAlign == ns.align && ns.size % mapAlign == 0
  }

  predicate AllPass(namespaces: seq<Namespace>, mapAlign: int)
    requires mapAlign > 0
  {
    forall ns | ns in namespaces :: NamespacePasses(ns, mapAlign)
  }

  lemma CopiesPassIff(ns: Namespace, count: int, mapAlign: int)
    requires mapAlign > 0
    ensures AllPass(Copies(ns, count), mapAlign) <==> count <= 0 || NamespacePasses(ns, mapAlign)
  {
    if count > 0 {
      assert Copies(ns, count)[0] == ns;
    }
  }

  /** Fails at the first namespace whose alignment or size does not fit `mapAlign`. */
  method CheckNamespaceAlign(r: Region, mapAlign: int) returns (passed: bool)
    requires mapAlign > 0
    ensures passed <==> AllPass(r.namespaces, mapAlign)
  {
    for i := 0 to |r.namespaces|
      invariant AllPass(r.namespaces[..i], mapAlign)
    {
      var ns := r.namespaces[i];
      assert ns in r.namespaces;
      if mapAlign != ns.align {
        return false;
      }
      if ns.size % mapAlign != 0 {
        return false;
      }
    }
    assert r.namespaces[..|r.namespaces|] == r.namespaces;
    return true;
  }

  // ----- filling a region -----

  /** Skipped: the size is not above one alignment. Failed: a creation failed. */
  datatype Outcome = Cancelled | Skipped | Created | Failed

  /** Namespaces of the wanted size, or of the automatic size when none (0) is given. */
  method MultipleNamespacesRegion(r: Region, wanted: nat, regionAlign: Option<int>, mapAlign: Option<int>, mode: Mode)
    returns (outcome: Outcome)
    requires regionAlign.Some? ==> regionAlign.value > 0
    requires mapAlign.Some? ==> mapAlign.value > 0
    requires wanted == 0 ==> r.slots > 0
    modifies r
    ensures mapAlign == None ==>
              outcome == Cancelled && r.namespaces == old(r.namespaces) && r.asked == old(r.asked)
    ensures mapAlign.Some? ==>
              var align := SizeAlignval(regionAlign, mapAlign).value;
              && align > 0
              && FilledAs(r, outcome, old(r.asked), FillPlan(r.size, r.slots, wanted, align), mode)
  {
    var sizeAlign := SizeAlignval(regionAlign, mapAlign);
    if sizeAlign == None {
      return Cancelled;
    }
    LcmIsPositive(if regionAlign.Some? then regionAlign.value else 1, mapAlign.value);
    outcome := FillRegion(r, wanted, sizeAlign.value, mode);
  }

  method FillRegion(r: Region, wanted: nat, align: int, mode: Mode) returns (outcome: Outcome)
    requires align > 0 && (wanted == 0 ==> r.slots > 0)
    modifies r
    ensures FilledAs(r, outcome, old(r.asked), FillPlan(r.size, r.slots, wanted, align), mode)
  {
    r.DestroyNamespaces();
    var plan := ChooseSize(r.size, r.slots, wanted, align);
    match plan
    case Refuse => return Cancelled;
    case Skip => return Skipped;
    case Fill(size, count) =>
      var ok := r.CreateAll(size, count, mode);
      return if ok then Created else Failed;
  }

  method ChooseSize(regionSize: nat, slots: nat, wanted: nat, align: int) returns (plan: Plan)
    requires align > 0 && (wanted == 0 ==> slots > 0)
    ensures plan == FillPlan(regionSize, slots, wanted, align)
    ensures plan.Fill? ==> plan.count >= 0
  {
    var namespaceSize: int := wanted;
    var slotCount := slots;
    if namespaceSize != 0 && namespaceSize % align != 0 {
      return Refuse;
    }
    if namespaceSize == 0 {
      namespaceSize := regionSize / slotCount;
      namespaceSize := namespaceSize / align * align;
    } else {
      slotCount := regionSize / namespaceSize;
    }
    if namespaceSize <= align {
      return Skip;
    }
    return Fill(namespaceSize, slotCount);
  }

  /** What the region is to be filled with, decided before anything is created. */
  datatype Plan = Refuse | Skip | Fill(size: int, count: int)

  function FillPlan(regionSize: nat, slots: nat, wanted: nat, align: int): Plan
    requires align > 0 && (wanted == 0 ==> slots > 0)
  {
    if wanted % align != 0 then Refuse
    else
      var size := if wanted == 0 then AutoSize(regionSize, slots, align) else wanted;
      if size <= align then Skip
      else Fill(size, if wanted == 0 then slots else regionSize / wanted)
  }

  /** A size that is not aligned is refused. A given size is skipped when it is not above one
      alignment, otherwise used as often as it fits; without one every slot gets the largest
      aligned size that fits once per slot, unless the region is below two alignments each. */
  lemma FillPlanIff(regionSize: nat, slots: nat, wanted: nat, align: int)
    requires align > 0 && (wanted == 0 ==> slots > 0)
    ensures var plan := FillPlan(regionSize, slots, wanted, align);
            && (plan == Refuse <==> wanted % align != 0)
            && (plan == Skip <==>
                && wanted % align == 0
                && if wanted == 0 then regionSize < slots * (2 * align) else wanted <= align)
            && (plan.Fill? ==>
                var size, count := plan.size, plan.count;
                && size % align == 0
                && if wanted == 0 then count == slots && slots * size <= regionSize < slots * size + slots * align
                   else size == wanted && count * size <= regionSize < count * size + size)
  {
    if wanted == 0 {
      SplitUsesRegion(regionSize, slots, 0, align);
      AutoSizeFillsRegion(regionSize, slots, align);
      AutoSizeIsAligned(regionSize, slots, align);
      DividesIffMod(align, AutoSize(regionSize, slots, align));
    } else {
      assert regionSize / wanted * wanted <= regionSize < regionSize / wanted * wanted + wanted;
    }
  }

  ghost predicate FilledAs(r: Region, outcome: Outcome, asked: nat, plan: Plan, mode: Mode)
    reads r
  {
    match plan
    case Refuse => outcome == Cancelled && r.namespaces == [] && r.asked == asked
    case Skip => outcome == Skipped && r.namespaces == [] && r.asked == asked
    case Fill(size, count) =>
      var k := |r.namespaces|;
      && outcome == (if k == count then Created else Failed)
      && k <= count
      && r.namespaces == Copies(Namespace(size, r.toolAlign, mode), k)
      && (k < count ==> !r.accepts(asked + k))
  }

  lemma LcmIsPositive(one: int, two: int)
    requires one > 0 && two > 0
    ensures Lcm(one, two) > 0 && Divides(one, Lcm(one, two)) && Divides(two, Lcm(one, two))
  {
    LcmIsExact(one, two);
    assert one * two > 0;
  }

  /** Both ways of filling a region stay inside it, use aligned sizes, and leave less than
      one more alignment per namespace, or less than one more namespace. */
  lemma FillFitsRegion(regionSize: nat, slots: nat, wanted: nat, align: int)
    requires align > 0 && (wanted == 0 ==> slots > 0)
    requires FillPlan(regionSize, slots, wanted, align).Fill?
    ensures var plan := FillPlan(regionSize, slots, wanted, align);
            && plan.count >= 0
            && plan.size >= 2 * align && Divides(align, plan.size)
            && 0 <= regionSize - plan.count * plan.size < (if wanted == 0 then slots * align else wanted)
  {
    var plan := FillPlan(regionSize, slots, wanted, align);
    if wanted == 0 {
      AutoSizeFillsRegion(regionSize, slots, align);
      DividesMultiple(align, 0);
      AutoSizeIsLargest(regionSize, slots, align, 0);
    } else {
      DividesIffMod(align, wanted);
    }
    DividesMultiple(align, 1);
    DividesSum(align, plan.size, align);
    DividesAtLeast(align, plan.size - align);
  }

  /** Creating all namespaces of the automatic size, whatever that size is. */
  method NslotNamespace(r: Region, align: int) returns (ok: bool)
    requires r.slots > 0 && align > 0
    modifies r
    ensures var size := AutoSize(r.size, r.slots, align);
            && |r.namespaces| <= r.slots
            && r.namespaces == Copies(Namespace(size, r.toolAlign, Fsdax), |r.namespaces|)
            && ok == (|r.namespaces| == r.slots)
            && (!ok ==> !r.accepts(old(r.asked) + |r.namespaces|))
  {
    r.DestroyNamespaces();
    var namespaceSize := r.size / r.slots;
    namespaceSize := namespaceSize / align * align;
    ok := r.CreateAll(namespaceSize, r.slots, Fsdax);
  }

  // ----- what the alignment check can rely on -----

  /** With the alignments of the region itself every aligned size passes both checks. */
  lemma AlignedSizePasses(regionAlign: int, mapAlign: int, ns: Namespace)
    requires regionAlign > 0 && mapAlign > 0 && ns.align == mapAlign
    requires Divides(Lcm(regionAlign, mapAlign), ns.size)
    ensures NamespacePasses(ns, mapAlign) && ns.size % regionAlign == 0
  {
    LcmCommonMultiples(regionAlign, mapAlign, ns.size);
    DividesIffMod(mapAlign, ns.size);
    DividesIffMod(regionAlign, ns.size);
  }

  /** So a region that is sized and checked with the same alignments passes. */
  lemma AlignedCopiesPass(regionAlign: Option<int>, mapAlign: int, ns: Namespace, count: int)
    requires (regionAlign.Some? ==> regionAlign.value > 0) && mapAlign > 0
    requires ns.align == mapAlign && Divides(SizeAlignval(regionAlign, Some(mapAlign)).value, ns.size)
    ensures AllPass(Copies(ns, count), mapAlign)
  {
    AlignedSizePasses(if regionAlign.Some? then regionAlign.value else 1, mapAlign, ns);
    CopiesPassIff(ns, count, mapAlign);
  }

  /** The test of one region: fills it and checks what was created against the region's own
      mapping alignment `ownAlign`. A cancelled or failed filling ends the test before the
      check. When the region is sized with that same alignment the check passes. */
  method TestMultipleNamespacesRegion(r: Region, wanted: nat, regionAlign: Option<int>, mapAlign: Option<int>,
                                      ownAlign: int, mode: Mode)
    returns (outcome: Outcome, passed: bool)
    requires regionAlign.Some? ==> regionAlign.value > 0
    requires mapAlign.Some? ==> mapAlign.value > 0
    requires ownAlign > 0 && (wanted == 0 ==> r.slots > 0)
    modifies r
    ensures outcome == Cancelled || outcome == Failed ==> !passed
    ensures outcome == Created || outcome == Skipped ==>
              && (passed <==> AllPass(r.namespaces, ownAlign))
              && (mapAlign == Some(ownAlign) && r.toolAlign == ownAlign ==> passed)
    ensures mapAlign.Some? ==>
              var align := SizeAlignval(regionAlign, mapAlign).value;
              && align > 0
              && FilledAs(r, outcome, old(r.asked), FillPlan(r.size, r.slots, wanted, align), mode)
  {
    ghost var asked := r.asked;
    outcome := MultipleNamespacesRegion(r, wanted, regionAlign, mapAlign, mode);
    if outcome == Cancelled || outcome == Failed {
      return outcome, false;
    }
    passed := CheckNamespaceAlign(r, ownAlign);
    if mapAlign == Some(ownAlign) && r.toolAlign == ownAlign {
      FilledRegionPasses(r, outcome, asked, wanted, regionAlign, ownAlign, mode);
    }
  }

  lemma FilledRegionPasses(r: Region, outcome: Outcome, asked: nat, wanted: nat, regionAlign: Option<int>,
                           mapAlign: int, mode: Mode)
    requires (regionAlign.Some? ==> regionAlign.value > 0) && mapAlign > 0
    requires r.toolAlign == mapAlign && (wanted == 0 ==> r.slots > 0)
    requires SizeAlignval(regionAlign, Some(mapAlign)).value > 0
    requires FilledAs(r, outcome, asked,
                      FillPlan(r.size, r.slots, wanted, SizeAlignval(regionAlign, Some(mapAlign)).value), mode)
    ensures AllPass(r.namespaces, mapAlign)
  {
    hide Lcm, AutoSize;
    var align := SizeAlignval(regionAlign, Some(mapAlign)).value;
    var plan := FillPlan(r.size, r.slots, wanted, align);
    if plan.Fill? {
      FillFitsRegion(r.size, r.slots, wanted, align);
      AlignedCopiesPass(regionAlign, mapAlign, Namespace(plan.size, mapAlign, mode), |r.namespaces|);
    }
  }

  /** The slot-count test: sizes, creates one namespace per slot and checks them. */
  method TestNslotNamespace(r: Region, regionAlign: Option<int>, mapAlign: Option<int>, ownAlign: int)
    returns (outcome: Outcome, passed: bool)
    requires regionAlign.Some? ==> regionAlign.value > 0
    requires mapAlign.Some? ==> mapAlign.value > 0
    requires r.slots > 0 && ownAlign > 0
    modifies r
    ensures outcome == Cancelled <==> mapAlign == None
    ensures outcome == Cancelled ==> !passed && r.namespaces == old(r.namespaces) && r.asked == old(r.asked)
    ensures outcome != Cancelled ==>
              var align := SizeAlignval(regionAlign, mapAlign).value;
              && align > 0
              && |r.namespaces| <= r.slots
              && r.namespaces ==
                 Copies(Namespace(AutoSize(r.size, r.slots, align), r.toolAlign, Fsdax), |r.namespaces|)
              && outcome == (if |r.namespaces| == r.slots then Created else Failed)
              && (outcome == Failed ==> !passed && !r.accepts(old(r.asked) + |r.namespaces|))
    ensures outcome == Created ==>
              && (passed <==> AllPass(r.namespaces, ownAlign))
              && (mapAlign == Some(ownAlign) && r.toolAlign == ownAlign ==> passed)
  {
    hide Lcm;
    var sizeAlign := SizeAlignval(regionAlign, mapAlign);
    if sizeAlign == None {
      return Cancelled, false;
    }
    var align := sizeAlign.value;
    LcmIsPositive(if regionAlign.Some? then regionAlign.value else 1, mapAlign.value);
    var ok := NslotNamespace(r, align);
    if !ok {
      return Failed, false;
    }
    outcome := Created;
    passed := CheckNamespaceAlign(r, ownAlign);
    if mapAlign == Some(ownAlign) && r.toolAlign == ownAlign {
      AutoSizeIsAligned(r.size, r.slots, align);
      AlignedCopiesPass(regionAlign, ownAlign, r.namespaces[0], r.slots);
    }
  }

  lemma AutoSizeIsAligned(regionSize: nat, slots: nat, align: int)
    requires slots > 0 && align > 0
    ensures Divides(align, AutoSize(regionSize, slots, align))
  {
    DividesMultiple(align, regionSize / slots / align);
  }

  /** Sizes are aligned to the first region, but the check of another region uses that
      region's mapping alignment. It is sure to pass whatever the size and the slots of the
      region if and only if the tool reports that alignment and it divides the one used for
      sizing. */
  lemma OtherRegionPassesIff(sizeAlign: int, mapAlign: int, toolAlign: int, mode: Mode)
    requires sizeAlign > 0 && mapAlign > 0
    ensures (forall regionSize: nat, slots: nat | slots > 0 && FillPlan(regionSize, slots, 0, sizeAlign).Fill? ::
               AllPass(Copies(Namespace(AutoSize(regionSize, slots, sizeAlign), toolAlign, mode), slots), mapAlign))
            <==> toolAlign == mapAlign && sizeAlign % mapAlign == 0
  {
    DividesIffMod(mapAlign, sizeAlign);
    if toolAlign == mapAlign && sizeAlign % mapAlign == 0 {
      forall regionSize: nat, slots: nat | slots > 0
        ensures AllPass(Copies(Namespace(AutoSize(regionSize, slots, sizeAlign), toolAlign, mode), slots), mapAlign)
      {
        var auto := AutoSize(regionSize, slots, sizeAlign);
        AutoSizeIsAligned(regionSize, slots, sizeAlign);
        DividesTransitive(mapAlign, sizeAlign, auto);
        DividesIffMod(mapAlign, auto);
        CopiesPassIff(Namespace(auto, toolAlign, mode), slots, mapAlign);
      }
    } else if forall regionSize: nat, slots: nat | slots > 0 && FillPlan(regionSize, slots, 0, sizeAlign).Fill? ::
                AllPass(Copies(Namespace(AutoSize(regionSize, slots, sizeAlign), toolAlign, mode), slots), mapAlign) {
      OneSlotPasses(2, sizeAlign, mapAlign, toolAlign, mode);
      OneSlotPasses(3, sizeAlign, mapAlign, toolAlign, mode);
      DividesSum(mapAlign, 3 * sizeAlign, 2 * sizeAlign);
    }
  }

  /** A region of `n` alignments with one slot passes only if these are whole mappings. */
  lemma OneSlotPasses(n: nat, sizeAlign: int, mapAlign: int, toolAlign: int, mode: Mode)
    requires n >= 2 && sizeAlign > 0 && mapAlign > 0
    ensures FillPlan(n * sizeAlign, 1, 0, sizeAlign).Fill?
    ensures AllPass(Copies(Namespace(AutoSize(n * sizeAlign, 1, sizeAlign), toolAlign, mode), 1), mapAlign) ==>
              toolAlign == mapAlign && Divides(mapAlign, n * sizeAlign)
  {
    AutoSizeOfMultiple(n, sizeAlign);
    CopiesPassIff(Namespace(n * sizeAlign, toolAlign, mode), 1, mapAlign);
    DividesIffMod(mapAlign, n * sizeAlign);
  }

  /** A region of 6 MiB, sized with the 2 MiB of region 0 but mapped with 16 MiB, fails. */
  lemma OtherRegionCanFail()
    ensures var size := AutoSize(6 * 1024 * 1024, 1, 2 * 1024 * 1024);
            var mapAlign := 16 * 1024 * 1024;
            && size == 6 * 1024 * 1024
            && FillPlan(6 * 1024 * 1024, 1, 0, 2 * 1024 * 1024) == Fill(size, 1)
            && !NamespacePasses(Namespace(size, mapAlign, Fsdax), mapAlign)
  {
  }

  lemma AutoSizeOfMultiple(n: nat, align: int)
    requires align > 0
    ensures AutoSize(n * align, 1, align) == n * align
  {
    assert n * align / 1 == n * align;
    AtMostQuotient(n * align, align, n);
    AtMostQuotient(n * align, align, n + 1);
    assert (n + 1) * align == n * align + align;
  }

  // ----- splitting every region for the device mapper -----

  /** What one region contributes: nothing when its share is not above one alignment. */
  function SplitOf(regionSize: nat, slots: nat, toolAlign: int, align: int): seq<Namespace>
    requires slots > 0 && align > 0
  {
    var size := AutoSize(regionSize, slots, align);
    if size <= align then [] else Copies(Namespace(size, toolAlign, Fsdax), slots)
  }

  method SplitRegions(regions: seq<Region>, sizeAlign: int) returns (ok: bool)
    requires sizeAlign > 0
    requires forall i | 0 <= i < |regions| :: regions[i].slots > 0 && regions[i].namespaces == []
    requires forall i, j | 0 <= i < j < |regions| :: regions[i] != regions[j]
    modifies regions
    ensures ok ==> forall i | 0 <= i < |regions| ::
              regions[i].namespaces == SplitOf(regions[i].size, regions[i].slots, regions[i].toolAlign, sizeAlign)
    ensures forall i | 0 <= i < |regions| ::
              regions[i].namespaces <= SplitOf(regions[i].size, regions[i].slots, regions[i].toolAlign, sizeAlign)
    ensures !ok ==> exists i, k | 0 <= i < |regions| :: !regions[i].accepts(k)
  {
    for i := 0 to |regions|
      invariant forall j | 0 <= j < i ::
                  regions[j].namespaces == SplitOf(regions[j].size, regions[j].slots, regions[j].toolAlign, sizeAlign)
      invariant forall j | i <= j < |regions| :: regions[j].namespaces == []
    {
      var r := regions[i];
      var namespaceSize := r.size / r.slots;
      namespaceSize := namespaceSize / sizeAlign * sizeAlign;
      if namespaceSize <= sizeAlign {
        continue;
      }
      ok := r.CreateAll(namespaceSize, r.slots, Fsdax);
      if !ok {
        return;
      }
    }
    return true;
  }

  /** A split region is used up to less than one alignment per slot, or left empty because
      it is smaller than two alignments per slot. */
  lemma SplitUsesRegion(regionSize: nat, slots: nat, toolAlign: int, align: int)
    requires slots > 0 && align > 0
    ensures var split := SplitOf(regionSize, slots, toolAlign, align);
            && TotalSize(split) <= regionSize
            && (forall ns | ns in split ::
                  && ns.size % align == 0 && slots * ns.size <= regionSize < slots * ns.size + slots * align
                  && ns.align == toolAlign && ns.mode == Fsdax)
            && (split == [] <==> regionSize < slots * (2 * align))
            && (split != [] ==> |split| == slots && regionSize - TotalSize(split) < slots * align)
  {
    var auto := AutoSize(regionSize, slots, align);
    AutoSizeFillsRegion(regionSize, slots, align);
    DividesMultiple(align, 2);
    AutoSizeIsLargest(regionSize, slots, align, 2 * align);
    DividesIffMod(align, auto);
    TotalOfCopies(Namespace(auto, toolAlign, Fsdax), slots);
    if auto > align {
      DividesMultiple(align, 1);
      DividesSum(align, auto, align);
      DividesAtLeast(align, auto - align);
    }
  }
}
