/** Five-field cron expressions as bit masks (internal/cron/cron.go).

    int is 64 bits wide: a step close to its limit makes the loop of parseField wrap around, and the mask
    then holds values below the range. StepsExactly says for which steps that happens. */
module Cron {
  import opened Bytes
  import SemVer

  const DASH: byte := 45
  const PLUS: byte := 43
  const SLASH: byte := 47
  const COMMA: byte := 44
  const STAR: Str := [42]

  /** One more than the largest int. */
  const INT_LIMIT: int := 0x8000_0000_0000_0000

  // ----------------------------------------------------------------------- masks

  /** mask & (1 << v) is not zero. A uint64 is its number, and a bit one of its binary digits. */
  predicate HasBit(mask: nat, v: nat) {
    if v == 0 then mask % 2 == 1 else HasBit(mask / 2, v - 1)
  }

  /** mask | 1 << v. */
  function WithBit(mask: nat, v: nat): nat {
    if v == 0 then mask / 2 * 2 + 1 else 2 * WithBit(mask / 2, v - 1) + mask % 2
  }

  /** Setting a bit sets that bit and no other. */
  lemma {:induction false} SetBit(mask: nat, v: nat, w: nat)
    ensures HasBit(WithBit(mask, v), w) <==> HasBit(mask, w) || v == w
  {
    if v > 0 && w > 0 {
      SetBit(mask / 2, v - 1, w - 1);
      assert WithBit(mask, v) / 2 == WithBit(mask / 2, v - 1);
    } else if v > 0 {
      assert WithBit(mask, v) % 2 == mask % 2;
    } else if w > 0 {
      assert WithBit(mask, v) / 2 == mask / 2;
    }
  }

  lemma {:induction false} NoBit(w: nat)
    ensures !HasBit(0, w)
  {
    if w > 0 { NoBit(w - 1); }
  }

  function Pow2(n: nat): (p: nat)
    ensures p >= 1
  {
    if n == 0 then 1 else 2 * Pow2(n - 1)
  }

  lemma {:induction false} Pow2Sum(a: nat, b: nat)
    ensures Pow2(a + b) == Pow2(a) * Pow2(b)
  {
    if a > 0 {
      Pow2Sum(a - 1, b);
      assert Pow2(a + b) == 2 * Pow2(a - 1 + b);
    }
  }

  /** A mask of 64 binary digits is a uint64. */
  lemma MaskIsUint64()
    ensures Pow2(64) == 0x1_0000_0000_0000_0000
  {
    assert Pow2(1) == 2;
    Pow2Sum(1, 1);
    Pow2Sum(2, 2);
    Pow2Sum(4, 4);
    Pow2Sum(8, 8);
    Pow2Sum(16, 16);
    Pow2Sum(32, 32);
  }

  /** A bit below n leaves a mask of n binary digits one of n binary digits: no shift falls off the end. */
  lemma {:induction false} StaysWide(mask: nat, v: nat, n: nat)
    requires v < n && mask < Pow2(n)
    ensures WithBit(mask, v) < Pow2(n)
  {
    assert mask / 2 < Pow2(n - 1);
    if v > 0 { StaysWide(mask / 2, v - 1, n - 1); }
  }

  // --------------------------------------------------------------------- numbers

  /** strconv.Atoi: decimal digits with an optional sign, within the range of int. */
  function Atoi(s: Str): Option<int> {
    var signed := s != [] && (s[0] == DASH || s[0] == PLUS);
    var digits := if signed then s[1..] else s;
    if !SemVer.IsDigits(digits) then None
    else
      var n: int := SemVer.Numeral(digits);
      if signed && s[0] == DASH then (if n > INT_LIMIT then None else Some(-n))
      else if n >= INT_LIMIT then None else Some(n)
  }

  /** parseValue: 7 is Sunday in the field that runs from 0 to 6. */
  function Value(s: Str, min: int, max: int): (v: Option<int>)
    ensures v.Some? ==> min <= v.value <= max
  {
    match Atoi(s)
    case None => None
    case Some(n) =>
      var v := if n == 7 && min == 0 && max == 6 then 0 else n;
      if v < min || v > max then None else Some(v)
  }

  // ----------------------------------------------------------------------- items

  /** One entry of a comma list: from lo to hi in steps. */
  datatype Item = Item(lo: int, hi: int, step: int)

  predicate Sane(item: Item, min: int, max: int) {
    min <= item.lo <= item.hi <= max && 1 <= item.step < INT_LIMIT
  }

  function CutStep(part: Str): (Str, Option<Str>) {
    var i := IndexByte(part, SLASH);
    if i < 0 then (part, None) else (part[..i], Some(part[i + 1..]))
  }

  function ReadStep(step: Option<Str>): Option<int> {
    match step
    case None => Some(1)
    case Some(s) => if Atoi(s).None? || Atoi(s).value < 1 then None else Atoi(s)
  }

  function ReadRange(spec: Str, hasStep: bool, min: int, max: int): Option<(int, int)> {
    if spec == STAR then Some((min, max))
    else
      var i := IndexByte(spec, DASH);
      if i < 0 then
        match Value(spec, min, max)
        case None => None
        case Some(lo) => Some((lo, if hasStep then max else lo))
      else
        match (Value(spec[..i], min, max), Value(spec[i + 1..], min, max))
        case (Some(lo), Some(hi)) => if hi < lo then None else Some((lo, hi))
        case _ => None
  }

  /** The body of the loop of parseField, up to the bits. */
  function ReadItem(part: Str, min: int, max: int): (item: Option<Item>)
    requires min <= max
    ensures item.Some? ==> Sane(item.value, min, max)
  {
    var (spec, stepText) := CutStep(part);
    match ReadStep(stepText)
    case None => None
    case Some(step) =>
      match ReadRange(spec, stepText.Some?, min, max)
      case None => None
      case Some((lo, hi)) => Some(Item(lo, hi, step))
  }

  /** The grammar: every value, a number, or a range, and perhaps a step. */
  datatype Spec = Every | One(n: Str) | Range(from: Str, to: Str)

  function SpecText(spec: Spec): Str {
    match spec
    case Every => STAR
    case One(n) => n
    case Range(from, to) => from + [DASH] + to
  }

  function ItemText(spec: Spec, step: Option<Str>): Str {
    SpecText(spec) + StepText(step)
  }

  /** What a well-formed item means: a bare number is one value, a number with a step runs to the maximum. */
  predicate Means(spec: Spec, step: Option<Str>, min: int, max: int, item: Item) {
    && (match step
        case None => item.step == 1
        case Some(s) => Atoi(s) == Some(item.step) && item.step >= 1)
    && SpecMeans(spec, step.Some?, min, max, item.lo, item.hi)
  }

  predicate SpecMeans(spec: Spec, hasStep: bool, min: int, max: int, lo: int, hi: int) {
    match spec
    case Every => lo == min && hi == max
    case One(n) => DASH !in n && Value(n, min, max) == Some(lo) && hi == (if hasStep then max else lo)
    case Range(from, to) => DASH !in from && Value(from, min, max) == Some(lo) && Value(to, min, max) == Some(hi) && lo <= hi
  }

  lemma NumbersHaveNoSlash(s: Str)
    requires Atoi(s).Some?
    ensures SLASH !in s && s != STAR
  {
    if s[0] == DASH || s[0] == PLUS { assert s == [s[0]] + s[1..]; }
  }

  lemma SpecSound(spec: Str, hasStep: bool, min: int, max: int) returns (form: Spec)
    requires ReadRange(spec, hasStep, min, max).Some?
    ensures SpecText(form) == spec
    ensures var (lo, hi) := ReadRange(spec, hasStep, min, max).value; SpecMeans(form, hasStep, min, max, lo, hi)
  {
    var i := IndexByte(spec, DASH);
    IndexByteFirst(spec, DASH);
    if spec == STAR {
      form := Every;
    } else if i < 0 {
      form := One(spec);
    } else {
      form := Range(spec[..i], spec[i + 1..]);
      assert spec == spec[..i] + [DASH] + spec[i + 1..];
    }
  }

  lemma SpecComplete(form: Spec, hasStep: bool, min: int, max: int, lo: int, hi: int)
    requires SpecMeans(form, hasStep, min, max, lo, hi)
    ensures ReadRange(SpecText(form), hasStep, min, max) == Some((lo, hi)) && SLASH !in SpecText(form)
  {
    match form
    case Every =>
    case One(n) =>
      NumbersHaveNoSlash(n);
    case Range(from, to) =>
      NumbersHaveNoSlash(from);
      NumbersHaveNoSlash(to);
      var text := SpecText(form);
      assert text[..|from|] == from && text[|from| + 1..] == to;
      IndexByteUnique(text, DASH, |from|);
  }

  function StepText(step: Option<Str>): Str { if step.None? then [] else [SLASH] + step.value }

  lemma CutJoins(part: Str)
    ensures CutStep(part).0 + StepText(CutStep(part).1) == part
  {
  }

  lemma CutAgain(text: Str, step: Option<Str>, part: Str)
    requires SLASH !in text && part == text + StepText(step)
    ensures CutStep(part) == (text, step)
  {
    if step.Some? {
      assert part[..|text|] == text && part[|text| + 1..] == step.value;
      IndexByteUnique(part, SLASH, |text|);
    } else {
      assert part == text;
    }
  }

  lemma ItemSound(part: Str, min: int, max: int) returns (spec: Spec, step: Option<Str>)
    requires min <= max && ReadItem(part, min, max).Some?
    ensures ItemText(spec, step) == part && Means(spec, step, min, max, ReadItem(part, min, max).value)
  {
    var text := CutStep(part).0;
    step := CutStep(part).1;
    CutJoins(part);
    spec := SpecSound(text, step.Some?, min, max);
  }

  lemma ItemComplete(spec: Spec, step: Option<Str>, part: Str, min: int, max: int, item: Item)
    requires min <= max && ItemText(spec, step) == part && Means(spec, step, min, max, item)
    ensures ReadItem(part, min, max) == Some(item)
  {
    SpecComplete(spec, step.Some?, min, max, item.lo, item.hi);
    CutAgain(SpecText(spec), step, part);
  }

  /** An item is accepted, with these bounds and this step, exactly when the grammar spells it. */
  lemma ItemIffSpelled(part: Str, min: int, max: int, item: Item)
    requires min <= max
    ensures ReadItem(part, min, max) == Some(item) <==>
      exists spec, step :: ItemText(spec, step) == part && Means(spec, step, min, max, item)
  {
    if ReadItem(part, min, max) == Some(item) {
      var spec, step := ItemSound(part, min, max);
    }
    if spec, step :| ItemText(spec, step) == part && Means(spec, step, min, max, item) {
      ItemComplete(spec, step, part, min, max, item);
    }
  }

  // ------------------------------------------------------------------- the steps

  /** The values an item stands for. */
  predicate Denotes(item: Item, w: int)
    requires item.step >= 1
  {
    item.lo <= w <= item.hi && (w - item.lo) % item.step == 0
  }

  /** The values the loop marks: when the first step already wraps around, every second value is
      short of the previous one by twice what the step lacks to the limit. */
  predicate Visits(item: Item, w: int)
    requires 1 <= item.step < INT_LIMIT
  {
    if item.lo + item.step < INT_LIMIT then Denotes(item, w)
    else 0 <= w <= item.lo && (item.lo - w) % (2 * (INT_LIMIT - item.step)) == 0
  }

  /** The sum of two non-negative ints, or of a negative and a positive one, as int keeps it. */
  function Wrap(v: int): int {
    if v >= INT_LIMIT then v - 2 * INT_LIMIT else v
  }

  /** The loop marks exactly the values the item stands for just when two steps from the start do not
      pass the limit twice over. */
  lemma StepsExactly(item: Item)
    requires Sane(item, 0, 63)
    ensures (forall w :: Visits(item, w) <==> Denotes(item, w)) <==> item.lo + 2 * item.step < 2 * INT_LIMIT
  {
    var e := INT_LIMIT - item.step;
    if item.lo >= e {
      if item.lo >= 2 * e {
        var w := item.lo - 2 * e;
        assert (item.lo - w) % (2 * e) == 0;
        assert Visits(item, w) && !Denotes(item, w);
      } else {
        forall w ensures Visits(item, w) <==> Denotes(item, w) {
          if 0 <= w <= item.lo { SmallRemainder(item.lo - w, 2 * e); }
          if item.lo <= w <= item.hi { SmallRemainder(w - item.lo, item.step); }
        }
      }
    }
  }

  lemma SmallRemainder(a: int, m: int)
    requires 0 <= a < m
    ensures a % m == a
  {
  }

  /** "5/9223372036854775807" in the minutes field also means minutes 3 and 1. */
  lemma HugeStepMarksMore()
    ensures var item := Item(5, 59, INT_LIMIT - 1);
      && ReadItem(Decimal(5) + [SLASH] + Decimal(INT_LIMIT - 1), 0, 59) == Some(item)
      && Visits(item, 3) && Visits(item, 1) && !Denotes(item, 3) && !Denotes(item, 1)
  {
    var step, item := INT_LIMIT - 1, Item(5, 59, INT_LIMIT - 1);
    SemVer.NumeralOfDecimal(5);
    SemVer.NumeralOfDecimal(step);
    assert Atoi(Decimal(5)) == Some(5) && Atoi(Decimal(step)) == Some(step);
    ItemComplete(One(Decimal(5)), Some(Decimal(step)), Decimal(5) + [SLASH] + Decimal(step), 0, 59, item);
  }

  // ---------------------------------------------------------------------- fields

  lemma {:induction false} AtLeast(d: int, m: int)
    requires d >= 1 && m >= 1
    ensures d * m >= m
  {
    if d > 1 {
      AtLeast(d - 1, m);
      assert d * m == (d - 1) * m + m;
    }
  }

  /** Remainders are unique. */
  lemma Unique(q: int, r: int, p: int, s: int, m: int)
    requires 0 <= r < m && 0 <= s < m && q * m + r == p * m + s
    ensures r == s
  {
    assert (q - p) * m == s - r && (p - q) * m == r - s;
    if q > p { AtLeast(q - p, m); }
    if q < p { AtLeast(p - q, m); }
  }

  lemma Quotient(q: int, m: int, r: int)
    requires 0 <= r < m
    ensures (q * m + r) % m == r
  {
    var x := q * m + r;
    assert x == (x / m) * m + x % m;
    Unique(q, r, x / m, x % m, m);
  }

  lemma Multiple(a: int, m: int)
    requires m >= 1 && a % m == 0
    ensures (a + m) % m == 0 && (a - m) % m == 0
  {
    var q := a / m;
    assert a == q * m;
    assert a + m == (q + 1) * m + 0;
    assert a - m == (q - 1) * m + 0;
    Quotient(q + 1, m, 0);
    Quotient(q - 1, m, 0);
  }

  lemma Between(a: int, m: int, r: int)
    requires m >= 1 && a % m == 0 && 0 < r < m
    ensures (a + r) % m != 0 && (a - r) % m != 0
  {
    var q := a / m;
    assert a == q * m;
    Quotient(q, m, r);
    assert a - r == (q - 1) * m + (m - r);
    Quotient(q - 1, m, m - r);
  }

  /** Far below zero, v is the value that an overflow took there from Origin(item, v). */
  predicate Wrapped(v: int) { v < -(INT_LIMIT / 2) }

  function Origin(item: Item, v: int): int {
    if Wrapped(v) then v + 2 * INT_LIMIT - item.step else v
  }

  /** Where the loop variable can be. */
  predicate At(item: Item, v: int)
    requires Sane(item, 0, 63)
  {
    if item.lo + item.step < INT_LIMIT then
      item.lo <= v <= item.hi + item.step && (v - item.lo) % item.step == 0
    else
      var twice := 2 * (INT_LIMIT - item.step);
      v > item.hi || (-twice <= Origin(item, v) <= item.lo && (item.lo - Origin(item, v)) % twice == 0 && (Wrapped(v) ==> Origin(item, v) >= 0))
  }

  /** The values marked before the loop variable got to v. */
  predicate Seen(item: Item, v: int, w: int)
    requires Sane(item, 0, 63)
  {
    Visits(item, w) && (v > item.hi || (
      if item.lo + item.step < INT_LIMIT then w < v
      else if Wrapped(v) then w >= Origin(item, v) else w > v))
  }

  /** Turns left, or more. */
  function Left(item: Item, v: int): int {
    if v > item.hi then 0
    else if item.lo + item.step < INT_LIMIT then item.hi - v + 1
    else 4 * Origin(item, v) + if Wrapped(v) then 1000 else 1002
  }

  lemma AdvancePlain(item: Item, v: int, w: int)
    requires Sane(item, 0, 63) && At(item, v) && v <= item.hi && item.lo + item.step < INT_LIMIT && 0 <= w < 64
    ensures v >= 0 && At(item, Wrap(v + item.step)) && 0 <= Left(item, Wrap(v + item.step)) < Left(item, v)
    ensures Seen(item, Wrap(v + item.step), w) <==> Seen(item, v, w) || w == v
  {
    var a := v - item.lo;
    if v > item.lo && item.step > a { SmallRemainder(a, item.step); }
    Multiple(a, item.step);
    assert a + item.step == v + item.step - item.lo;
    if v < w < v + item.step {
      Between(a, item.step, w - v);
      assert a + (w - v) == w - item.lo;
    }
  }

  /** The value an overflow wrapped comes back two steps' shortfall below its origin. */
  lemma AdvanceWrapped(item: Item, v: int, w: int)
    requires Sane(item, 0, 63) && At(item, v) && v <= item.hi && item.lo + item.step >= INT_LIMIT && 0 <= w < 64 && Wrapped(v)
    ensures At(item, Wrap(v + item.step)) && 0 <= Left(item, Wrap(v + item.step)) < Left(item, v)
    ensures Seen(item, Wrap(v + item.step), w) <==> Seen(item, v, w)
  {
    var twice, o := 2 * (INT_LIMIT - item.step), Origin(item, v);
    assert v + item.step == o - twice;
    Multiple(item.lo - o, twice);
    assert (item.lo - o) + twice == item.lo - (o - twice);
    if o - twice < w < o {
      Between(item.lo - o, twice, o - w);
      assert (item.lo - o) + (o - w) == item.lo - w;
    }
  }

  lemma AdvanceUnwrapped(item: Item, v: int, w: int)
    requires Sane(item, 0, 63) && At(item, v) && v <= item.hi && item.lo + item.step >= INT_LIMIT && 0 <= w < 64 && !Wrapped(v)
    ensures At(item, Wrap(v + item.step)) && 0 <= Left(item, Wrap(v + item.step)) < Left(item, v)
    ensures Seen(item, Wrap(v + item.step), w) <==> Seen(item, v, w) || (v >= 0 && w == v)
  {
    var e := INT_LIMIT - item.step;
    if 0 <= w < v && v < e {
      Between(item.lo - v, 2 * e, v - w);
      assert (item.lo - v) + (v - w) == item.lo - w;
    }
  }

  /** The inner loop of parseField. The shift count is unsigned, so a negative v shifts the bit away. */
  method Mark(mask: nat, item: Item) returns (m: nat)
    requires Sane(item, 0, 63)
    ensures forall w: nat :: w < 64 ==> (HasBit(m, w) <==> HasBit(mask, w) || Visits(item, w))
    ensures mask < Pow2(64) ==> m < Pow2(64)
  {
    m := mask;
    var v := item.lo;
    StartsAt(item);
    while v <= item.hi
      invariant At(item, v) && Left(item, v) >= 0
      invariant forall w: nat :: w < 64 ==> (HasBit(m, w) <==> HasBit(mask, w) || Seen(item, v, w))
      invariant mask < Pow2(64) ==> m < Pow2(64)
      decreases Left(item, v)
    {
      ghost var before := m;
      if v >= 0 {
        StaysBelow(m, v);
        m := WithBit(m, v);
      }
      forall w: nat | w < 64 ensures HasBit(m, w) <==> HasBit(before, w) || (v >= 0 && w == v) {
        if v >= 0 { SetBit(before, v, w); }
      }
      ghost var next := Wrap(v + item.step);
      forall w: nat | w < 64 ensures Seen(item, next, w) <==> Seen(item, v, w) || (v >= 0 && w == v) {
        Advance(item, v, w);
      }
      Advance(item, v, 0);
      v := Wrap(v + item.step);
    }
  }

  lemma StaysBelow(mask: nat, v: nat)
    requires v < 64
    ensures mask < Pow2(64) ==> WithBit(mask, v) < Pow2(64)
  {
    if mask < Pow2(64) { StaysWide(mask, v, 64); }
  }

  lemma StartsAt(item: Item)
    requires Sane(item, 0, 63)
    ensures At(item, item.lo) && Left(item, item.lo) >= 0 && forall w: nat :: !Seen(item, item.lo, w)
  {
    SmallRemainder(0, item.step);
    SmallRemainder(0, 2 * (INT_LIMIT - item.step));
    forall w: nat ensures !Seen(item, item.lo, w) {
      if item.lo + item.step < INT_LIMIT { assert Seen(item, item.lo, w) ==> item.lo <= w < item.lo; }
    }
  }

  lemma Advance(item: Item, v: int, w: int)
    requires Sane(item, 0, 63) && At(item, v) && v <= item.hi && 0 <= w < 64
    ensures v < 64 && At(item, Wrap(v + item.step)) && 0 <= Left(item, Wrap(v + item.step)) < Left(item, v)
    ensures Seen(item, Wrap(v + item.step), w) <==> Seen(item, v, w) || (v >= 0 && w == v)
  {
    if item.lo + item.step < INT_LIMIT {
      AdvancePlain(item, v, w);
    } else if Wrapped(v) {
      AdvanceWrapped(item, v, w);
    } else {
      AdvanceUnwrapped(item, v, w);
    }
  }

  function ReadItems(parts: seq<Str>, min: int, max: int): (items: Option<seq<Item>>)
    requires min <= max
    ensures items.Some? ==> |items.value| == |parts| && forall i :: 0 <= i < |parts| ==> Sane(items.value[i], min, max)
    ensures items.Some? ==> forall i :: 0 <= i < |parts| ==> ReadItem(parts[i], min, max) == Some(items.value[i])
    ensures items.None? ==> exists i :: 0 <= i < |parts| && ReadItem(parts[i], min, max).None?
  {
    if parts == [] then Some([])
    else
      match ReadItem(parts[0], min, max)
      case None => None
      case Some(item) =>
        match ReadItems(parts[1..], min, max)
        case None => assert exists i :: 0 <= i < |parts| - 1 && ReadItem(parts[1..][i], min, max).None?; None
        case Some(rest) => Some([item] + rest)
  }

  ghost predicate Marked(items: seq<Item>, w: int)
    requires forall i :: 0 <= i < |items| ==> Sane(items[i], 0, 63)
  {
    exists i :: 0 <= i < |items| && Sane(items[i], 0, 63) && Visits(items[i], w)
  }

  lemma MarkedNext(items: seq<Item>, item: Item, w: int)
    requires (forall i :: 0 <= i < |items| ==> Sane(items[i], 0, 63)) && Sane(item, 0, 63)
    ensures Marked(items + [item], w) <==> Marked(items, w) || Visits(item, w)
  {
    var more := items + [item];
    assert more[|items|] == item;
    assert forall i :: 0 <= i < |items| ==> more[i] == items[i];
  }

  /** items are what the first i parts say. */
  ghost predicate ReadSoFar(parts: seq<Str>, i: nat, items: seq<Item>, min: int, max: int)
    requires min <= max && i <= |parts|
  {
    |items| == i && forall k :: 0 <= k < i ==> Sane(items[k], min, max) && ReadItem(parts[k], min, max) == Some(items[k])
  }

  lemma ReadAll(parts: seq<Str>, items: seq<Item>, min: int, max: int)
    requires min <= max && ReadSoFar(parts, |parts|, items, min, max)
    ensures ReadItems(parts, min, max) == Some(items)
  {
    assert ReadItems(parts, min, max).Some?;
    assert items == ReadItems(parts, min, max).value;
  }

  /** One turn of the outer loop of parseField. */
  method MarkItem(mask: nat, ghost items: seq<Item>, item: Item) returns (m: nat)
    requires (forall i :: 0 <= i < |items| ==> Sane(items[i], 0, 63)) && Sane(item, 0, 63) && MaskOf(mask, items) && mask < Pow2(64)
    ensures m < Pow2(64) && (forall i :: 0 <= i < |items + [item]| ==> Sane((items + [item])[i], 0, 63)) && MaskOf(m, items + [item])
  {
    m := Mark(mask, item);
    forall w: nat | w < 64 ensures HasBit(m, w) <==> Marked(items + [item], w) {
      MarkedNext(items, item, w);
      assert HasBit(mask, w) <==> Marked(items, w);
    }
  }

  lemma EmptyMask()
    ensures MaskOf(0, []) && 0 < Pow2(64)
  {
    forall w: nat | w < 64 ensures HasBit(0, w) <==> Marked([], w) { NoBit(w); }
  }

  /** The outer loop of parseField, over the entries of the comma list. */
  method ParseParts(parts: seq<Str>, min: int, max: int) returns (r: Option<nat>)
    requires 0 <= min <= max <= 63
    ensures r.Some? <==> ReadItems(parts, min, max).Some?
    ensures r.Some? ==> r.value < Pow2(64) && MaskOf(r.value, ReadItems(parts, min, max).value)
  {
    ghost var items: seq<Item> := [];
    var mask: nat := 0;
    EmptyMask();
    for i := 0 to |parts|
      invariant ReadSoFar(parts, i, items, min, max)
      invariant MaskOf(mask, items) && mask < Pow2(64)
    {
      var item := ReadItem(parts[i], min, max);
      if item.None? { return None; }
      mask := MarkItem(mask, items, item.value);
      items := items + [item.value];
    }
    ReadAll(parts, items, min, max);
    r := Some(mask);
  }

  /** parseField. The result is the mask, and whether the field is exactly a star. */
  method ParseField(f: Str, min: int, max: int) returns (r: Option<(nat, bool)>)
    requires 0 <= min <= max <= 63
    ensures r.Some? <==> ReadItems(Split(f, COMMA), min, max).Some?
    ensures r.Some? ==> r.value.0 < Pow2(64) && r.value.1 == (f == STAR)
    ensures r.Some? ==> MaskOf(r.value.0, ReadItems(Split(f, COMMA), min, max).value)
  {
    var mask := ParseParts(Split(f, COMMA), min, max);
    r := if mask.None? then None else Some((mask.value, f == STAR));
  }

  /** The mask holds exactly what the loop marks for these items. */
  ghost predicate MaskOf(mask: nat, items: seq<Item>)
    requires forall i :: 0 <= i < |items| ==> Sane(items[i], 0, 63)
  {
    forall w: nat :: w < 64 ==> (HasBit(mask, w) <==> Marked(items, w))
  }

  // ------------------------------------------------------------------- schedules

  /** minute, hour, day of month, month, day of week. */
  function Bounds(i: nat): (b: (nat, nat))
    requires i < 5
    ensures b.0 <= b.1 <= 63
  {
    if i == 0 then (0, 59) else if i == 1 then (0, 23) else if i == 2 then (1, 31) else if i == 3 then (1, 12) else (0, 6)
  }

  datatype Schedule = Schedule(masks: seq<nat>, domStar: bool, dowStar: bool)

  datatype Moment = Moment(minute: nat, hour: nat, day: nat, month: nat, weekday: nat)
  {
    predicate Valid() { minute <= 59 && hour <= 23 && 1 <= day <= 31 && 1 <= month <= 12 && weekday <= 6 }
  }

  /** The items of the i-th field. */
  function FieldItems(f: Str, i: nat): (items: Option<seq<Item>>)
    requires i < 5
    ensures items.Some? ==> forall k :: 0 <= k < |items.value| ==> Sane(items.value[k], 0, 63)
  {
    ReadItems(Split(f, COMMA), Bounds(i).0, Bounds(i).1)
  }

  predicate Readable(parts: seq<Str>) {
    |parts| == 5 && forall i :: 0 <= i < 5 ==> FieldItems(parts[i], i).Some?
  }

  ghost predicate Denoted(s: Schedule, parts: seq<Str>)
    requires Readable(parts)
  {
    && |s.masks| == 5
    && (forall i :: 0 <= i < 5 ==> MaskOf(s.masks[i], FieldItems(parts[i], i).value))
    && s.domStar == (parts[2] == STAR) && s.dowStar == (parts[4] == STAR)
  }

  /** The masks of the first n fields. */
  ghost predicate FieldsRead(parts: seq<Str>, masks: seq<nat>, n: nat)
    requires |parts| == 5 && n <= 5
  {
    |masks| == n && forall k :: 0 <= k < n ==> FieldRead(parts[k], k, masks[k])
  }

  ghost predicate FieldRead(f: Str, k: nat, mask: nat)
    requires k < 5
  {
    FieldItems(f, k).Some? && MaskOf(mask, FieldItems(f, k).value)
  }

  // ---------------------------------------------------------------------- fields

  /** How many bytes the white space character that starts the text has, or 0: the characters Unicode calls
      white space, in UTF-8. No byte that continues a character starts one, so reading byte by byte finds
      the same characters as decoding does, also in ill-formed text. */
  function SpaceWidth(s: Str): (n: nat)
    ensures n <= |s|
  {
    if s == [] then 0
    else if 9 <= s[0] <= 13 || s[0] == 32 then 1
    else if |s| >= 2 && s[0] == 0xC2 && (s[1] == 0x85 || s[1] == 0xA0) then 2
    else if |s| >= 3 && s[0] == 0xE1 && s[1] == 0x9A && s[2] == 0x80 then 3
    else if |s| >= 3 && s[0] == 0xE2 && s[1] == 0x80 && (0x80 <= s[2] <= 0x8A || s[2] in {0xA8, 0xA9, 0xAF}) then 3
    else if |s| >= 3 && s[0] == 0xE2 && s[1] == 0x81 && s[2] == 0x9F then 3
    else if |s| >= 3 && s[0] == 0xE3 && s[1] == 0x80 && s[2] == 0x80 then 3
    else 0
  }

  /** The UTF-8 form of a character below 65536. */
  function Utf8(c: int): seq<int> {
    if c < 0x80 then [c]
    else if c < 0x800 then [0xC0 + c / 64, 0x80 + c % 64]
    else [0xE0 + c / 4096, 0x80 + c / 64 % 64, 0x80 + c % 64]
  }

  /** Unicode's white space. */
  predicate IsSpace(c: int) {
    9 <= c <= 13 || c in {0x20, 0x85, 0xA0, 0x1680, 0x2028, 0x2029, 0x202F, 0x205F, 0x3000} || 0x2000 <= c <= 0x200A
  }

  /** The text starts with the form of this character. */
  predicate StartsWith(s: Str, c: int) {
    |Utf8(c)| <= |s| && forall i :: 0 <= i < |Utf8(c)| ==> s[i] as int == Utf8(c)[i]
  }

  lemma FormsOfSpaces(c: int)
    ensures 0 <= c < 0x80 ==> Utf8(c) == [c]
    ensures c in {0x85, 0xA0} ==> Utf8(c) == [0xC2, c]
    ensures 0x2000 <= c <= 0x203F ==> Utf8(c) == [0xE2, 0x80, 0x80 + (c - 0x2000)]
    ensures Utf8(0x1680) == [0xE1, 0x9A, 0x80] && Utf8(0x205F) == [0xE2, 0x81, 0x9F] && Utf8(0x3000) == [0xE3, 0x80, 0x80]
  {
  }

  /** Wherever a white space character stands, it is found, as wide as its form. */
  lemma SpaceFound(s: Str, c: int)
    requires IsSpace(c) && StartsWith(s, c)
    ensures SpaceWidth(s) == |Utf8(c)|
  {
    FormsOfSpaces(c);
    assert s[0] as int == Utf8(c)[0];
    if |Utf8(c)| > 1 { assert s[1] as int == Utf8(c)[1]; }
    if |Utf8(c)| > 2 { assert s[2] as int == Utf8(c)[2]; }
  }

  /** And nothing else is. */
  lemma SpaceIs(s: Str) returns (c: int)
    requires SpaceWidth(s) > 0
    ensures IsSpace(c) && StartsWith(s, c)
  {
    if SpaceWidth(s) == 1 {
      c := s[0] as int;
    } else if SpaceWidth(s) == 2 {
      c := s[1] as int;
    } else {
      c := if s[0] == 0xE1 then 0x1680 else if s[0] == 0xE3 then 0x3000 else if s[1] == 0x81 then 0x205F else 0x2000 + (s[2] as int - 0x80);
    }
    FormsOfSpaces(c);
  }

  /** Where the first white space at or after i starts; the length if there is none. */
  function WordEnd(s: Str, i: nat): (j: nat)
    requires i <= |s|
    ensures i <= j <= |s| && (j < |s| ==> SpaceWidth(s[j..]) > 0)
    decreases |s| - i
  {
    if i == |s| || SpaceWidth(s[i..]) > 0 then i else WordEnd(s, i + 1)
  }

  /** strings.Fields from i on: the runs of text between white space. */
  function FieldsFrom(s: Str, i: nat): seq<Str>
    requires i <= |s|
    decreases |s| - i
  {
    if i == |s| then []
    else if SpaceWidth(s[i..]) > 0 then FieldsFrom(s, i + SpaceWidth(s[i..]))
    else [s[i..WordEnd(s, i)]] + FieldsFrom(s, WordEnd(s, i))
  }

  function Fields(s: Str): seq<Str> { FieldsFrom(s, 0) }

  /** strings.Fields. */
  method SplitFields(s: Str) returns (fields: seq<Str>)
    ensures fields == Fields(s)
  {
    fields := [];
    var i := 0;
    while i < |s|
      invariant i <= |s| && fields + FieldsFrom(s, i) == Fields(s)
      decreases |s| - i
    {
      var width := SpaceWidth(s[i..]);
      if width > 0 {
        i := i + width;
      } else {
        var end := ScanWord(s, i);
        OneField(fields, s, i, end);
        fields := fields + [s[i..end]];
        i := end;
      }
    }
  }

  /** The scan to the end of a field. */
  method ScanWord(s: Str, start: nat) returns (i: nat)
    requires start < |s| && SpaceWidth(s[start..]) == 0
    ensures start < i <= |s| && i == WordEnd(s, start)
  {
    i := start + 1;
    while i < |s| && SpaceWidth(s[i..]) == 0
      invariant start < i <= |s| && WordEnd(s, i) == WordEnd(s, start)
    {
      i := i + 1;
    }
  }

  lemma OneField(fields: seq<Str>, s: Str, i: nat, end: nat)
    requires i < |s| && SpaceWidth(s[i..]) == 0 && end == WordEnd(s, i)
    ensures fields + FieldsFrom(s, i) == (fields + [s[i..end]]) + FieldsFrom(s, end)
  {
  }

  /** A word: not empty, and no white space starts in it. */
  predicate Word(f: Str) {
    f != [] && forall i :: 0 <= i < |f| ==> SpaceWidth(f[i..]) == 0
  }

  predicate AllWords(words: seq<Str>) {
    forall k :: 0 <= k < |words| ==> Word(words[k])
  }

  /** Words joined by single spaces are the fields of the text. */
  lemma {:induction false} FieldsOfWords(words: seq<Str>, s: Str, i: nat)
    requires AllWords(words) && i <= |s| && s[i..] == Join(words, 32)
    ensures FieldsFrom(s, i) == words
    decreases |words|
  {
    if |words| == 1 {
      assert s[i..] == words[0];
      FirstWord(s, i, words[0], false);
    } else if |words| > 1 {
      var j, rest := i + |words[0]|, words[1..];
      JoinHead(words, s, i);
      assert AllWords(rest);
      FieldsOfWords(rest, s, j + 1);
      WordThenFields(words[0], rest, s, i, j);
      assert words == [words[0]] + rest;
    }
  }

  lemma WordThenFields(w: Str, rest: seq<Str>, s: Str, i: nat, j: nat)
    requires Word(w) && i <= j < |s| && j == i + |w| && s[i..j] == w && s[j] == 32 && FieldsFrom(s, j + 1) == rest
    ensures FieldsFrom(s, i) == [w] + rest
  {
    FirstWord(s, i, w, true);
    OneSpace(s, j);
  }

  lemma JoinHead(words: seq<Str>, s: Str, i: nat)
    requires |words| > 1 && i <= |s| && s[i..] == Join(words, 32)
    ensures var j := i + |words[0]|;
      j < |s| && s[i..j] == words[0] && s[j] == 32 && s[j + 1..] == Join(words[1..], 32)
  {
    var t, n := s[i..], |words[0]|;
    assert t == words[0] + ([32] + Join(words[1..], 32));
    assert t[..n] == words[0] && t[n] == 32 && t[n + 1..] == Join(words[1..], 32);
    assert s[i..i + n] == t[..n] && s[i + n] == t[n] && s[i + n + 1..] == t[n + 1..];
  }

  lemma OneSpace(s: Str, j: nat)
    requires j < |s| && s[j] == 32
    ensures FieldsFrom(s, j) == FieldsFrom(s, j + 1)
  {
    assert s[j..][0] == 32;
  }

  /** A shorter text starts no white space where a longer one does not. */
  lemma ShorterStartsNone(s: Str, k: nat, end: nat)
    requires k < end <= |s| && SpaceWidth(s[k..]) == 0
    ensures SpaceWidth(s[k..end]) == 0
  {
    var a, b := s[k..end], s[k..];
    assert forall i :: 0 <= i < |a| ==> a[i] == b[i];
  }

  lemma {:induction false} NoneUpToEnd(s: Str, i: nat, k: nat)
    requires i <= |s| && i <= k < WordEnd(s, i)
    ensures SpaceWidth(s[k..]) == 0
    decreases k - i
  {
    if i < k { NoneUpToEnd(s, i + 1, k); }
  }

  /** The fields of any text are words. */
  lemma {:induction false} FieldsAreWords(s: Str, i: nat)
    requires i <= |s|
    ensures forall f :: f in FieldsFrom(s, i) ==> Word(f)
    decreases |s| - i
  {
    if i < |s| {
      if SpaceWidth(s[i..]) > 0 {
        FieldsAreWords(s, i + SpaceWidth(s[i..]));
      } else {
        var j := WordEnd(s, i);
        FieldsAreWords(s, j);
        RunIsWord(s, i, j);
      }
    }
  }

  lemma RunIsWord(s: Str, i: nat, j: nat)
    requires i < |s| && SpaceWidth(s[i..]) == 0 && j == WordEnd(s, i)
    ensures Word(s[i..j])
  {
    var f := s[i..j];
    forall k | 0 <= k < |f| ensures SpaceWidth(f[k..]) == 0 {
      NoneUpToEnd(s, i, i + k);
      ShorterStartsNone(s, i + k, j);
      assert f[k..] == s[i + k..j];
    }
  }

  lemma FirstWord(s: Str, i: nat, w: Str, more: bool)
    requires Word(w) && i + |w| <= |s| && s[i..i + |w|] == w
    requires if more then i + |w| < |s| && s[i + |w|] == 32 else i + |w| == |s|
    ensures WordEnd(s, i) == i + |w| && SpaceWidth(s[i..]) == 0 && s[i..WordEnd(s, i)] == w
  {
    WordRuns(s, i, w, 0);
  }

  /** A space cannot complete a white space character that starts in the word before it. */
  lemma {:induction false} WordRuns(s: Str, i: nat, w: Str, k: nat)
    requires Word(w) && i + |w| <= |s| && s[i..i + |w|] == w && k <= |w|
    requires i + |w| < |s| ==> s[i + |w|] == 32
    ensures WordEnd(s, i + k) == i + |w| && (k < |w| ==> SpaceWidth(s[i + k..]) == 0)
    decreases |w| - k
  {
    if k < |w| {
      WordRuns(s, i, w, k + 1);
      var here, there := s[i + k..], w[k..];
      assert forall b :: 0 <= b < |w| - k ==> here[b] == there[b];
      assert SpaceWidth(there) == 0;
    } else if i + k < |s| {
      assert s[i + k..][0] == 32;
    }
  }

  /** Parse. */
  method Parse(expr: Str) returns (s: Option<Schedule>)
    ensures s.Some? <==> Readable(Fields(expr))
    ensures s.Some? ==> Denoted(s.value, Fields(expr))
  {
    var parts := SplitFields(expr);
    s := ParseFields(parts);
  }

  /** The loop of Parse. */
  method ParseFields(parts: seq<Str>) returns (s: Option<Schedule>)
    ensures s.Some? <==> Readable(parts)
    ensures s.Some? ==> Denoted(s.value, parts)
  {
    if |parts| != 5 { return None; }
    var masks: seq<nat>, domStar, dowStar := [], false, false;
    for i := 0 to 5
      invariant FieldsRead(parts, masks, i)
      invariant i > 2 ==> domStar == (parts[2] == STAR)
      invariant i > 4 ==> dowStar == (parts[4] == STAR)
    {
      var field := ParseField(parts[i], Bounds(i).0, Bounds(i).1);
      if field.None? {
        assert FieldItems(parts[i], i).None?;
        return None;
      }
      assert FieldRead(parts[i], i, field.value.0);
      masks := masks + [field.value.0];
      if i == 2 { domStar := field.value.1; }
      if i == 4 { dowStar := field.value.1; }
    }
    assert forall k :: 0 <= k < 5 ==> FieldRead(parts[k], k, masks[k]);
    s := Some(Schedule(masks, domStar, dowStar));
  }

  /** Matches. */
  predicate Matches(s: Schedule, t: Moment)
    requires |s.masks| == 5
  {
    if !HasBit(s.masks[0], t.minute) || !HasBit(s.masks[1], t.hour) || !HasBit(s.masks[3], t.month) then false
    else
      var dom, dow := HasBit(s.masks[2], t.day), HasBit(s.masks[4], t.weekday);
      if !s.domStar && !s.dowStar then dom || dow else dom && dow
  }

  /** Some item of the i-th field stands for v. */
  ghost predicate In(parts: seq<Str>, i: nat, v: int)
    requires Readable(parts) && i < 5
  {
    exists k :: 0 <= k < |FieldItems(parts[i], i).value| && Denotes(FieldItems(parts[i], i).value[k], v)
  }

  /** The rule on sets of values: a day field that is a star asks nothing; if neither is, one suffices. */
  ghost predicate Rule(parts: seq<Str>, t: Moment)
    requires Readable(parts)
  {
    && In(parts, 0, t.minute) && In(parts, 1, t.hour) && In(parts, 3, t.month)
    && (if parts[2] == STAR then parts[4] == STAR || In(parts, 4, t.weekday)
        else if parts[4] == STAR then In(parts, 2, t.day)
        else In(parts, 2, t.day) || In(parts, 4, t.weekday))
  }

  /** No item's step is so large that the loop wraps back into the field. */
  predicate StepsFit(parts: seq<Str>)
    requires Readable(parts)
  {
    forall i, k :: 0 <= i < 5 && 0 <= k < |FieldItems(parts[i], i).value| ==> ItemFits(FieldItems(parts[i], i).value[k])
  }

  predicate ItemFits(item: Item) { item.lo + 2 * item.step < 2 * INT_LIMIT }

  /** With such steps a mask holds exactly the values of its field, and none outside its bounds. */
  lemma MaskExact(s: Schedule, parts: seq<Str>, i: nat, v: nat)
    requires Readable(parts) && Denoted(s, parts) && StepsFit(parts) && i < 5 && v < 64
    ensures HasBit(s.masks[i], v) <==> In(parts, i, v)
    ensures HasBit(s.masks[i], v) ==> Bounds(i).0 <= v <= Bounds(i).1
  {
    var items := FieldItems(parts[i], i).value;
    assert HasBit(s.masks[i], v) <==> Marked(items, v);
    forall k | 0 <= k < |items| ensures Visits(items[k], v) <==> Denotes(items[k], v) {
      assert ItemFits(items[k]);
      StepsExactly(items[k]);
    }
  }

  lemma StarIsEverything(parts: seq<Str>, i: nat, v: int)
    requires Readable(parts) && i < 5 && parts[i] == STAR && Bounds(i).0 <= v <= Bounds(i).1
    ensures In(parts, i, v)
  {
    assert COMMA !in STAR && SLASH !in STAR;
    var items := FieldItems(parts[i], i).value;
    assert Split(STAR, COMMA) == [STAR];
    assert ReadItem(STAR, Bounds(i).0, Bounds(i).1) == Some(Item(Bounds(i).0, Bounds(i).1, 1));
    assert Denotes(items[0], v);
  }

  /** A parsed expression matches a minute exactly when the rule on sets of values says so. */
  lemma MatchesIffRule(s: Schedule, parts: seq<Str>, t: Moment)
    requires Readable(parts) && Denoted(s, parts) && StepsFit(parts) && t.Valid()
    ensures Matches(s, t) <==> Rule(parts, t)
  {
    MaskExact(s, parts, 0, t.minute);
    MaskExact(s, parts, 1, t.hour);
    MaskExact(s, parts, 2, t.day);
    MaskExact(s, parts, 3, t.month);
    MaskExact(s, parts, 4, t.weekday);
    if parts[2] == STAR { StarIsEverything(parts, 2, t.day); }
    if parts[4] == STAR { StarIsEverything(parts, 4, t.weekday); }
  }

  // ------------------------------------------------------------ seven as a week day

  /** How a range reads, whatever its ends are. */
  lemma RangeReads(from: Str, to: Str, step: Option<Str>, min: int, max: int)
    requires min <= max && DASH !in from && SLASH !in from && SLASH !in to && ReadStep(step).Some?
    ensures var (lo, hi) := (Value(from, min, max), Value(to, min, max));
      ReadItem(ItemText(Range(from, to), step), min, max) ==
        if lo.Some? && hi.Some? && lo.value <= hi.value then Some(Item(lo.value, hi.value, ReadStep(step).value)) else None
  {
    var text := SpecText(Range(from, to));
    assert text[..|from|] == from && text[|from|] == DASH && text[|from| + 1..] == to;
    IndexByteUnique(text, DASH, |from|);
    assert text != STAR by { assert STAR[0] != DASH; }
    CutAgain(text, step, ItemText(Range(from, to), step));
  }

  /** A range of week days up to 7 is accepted only from Sunday, and is Sunday alone, because 7 is read as 0
      before the ends are compared. */
  lemma SevenCollapsesRange(from: Str, to: Str, step: Option<Str>)
    requires DASH !in from && SLASH !in from && Atoi(to) == Some(7) && ReadStep(step).Some?
    ensures var item := ReadItem(ItemText(Range(from, to), step), 0, 6);
      && (item.Some? <==> Atoi(from) == Some(0) || Atoi(from) == Some(7))
      && (item.Some? ==> forall w :: Denotes(item.value, w) <==> w == 0)
  {
    NumbersHaveNoSlash(to);
    OnlySundayBefore(from);
    var n := ReadStep(step).value;
    SundayAlone(n);
    RangeReads(from, to, step, 0, 6);
    assert Value(to, 0, 6) == Some(0);
    assert ReadItem(ItemText(Range(from, to), step), 0, 6) in {None, Some(Item(0, 0, n))};
  }

  lemma OnlySundayBefore(from: Str)
    ensures Value(from, 0, 6).Some? && Value(from, 0, 6).value <= 0 <==> Atoi(from) == Some(0) || Atoi(from) == Some(7)
  {
  }

  lemma SundayAlone(step: int)
    requires step >= 1
    ensures forall w :: Denotes(Item(0, 0, step), w) <==> w == 0
  {
    SmallRemainder(0, step);
  }

  /** A range of week days from 7 is the range from Sunday. */
  lemma SevenStartsAtSunday(from: Str, to: Str, step: Option<Str>)
    requires Atoi(from) == Some(7) && SLASH !in to && ReadStep(step).Some?
    ensures ReadItem(ItemText(Range(from, to), step), 0, 6) ==
      match Value(to, 0, 6)
      case None => None
      case Some(hi) => Some(Item(0, hi, ReadStep(step).value))
  {
    NumbersHaveNoSlash(from);
    PositiveHasNoDash(from);
    RangeReads(from, to, step, 0, 6);
  }

  lemma PositiveHasNoDash(s: Str)
    requires Atoi(s).Some? && Atoi(s).value > 0
    ensures DASH !in s
  {
    if s[0] == PLUS { assert s == [s[0]] + s[1..]; }
  }

  // ------------------------------------------- the expression, character by character

  /** An optional sign and digits, for a number that fits int. */
  ghost predicate IntText(s: Str, n: int) {
    && -9223372036854775808 <= n <= 9223372036854775807
    && ((n >= 0 && (SemVer.Digits(s, n) || (s != [] && s[0] as char == '+' && SemVer.Digits(s[1..], n))))
        || (n <= 0 && s != [] && s[0] as char == '-' && SemVer.Digits(s[1..], -n)))
  }

  lemma AtoiExactly(s: Str, n: int)
    ensures Atoi(s) == Some(n) <==> IntText(s, n)
  {
    if n >= 0 { SemVer.NumeralExactly(s, n); }
    if s != [] {
      if n >= 0 { SemVer.NumeralExactly(s[1..], n); }
      if n <= 0 { SemVer.NumeralExactly(s[1..], -n); }
    }
  }

  /** A number of a field lies within its bounds, and 7 is Sunday among the days of the week. */
  lemma ValueExactly(s: Str, min: int, max: int, v: int)
    ensures Value(s, min, max) == Some(v) <==>
      min <= v <= max && (IntText(s, v) || (v == 0 && min == 0 && max == 6 && IntText(s, 7)))
  {
    AtoiExactly(s, v);
    AtoiExactly(s, 7);
    if Atoi(s).Some? { AtoiExactly(s, Atoi(s).value); }
  }

  /** How an item is written: "*", "5" or "1-5", and "/2" after it for steps of two. */
  lemma ItemTextExactly(spec: Spec, step: Option<Str>)
    ensures ItemText(spec, step) ==
      (match spec
       case Every => Ascii("*")
       case One(n) => n
       case Range(from, to) => from + Ascii("-") + to) + (if step.Some? then Ascii("/") + step.value else [])
  {
    assert Ascii("*") == STAR && Ascii("-") == [DASH] && Ascii("/") == [SLASH];
  }

  /** Minute, hour, day of the month, month, day of the week. */
  const ENDS: seq<(int, int)> := [(0, 59), (0, 23), (1, 31), (1, 12), (0, 6)]

  function ListText(parts: seq<Str>): Str {
    if parts == [] then [] else if |parts| == 1 then parts[0] else parts[0] + [',' as byte] + ListText(parts[1..])
  }

  lemma {:induction false} ListIsJoined(parts: seq<Str>)
    ensures ListText(parts) == Join(parts, COMMA)
  {
    if |parts| > 1 { ListIsJoined(parts[1..]); }
  }

  /** A field is its entries between commas, read within the bounds of its place. */
  lemma FieldExactly(entries: seq<Str>, i: nat)
    requires i < 5 && entries != [] && forall k :: 0 <= k < |entries| ==> ',' as byte !in entries[k]
    ensures FieldItems(ListText(entries), i) == ReadItems(entries, ENDS[i].0, ENDS[i].1)
  {
    ListIsJoined(entries);
    JoinSplit(entries, COMMA);
  }

  /** A star is every value its field can have, and no other. */
  lemma StarExactly(parts: seq<Str>, i: nat, v: int)
    requires Readable(parts) && i < 5 && parts[i] == Ascii("*")
    ensures In(parts, i, v) <==> ENDS[i].0 <= v <= ENDS[i].1
  {
    assert Ascii("*") == STAR;
    if Bounds(i).0 <= v <= Bounds(i).1 { StarIsEverything(parts, i, v); }
  }
}
