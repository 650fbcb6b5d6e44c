/** Version tags: parsing and SemVer precedence (internal/tagdeploy/version.go). */
module SemVer {
  import opened Bytes

  const DOT: byte := '.' as byte
  const DASH: byte := '-' as byte
  const PLUS: byte := '+' as byte
  const ZERO: byte := '0' as byte

  /** The range of the source's uint64 version numbers. */
  const UINT64_LIMIT: nat := 0x1_0000_0000_0000_0000

  datatype Version = Version(major: nat, minor: nat, patch: nat, pre: seq<Str>)
  {
    predicate IsPrerelease() { |pre| > 0 }
  }

  // ---------------------------------------------------------------- characters

  predicate IsDigit(c: byte) { '0' as byte <= c <= '9' as byte }

  predicate IsIdentByte(c: byte) {
    IsDigit(c) || 'a' as byte <= c <= 'z' as byte || 'A' as byte <= c <= 'Z' as byte || c == DASH
  }

  predicate IsDigits(s: Str) {
    s != [] && forall i :: 0 <= i < |s| ==> IsDigit(s[i])
  }

  predicate IsIdent(s: Str) {
    s != [] && forall i :: 0 <= i < |s| ==> IsIdentByte(s[i])
  }

  /** The scanning loop behind every digit test. */
  method ScanDigits(s: Str) returns (ok: bool)
    ensures ok <==> IsDigits(s)
  {
    if s == [] { return false; }
    for i := 0 to |s|
      invariant forall k :: 0 <= k < i ==> IsDigit(s[k])
    {
      if s[i] < '0' as byte || s[i] > '9' as byte { return false; }
    }
    return true;
  }

  /** The scanning loop behind every identifier test. */
  method ScanIdent(s: Str) returns (ok: bool)
    ensures ok <==> IsIdent(s)
  {
    if s == [] { return false; }
    for i := 0 to |s|
      invariant forall k :: 0 <= k < i ==> IsIdentByte(s[k])
    {
      if !IsIdentByte(s[i]) { return false; }
    }
    return true;
  }

  // ------------------------------------------------------- the value of digits

  function Pow10(n: nat): (p: nat)
    ensures p >= 1
  {
    if n == 0 then 1 else 10 * Pow10(n - 1)
  }

  function DigitValue(c: byte): (d: nat)
    requires IsDigit(c)
    ensures d <= 9
  {
    (c - ZERO) as nat
  }

  /** The number a run of digits denotes, most significant digit first. */
  function Numeral(s: Str): nat
    requires forall i :: 0 <= i < |s| ==> IsDigit(s[i])
  {
    if s == [] then 0 else DigitValue(s[0]) * Pow10(|s| - 1) + Numeral(s[1..])
  }

  /** Appending a smaller remainder cannot carry into the leading digit. */
  lemma {:induction false} DigitStep(d: nat, e: nat, p: nat, r: nat)
    requires d < e && r < p
    ensures d * p + r < e * p
  {
    assert e * p == (e - 1) * p + p;
    if d < e - 1 { DigitStep(d, e - 1, p, r); }
  }

  lemma {:induction false} NumeralBound(s: Str)
    requires forall i :: 0 <= i < |s| ==> IsDigit(s[i])
    ensures Numeral(s) < Pow10(|s|)
  {
    if s != [] {
      NumeralBound(s[1..]);
      DigitStep(DigitValue(s[0]), 10, Pow10(|s| - 1), Numeral(s[1..]));
    }
  }

  /** strings.TrimLeft(s, "0"). */
  function TrimZeros(s: Str): (t: Str)
    ensures |t| <= |s|
    ensures t != [] ==> t[0] != ZERO
    ensures (forall i :: 0 <= i < |s| ==> IsDigit(s[i])) ==> forall i :: 0 <= i < |t| ==> IsDigit(t[i])
  {
    if s != [] && s[0] == ZERO then TrimZeros(s[1..]) else s
  }

  lemma {:induction false} TrimZerosKeepsValue(s: Str)
    requires forall i :: 0 <= i < |s| ==> IsDigit(s[i])
    ensures Numeral(TrimZeros(s)) == Numeral(s)
  {
    if s != [] && s[0] == ZERO {
      TrimZerosKeepsValue(s[1..]);
      assert DigitValue(s[0]) == 0;
    }
  }

  lemma {:induction false} Pow10Monotone(m: nat, n: nat)
    requires m <= n
    ensures Pow10(m) <= Pow10(n)
  {
    if m < n { Pow10Monotone(m, n - 1); }
  }

  /** A number without leading zeros is at least 10 to its length less one. */
  lemma TrimmedLowerBound(s: Str)
    requires s != [] && s[0] != ZERO && forall i :: 0 <= i < |s| ==> IsDigit(s[i])
    ensures Numeral(s) >= Pow10(|s| - 1)
  {
    var d, p := DigitValue(s[0]), Pow10(|s| - 1);
    assert d >= 1;
    assert d * p >= p;
  }

  function Sign(x: int): int { if x < 0 then -1 else if x > 0 then 1 else 0 }

  /** On digit runs of one length, byte order is numeric order. */
  lemma {:induction false} SameLengthOrder(a: Str, b: Str)
    requires |a| == |b|
    requires forall i :: 0 <= i < |a| ==> IsDigit(a[i]) && IsDigit(b[i])
    ensures CompareBytes(a, b) == Sign(Numeral(a) - Numeral(b))
  {
    if a != [] {
      NumeralBound(a[1..]);
      NumeralBound(b[1..]);
      if a[0] < b[0] {
        DigitStep(DigitValue(a[0]), DigitValue(b[0]), Pow10(|a| - 1), Numeral(a[1..]));
      } else if b[0] < a[0] {
        DigitStep(DigitValue(b[0]), DigitValue(a[0]), Pow10(|a| - 1), Numeral(b[1..]));
      } else {
        SameLengthOrder(a[1..], b[1..]);
      }
    }
  }

  // ------------------------------------------------------------------- parsing

  /** strconv.ParseUint(s, 10, 64) on a run of digits: fails only on overflow. */
  function ParseUint(s: Str): Option<nat>
    requires IsDigits(s)
  {
    if Numeral(s) < UINT64_LIMIT then Some(Numeral(s)) else None
  }

  predicate AllIdents(ids: seq<Str>) {
    forall i :: 0 <= i < |ids| ==> IsIdent(ids[i])
  }

  predicate AllNumbers(parts: seq<Str>) {
    forall i :: 0 <= i < |parts| ==> IsDigits(parts[i]) && Numeral(parts[i]) < UINT64_LIMIT
  }

  /** The i-th number of the core, 0 when the core is shorter. */
  function NumberAt(parts: seq<Str>, i: nat): nat
    requires AllNumbers(parts)
  {
    if i < |parts| then Numeral(parts[i]) else 0
  }

  function TrimLead(s: Str): Str {
    if s != [] && (s[0] == 'v' as byte || s[0] == 'V' as byte) then s[1..] else s
  }

  /** Drops "+build", which must not be empty. */
  function StripBuild(s: Str): Option<Str> {
    var i := IndexByte(s, PLUS);
    if i < 0 then Some(s) else if i == |s| - 1 then None else Some(s[..i])
  }

  /** The text before the first dash. */
  function CoreText(t: Str): Str {
    var i := IndexByte(t, DASH);
    if i < 0 then t else t[..i]
  }

  /** The identifiers after the first dash. */
  function PreIdents(t: Str): seq<Str> {
    var i := IndexByte(t, DASH);
    if i < 0 then [] else Split(t[i + 1..], DOT)
  }

  function MakeVersion(parts: seq<Str>, pre: seq<Str>): Option<Version> {
    if !AllIdents(pre) || |parts| > 3 || !AllNumbers(parts) then None
    else Some(Version(NumberAt(parts, 0), NumberAt(parts, 1), NumberAt(parts, 2), pre))
  }

  /** The version a tag denotes, if any. */
  function Parse(tag: Str): Option<Version> {
    match StripBuild(TrimLead(tag))
    case None => None
    case Some(t) => MakeVersion(Split(CoreText(t), DOT), PreIdents(t))
  }

  /** The loop that collects valid identifiers into v.Pre. */
  method ReadIdents(ids: seq<Str>) returns (r: Option<seq<Str>>)
    ensures r == if AllIdents(ids) then Some(ids) else None
  {
    var pre: seq<Str> := [];
    for k := 0 to |ids|
      invariant pre == ids[..k] && AllIdents(pre)
    {
      var ok := ScanIdent(ids[k]);
      if !ok { return None; }
      pre := pre + [ids[k]];
    }
    assert pre == ids;
    return Some(pre);
  }

  /** The loop that fills nums[0..3]. */
  method ReadNumbers(parts: seq<Str>) returns (r: Option<(nat, nat, nat)>)
    requires |parts| <= 3
    ensures r == if AllNumbers(parts) then Some((NumberAt(parts, 0), NumberAt(parts, 1), NumberAt(parts, 2))) else None
  {
    var nums := new nat[3](_ => 0);
    for k := 0 to |parts|
      invariant forall j :: 0 <= j < k ==> IsDigits(parts[j]) && Numeral(parts[j]) < UINT64_LIMIT
      invariant forall j :: 0 <= j < k ==> nums[j] == Numeral(parts[j])
      invariant forall j :: k <= j < 3 ==> nums[j] == 0
    {
      var ok := ScanDigits(parts[k]);
      if !ok { return None; }
      var n := ParseUint(parts[k]);
      if n.None? { return None; }
      nums[k] := n.value;
    }
    return Some((nums[0], nums[1], nums[2]));
  }

  /** ParseVersion: strip the lead and the build, then read identifiers, then numbers. */
  method ParseVersion(tag: Str) returns (r: Option<Version>)
    ensures r == Parse(tag)
  {
    var s := TrimLead(tag);
    var i := IndexByte(s, PLUS);
    if i >= 0 {
      if i == |s| - 1 { return None; }
      s := s[..i];
    }
    r := ParseStripped(s);
  }

  /** The rest of ParseVersion, after the build is dropped. */
  method ParseStripped(s: Str) returns (r: Option<Version>)
    ensures r == MakeVersion(Split(CoreText(s), DOT), PreIdents(s))
  {
    var pre: seq<Str> := [];
    var i := IndexByte(s, DASH);
    var core := s;
    if i >= 0 {
      var ids := ReadIdents(Split(s[i + 1..], DOT));
      if ids.None? { return None; }
      pre := ids.value;
      core := s[..i];
    }
    var parts := Split(core, DOT);
    if |parts| > 3 { return None; }
    var nums := ReadNumbers(parts);
    if nums.None? { return None; }
    return Some(Version(nums.value.0, nums.value.1, nums.value.2, pre));
  }

  // ------------------------------------------------- the grammar Parse accepts

  /** `tag` is [v] number [. number [. number]] [- ident {. ident}] [+ anything], and denotes `v`. */
  predicate Spells(tag: Str, v: Version, lead: Str, parts: seq<Str>, build: Str) {
    && (lead == [] || lead == ['v' as byte] || lead == ['V' as byte])
    && 1 <= |parts| <= 3 && AllNumbers(parts)
    && v.major == NumberAt(parts, 0) && v.minor == NumberAt(parts, 1) && v.patch == NumberAt(parts, 2)
    && AllIdents(v.pre)
    && (build == [] || (|build| >= 2 && build[0] == PLUS))
    && tag == lead + Join(parts, DOT) + PreText(v.pre) + build
  }

  function PreText(pre: seq<Str>): Str {
    if pre == [] then [] else [DASH] + Join(pre, DOT)
  }

  lemma {:induction false} JoinNumbersBytes(parts: seq<Str>)
    requires |parts| >= 1 && AllNumbers(parts)
    ensures Join(parts, DOT) != [] && IsDigit(Join(parts, DOT)[0])
    ensures forall c :: c in Join(parts, DOT) ==> IsDigit(c) || c == DOT
  {
    if |parts| > 1 { JoinNumbersBytes(parts[1..]); }
  }

  lemma {:induction false} JoinIdentsBytes(ids: seq<Str>)
    requires AllIdents(ids)
    ensures forall c :: c in Join(ids, DOT) ==> IsIdentByte(c) || c == DOT
  {
    if |ids| > 1 { JoinIdentsBytes(ids[1..]); }
  }

  lemma Regroup(tag: Str, lead: Str, core: Str, pre: Str, build: Str)
    requires tag == lead + ((core + pre) + build)
    ensures tag == lead + core + pre + build
  {
  }

  lemma StripBuildSplits(s: Str) returns (build: Str)
    requires StripBuild(s).Some?
    ensures s == StripBuild(s).value + build && (build == [] || (|build| >= 2 && build[0] == PLUS))
  {
    build := s[|StripBuild(s).value|..];
  }

  lemma CoreAndPre(t: Str)
    ensures t == Join(Split(CoreText(t), DOT), DOT) + PreText(PreIdents(t))
  {
    SplitJoin(CoreText(t), DOT);
    PreTextIsTail(t);
    CoreAndTail(t);
  }

  lemma CoreAndTail(t: Str)
    ensures t == CoreText(t) + t[|CoreText(t)|..]
  {
  }

  lemma TailText(tail: Str)
    ensures PreText(Split(tail, DOT)) == [DASH] + tail
  {
    SplitJoin(tail, DOT);
  }

  lemma PreTextIsTail(t: Str)
    ensures PreText(PreIdents(t)) == t[|CoreText(t)|..]
  {
    var i := IndexByte(t, DASH);
    if i >= 0 {
      TailText(t[i + 1..]);
      assert t[i..] == [DASH] + t[i + 1..];
    } else {
      assert t[|t|..] == [];
    }
  }

  lemma LeadSplits(tag: Str)
    returns (lead: Str)
    ensures lead == [] || lead == ['v' as byte] || lead == ['V' as byte]
    ensures tag == lead + TrimLead(tag)
  {
    lead := if TrimLead(tag) == tag then [] else [tag[0]];
  }

  /** Everything the parser accepts is spelled by the grammar. */
  lemma ParseSound(tag: Str)
    requires Parse(tag).Some?
    ensures exists lead, parts, build :: Spells(tag, Parse(tag).value, lead, parts, build)
  {
    var lead := LeadSplits(tag);
    var build := StripBuildSplits(TrimLead(tag));
    var t := StripBuild(TrimLead(tag)).value;
    StrippedSound(tag, lead, t, build);
    assert Parse(tag) == MakeVersion(Split(CoreText(t), DOT), PreIdents(t));
  }

  lemma StrippedSound(tag: Str, lead: Str, t: Str, build: Str)
    requires lead == [] || lead == ['v' as byte] || lead == ['V' as byte]
    requires build == [] || (|build| >= 2 && build[0] == PLUS)
    requires tag == lead + (t + build) && MakeVersion(Split(CoreText(t), DOT), PreIdents(t)).Some?
    ensures Spells(tag, MakeVersion(Split(CoreText(t), DOT), PreIdents(t)).value, lead, Split(CoreText(t), DOT), build)
  {
    CoreAndPre(t);
    SpellsMade(tag, lead, Split(CoreText(t), DOT), PreIdents(t), build);
  }

  lemma SpellsMade(tag: Str, lead: Str, parts: seq<Str>, pre: seq<Str>, build: Str)
    requires lead == [] || lead == ['v' as byte] || lead == ['V' as byte]
    requires |parts| >= 1 && MakeVersion(parts, pre).Some?
    requires build == [] || (|build| >= 2 && build[0] == PLUS)
    requires tag == lead + ((Join(parts, DOT) + PreText(pre)) + build)
    ensures Spells(tag, MakeVersion(parts, pre).value, lead, parts, build)
  {
    Regroup(tag, lead, Join(parts, DOT), PreText(pre), build);
  }

  lemma StripBuildComplete(t: Str, build: Str)
    requires PLUS !in t
    requires build == [] || (|build| >= 2 && build[0] == PLUS)
    ensures StripBuild(t + build) == Some(t)
  {
    if build == [] {
      assert t + build == t;
      assert IndexByte(t, PLUS) < 0;
    } else {
      CutAt(t, PLUS, build[1..], t + build);
    }
  }

  /** Cutting at the first occurrence of a byte that the part before lacks. */
  lemma CutAt(before: Str, c: byte, after: Str, s: Str)
    requires c !in before && s == before + [c] + after
    ensures IndexByte(s, c) == |before| && s[..|before|] == before && s[|before| + 1..] == after
  {
    assert s[..|before|] == before && s[|before|] == c;
    IndexByteUnique(s, c, |before|);
  }

  lemma NoDash(t: Str)
    requires DASH !in t
    ensures CoreText(t) == t && PreIdents(t) == []
  {
    assert IndexByte(t, DASH) < 0;
  }

  lemma DashAfterCore(core: Str, tail: Str, t: Str)
    requires DASH !in core && t == core + [DASH] + tail
    ensures CoreText(t) == core && PreIdents(t) == Split(tail, DOT)
  {
    CutAt(core, DASH, tail, t);
  }

  lemma CoreComplete(core: Str, pre: seq<Str>)
    requires DASH !in core && AllIdents(pre)
    ensures CoreText(core + PreText(pre)) == core
    ensures PreIdents(core + PreText(pre)) == pre
  {
    if pre == [] {
      assert core + PreText(pre) == core;
      NoDash(core);
    } else {
      var tail := Join(pre, DOT);
      assert core + PreText(pre) == core + [DASH] + tail;
      DashAfterCore(core, tail, core + PreText(pre));
      IdentsFreeOfDots(pre);
      JoinSplit(pre, DOT);
    }
  }

  lemma IdentsFreeOfDots(ids: seq<Str>)
    requires AllIdents(ids)
    ensures Free(ids, DOT)
  {
    forall i | 0 <= i < |ids| ensures DOT !in ids[i] { assert IsIdent(ids[i]); }
  }

  /** Everything the grammar spells is accepted, as the version it spells. */
  lemma ParseComplete(tag: Str, v: Version, lead: Str, parts: seq<Str>, build: Str)
    requires Spells(tag, v, lead, parts, build)
    ensures Parse(tag) == Some(v)
  {
    var core := Join(parts, DOT);
    JoinNumbersBytes(parts);
    SpelledBytes(core, v.pre);
    LeadTrimmed(tag, lead, core, PreText(v.pre), build);
    StripBuildComplete(core + PreText(v.pre), build);
    CoreComplete(core, v.pre);
    NumbersFreeOfDots(parts);
    JoinSplit(parts, DOT);
  }

  lemma SpelledBytes(core: Str, pre: seq<Str>)
    requires AllIdents(pre) && forall c :: c in core ==> IsDigit(c) || c == DOT
    ensures DASH !in core && PLUS !in core + PreText(pre)
  {
    JoinIdentsBytes(pre);
  }

  lemma LeadTrimmed(tag: Str, lead: Str, core: Str, pre: Str, build: Str)
    requires lead == [] || lead == ['v' as byte] || lead == ['V' as byte]
    requires core != [] && IsDigit(core[0]) && tag == lead + core + pre + build
    ensures TrimLead(tag) == core + pre + build
  {
    var rest := core + pre + build;
    assert tag == lead + rest && rest[0] == core[0];
  }

  lemma NumbersFreeOfDots(parts: seq<Str>)
    requires AllNumbers(parts)
    ensures Free(parts, DOT)
  {
    forall i | 0 <= i < |parts| ensures DOT !in parts[i] { assert IsDigits(parts[i]); }
  }

  ghost predicate Spelled(tag: Str, v: Version) {
    exists lead, parts, build :: Spells(tag, v, lead, parts, build)
  }

  /** ParseVersion accepts exactly the grammar, and the reading is unique. */
  lemma ParseIffSpelled(tag: Str, v: Version)
    ensures Parse(tag) == Some(v) <==> Spelled(tag, v)
  {
    if Parse(tag) == Some(v) { ParseSound(tag); }
    if Spelled(tag, v) {
      var lead, parts, build :| Spells(tag, v, lead, parts, build);
      ParseComplete(tag, v, lead, parts, build);
    }
  }

  // ---------------------------------------------------------------- comparison

  /** compareIdent. */
  function CompareIdent(a: Str, b: Str): (c: int)
    ensures c in {-1, 0, 1}
  {
    if IsDigits(a) && IsDigits(b) then
      var x, y := TrimZeros(a), TrimZeros(b);
      if |x| != |y| then (if |x| < |y| then -1 else 1) else CompareBytes(x, y)
    else if IsDigits(a) then -1
    else if IsDigits(b) then 1
    else CompareBytes(a, b)
  }

  /** The loop over pre-release identifiers: the first difference decides, then length. */
  function ComparePre(a: seq<Str>, b: seq<Str>): (c: int)
    ensures c in {-1, 0, 1}
  {
    if a == [] then (if b == [] then 0 else -1)
    else if b == [] then 1
    else
      var c := CompareIdent(a[0], b[0]);
      if c != 0 then c else ComparePre(a[1..], b[1..])
  }

  /** Version.Compare. */
  function Compare(v: Version, o: Version): (c: int)
    ensures c in {-1, 0, 1}
  {
    if v.major != o.major then (if v.major < o.major then -1 else 1)
    else if v.minor != o.minor then (if v.minor < o.minor then -1 else 1)
    else if v.patch != o.patch then (if v.patch < o.patch then -1 else 1)
    else if v.pre == [] && o.pre == [] then 0
    else if v.pre == [] then 1
    else if o.pre == [] then -1
    else ComparePre(v.pre, o.pre)
  }

  /** Trim zeros, then length, then byte order: numeric order on digits of any length. */
  lemma NumericIdentOrder(a: Str, b: Str)
    requires IsDigits(a) && IsDigits(b)
    ensures CompareIdent(a, b) == Sign(Numeral(a) - Numeral(b))
  {
    var x, y := TrimZeros(a), TrimZeros(b);
    TrimZerosKeepsValue(a);
    TrimZerosKeepsValue(b);
    NumeralBound(x);
    NumeralBound(y);
    if |x| < |y| {
      TrimmedLowerBound(y);
      Pow10Monotone(|x|, |y| - 1);
    } else if |y| < |x| {
      TrimmedLowerBound(x);
      Pow10Monotone(|y|, |x| - 1);
    } else {
      SameLengthOrder(x, y);
    }
  }

  // ----------------------------------- precedence, section 11 of SemVer 2.0.0

  /** ASCII order: a proper prefix first, then the first different byte. */
  predicate AsciiLess(a: Str, b: Str) {
    exists k :: 0 <= k <= |a| && SplitsBelow(a, b, k)
  }

  /** Items 11.4.1 to 11.4.3: digits numerically, digits below letters, letters in ASCII order. */
  predicate IdentLess(a: Str, b: Str) {
    if IsDigits(a) && IsDigits(b) then Numeral(a) < Numeral(b)
    else if IsDigits(a) || IsDigits(b) then IsDigits(a)
    else AsciiLess(a, b)
  }

  predicate IdentSame(a: Str, b: Str) {
    if IsDigits(a) && IsDigits(b) then Numeral(a) == Numeral(b) else a == b
  }

  /** Item 11.4: identifiers left to right until a difference; 11.4.4: a longer list wins a tie. */
  predicate PreLess(a: seq<Str>, b: seq<Str>) {
    exists k :: 0 <= k <= |a| && k <= |b| && SamePrefix(a, b, k) && PreLessAt(a, b, k)
  }

  predicate SamePrefix(a: seq<Str>, b: seq<Str>, k: nat)
    requires k <= |a| && k <= |b|
  {
    forall i :: 0 <= i < k ==> IdentSame(a[i], b[i])
  }

  predicate PreLessAt(a: seq<Str>, b: seq<Str>, k: nat)
    requires k <= |a| && k <= |b|
  {
    k < |b| && (k == |a| || IdentLess(a[k], b[k]))
  }

  /** Items 11.2 and 11.3: the numbers first, then a pre-release below its release. */
  predicate Precedes(v: Version, o: Version) {
    || v.major < o.major
    || (v.major == o.major && v.minor < o.minor)
    || (v.major == o.major && v.minor == o.minor && v.patch < o.patch)
    || (v.major == o.major && v.minor == o.minor && v.patch == o.patch
        && v.pre != [] && (o.pre == [] || PreLess(v.pre, o.pre)))
  }

  lemma IdentOrder(a: Str, b: Str)
    ensures CompareIdent(a, b) == -1 <==> IdentLess(a, b)
    ensures CompareIdent(a, b) == 0 <==> IdentSame(a, b)
  {
    if IsDigits(a) && IsDigits(b) {
      NumericIdentOrder(a, b);
    } else {
      CompareBytesExactly(a, b);
      CompareBytesOrder(a, b);
    }
  }

  lemma {:induction false} PreOrder(a: seq<Str>, b: seq<Str>)
    ensures ComparePre(a, b) == -1 <==> PreLess(a, b)
  {
    if a == [] || b == [] {
      if b != [] { assert SamePrefix(a, b, 0) && PreLessAt(a, b, 0); }
    } else {
      IdentOrder(a[0], b[0]);
      PreOrder(a[1..], b[1..]);
      if PreLess(a, b) {
        var k :| 0 <= k <= |a| && k <= |b| && SamePrefix(a, b, k) && PreLessAt(a, b, k);
        if k > 0 {
          assert SamePrefix(a[1..], b[1..], k - 1) && PreLessAt(a[1..], b[1..], k - 1);
        }
      }
      if IdentLess(a[0], b[0]) { assert SamePrefix(a, b, 0) && PreLessAt(a, b, 0); }
      if IdentSame(a[0], b[0]) && PreLess(a[1..], b[1..]) {
        var k :| 0 <= k <= |a| - 1 && k <= |b| - 1 && SamePrefix(a[1..], b[1..], k) && PreLessAt(a[1..], b[1..], k);
        assert SamePrefix(a, b, k + 1) by {
          forall i | 0 <= i < k + 1 ensures IdentSame(a[i], b[i]) {
            if i > 0 { assert IdentSame(a[1..][i - 1], b[1..][i - 1]); }
          }
        }
        assert PreLessAt(a, b, k + 1);
      }
    }
  }

  /** Compare is the precedence of section 11, in both directions. */
  lemma CompareIsPrecedence(v: Version, o: Version)
    ensures Compare(v, o) == -1 <==> Precedes(v, o)
    ensures Compare(v, o) == 1 <==> Precedes(o, v)
  {
    PreOrder(v.pre, o.pre);
    PreOrder(o.pre, v.pre);
    ComparePreAntisymmetric(v.pre, o.pre);
  }

  // ------------------------------------------------------------- order axioms

  lemma CompareIdentAntisymmetric(a: Str, b: Str)
    ensures CompareIdent(b, a) == -CompareIdent(a, b)
  {
    CompareBytesOrder(a, b);
    CompareBytesOrder(TrimZeros(a), TrimZeros(b));
  }

  lemma CompareIdentTransitive(a: Str, b: Str, c: Str)
    requires CompareIdent(a, b) <= 0 && CompareIdent(b, c) <= 0
    ensures CompareIdent(a, c) <= 0
    ensures CompareIdent(a, b) < 0 || CompareIdent(b, c) < 0 ==> CompareIdent(a, c) < 0
  {
    if IsDigits(a) && IsDigits(b) && IsDigits(c) {
      NumericIdentOrder(a, b);
      NumericIdentOrder(b, c);
      NumericIdentOrder(a, c);
    } else if !IsDigits(a) && !IsDigits(b) && !IsDigits(c) {
      CompareBytesTransitive(a, b, c);
    }
  }

  lemma {:induction false} ComparePreAntisymmetric(a: seq<Str>, b: seq<Str>)
    ensures ComparePre(b, a) == -ComparePre(a, b)
  {
    if a != [] && b != [] {
      CompareIdentAntisymmetric(a[0], b[0]);
      ComparePreAntisymmetric(a[1..], b[1..]);
    }
  }

  lemma {:induction false} ComparePreTransitive(a: seq<Str>, b: seq<Str>, c: seq<Str>)
    requires ComparePre(a, b) <= 0 && ComparePre(b, c) <= 0
    ensures ComparePre(a, c) <= 0
    ensures ComparePre(a, b) < 0 || ComparePre(b, c) < 0 ==> ComparePre(a, c) < 0
  {
    if a != [] && b != [] && c != [] {
      CompareIdentTransitive(a[0], b[0], c[0]);
      CompareIdentAntisymmetric(a[0], b[0]);
      CompareIdentAntisymmetric(b[0], c[0]);
      CompareIdentAntisymmetric(a[0], c[0]);
      if CompareIdent(a[0], b[0]) == 0 && CompareIdent(b[0], c[0]) == 0 {
        CompareIdentTransitive(c[0], b[0], a[0]);
        ComparePreTransitive(a[1..], b[1..], c[1..]);
      }
    }
  }

  /** Compare is a total preorder: antisymmetric in sign and transitive, strictly if either step is strict. */
  lemma CompareTotalPreorder(u: Version, v: Version, w: Version)
    ensures Compare(v, u) == -Compare(u, v)
    ensures Compare(u, v) <= 0 && Compare(v, w) <= 0 ==> Compare(u, w) <= 0
    ensures Compare(u, v) <= 0 && Compare(v, w) <= 0 && (Compare(u, v) < 0 || Compare(v, w) < 0) ==> Compare(u, w) < 0
  {
    ComparePreAntisymmetric(u.pre, v.pre);
    if ComparePre(u.pre, v.pre) <= 0 && ComparePre(v.pre, w.pre) <= 0 {
      ComparePreTransitive(u.pre, v.pre, w.pre);
    }
  }

  // ----------------------------------------------- the grammar, character by character

  function Zeros(k: nat): Str { seq(k, i requires 0 <= i < k => '0' as byte) }

  /** Decimal digits, perhaps after zeros, that denote n. */
  predicate Digits(s: Str, n: nat) {
    exists k: nat :: k <= |s| && s == Zeros(k) + Decimal(n)
  }

  lemma {:induction false} DecimalIsDigits(n: nat)
    ensures IsDigits(Decimal(n))
  {
    if n >= 10 { DecimalIsDigits(n / 10); }
  }

  lemma {:induction false} NumeralAppend(s: Str, c: byte)
    requires (forall i :: 0 <= i < |s| ==> IsDigit(s[i])) && IsDigit(c)
    ensures Numeral(s + [c]) == 10 * Numeral(s) + DigitValue(c)
  {
    if s != [] {
      NumeralAppend(s[1..], c);
      assert (s + [c])[1..] == s[1..] + [c];
      var d, p := DigitValue(s[0]), Pow10(|s| - 1);
      assert Pow10(|s|) == 10 * p;
      TimesTen(d, p);
    } else {
      assert [] + [c] == [c];
    }
  }

  lemma TimesTen(d: nat, p: nat)
    ensures d * (10 * p) == 10 * (d * p)
  {
  }

  lemma {:induction false} NumeralOfDecimal(n: nat)
    ensures IsDigits(Decimal(n)) && Numeral(Decimal(n)) == n
  {
    DecimalIsDigits(n);
    if n >= 10 {
      NumeralOfDecimal(n / 10);
      NumeralAppend(Decimal(n / 10), 48 + (n % 10) as byte);
    } else {
      assert Numeral([48 + n as byte]) == DigitValue(48 + n as byte) * Pow10(0) + Numeral([]);
    }
  }

  lemma {:induction false} NumeralAfterZeros(k: nat, s: Str)
    requires IsDigits(s)
    ensures IsDigits(Zeros(k) + s) && Numeral(Zeros(k) + s) == Numeral(s)
  {
    if k > 0 {
      NumeralAfterZeros(k - 1, s);
      assert (Zeros(k) + s)[1..] == Zeros(k - 1) + s;
    } else {
      assert Zeros(0) + s == s;
    }
  }

  lemma {:induction false} DigitsOf(s: Str)
    requires IsDigits(s)
    ensures Digits(s, Numeral(s))
  {
    var init, c := s[..|s| - 1], s[|s| - 1];
    assert s == init + [c];
    var d := DigitValue(c);
    NumeralAppend(init, c);
    if init == [] {
      assert s == Zeros(0) + Decimal(d);
    } else {
      DigitsOf(init);
      var k: nat :| k <= |init| && init == Zeros(k) + Decimal(Numeral(init));
      DigitsNext(k, Numeral(init), c);
    }
  }

  /** One more digit multiplies the number by ten. */
  lemma DigitsNext(k: nat, m: nat, c: byte)
    requires IsDigit(c)
    ensures Digits(Zeros(k) + Decimal(m) + [c], 10 * m + DigitValue(c))
  {
    var d, s := DigitValue(c), Zeros(k) + Decimal(m) + [c];
    if m == 0 {
      assert Zeros(k) + ['0' as byte] == Zeros(k + 1);
      assert s == Zeros(k + 1) + Decimal(d);
    } else {
      assert (10 * m + d) / 10 == m && (10 * m + d) % 10 == d;
      assert s == Zeros(k) + Decimal(10 * m + d);
    }
  }

  /** A run of digits denotes the number it is the decimal form of, leading zeros aside. */
  lemma NumeralExactly(s: Str, n: nat)
    ensures IsDigits(s) && Numeral(s) == n <==> Digits(s, n)
  {
    if IsDigits(s) { DigitsOf(s); }
    if Digits(s, n) {
      var k: nat :| k <= |s| && s == Zeros(k) + Decimal(n);
      NumeralOfDecimal(n);
      NumeralAfterZeros(k, Decimal(n));
    }
  }

  predicate LetterDigitHyphen(c: char) { '0' <= c <= '9' || 'A' <= c <= 'Z' || 'a' <= c <= 'z' || c == '-' }

  predicate IdentText(s: Str) { s != [] && forall i :: 0 <= i < |s| ==> LetterDigitHyphen(s[i] as char) }

  /** The number `n` of a version, which uint64 holds; 0 where the text has no such part. */
  predicate PartIs(parts: seq<Str>, i: nat, n: nat) {
    if i < |parts| then Digits(parts[i], n) && n < 18446744073709551616 else n == 0
  }

  function Dotted(parts: seq<Str>): Str {
    if parts == [] then [] else if |parts| == 1 then parts[0] else parts[0] + ['.' as byte] + Dotted(parts[1..])
  }

  /** A version as it is written: "v1.2.3-rc.1+build". */
  predicate Written(tag: Str, v: Version, lead: Str, parts: seq<Str>, build: Str) {
    && lead in {Ascii(""), Ascii("v"), Ascii("V")} && 1 <= |parts| <= 3
    && PartIs(parts, 0, v.major) && PartIs(parts, 1, v.minor) && PartIs(parts, 2, v.patch)
    && (forall i :: 0 <= i < |v.pre| ==> IdentText(v.pre[i]))
    && (build == [] || (|build| > 1 && build[0] as char == '+'))
    && tag == lead + Dotted(parts) + (if v.pre == [] then [] else ['-' as byte] + Dotted(v.pre)) + build
  }

  lemma {:induction false} DottedIsJoined(parts: seq<Str>)
    ensures Dotted(parts) == Join(parts, DOT)
  {
    if |parts| > 1 { DottedIsJoined(parts[1..]); }
  }

  lemma PartsExactly(parts: seq<Str>, a: nat, b: nat, c: nat)
    requires 1 <= |parts| <= 3
    ensures PartIs(parts, 0, a) && PartIs(parts, 1, b) && PartIs(parts, 2, c)
      <==> (AllNumbers(parts) && NumberAt(parts, 0) == a && NumberAt(parts, 1) == b && NumberAt(parts, 2) == c)
  {
    NumeralExactly(parts[0], a);
    if |parts| > 1 { NumeralExactly(parts[1], b); }
    if |parts| > 2 { NumeralExactly(parts[2], c); }
  }

  /** The grammar in characters: what ParseVersion accepts, and as which version. */
  lemma SpelledExactly(tag: Str, v: Version, lead: Str, parts: seq<Str>, build: Str)
    ensures Spells(tag, v, lead, parts, build) <==> Written(tag, v, lead, parts, build)
  {
    if 1 <= |parts| <= 3 { PartsExactly(parts, v.major, v.minor, v.patch); }
    DottedIsJoined(parts);
    DottedIsJoined(v.pre);
    assert Ascii("") == [] && Ascii("v") == ['v' as byte] && Ascii("V") == ['V' as byte];
  }
}
