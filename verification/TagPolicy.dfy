/** Which pushed tag, if any, a tag-mode app deploys (internal/tagdeploy/policy.go). */
module TagPolicy {
  import opened Bytes
  import opened SemVer
  import opened Glob

  datatype Policy = Policy(pattern: Str, prereleases: bool)

  predicate IsWild(c: byte) { c == STAR || c == QUESTION || c == OPEN }

  predicate Plain(s: Str) { forall i :: 0 <= i < |s| ==> !IsWild(s[i]) }

  /** The text before the first "*", "?" or "[". */
  function Literal(pattern: Str): (r: Str)
    ensures HasPrefix(pattern, r)
  {
    if pattern == [] || IsWild(pattern[0]) then [] else [pattern[0]] + Literal(pattern[1..])
  }

  /** The pattern's literal prefix, read without the leading slash as MatchGlob reads it. */
  function TagPrefix(p: Policy): Str {
    Literal(TrimPrefix(p.pattern, [SLASH]))
  }

  /** Policy.Version. */
  function VersionOf(p: Policy, tag: Str): Option<Version> {
    if HasPrefix(tag, TagPrefix(p)) then Parse(tag[|TagPrefix(p)|..]) else None
  }

  predicate Matches(p: Policy, tag: Str) { MatchGlob(p.pattern, tag) }

  predicate VersionLike(p: Policy, tag: Str) { VersionOf(p, tag).Some? }

  /** Policy.Eligible. */
  predicate Eligible(p: Policy, tag: Str) {
    Matches(p, tag) && !(VersionLike(p, tag) && VersionOf(p, tag).value.IsPrerelease() && !p.prereleases)
  }

  // ------------------------------------------------- the policy without its functions

  predicate StarsText(c: byte) { c as int as char in "*?[" }

  /** The pattern's text before its first "*", "?" or "[", one leading slash left off. */
  predicate IsTagPrefix(pattern: Str, prefix: Str) {
    var text := if |pattern| > 0 && pattern[0] as int as char == '/' then pattern[1..] else pattern;
    && |prefix| <= |text| && text[..|prefix|] == prefix
    && (forall i :: 0 <= i < |prefix| ==> !StarsText(prefix[i]))
    && (|prefix| < |text| ==> StarsText(text[|prefix|]))
  }

  /** After the prefix, the grammar of versions spells v. */
  ghost predicate Reads(p: Policy, tag: Str, v: Version) {
    exists prefix, rest :: IsTagPrefix(p.pattern, prefix) && tag == prefix + rest && Spelled(rest, v)
  }

  ghost predicate Readable(p: Policy, tag: Str) { exists v :: Reads(p, tag, v) }

  /** Both tags read as versions, and that of `t` has the higher precedence. */
  ghost predicate Higher(p: Policy, t: Str, u: Str) {
    exists v, w :: Reads(p, t, v) && Reads(p, u, w) && Compare(v, w) > 0
  }

  /** The tag matches the pattern, and if it reads as a pre-release the app deploys those. */
  ghost predicate Follows(p: Policy, tag: Str) {
    MatchGlob(p.pattern, tag) && (p.prereleases || forall v :: Reads(p, tag, v) ==> v.pre == [])
  }

  lemma {:induction false} LiteralIsFirst(text: Str)
    ensures forall i :: 0 <= i < |Literal(text)| ==> !StarsText(Literal(text)[i])
    ensures |Literal(text)| < |text| ==> StarsText(text[|Literal(text)|])
  {
    if text != [] && !IsWild(text[0]) { LiteralIsFirst(text[1..]); }
  }

  /** The prefix Version strips ends at the first of these bytes, and nowhere else. */
  lemma TagPrefixExactly(p: Policy, prefix: Str)
    ensures prefix == TagPrefix(p) <==> IsTagPrefix(p.pattern, prefix)
  {
    var text := TrimPrefix(p.pattern, [SLASH]);
    LiteralIsFirst(text);
    if IsTagPrefix(p.pattern, prefix) {
      var lit := Literal(text);
      assert text[..|lit|] == lit && text[..|prefix|] == prefix;
      if |lit| < |prefix| { assert false; }
      if |prefix| < |lit| { assert false; }
    }
  }

  lemma ReadsExactly(p: Policy, tag: Str, v: Version)
    ensures VersionOf(p, tag) == Some(v) <==> Reads(p, tag, v)
  {
    var prefix := TagPrefix(p);
    TagPrefixExactly(p, prefix);
    if HasPrefix(tag, prefix) {
      var rest := tag[|prefix|..];
      assert tag == prefix + rest;
      ParseIffSpelled(rest, v);
    }
    if Reads(p, tag, v) {
      var pre, rest :| IsTagPrefix(p.pattern, pre) && tag == pre + rest && Spelled(rest, v);
      TagPrefixExactly(p, pre);
      assert tag[..|prefix|] == prefix && tag[|prefix|..] == rest;
    }
  }

  /** Eligible means: matching, and no pre-release where pre-releases are off. */
  lemma EligibleExactly(p: Policy, tag: Str)
    ensures Eligible(p, tag) <==> Follows(p, tag)
  {
    forall v ensures VersionOf(p, tag) == Some(v) <==> Reads(p, tag, v) { ReadsExactly(p, tag, v); }
  }

  lemma ReadableExactly(p: Policy, tag: Str)
    ensures VersionLike(p, tag) <==> Readable(p, tag)
  {
    forall v ensures VersionOf(p, tag) == Some(v) <==> Reads(p, tag, v) { ReadsExactly(p, tag, v); }
  }

  lemma HigherExactly(p: Policy, t: Str, u: Str)
    ensures Above(p, t, u) <==> Higher(p, t, u)
    ensures AtMost(p, t, u) <==> Readable(p, t) && Readable(p, u) && !Higher(p, t, u)
  {
    forall v ensures VersionOf(p, t) == Some(v) <==> Reads(p, t, v) { ReadsExactly(p, t, v); }
    forall w ensures VersionOf(p, u) == Some(w) <==> Reads(p, u, w) { ReadsExactly(p, u, w); }
  }

  /** Version order between two version-like tags. */
  function CompareTags(p: Policy, t: Str, u: Str): (c: int)
    requires VersionLike(p, t) && VersionLike(p, u)
    ensures c in {-1, 0, 1}
  {
    Compare(VersionOf(p, t).value, VersionOf(p, u).value)
  }

  /** `t` is a strictly higher version than `u`. */
  predicate Above(p: Policy, t: Str, u: Str) {
    VersionLike(p, t) && VersionLike(p, u) && CompareTags(p, t, u) > 0
  }

  predicate AtMost(p: Policy, t: Str, u: Str) {
    VersionLike(p, t) && VersionLike(p, u) && CompareTags(p, t, u) <= 0
  }

  lemma TagOrder(p: Policy, t: Str, u: Str, w: Str)
    requires VersionLike(p, t) && VersionLike(p, u) && VersionLike(p, w)
    ensures AtMost(p, t, t)
    ensures AtMost(p, t, u) || Above(p, t, u)
    ensures Above(p, t, u) ==> AtMost(p, u, t)
    ensures AtMost(p, t, u) && AtMost(p, u, w) ==> AtMost(p, t, w)
    ensures Above(p, t, u) && AtMost(p, w, u) ==> Above(p, t, w)
    ensures AtMost(p, u, t) && Above(p, u, w) ==> Above(p, t, w)
  {
    var a, b, c := VersionOf(p, t).value, VersionOf(p, u).value, VersionOf(p, w).value;
    CompareTotalPreorder(a, a, a);
    CompareTotalPreorder(a, b, c);
    CompareTotalPreorder(c, b, a);
    CompareTotalPreorder(b, a, c);
    CompareTotalPreorder(c, a, b);
    CompareTotalPreorder(a, c, b);
  }

  // -------------------------------------------------------------------- decisions

  datatype Reason =
    | NoReason
    | NothingPushed
    | HeldBack(tag: Str)
    | NoMatch
    | NotNewer(best: Str, mark: Str)

  /** An empty tag means nothing deploys. */
  datatype Decision = Decision(tag: Str, reason: Reason)

  function Filter(p: Policy, tags: seq<Str>): (r: seq<Str>)
    ensures forall t :: t in r <==> t in tags && Eligible(p, t)
    ensures |r| <= |tags|
  {
    if tags == [] then []
    else
      var init, last := tags[..|tags| - 1], tags[|tags| - 1];
      assert tags == init + [last];
      if Eligible(p, last) then Filter(p, init) + [last] else Filter(p, init)
  }

  /** The first of the highest version-like tags. */
  function Highest(p: Policy, tags: seq<Str>): Option<Str> {
    if tags == [] then None
    else
      var best, t := Highest(p, tags[..|tags| - 1]), tags[|tags| - 1];
      if VersionLike(p, t) && (best.None? || (VersionLike(p, best.value) && CompareTags(p, t, best.value) > 0))
      then Some(t) else best
  }

  function Matching(p: Policy, tags: seq<Str>): (r: seq<Str>)
    ensures forall t :: t in r <==> t in tags && Matches(p, t)
  {
    if tags == [] then []
    else
      var init, last := tags[..|tags| - 1], tags[|tags| - 1];
      assert tags == init + [last];
      if Matches(p, last) then Matching(p, init) + [last] else Matching(p, init)
  }

  /** Policy.rejection. */
  function Rejection(p: Policy, tag: Str): Reason {
    if Matches(p, tag) then HeldBack(tag) else NoMatch
  }

  /** What Decide returns. */
  function Decided(p: Policy, pushed: seq<Str>, inPlay: seq<Str>): Decision {
    if pushed == [] then Decision([], NothingPushed)
    else
      var eligible := Filter(p, pushed);
      if eligible == [] then
        Decision([], Rejection(p, if Matching(p, pushed) != [] then Matching(p, pushed)[0] else pushed[0]))
      else
        var best := Highest(p, eligible);
        if best.None? then Decision(eligible[|eligible| - 1], NoReason)
        else
          var mark := Highest(p, Matching(p, inPlay));
          if mark.Some? && AtMost(p, best.value, mark.value) then Decision([], NotNewer(best.value, mark.value))
          else Decision(best.value, NoReason)
  }

  lemma {:induction false} HighestIsMaximal(p: Policy, tags: seq<Str>)
    ensures var h := Highest(p, tags);
      && (h.None? <==> forall t :: t in tags ==> !VersionLike(p, t))
      && (h.Some? ==> h.value in tags && VersionLike(p, h.value))
      && (h.Some? ==> forall t :: t in tags && VersionLike(p, t) ==> AtMost(p, t, h.value))
  {
    if tags != [] {
      var init, last := tags[..|tags| - 1], tags[|tags| - 1];
      assert tags == init + [last];
      HighestIsMaximal(p, init);
      var h, before := Highest(p, tags), Highest(p, init);
      if h.Some? {
        forall t | t in tags && VersionLike(p, t) ensures AtMost(p, t, h.value) {
          if before.None? { TagOrder(p, t, t, t); } else { TagOrder(p, t, before.value, h.value); TagOrder(p, h.value, before.value, t); }
        }
      }
    }
  }

  /** The scan both Decide and Newest make: keep the first strictly higher version. */
  method ScanHighest(p: Policy, tags: seq<Str>) returns (best: Str, found: bool)
    ensures found == Highest(p, tags).Some?
    ensures best == if found then Highest(p, tags).value else []
  {
    best, found := [], false;
    var bestV := Version(0, 0, 0, []);
    for i := 0 to |tags|
      invariant found == Highest(p, tags[..i]).Some?
      invariant found ==> best == Highest(p, tags[..i]).value && VersionOf(p, best) == Some(bestV)
      invariant !found ==> best == []
    {
      assert tags[..i + 1][..i] == tags[..i];
      var v := VersionOf(p, tags[i]);
      if v.Some? && (!found || Compare(v.value, bestV) > 0) {
        best, bestV, found := tags[i], v.value, true;
      }
    }
    assert tags[..|tags|] == tags;
  }

  /** The loop that keeps the tags passing one test. */
  method Collect(p: Policy, tags: seq<Str>) returns (eligible: seq<Str>, matching: seq<Str>)
    ensures eligible == Filter(p, tags) && matching == Matching(p, tags)
  {
    eligible, matching := [], [];
    for i := 0 to |tags|
      invariant eligible == Filter(p, tags[..i]) && matching == Matching(p, tags[..i])
    {
      assert tags[..i + 1][..i] == tags[..i];
      if Eligible(p, tags[i]) { eligible := eligible + [tags[i]]; }
      if Matches(p, tags[i]) { matching := matching + [tags[i]]; }
    }
    assert tags[..|tags|] == tags;
  }

  /** Policy.Decide. */
  method Decide(p: Policy, pushed: seq<Str>, inPlay: seq<Str>) returns (d: Decision)
    ensures d == Decided(p, pushed, inPlay)
  {
    if pushed == [] { return Decision([], NothingPushed); }
    var eligible, matched := Collect(p, pushed);
    if eligible == [] {
      if matched != [] { return Decision([], Rejection(p, matched[0])); }
      return Decision([], Rejection(p, pushed[0]));
    }
    var best, found := ScanHighest(p, eligible);
    if !found { return Decision(eligible[|eligible| - 1], NoReason); }
    var _, competing := Collect(p, inPlay);
    var mark, have := ScanHighest(p, competing);
    HighestIsMaximal(p, eligible);
    HighestIsMaximal(p, competing);
    if have && CompareTags(p, best, mark) <= 0 {
      return Decision([], NotNewer(best, mark));
    }
    return Decision(best, NoReason);
  }

  /** Policy.Newest. */
  method Newest(p: Policy, tags: seq<Str>) returns (tag: Str, ok: bool)
    ensures ok == Highest(p, Filter(p, tags)).Some?
    ensures ok ==> tag == Highest(p, Filter(p, tags)).value
    ensures FirstHighest(p, tags, true, if ok then Some(tag) else None) && (!ok ==> tag == [])
  {
    ScanFindsFirst(p, tags, true);
    var eligible, _ := Collect(p, tags);
    tag, ok := ScanHighest(p, eligible);
  }

  /** The tag Newest picks is eligible and no eligible version-like tag is above it;
      there is none exactly when no eligible tag is version-like. */
  lemma NewestMeaning(p: Policy, tags: seq<Str>)
    ensures var h := Highest(p, Filter(p, tags));
      && (h.None? <==> forall t :: t in tags && Eligible(p, t) ==> !VersionLike(p, t))
      && (h.Some? ==> h.value in tags && Eligible(p, h.value) && VersionLike(p, h.value))
      && (h.Some? ==> forall t :: t in tags && Eligible(p, t) && VersionLike(p, t) ==> AtMost(p, t, h.value))
  {
    HighestIsMaximal(p, Filter(p, tags));
  }

  /** The i-th tag counts, and of the others that count none is higher, and those before it are lower. */
  ghost predicate TopAt(tags: seq<Str>, counts: Str -> bool, higher: (Str, Str) -> bool, i: int) {
    && 0 <= i < |tags| && counts(tags[i])
    && forall j :: 0 <= j < |tags| && counts(tags[j]) ==> !higher(tags[j], tags[i]) && (j < i ==> higher(tags[i], tags[j]))
  }

  /** `r` is the first of the highest tags that count, or none if none counts. */
  ghost predicate FirstTop(tags: seq<Str>, counts: Str -> bool, higher: (Str, Str) -> bool, r: Option<Str>) {
    match r
    case None => forall t :: t in tags ==> !counts(t)
    case Some(t) => exists i :: TopAt(tags, counts, higher, i) && tags[i] == t
  }

  /** Keep the first strictly higher one. */
  ghost function Scan(tags: seq<Str>, counts: Str -> bool, higher: (Str, Str) -> bool): Option<Str> {
    if tags == [] then None
    else
      var best, t := Scan(tags[..|tags| - 1], counts, higher), tags[|tags| - 1];
      if counts(t) && (best.None? || higher(t, best.value)) then Some(t) else best
  }

  ghost predicate IsOrder(counts: Str -> bool, higher: (Str, Str) -> bool) {
    && (forall t :: !higher(t, t))
    && (forall t, u, w :: higher(t, u) && counts(w) && !higher(w, u) ==> higher(t, w) && !higher(w, t))
  }

  lemma {:induction false} ScanIsTop(tags: seq<Str>, counts: Str -> bool, higher: (Str, Str) -> bool)
    requires IsOrder(counts, higher)
    ensures FirstTop(tags, counts, higher, Scan(tags, counts, higher))
  {
    if tags != [] {
      var n := |tags| - 1;
      var init, r := tags[..n], Scan(tags, counts, higher);
      assert tags == init + [tags[n]];
      ScanIsTop(init, counts, higher);
      var before := Scan(init, counts, higher);
      if r.Some? {
        if r == before {
          var i :| TopAt(init, counts, higher, i) && init[i] == r.value;
          assert tags[i] == init[i] && forall j :: 0 <= j < n ==> tags[j] == init[j];
          assert TopAt(tags, counts, higher, i);
        } else {
          if before.Some? { var i :| TopAt(init, counts, higher, i) && init[i] == before.value; }
          assert forall j :: 0 <= j < n ==> tags[j] == init[j] && init[j] in init;
          assert TopAt(tags, counts, higher, n);
        }
      }
    }
  }

  /** A tag counts if it reads as a version and follows the policy; of the tags in play, if it reads and matches. */
  ghost predicate Counts(p: Policy, tag: Str, strict: bool) {
    Readable(p, tag) && if strict then Follows(p, tag) else MatchGlob(p.pattern, tag)
  }

  ghost function Counting(p: Policy, strict: bool): Str -> bool { tag => Counts(p, tag, strict) }

  ghost function Order(p: Policy): (Str, Str) -> bool { (t, u) => Higher(p, t, u) }

  /** `r` is the first of the highest versions among the tags that count. */
  ghost predicate FirstHighest(p: Policy, tags: seq<Str>, strict: bool, r: Option<Str>) {
    FirstTop(tags, Counting(p, strict), Order(p), r)
  }

  lemma CountsExactly(p: Policy, tag: Str, strict: bool)
    ensures Counts(p, tag, strict) <==> VersionLike(p, tag) && if strict then Eligible(p, tag) else Matches(p, tag)
  {
    EligibleExactly(p, tag);
    ReadableExactly(p, tag);
  }

  lemma HigherIsOrder(p: Policy, strict: bool)
    ensures IsOrder(Counting(p, strict), Order(p))
  {
    forall t ensures !Order(p)(t, t) { NeverAboveItself(p, t); }
    forall t, u, w | Order(p)(t, u) && Counting(p, strict)(w) && !Order(p)(w, u) ensures Order(p)(t, w) && !Order(p)(w, t) {
      OverBoth(p, t, u, w);
    }
  }

  lemma NeverAboveItself(p: Policy, t: Str)
    ensures !Higher(p, t, t)
  {
    HigherExactly(p, t, t);
    if VersionLike(p, t) { TagOrder(p, t, t, t); }
  }

  lemma OverBoth(p: Policy, t: Str, u: Str, w: Str)
    requires Higher(p, t, u) && Readable(p, w) && !Higher(p, w, u)
    ensures Higher(p, t, w) && !Higher(p, w, t)
  {
    HigherExactly(p, t, u);
    HigherExactly(p, w, u);
    HigherExactly(p, t, w);
    HigherExactly(p, w, t);
    ReadableExactly(p, w);
    TagOrder(p, t, u, w);
    TagOrder(p, w, u, t);
  }

  /** What Newest and Decide scan: the eligible tags, or of those in play the matching ones. */
  function Kept(p: Policy, tags: seq<Str>, strict: bool): seq<Str> {
    if strict then Filter(p, tags) else Matching(p, tags)
  }

  lemma KeptNext(p: Policy, tags: seq<Str>, strict: bool)
    requires tags != []
    ensures var init, last := tags[..|tags| - 1], tags[|tags| - 1];
      Kept(p, tags, strict) == Kept(p, init, strict) + if (if strict then Eligible(p, last) else Matches(p, last)) then [last] else []
  {
  }

  lemma {:induction false} HighestIsScan(p: Policy, tags: seq<Str>, strict: bool)
    ensures Highest(p, Kept(p, tags, strict)) == Scan(tags, Counting(p, strict), Order(p))
  {
    if tags != [] {
      var init, last := tags[..|tags| - 1], tags[|tags| - 1];
      var before, now := Kept(p, init, strict), Kept(p, tags, strict);
      HighestIsScan(p, init, strict);
      KeptNext(p, tags, strict);
      CountsExactly(p, last, strict);
      HighestNext(p, before, last);
      assert before + [] == before;
      assert Counting(p, strict)(last) == Counts(p, last, strict);
    }
  }

  lemma HighestNext(p: Policy, tags: seq<Str>, last: Str)
    ensures Highest(p, tags + [last]) == (
      var h := Highest(p, tags);
      if VersionLike(p, last) && (h.None? || Higher(p, last, h.value)) then Some(last) else h)
  {
    assert (tags + [last])[..|tags|] == tags;
    HighestIsMaximal(p, tags);
    var h := Highest(p, tags);
    if h.Some? { HigherExactly(p, last, h.value); }
  }

  /** The scan finds the first of the highest. */
  lemma ScanFindsFirst(p: Policy, tags: seq<Str>, strict: bool)
    ensures FirstHighest(p, tags, strict, Highest(p, Kept(p, tags, strict)))
  {
    HighestIsScan(p, tags, strict);
    HigherIsOrder(p, strict);
    ScanIsTop(tags, Counting(p, strict), Order(p));
  }

  // ------------------------------------------------------- what a decision means

  /** A tag a push offers for deployment as a version. */
  predicate Candidate(p: Policy, pushed: seq<Str>, t: Str) {
    t in pushed && Eligible(p, t) && VersionLike(p, t)
  }

  /** A tag in play that counts towards the high-water mark. */
  predicate Competitor(p: Policy, inPlay: seq<Str>, u: Str) {
    u in inPlay && Matches(p, u) && VersionLike(p, u)
  }

  /** No tag after the i-th is eligible. */
  predicate NoneAfter(p: Policy, tags: seq<Str>, i: nat) {
    forall j :: i < j < |tags| ==> !Eligible(p, tags[j])
  }

  predicate LastEligible(p: Policy, pushed: seq<Str>, t: Str) {
    exists i :: 0 <= i < |pushed| && pushed[i] == t && Eligible(p, t) && NoneAfter(p, pushed, i)
  }

  lemma NoneAfterNext(p: Policy, tags: seq<Str>, i: nat)
    requires i < |tags| - 1 && NoneAfter(p, tags[..|tags| - 1], i) && !Eligible(p, tags[|tags| - 1])
    ensures NoneAfter(p, tags, i)
  {
    forall j | i < j < |tags| ensures !Eligible(p, tags[j]) {
      if j < |tags| - 1 { assert tags[j] == tags[..|tags| - 1][j]; }
    }
  }

  lemma {:induction false} FilterLast(p: Policy, tags: seq<Str>) returns (i: nat)
    requires Filter(p, tags) != []
    ensures i < |tags| && tags[i] == Filter(p, tags)[|Filter(p, tags)| - 1] && Eligible(p, tags[i]) && NoneAfter(p, tags, i)
  {
    var n := |tags| - 1;
    if Eligible(p, tags[n]) {
      i := n;
    } else {
      i := FilterLast(p, tags[..n]);
      NoneAfterNext(p, tags, i);
    }
  }

  /** A deployed tag was pushed and is eligible. If any eligible tag is a version, it is the highest
      of them and strictly above every version in play; otherwise it is the last eligible tag. */
  lemma DecidedTag(p: Policy, pushed: seq<Str>, inPlay: seq<Str>)
    requires Decided(p, pushed, inPlay).tag != []
    ensures var tag := Decided(p, pushed, inPlay).tag;
      && tag in pushed && Eligible(p, tag)
      && (VersionLike(p, tag) ==> forall t :: Candidate(p, pushed, t) ==> AtMost(p, t, tag))
      && (VersionLike(p, tag) ==> forall u :: Competitor(p, inPlay, u) ==> Above(p, tag, u))
      && (!VersionLike(p, tag) ==> LastEligible(p, pushed, tag) && forall t :: !Candidate(p, pushed, t))
  {
    var eligible := Filter(p, pushed);
    var competing := Matching(p, inPlay);
    HighestIsMaximal(p, eligible);
    HighestIsMaximal(p, competing);
    var best := Highest(p, eligible);
    if best.None? {
      var i := FilterLast(p, pushed);
    } else {
      forall u | Competitor(p, inPlay, u) ensures Above(p, best.value, u) {
        TagOrder(p, best.value, Highest(p, competing).value, u);
      }
    }
  }

  /** There is a candidate, and none is above `u`. */
  ghost predicate Dominates(p: Policy, pushed: seq<Str>, u: Str) {
    (exists t :: Candidate(p, pushed, t)) && forall t :: Candidate(p, pushed, t) ==> AtMost(p, t, u)
  }

  ghost predicate Blocked(p: Policy, pushed: seq<Str>, inPlay: seq<Str>) {
    || (forall t :: t in pushed ==> !Eligible(p, t))
    || (exists u :: Competitor(p, inPlay, u) && Dominates(p, pushed, u))
  }

  lemma BlockedWhenNothing(p: Policy, pushed: seq<Str>, inPlay: seq<Str>)
    requires forall t :: t in pushed ==> t != []
    requires Decided(p, pushed, inPlay).tag == []
    ensures Blocked(p, pushed, inPlay)
  {
    var eligible := Filter(p, pushed);
    if eligible != [] {
      assert eligible[|eligible| - 1] in eligible;
      HighestIsMaximal(p, eligible);
      HighestIsMaximal(p, Matching(p, inPlay));
      var best, mark := Highest(p, eligible).value, Highest(p, Matching(p, inPlay)).value;
      assert Candidate(p, pushed, best);
      forall t | Candidate(p, pushed, t) ensures AtMost(p, t, mark) { TagOrder(p, t, best, mark); }
      assert Competitor(p, inPlay, mark) && Dominates(p, pushed, mark);
    } else {
      forall t | t in pushed ensures !Eligible(p, t) { assert t !in eligible; }
    }
  }

  lemma NothingWhenBlocked(p: Policy, pushed: seq<Str>, inPlay: seq<Str>)
    requires Blocked(p, pushed, inPlay)
    ensures Decided(p, pushed, inPlay).tag == []
  {
    var eligible := Filter(p, pushed);
    if eligible != [] {
      assert eligible[0] in eligible;
      var u :| Competitor(p, inPlay, u) && Dominates(p, pushed, u);
      HighestIsMaximal(p, eligible);
      HighestIsMaximal(p, Matching(p, inPlay));
      var t :| Candidate(p, pushed, t);
      assert t in eligible && u in Matching(p, inPlay);
      var best, mark := Highest(p, eligible).value, Highest(p, Matching(p, inPlay)).value;
      TagOrder(p, best, u, mark);
    }
  }

  /** Nothing deploys exactly when no pushed tag is eligible, or when some version is a candidate
      and some version in play is at least every candidate. */
  lemma DecidedNothing(p: Policy, pushed: seq<Str>, inPlay: seq<Str>)
    requires forall t :: t in pushed ==> t != []
    ensures Decided(p, pushed, inPlay).tag == [] <==> Blocked(p, pushed, inPlay)
  {
    if Decided(p, pushed, inPlay).tag == [] { BlockedWhenNothing(p, pushed, inPlay); }
    if Blocked(p, pushed, inPlay) { NothingWhenBlocked(p, pushed, inPlay); }
  }

  // --------------------------------------------- decisions without the code's functions

  /** The i-th tag follows the policy, and none after it does. */
  ghost predicate LastFollowing(p: Policy, tags: seq<Str>, i: int) {
    0 <= i < |tags| && Follows(p, tags[i]) && forall j :: i < j < |tags| ==> !Follows(p, tags[j])
  }

  predicate FirstMatching(p: Policy, tags: seq<Str>, i: int) {
    0 <= i < |tags| && MatchGlob(p.pattern, tags[i]) && forall j :: 0 <= j < i ==> !MatchGlob(p.pattern, tags[j])
  }

  /** Why nothing that was pushed counts: the first tag that matches was held back, or none matches. */
  ghost predicate RejectedFor(p: Policy, pushed: seq<Str>, why: Reason) {
    if exists i :: FirstMatching(p, pushed, i) then exists i :: FirstMatching(p, pushed, i) && why == HeldBack(pushed[i])
    else why == NoMatch
  }

  /** The decision, in terms of what tags read as, of MatchGlob and of version precedence. */
  ghost predicate DecisionIs(p: Policy, pushed: seq<Str>, inPlay: seq<Str>, d: Decision) {
    if pushed == [] then d == Decision([], NothingPushed)
    else if forall t :: t in pushed ==> !Follows(p, t) then d.tag == [] && RejectedFor(p, pushed, d.reason)
    else exists best, mark :: FirstHighest(p, pushed, true, best) && FirstHighest(p, inPlay, false, mark) && Weighed(p, pushed, best, mark, d)
  }

  /** The last tag that follows if none reads; else the highest, unless one in play is at least as high. */
  ghost predicate Weighed(p: Policy, pushed: seq<Str>, best: Option<Str>, mark: Option<Str>, d: Decision) {
    if best.None? then exists i :: LastFollowing(p, pushed, i) && d == Decision(pushed[i], NoReason)
    else if mark.Some? && !Higher(p, best.value, mark.value) then d == Decision([], NotNewer(best.value, mark.value))
    else d == Decision(best.value, NoReason)
  }

  lemma NoneMatches(p: Policy, tags: seq<Str>)
    requires Matching(p, tags) == []
    ensures forall i :: 0 <= i < |tags| ==> !Matches(p, tags[i])
  {
    forall i | 0 <= i < |tags| ensures !Matches(p, tags[i]) { assert tags[i] !in Matching(p, tags); }
  }

  lemma {:induction false} MatchingFirst(p: Policy, tags: seq<Str>) returns (i: nat)
    requires Matching(p, tags) != []
    ensures FirstMatching(p, tags, i) && tags[i] == Matching(p, tags)[0]
  {
    var init := tags[..|tags| - 1];
    if Matching(p, init) == [] {
      i := |init|;
      NoneMatches(p, init);
      assert forall j :: 0 <= j < i ==> tags[j] == init[j];
    } else {
      i := MatchingFirst(p, init);
    }
  }

  lemma RejectionIs(p: Policy, pushed: seq<Str>)
    requires pushed != [] && Filter(p, pushed) == []
    ensures RejectedFor(p, pushed, Decided(p, pushed, []).reason) && forall inPlay :: Decided(p, pushed, inPlay) == Decided(p, pushed, [])
  {
    if Matching(p, pushed) != [] {
      var i := MatchingFirst(p, pushed);
    } else {
      forall i ensures !FirstMatching(p, pushed, i) { if 0 <= i < |pushed| { assert pushed[i] !in Matching(p, pushed); } }
      assert pushed[0] !in Matching(p, pushed);
    }
  }

  lemma LastIs(p: Policy, pushed: seq<Str>)
    requires Filter(p, pushed) != []
    ensures exists i :: LastFollowing(p, pushed, i) && pushed[i] == Filter(p, pushed)[|Filter(p, pushed)| - 1]
  {
    var i := FilterLast(p, pushed);
    EligibleExactly(p, pushed[i]);
    LastOnes(p, pushed, i);
  }

  lemma LastOnes(p: Policy, tags: seq<Str>, i: nat)
    requires i < |tags| && Follows(p, tags[i]) && NoneAfter(p, tags, i)
    ensures LastFollowing(p, tags, i)
  {
    forall j | i < j < |tags| ensures !Follows(p, tags[j]) { EligibleExactly(p, tags[j]); }
  }

  lemma SomeFollows(p: Policy, pushed: seq<Str>)
    ensures Filter(p, pushed) == [] <==> forall t :: t in pushed ==> !Follows(p, t)
  {
    forall t ensures Eligible(p, t) <==> Follows(p, t) { EligibleExactly(p, t); }
    if Filter(p, pushed) != [] { assert Filter(p, pushed)[0] in pushed; }
    if t :| t in pushed && Follows(p, t) { assert t in Filter(p, pushed); }
  }

  /** What Decide returns, reason and all. */
  lemma DecidedExactly(p: Policy, pushed: seq<Str>, inPlay: seq<Str>)
    ensures DecisionIs(p, pushed, inPlay, Decided(p, pushed, inPlay))
  {
    SomeFollows(p, pushed);
    if pushed != [] && Filter(p, pushed) == [] {
      RejectionIs(p, pushed);
    } else if pushed != [] {
      var best, mark := Highest(p, Kept(p, pushed, true)), Highest(p, Kept(p, inPlay, false));
      ScanFindsFirst(p, pushed, true);
      ScanFindsFirst(p, inPlay, false);
      HighestIsMaximal(p, Filter(p, pushed));
      HighestIsMaximal(p, Matching(p, inPlay));
      if best.None? { LastIs(p, pushed); } else if mark.Some? { HigherExactly(p, best.value, mark.value); ReadableExactly(p, best.value); ReadableExactly(p, mark.value); }
      assert Weighed(p, pushed, best, mark, Decided(p, pushed, inPlay));
    }
  }

  lemma SameMembers(a: seq<Str>, b: seq<Str>)
    requires multiset(a) == multiset(b)
    ensures forall t :: t in a <==> t in b
  {
    assert forall t :: t in a <==> t in multiset(a);
    assert forall t :: t in b <==> t in multiset(b);
  }

  lemma CandidatesAgree(p: Policy, pushed: seq<Str>, pushed': seq<Str>, inPlay: seq<Str>)
    requires forall t :: t in pushed <==> t in pushed'
    ensures forall t :: Candidate(p, pushed, t) <==> Candidate(p, pushed', t)
    ensures Blocked(p, pushed, inPlay) <==> Blocked(p, pushed', inPlay)
  {
    assert forall t :: Candidate(p, pushed, t) <==> Candidate(p, pushed', t);
    forall u ensures Dominates(p, pushed, u) <==> Dominates(p, pushed', u) {}
  }

  /** The order of the pushed tags decides neither whether something deploys nor which version. */
  lemma DecisionIgnoresPushOrder(p: Policy, pushed: seq<Str>, pushed': seq<Str>, inPlay: seq<Str>)
    requires forall t :: t in pushed ==> t != []
    requires multiset(pushed) == multiset(pushed')
    ensures var d, d' := Decided(p, pushed, inPlay).tag, Decided(p, pushed', inPlay).tag;
      && (d == [] <==> d' == [])
      && (d != [] ==> (VersionLike(p, d) <==> VersionLike(p, d')))
      && (d != [] && VersionLike(p, d) ==> CompareTags(p, d, d') == 0)
  {
    SameMembers(pushed, pushed');
    CandidatesAgree(p, pushed, pushed', inPlay);
    DecidedNothing(p, pushed, inPlay);
    DecidedNothing(p, pushed', inPlay);
    if Decided(p, pushed, inPlay).tag != [] {
      SameVersion(p, pushed, pushed', inPlay);
    }
  }

  lemma SameVersion(p: Policy, pushed: seq<Str>, pushed': seq<Str>, inPlay: seq<Str>)
    requires Decided(p, pushed, inPlay).tag != [] && Decided(p, pushed', inPlay).tag != []
    requires forall t :: Candidate(p, pushed, t) <==> Candidate(p, pushed', t)
    ensures var d, d' := Decided(p, pushed, inPlay).tag, Decided(p, pushed', inPlay).tag;
      (VersionLike(p, d) <==> VersionLike(p, d')) && (VersionLike(p, d) ==> CompareTags(p, d, d') == 0)
  {
    DecidedTag(p, pushed, inPlay);
    DecidedTag(p, pushed', inPlay);
    var d, d' := Decided(p, pushed, inPlay).tag, Decided(p, pushed', inPlay).tag;
    assert VersionLike(p, d) <==> Candidate(p, pushed, d);
    assert VersionLike(p, d') <==> Candidate(p, pushed', d');
    if VersionLike(p, d) {
      assert AtMost(p, d, d') && AtMost(p, d', d);
      CompareTotalPreorder(VersionOf(p, d).value, VersionOf(p, d').value, VersionOf(p, d).value);
    }
  }

  // ------------------------------------------------- the literal prefix of a pattern

  lemma {:induction false} LiteralOfPlain(a: Str, b: Str)
    requires Plain(a)
    ensures Literal(a + b) == a + Literal(b)
  {
    if a == [] {
      assert a + b == b;
    } else {
      assert (a + b)[1..] == a[1..] + b;
      LiteralOfPlain(a[1..], b);
    }
  }

  lemma {:induction false} LiteralOfWild(a: Str, b: Str)
    requires !Plain(a)
    ensures Literal(a + b) == Literal(a)
  {
    assert (a + b)[0] == a[0];
    if !IsWild(a[0]) {
      assert (a + b)[1..] == a[1..] + b;
      LiteralOfWild(a[1..], b);
    }
  }

  /** A segment that matches starts with the pattern's literal text, and is it when nothing is wild. */
  lemma {:induction false} SegmentStartsLiteral(pat: Str, s: Str)
    requires MatchSegment(pat, s)
    ensures HasPrefix(s, Literal(pat))
    ensures Plain(pat) ==> s == pat
  {
    if pat != [] && !IsWild(pat[0]) {
      SegmentStartsLiteral(pat[1..], s[1..]);
      assert s == [s[0]] + s[1..] && pat == [pat[0]] + pat[1..];
    }
  }

  predicate AllDeep(pats: seq<Str>) { forall i :: 0 <= i < |pats| ==> pats[i] == DEEP }

  /** At least one literal segment, and after the literal ones only "**". */
  predicate LiteralThenDeep(pats: seq<Str>) {
    |pats| >= 2 && Plain(pats[0]) && (AllDeep(pats[1..]) || LiteralThenDeep(pats[1..]))
  }

  lemma {:induction false} NoSegments(pats: seq<Str>)
    ensures MatchSegments(pats, []) <==> AllDeep(pats)
    decreases |pats|
  {
    if pats != [] {
      NoSegments(pats[1..]);
      var none: seq<Str> := [];
      assert none[0..] == none;
      assert AllDeep(pats) <==> pats[0] == DEEP && AllDeep(pats[1..]) by {
        if pats[0] == DEEP && AllDeep(pats[1..]) {
          forall i | 0 <= i < |pats| ensures pats[i] == DEEP { if i > 0 { assert pats[1..][i - 1] == DEEP; } }
        }
      }
    }
  }

  lemma JoinStarts(segs: seq<Str>, sep: byte)
    requires segs != []
    ensures Join(segs, sep) == segs[0] + (if |segs| == 1 then [] else [sep] + Join(segs[1..], sep))
  {
  }

  lemma {:induction false} PathStartsLiteral(pats: seq<Str>, segs: seq<Str>)
    requires pats != [] && MatchSegments(pats, segs) && !LiteralThenDeep(pats)
    ensures HasPrefix(Join(segs, SLASH), Literal(Join(pats, SLASH)))
    decreases |pats|
  {
    JoinStarts(pats, SLASH);
    var tail := if |pats| == 1 then [] else [SLASH] + Join(pats[1..], SLASH);
    if !Plain(pats[0]) {
      LiteralOfWild(pats[0], tail);
      if pats[0] != DEEP {
        SegmentStartsLiteral(pats[0], segs[0]);
        JoinStarts(segs, SLASH);
      }
    } else {
      assert pats[0] != DEEP by { assert IsWild(DEEP[0]); }
      SegmentStartsLiteral(pats[0], segs[0]);
      JoinStarts(segs, SLASH);
      LiteralOfPlain(pats[0], tail);
      if |pats| > 1 {
        NoSegments(pats[1..]);
        PathStartsLiteral(pats[1..], segs[1..]);
        LiteralOfPlain([SLASH], Join(pats[1..], SLASH));
        var rest, lit := Join(segs[1..], SLASH), Literal(Join(pats[1..], SLASH));
        assert Join(segs, SLASH) == pats[0] + [SLASH] + rest;
        assert Literal(Join(pats, SLASH)) == pats[0] + [SLASH] + lit;
        assert (pats[0] + [SLASH] + rest)[..|pats[0]| + 1 + |lit|] == pats[0] + [SLASH] + rest[..|lit|];
      }
    }
  }

  /** The literal segments alone match such a pattern, and lack the slash its prefix ends with. */
  lemma {:induction false} LiteralThenDeepEscapes(pats: seq<Str>) returns (segs: seq<Str>)
    requires LiteralThenDeep(pats) && Free(pats, SLASH)
    ensures segs != [] && Free(segs, SLASH) && MatchSegments(pats, segs)
    ensures |Literal(Join(pats, SLASH))| > |Join(segs, SLASH)|
    decreases |pats|
  {
    PlainMatchesItself(pats[0]);
    JoinStarts(pats, SLASH);
    LiteralOfPlain(pats[0], [SLASH] + Join(pats[1..], SLASH));
    LiteralOfPlain([SLASH], Join(pats[1..], SLASH));
    assert pats[0] != DEEP by { assert IsWild(DEEP[0]); }
    if AllDeep(pats[1..]) {
      segs := [pats[0]];
      NoSegments(pats[1..]);
      assert segs[1..] == [];
    } else {
      var rest := LiteralThenDeepEscapes(pats[1..]);
      segs := [pats[0]] + rest;
      assert segs[1..] == rest;
      JoinStarts(segs, SLASH);
    }
  }

  lemma {:induction false} PlainMatchesItself(s: Str)
    requires Plain(s)
    ensures MatchSegment(s, s)
  {
    if s != [] { PlainMatchesItself(s[1..]); }
  }

  /** Every tag that matches starts with the prefix Version strips, except for patterns that are
      literal segments followed by "**" alone: "api" then "**" matches "api", which lacks "api" + "/". */
  lemma MatchImpliesPrefix(p: Policy)
    ensures (forall tag :: Matches(p, tag) ==> HasPrefix(tag, TagPrefix(p)))
      <==> !LiteralThenDeep(Split(TrimPrefix(p.pattern, [SLASH]), SLASH))
  {
    var pat := TrimPrefix(p.pattern, [SLASH]);
    var pats := Split(pat, SLASH);
    SplitJoin(pat, SLASH);
    if LiteralThenDeep(pats) {
      var segs := LiteralThenDeepEscapes(pats);
      JoinSplit(segs, SLASH);
      assert Matches(p, Join(segs, SLASH));
    } else {
      forall tag | Matches(p, tag) ensures HasPrefix(tag, TagPrefix(p)) {
        SplitJoin(tag, SLASH);
        PathStartsLiteral(pats, Split(tag, SLASH));
      }
    }
  }

  /** Without a "**" segment, Version fails on a matching tag only because the rest is no version. */
  lemma VersionFailsOnlyOnRest(p: Policy, tag: Str)
    requires DEEP !in Split(TrimPrefix(p.pattern, [SLASH]), SLASH)
    requires Matches(p, tag)
    ensures HasPrefix(tag, TagPrefix(p)) && VersionOf(p, tag) == Parse(tag[|TagPrefix(p)|..])
  {
    MatchImpliesPrefix(p);
    var pats := Split(TrimPrefix(p.pattern, [SLASH]), SLASH);
    if LiteralThenDeep(pats) { DeepNeeded(pats); }
  }

  lemma {:induction false} DeepNeeded(pats: seq<Str>)
    requires LiteralThenDeep(pats)
    ensures DEEP in pats
    decreases |pats|
  {
    if AllDeep(pats[1..]) { assert pats[1] == pats[1..][0]; } else { DeepNeeded(pats[1..]); }
  }
}
