/** The watch-path and tag glob matcher (internal/webhook/match.go). */
module Glob {
  import opened Bytes

  const SLASH: byte := '/' as byte
  const STAR: byte := '*' as byte
  const QUESTION: byte := '?' as byte
  const OPEN: byte := '[' as byte
  const CLOSE: byte := ']' as byte
  const CARET: byte := '^' as byte
  const BANG: byte := '!' as byte
  const HYPHEN: byte := '-' as byte

  /** The segment "**". */
  const DEEP: Str := [STAR, STAR]

  // ------------------------------------------------------------------ the matcher

  /** The items of a class body: a range takes three bytes, anything else one. */
  datatype Range = Range(lo: byte, hi: byte)

  function ClassItems(set_: Str): seq<Range> {
    if set_ == [] then []
    else if |set_| > 2 && set_[1] == HYPHEN then [Range(set_[0], set_[2])] + ClassItems(set_[3..])
    else [Range(set_[0], set_[0])] + ClassItems(set_[1..])
  }

  predicate InItems(items: seq<Range>, c: byte) {
    exists i :: 0 <= i < |items| && items[i].lo <= c <= items[i].hi
  }

  lemma InItemsCons(r: Range, rest: seq<Range>, c: byte)
    ensures InItems([r] + rest, c) <==> r.lo <= c <= r.hi || InItems(rest, c)
  {
    var all := [r] + rest;
    if InItems(rest, c) {
      var i :| 0 <= i < |rest| && rest[i].lo <= c <= rest[i].hi;
      assert all[i + 1] == rest[i];
    }
    if r.lo <= c <= r.hi { assert all[0] == r; }
    if InItems(all, c) {
      var i :| 0 <= i < |all| && all[i].lo <= c <= all[i].hi;
      if i > 0 { assert all[i] == rest[i - 1]; }
    }
  }

  /** One turn of the class loop, at index i of the body. */
  lemma ClassStep(set_: Str, i: nat, c: byte)
    requires i < |set_|
    ensures InItems(ClassItems(set_[i..]), c) <==>
      if i + 2 < |set_| && set_[i + 1] == HYPHEN
      then set_[i] <= c <= set_[i + 2] || InItems(ClassItems(set_[i + 3..]), c)
      else set_[i] == c || InItems(ClassItems(set_[i + 1..]), c)
  {
    var s := set_[i..];
    if i + 2 < |set_| && set_[i + 1] == HYPHEN {
      assert s[3..] == set_[i + 3..];
      InItemsCons(Range(s[0], s[2]), ClassItems(s[3..]), c);
    } else {
      assert s[1..] == set_[i + 1..];
      InItemsCons(Range(s[0], s[0]), ClassItems(s[1..]), c);
    }
  }

  /** inClass: the loop that walks a class body, three bytes at a time over a range. */
  method InClass(set_: Str, c: byte) returns (found: bool)
    ensures found <==> InItems(ClassItems(set_), c)
  {
    var i := 0;
    assert set_[0..] == set_;
    while i < |set_|
      invariant 0 <= i <= |set_|
      invariant InItems(ClassItems(set_), c) <==> InItems(ClassItems(set_[i..]), c)
    {
      ClassStep(set_, i, c);
      if i + 2 < |set_| && set_[i + 1] == HYPHEN {
        if set_[i] <= c <= set_[i + 2] { return true; }
        i := i + 3;
      } else {
        if set_[i] == c { return true; }
        i := i + 1;
      }
    }
    return false;
  }

  predicate Negated(body: Str) { body != [] && (body[0] == CARET || body[0] == BANG) }

  function Members(body: Str): Str { if Negated(body) then body[1..] else body }

  /** matchSegment: one pattern segment against one path segment. */
  predicate MatchSegment(pat: Str, s: Str)
    decreases |pat|
  {
    if pat == [] then s == []
    else if pat[0] == STAR then exists i :: 0 <= i <= |s| && MatchSegment(pat[1..], s[i..])
    else if pat[0] == QUESTION then s != [] && MatchSegment(pat[1..], s[1..])
    else if pat[0] == OPEN then
      var end := IndexByte(pat[1..], CLOSE);
      end >= 0 && s != [] &&
      InItems(ClassItems(Members(pat[1..][..end])), s[0]) != Negated(pat[1..][..end]) &&
      MatchSegment(pat[end + 2..], s[1..])
    else s != [] && pat[0] == s[0] && MatchSegment(pat[1..], s[1..])
  }

  /** matchSegments: "**" swallows any number of whole segments. */
  predicate MatchSegments(pat: seq<Str>, path: seq<Str>)
    decreases |pat|
  {
    if pat == [] then path == []
    else if pat[0] == DEEP then exists skip :: 0 <= skip <= |path| && MatchSegments(pat[1..], path[skip..])
    else path != [] && MatchSegment(pat[0], path[0]) && MatchSegments(pat[1..], path[1..])
  }

  /** MatchGlob. */
  predicate MatchGlob(pattern: Str, path: Str) {
    MatchSegments(Split(TrimPrefix(pattern, [SLASH]), SLASH), Split(path, SLASH))
  }

  // ------------------------------------------------ what a segment pattern means

  datatype Token = Any | One | Class(negate: bool, items: seq<Range>) | Lit(c: byte)

  /** The tokens of a segment pattern; None when a "[" is never closed. */
  function Tokens(pat: Str): Option<seq<Token>>
    decreases |pat|
  {
    if pat == [] then Some([])
    else if pat[0] == OPEN then
      var end := IndexByte(pat[1..], CLOSE);
      if end < 0 then None else
        var body := pat[1..][..end];
        Prepend(Class(Negated(body), ClassItems(Members(body))), Tokens(pat[end + 2..]))
    else
      Prepend(if pat[0] == STAR then Any else if pat[0] == QUESTION then One else Lit(pat[0]), Tokens(pat[1..]))
  }

  function Prepend(t: Token, rest: Option<seq<Token>>): Option<seq<Token>> {
    if rest.None? then None else Some([t] + rest.value)
  }

  /** The texts one token stands for. */
  predicate Covers(t: Token, piece: Str) {
    match t
    case Any => true
    case One => |piece| == 1
    case Class(negate, items) => |piece| == 1 && InItems(items, piece[0]) != negate
    case Lit(c) => piece == [c]
  }

  function Concat<T>(pieces: seq<seq<T>>): seq<T> {
    if pieces == [] then [] else pieces[0] + Concat(pieces[1..])
  }

  /** `s` cuts into one piece per token, each covered by its token. */
  predicate Cuts(tokens: seq<Token>, s: Str, pieces: seq<Str>) {
    |pieces| == |tokens| && Concat(pieces) == s && forall i :: 0 <= i < |tokens| ==> Covers(tokens[i], pieces[i])
  }

  ghost predicate SegmentMeaning(pat: Str, s: Str) {
    Tokens(pat).Some? && exists pieces :: Cuts(Tokens(pat).value, s, pieces)
  }

  lemma CutsCons(t: Token, tokens: seq<Token>, piece: Str, s: Str, pieces: seq<Str>)
    requires Covers(t, piece) && Cuts(tokens, s, pieces)
    ensures Cuts([t] + tokens, piece + s, [piece] + pieces)
  {
    assert ([piece] + pieces)[1..] == pieces;
  }

  lemma CutsTail(t: Token, tokens: seq<Token>, s: Str, pieces: seq<Str>)
    requires Cuts([t] + tokens, s, pieces)
    ensures pieces != [] && |pieces[0]| <= |s| && s[..|pieces[0]|] == pieces[0] && Covers(t, pieces[0])
    ensures Cuts(tokens, s[|pieces[0]|..], pieces[1..])
  {
    assert s == pieces[0] + Concat(pieces[1..]);
    forall i | 0 <= i < |tokens| ensures Covers(tokens[i], pieces[1..][i]) {
      assert Covers(([t] + tokens)[i + 1], pieces[i + 1]);
    }
    assert Covers(([t] + tokens)[0], pieces[0]);
  }

  /** The first token of the pattern covers the part of the text that the matcher gives it. */
  lemma FirstToken(pat: Str, s: Str) returns (t: Token, rest: Str, cut: nat)
    requires pat != [] && MatchSegment(pat, s)
    ensures |rest| < |pat| && cut <= |s| && MatchSegment(rest, s[cut..]) && Covers(t, s[..cut])
    ensures Tokens(pat) == Prepend(t, Tokens(rest))
  {
    rest, cut := pat[1..], 1;
    if pat[0] == STAR {
      cut :| 0 <= cut <= |s| && MatchSegment(pat[1..], s[cut..]);
      t := Any;
    } else if pat[0] == QUESTION {
      t := One;
    } else if pat[0] == OPEN {
      var end := IndexByte(pat[1..], CLOSE);
      var body := pat[1..][..end];
      rest := pat[end + 2..];
      t := Class(Negated(body), ClassItems(Members(body)));
    } else {
      t := Lit(pat[0]);
    }
  }

  lemma {:induction false} MatchSegmentSound(pat: Str, s: Str)
    requires MatchSegment(pat, s)
    ensures SegmentMeaning(pat, s)
    decreases |pat|
  {
    if pat == [] {
      assert Cuts([], s, []);
    } else {
      var t, rest, cut := FirstToken(pat, s);
      MatchSegmentSound(rest, s[cut..]);
      var pieces :| Cuts(Tokens(rest).value, s[cut..], pieces);
      CutsCons(t, Tokens(rest).value, s[..cut], s[cut..], pieces);
      assert s == s[..cut] + s[cut..];
    }
  }

  lemma {:induction false} MatchSegmentComplete(pat: Str, s: Str)
    requires SegmentMeaning(pat, s)
    ensures MatchSegment(pat, s)
    decreases |pat|
  {
    var pieces :| Cuts(Tokens(pat).value, s, pieces);
    if pat != [] {
      var rest := if pat[0] == OPEN then pat[IndexByte(pat[1..], CLOSE) + 2..] else pat[1..];
      var t := Tokens(pat).value[0];
      assert Tokens(pat) == Prepend(t, Tokens(rest));
      CutsTail(t, Tokens(rest).value, s, pieces);
      var cut := |pieces[0]|;
      MatchSegmentComplete(rest, s[cut..]);
      assert pat[0] != STAR ==> cut == 1 && s[0] == pieces[0][0];
    }
  }

  /** The backtracking segment matcher accepts exactly the texts the pattern means. */
  lemma MatchSegmentMeaning(pat: Str, s: Str)
    ensures MatchSegment(pat, s) <==> SegmentMeaning(pat, s)
  {
    if MatchSegment(pat, s) { MatchSegmentSound(pat, s); }
    if SegmentMeaning(pat, s) { MatchSegmentComplete(pat, s); }
  }

  // ------------------------------------------------------ what a path pattern means

  /** The runs of segments one pattern segment stands for. */
  ghost predicate CoversRun(pat: Str, run: seq<Str>) {
    pat == DEEP || (|run| == 1 && SegmentMeaning(pat, run[0]))
  }

  ghost predicate Groups(pats: seq<Str>, path: seq<Str>, runs: seq<seq<Str>>) {
    |runs| == |pats| && Concat(runs) == path && forall i :: 0 <= i < |pats| ==> CoversRun(pats[i], runs[i])
  }

  lemma {:induction false} MatchSegmentsSound(pats: seq<Str>, path: seq<Str>)
    requires MatchSegments(pats, path)
    ensures exists runs :: Groups(pats, path, runs)
    decreases |pats|
  {
    if pats == [] {
      assert Groups(pats, path, []);
    } else {
      var cut := 1;
      if pats[0] == DEEP {
        cut :| 0 <= cut <= |path| && MatchSegments(pats[1..], path[cut..]);
      } else {
        MatchSegmentMeaning(pats[0], path[0]);
      }
      MatchSegmentsSound(pats[1..], path[cut..]);
      var runs :| Groups(pats[1..], path[cut..], runs);
      var all := [path[..cut]] + runs;
      assert all[1..] == runs && path == path[..cut] + path[cut..];
      forall i | 0 <= i < |pats| ensures CoversRun(pats[i], all[i]) {
        if i > 0 { assert CoversRun(pats[1..][i - 1], runs[i - 1]); }
      }
      assert Groups(pats, path, all);
    }
  }

  lemma {:induction false} MatchSegmentsComplete(pats: seq<Str>, path: seq<Str>, runs: seq<seq<Str>>)
    requires Groups(pats, path, runs)
    ensures MatchSegments(pats, path)
    decreases |pats|
  {
    if pats != [] {
      var cut := |runs[0]|;
      assert path == runs[0] + Concat(runs[1..]);
      assert path[cut..] == Concat(runs[1..]);
      forall i | 0 <= i < |pats| - 1 ensures CoversRun(pats[1..][i], runs[1..][i]) {
        assert CoversRun(pats[i + 1], runs[i + 1]);
      }
      MatchSegmentsComplete(pats[1..], path[cut..], runs[1..]);
      assert CoversRun(pats[0], runs[0]);
      if pats[0] != DEEP {
        assert path[0] == runs[0][0];
        MatchSegmentMeaning(pats[0], path[0]);
      }
    }
  }

  /** The backtracking path matcher accepts exactly the paths the pattern means. */
  lemma MatchSegmentsMeaning(pats: seq<Str>, path: seq<Str>)
    ensures MatchSegments(pats, path) <==> exists runs :: Groups(pats, path, runs)
  {
    if MatchSegments(pats, path) { MatchSegmentsSound(pats, path); }
    if exists runs :: Groups(pats, path, runs) {
      var runs :| Groups(pats, path, runs);
      MatchSegmentsComplete(pats, path, runs);
    }
  }

  /** `segs` are the slash-free segments of `path`, and `runs` groups them under the pattern's segments. */
  ghost predicate PathGroups(pattern: Str, path: Str, segs: seq<Str>, runs: seq<seq<Str>>) {
    && |segs| >= 1 && Free(segs, SLASH) && Join(segs, SLASH) == path
    && Groups(Split(TrimPrefix(pattern, [SLASH]), SLASH), segs, runs)
  }

  /** MatchGlob in one statement. */
  lemma MatchGlobMeaning(pattern: Str, path: Str)
    ensures MatchGlob(pattern, path) <==> exists segs, runs :: PathGroups(pattern, path, segs, runs)
  {
    var pats, segs := Split(TrimPrefix(pattern, [SLASH]), SLASH), Split(path, SLASH);
    MatchSegmentsMeaning(pats, segs);
    SplitJoin(path, SLASH);
    if MatchGlob(pattern, path) {
      var runs :| Groups(pats, segs, runs);
      assert PathGroups(pattern, path, segs, runs);
    }
    if exists segs, runs :: PathGroups(pattern, path, segs, runs) {
      var segs', runs :| PathGroups(pattern, path, segs', runs);
      JoinSplit(segs', SLASH);
    }
  }

  // ------------------------------------------------------------------ consequences

  lemma {:induction false} PlainSegments(pats: seq<Str>, path: seq<Str>)
    requires DEEP !in pats && MatchSegments(pats, path)
    ensures |pats| == |path|
    ensures forall i :: 0 <= i < |pats| ==> MatchSegment(pats[i], path[i])
    decreases |pats|
  {
    if pats != [] {
      PlainSegments(pats[1..], path[1..]);
      forall i | 0 <= i < |pats| ensures MatchSegment(pats[i], path[i]) {
        if i > 0 { assert MatchSegment(pats[1..][i - 1], path[1..][i - 1]); }
      }
    }
  }

  /** "*" and "?" never cross a "/": without "**" a match has exactly the pattern's slashes. */
  lemma WildcardsStayInSegment(pattern: Str, path: Str)
    requires DEEP !in Split(TrimPrefix(pattern, [SLASH]), SLASH)
    requires MatchGlob(pattern, path)
    ensures Count(path, SLASH) == Count(TrimPrefix(pattern, [SLASH]), SLASH)
  {
    var pat := TrimPrefix(pattern, [SLASH]);
    PlainSegments(Split(pat, SLASH), Split(path, SLASH));
    SplitCount(pat, SLASH);
    SplitCount(path, SLASH);
  }

  /** "**" followed by "**" is "**", wherever it stands. */
  lemma {:induction false} DeepDeep(before: seq<Str>, after: seq<Str>, path: seq<Str>)
    ensures MatchSegments(before + [DEEP, DEEP] + after, path) <==> MatchSegments(before + [DEEP] + after, path)
    decreases |before|
  {
    var two, one := before + [DEEP, DEEP] + after, before + [DEEP] + after;
    if before == [] {
      assert two == [DEEP] + one && two[1..] == one && one[1..] == after;
      if MatchSegments(one, path) {
        assert path[0..] == path && MatchSegments(two[1..], path[0..]);
      }
      if MatchSegments(two, path) {
        var i :| 0 <= i <= |path| && MatchSegments(two[1..], path[i..]);
        var j :| 0 <= j <= |path[i..]| && MatchSegments(one[1..], path[i..][j..]);
        assert path[i..][j..] == path[i + j..];
      }
    } else {
      var b := before[1..];
      assert two[1..] == b + [DEEP, DEEP] + after && one[1..] == b + [DEEP] + after;
      forall k | 0 <= k <= |path| ensures MatchSegments(two[1..], path[k..]) <==> MatchSegments(one[1..], path[k..]) {
        DeepDeep(b, after, path[k..]);
      }
    }
  }

  // -------------------------------------------------------------------- ValidGlob

  predicate Closed(seg: Str) { Tokens(seg).Some? }

  /** Every "[" is closed within its segment. */
  predicate WellFormed(pattern: Str) {
    AllClosed(Split(pattern, SLASH))
  }

  predicate AllClosed(segs: seq<Str>) {
    forall i :: 0 <= i < |segs| ==> Closed(segs[i])
  }

  /** One turn of the validity loop, at index i of the segment. */
  lemma ClosedStep(seg: Str, i: nat)
    requires i < |seg|
    ensures Closed(seg[i..]) <==>
      if seg[i] != OPEN then Closed(seg[i + 1..])
      else var end := IndexByte(seg[i + 1..], CLOSE); end >= 0 && Closed(seg[i + end + 2..])
  {
    var s := seg[i..];
    assert s[1..] == seg[i + 1..];
    if seg[i] == OPEN {
      var end := IndexByte(s[1..], CLOSE);
      if end >= 0 { assert s[end + 2..] == seg[i + end + 2..]; }
    }
  }

  /** ValidGlob's inner loop over one segment. */
  method ValidSegment(seg: Str) returns (ok: bool)
    ensures ok <==> Closed(seg)
  {
    var i := 0;
    assert seg[0..] == seg;
    while i < |seg|
      invariant 0 <= i <= |seg|
      invariant Closed(seg) <==> Closed(seg[i..])
    {
      ClosedStep(seg, i);
      if seg[i] != OPEN {
        i := i + 1;
      } else {
        var end := IndexByte(seg[i + 1..], CLOSE);
        if end < 0 { return false; }
        i := i + end + 2;
      }
    }
    assert Closed(seg[i..]);
    return true;
  }

  method ValidGlob(pattern: Str) returns (ok: bool)
    ensures ok <==> WellFormed(pattern)
  {
    ok := ValidSegments(Split(pattern, SLASH));
  }

  /** ValidGlob's outer loop. */
  method ValidSegments(segs: seq<Str>) returns (ok: bool)
    ensures ok <==> AllClosed(segs)
  {
    for k := 0 to |segs|
      invariant AllClosed(segs[..k])
    {
      ok := ValidSegment(segs[k]);
      AllClosedNext(segs, k);
      if !ok { return; }
    }
    assert segs[..|segs|] == segs;
    return true;
  }

  lemma AllClosedNext(segs: seq<Str>, k: nat)
    requires k < |segs|
    ensures AllClosed(segs[..k + 1]) <==> AllClosed(segs[..k]) && Closed(segs[k])
    ensures !Closed(segs[k]) ==> !AllClosed(segs)
  {
    var a, b := segs[..k], segs[..k + 1];
    assert b == a + [segs[k]];
    assert forall i :: 0 <= i < k ==> b[i] == a[i];
    assert b[k] == segs[k];
  }

  lemma {:induction false} IllFormedSegments(pats: seq<Str>, path: seq<Str>, i: nat)
    requires i < |pats| && !Closed(pats[i])
    ensures !MatchSegments(pats, path)
    decreases i
  {
    if i == 0 {
      assert pats[0] != DEEP by {
        assert Tokens(DEEP[1..][1..]) == Some([]);
        assert Tokens(DEEP[1..]).Some?;
        assert Tokens(DEEP).Some?;
      }
      if path != [] { MatchSegmentMeaning(pats[0], path[0]); }
    } else {
      forall k | 0 <= k <= |path| ensures !MatchSegments(pats[1..], path[k..]) {
        IllFormedSegments(pats[1..], path[k..], i - 1);
      }
    }
  }

  /** A leading "/" adds an empty segment, which never decides validity. */
  lemma LeadingSlash(pattern: Str)
    ensures WellFormed(pattern) <==> WellFormed(TrimPrefix(pattern, [SLASH]))
  {
    if HasPrefix(pattern, [SLASH]) {
      assert pattern[..1] == [SLASH];
      assert pattern[0] == SLASH;
      var rest := Split(pattern[1..], SLASH);
      assert Split(pattern, SLASH) == [pattern[..0]] + rest;
      assert Closed(pattern[..0]);
      forall i | 0 <= i < |rest| ensures rest[i] == Split(pattern, SLASH)[i + 1] {}
    }
  }

  /** A pattern ValidGlob rejects matches no path at all. */
  lemma IllFormedMatchesNothing(pattern: Str, path: Str)
    requires !WellFormed(pattern)
    ensures !MatchGlob(pattern, path)
  {
    LeadingSlash(pattern);
    var pats := Split(TrimPrefix(pattern, [SLASH]), SLASH);
    var i :| 0 <= i < |pats| && !Closed(pats[i]);
    IllFormedSegments(pats, Split(path, SLASH), i);
  }

  // -------------------------------------------------- which patterns match something

  /** A class must hold some byte a path segment can have. */
  predicate CanCover(t: Token) {
    t.Class? ==> exists c: byte :: c != SLASH && InItems(t.items, c) != t.negate
  }

  predicate AllCanCover(tokens: seq<Token>) {
    forall i :: 0 <= i < |tokens| ==> CanCover(tokens[i])
  }

  /** Every class of the segment is closed and holds a byte other than a slash. */
  predicate Satisfiable(seg: Str) {
    Closed(seg) && AllCanCover(Tokens(seg).value)
  }

  lemma SatisfiableCons(pat: Str, t: Token, rest: Str)
    requires Tokens(pat) == Prepend(t, Tokens(rest))
    ensures Satisfiable(pat) <==> CanCover(t) && Satisfiable(rest)
  {
    if Closed(rest) {
      var tokens, all := Tokens(rest).value, Tokens(pat).value;
      assert all == [t] + tokens;
      assert forall i :: 0 <= i < |tokens| ==> all[i + 1] == tokens[i];
      assert all[0] == t;
    }
  }

  /** A segment that matches a text without slashes is satisfiable. */
  lemma {:induction false} MatchedIsSatisfiable(pat: Str, s: Str)
    requires MatchSegment(pat, s) && SLASH !in s
    ensures Satisfiable(pat)
    decreases |pat|
  {
    if pat != [] {
      var t, rest, cut := FirstToken(pat, s);
      MatchedIsSatisfiable(rest, s[cut..]);
      if t.Class? { assert s[..cut][0] in s; }
      SatisfiableCons(pat, t, rest);
    }
  }

  lemma DeepIsSatisfiable()
    ensures Satisfiable(DEEP)
  {
    assert DEEP[1..][1..] == [] && Tokens([]) == Some([]);
    assert Tokens(DEEP[1..]) == Prepend(Any, Some([]));
    assert Tokens(DEEP) == Prepend(Any, Tokens(DEEP[1..]));
  }

  lemma {:induction false} MatchedAreSatisfiable(pats: seq<Str>, path: seq<Str>, i: nat)
    requires MatchSegments(pats, path) && Free(path, SLASH) && i < |pats|
    ensures Satisfiable(pats[i])
    decreases |pats|
  {
    if pats[0] == DEEP {
      DeepIsSatisfiable();
      var skip :| 0 <= skip <= |path| && MatchSegments(pats[1..], path[skip..]);
      if i > 0 { MatchedAreSatisfiable(pats[1..], path[skip..], i - 1); }
    } else if i == 0 {
      MatchedIsSatisfiable(pats[0], path[0]);
    } else {
      MatchedAreSatisfiable(pats[1..], path[1..], i - 1);
    }
  }

  /** The segment starts with this class. */
  predicate ClassAt(pat: Str, t: Token, rest: Str)
    requires pat != []
  {
    var end := IndexByte(pat[1..], CLOSE);
    pat[0] == OPEN && end >= 0 && rest == pat[end + 2..]
    && t == Class(Negated(pat[1..][..end]), ClassItems(Members(pat[1..][..end])))
  }

  /** The head of a well-formed segment. */
  lemma HeadToken(pat: Str) returns (t: Token, rest: Str)
    requires pat != [] && Closed(pat)
    ensures |rest| < |pat| && Tokens(pat) == Prepend(t, Tokens(rest)) && (forall c :: c in rest ==> c in pat)
    ensures t == Any ==> pat[0] == STAR && rest == pat[1..]
    ensures t == One ==> pat[0] == QUESTION && rest == pat[1..]
    ensures t.Lit? ==> t.c == pat[0] && pat[0] !in {STAR, QUESTION, OPEN} && rest == pat[1..]
    ensures t.Class? ==> ClassAt(pat, t, rest)
  {
    if pat[0] == OPEN {
      var end := IndexByte(pat[1..], CLOSE);
      var body := pat[1..][..end];
      t, rest := Class(Negated(body), ClassItems(Members(body))), pat[end + 2..];
    } else {
      t, rest := if pat[0] == STAR then Any else if pat[0] == QUESTION then One else Lit(pat[0]), pat[1..];
    }
  }

  /** A text that a satisfiable segment matches. */
  lemma {:induction false} SegmentText(pat: Str) returns (s: Str)
    requires Satisfiable(pat) && SLASH !in pat
    ensures SLASH !in s && MatchSegment(pat, s)
    decreases |pat|
  {
    if pat == [] {
      s := [];
    } else {
      var t, rest := HeadToken(pat);
      SatisfiableCons(pat, t, rest);
      var tail := SegmentText(rest);
      if t == Any {
        s := tail;
        assert s[0..] == tail;
      } else {
        var c: byte := 0;
        if t.Lit? {
          c := t.c;
        } else if t.Class? {
          c :| c != SLASH && InItems(t.items, c) != t.negate;
        }
        s := [c] + tail;
        assert s[1..] == tail;
      }
    }
  }

  lemma {:induction false} PathText(pats: seq<Str>) returns (segs: seq<Str>)
    requires Free(pats, SLASH) && forall i :: 0 <= i < |pats| ==> Satisfiable(pats[i])
    ensures |segs| == |pats| && Free(segs, SLASH) && MatchSegments(pats, segs)
    decreases |pats|
  {
    if pats == [] {
      segs := [];
    } else {
      var rest := PathText(pats[1..]);
      var first: Str := [];
      if pats[0] != DEEP { first := SegmentText(pats[0]); }
      segs := [first] + rest;
      assert segs[1..] == rest;
    }
  }

  /** Some path matches a pattern if and only if the pattern is well formed and every class in it holds a
      byte other than a slash. */
  lemma MatchesSomething(pattern: Str)
    ensures (exists path :: MatchGlob(pattern, path)) <==>
      WellFormed(pattern) && AllSatisfiable(Split(TrimPrefix(pattern, [SLASH]), SLASH))
  {
    var text := TrimPrefix(pattern, [SLASH]);
    var pats := Split(text, SLASH);
    LeadingSlash(pattern);
    SplitJoin(text, SLASH);
    if path :| MatchGlob(pattern, path) {
      SplitJoin(path, SLASH);
      forall i | 0 <= i < |pats| ensures Satisfiable(pats[i]) { MatchedAreSatisfiable(pats, Split(path, SLASH), i); }
    }
    if AllSatisfiable(pats) {
      var segs := PathText(pats);
      JoinSplit(segs, SLASH);
      assert MatchGlob(pattern, Join(segs, SLASH));
    }
  }

  predicate AllSatisfiable(segs: seq<Str>) {
    forall i :: 0 <= i < |segs| ==> Satisfiable(segs[i])
  }

  /** So the converse of IllFormedMatchesNothing fails: "[]" is well formed and matches nothing. */
  lemma EmptyClassMatchesNothing(path: Str)
    ensures WellFormed([OPEN, CLOSE]) && !MatchGlob([OPEN, CLOSE], path)
  {
    var pat := [OPEN, CLOSE];
    assert IndexByte(pat, SLASH) < 0;
    assert Split(pat, SLASH) == [pat];
    assert pat[1..][0] == CLOSE && IndexByte(pat[1..], CLOSE) == 0;
    assert Members(pat[1..][..0]) == [];
    assert !HasPrefix(pat, [SLASH]);
    assert pat[2..] == [];
    assert Closed(pat);
    assert !MatchSegment(pat, Split(path, SLASH)[0]);
  }

  // ------------------------------------------------- the pattern language, byte by byte

  /** A class runs to the first "]"; a leading "^" or "!" negates it and is no member. */
  lemma ClassExactly(body: Str, rest: Str)
    requires ']' as byte !in body
    ensures var negate := body != [] && body[0] as char in "^!";
      Tokens(['[' as byte] + body + [']' as byte] + rest) ==
        Prepend(Class(negate, ClassItems(if negate then body[1..] else body)), Tokens(rest))
  {
    var pat := ['[' as byte] + body + [']' as byte] + rest;
    var tail := body + [']' as byte] + rest;
    assert pat[1..] == tail && tail[..|body|] == body && tail[|body|] == CLOSE;
    IndexByteUnique(tail, CLOSE, |body|);
    assert pat[|body| + 2..] == rest;
  }

  lemma UnclosedExactly(text: Str)
    requires ']' as byte !in text
    ensures Tokens(['[' as byte] + text) == None
  {
    assert (['[' as byte] + text)[1..] == text;
    IndexByteFirst(text, CLOSE);
  }

  /** A star stands for any text, a question mark for one byte, anything else for itself. */
  lemma TokenExactly(c: byte, rest: Str)
    requires c as char != '['
    ensures Tokens([c] + rest) == Prepend(if c as char == '*' then Any else if c as char == '?' then One else Lit(c), Tokens(rest))
  {
    assert ([c] + rest)[1..] == rest;
  }

  /** A hyphen between two bytes of a class makes a range; any other byte is a member. */
  lemma ItemsExactly(a: byte, rest: Str)
    ensures ClassItems([a] + rest) ==
      if |rest| > 1 && rest[0] as char == '-' then [Range(a, rest[1])] + ClassItems(rest[2..]) else [Range(a, a)] + ClassItems(rest)
  {
    var body := [a] + rest;
    assert body[1..] == rest;
    if |rest| > 1 { assert body[3..] == rest[2..] && body[2] == rest[1]; }
  }

  /** Segments with slashes between them. */
  function PathOf(segs: seq<Str>): Str {
    if segs == [] then [] else if |segs| == 1 then segs[0] else segs[0] + ['/' as byte] + PathOf(segs[1..])
  }

  lemma {:induction false} PathIsJoined(segs: seq<Str>)
    ensures PathOf(segs) == Join(segs, SLASH)
  {
    if |segs| > 1 { PathIsJoined(segs[1..]); }
  }

  /** Pattern and path are cut at their slashes, a slash that starts the pattern left off. */
  lemma GlobExactly(pats: seq<Str>, segs: seq<Str>, leading: bool)
    requires pats != [] && segs != [] && (leading || pats[0] != [] || |pats| == 1)
    requires (forall i :: 0 <= i < |pats| ==> '/' as byte !in pats[i]) && forall i :: 0 <= i < |segs| ==> '/' as byte !in segs[i]
    ensures MatchGlob((if leading then ['/' as byte] else []) + PathOf(pats), PathOf(segs)) <==> MatchSegments(pats, segs)
  {
    PathIsJoined(pats);
    PathIsJoined(segs);
    JoinSplit(pats, SLASH);
    JoinSplit(segs, SLASH);
    LeadingOff(pats, leading);
  }

  lemma LeadingOff(pats: seq<Str>, leading: bool)
    requires pats != [] && (leading || pats[0] != [] || |pats| == 1) && '/' as byte !in pats[0]
    ensures TrimPrefix((if leading then ['/' as byte] else []) + PathOf(pats), [SLASH]) == PathOf(pats)
  {
    var text := PathOf(pats);
    if leading {
      assert (['/' as byte] + text)[..1] == [SLASH] && (['/' as byte] + text)[1..] == text;
    } else {
      assert [] + text == text;
      assert pats[0] != [] ==> text[0] == pats[0][0];
      assert !HasPrefix(text, [SLASH]);
    }
  }

  /** Two stars alone are any number of segments; any other segment is matched by one. */
  lemma SegmentsExactly(pat: Str, pats: seq<Str>, path: seq<Str>)
    ensures MatchSegments([pat] + pats, path) <==>
      if pat == Ascii("**") then exists skip :: 0 <= skip <= |path| && MatchSegments(pats, path[skip..])
      else path != [] && MatchSegment(pat, path[0]) && MatchSegments(pats, path[1..])
  {
    assert ([pat] + pats)[1..] == pats;
    assert Ascii("**") == DEEP;
  }
}
