/** Canonical query strings of AWS Signature Version 4 (internal/blobstore/sigv4.go): percent-encoding
    as in sections 2.1 and 2.3 of RFC 3986, and the canonical order of the parameters. */
module SigV4 {
  import opened Bytes
  import opened Seqs

  const SPACE: byte := 32
  const PERCENT: byte := 37
  const AMPERSAND: byte := 38
  const PLUS: byte := 43
  const SLASH: byte := 47
  const EQUALS: byte := 61

  // ------------------------------------------------------------------- one byte

  /** A-Z a-z 0-9 - . _ ~ */
  predicate Unreserved(c: byte) {
    65 <= c <= 90 || 97 <= c <= 122 || 48 <= c <= 57 || c == 45 || c == 46 || c == 95 || c == 126
  }

  /** Upper-case hexadecimal. */
  function HexDigit(n: byte): byte
    requires n < 16
  {
    if n < 10 then 48 + n else 55 + n
  }

  /** The value of a hexadecimal digit in either case, 16 for anything else. */
  function HexValue(c: byte): (n: byte)
    ensures n <= 16
  {
    if 48 <= c <= 57 then c - 48
    else if 65 <= c <= 70 then c - 55
    else if 97 <= c <= 102 then c - 87
    else 16
  }

  predicate Escaped(s: Str) {
    |s| > 2 && s[0] == PERCENT && HexValue(s[1]) < 16 && HexValue(s[2]) < 16
  }

  /** What the three bytes %XX stand for. */
  function EscapedByte(s: Str): byte
    requires Escaped(s)
  {
    HexValue(s[1]) * 16 + HexValue(s[2])
  }

  function EncodedByte(c: byte, keepSlash: bool): Str {
    if Unreserved(c) || (c == SLASH && keepSlash) then [c] else [PERCENT, HexDigit(c / 16), HexDigit(c % 16)]
  }

  // -------------------------------------------------------------------- strings

  function Encoded(s: Str, keepSlash: bool): Str {
    if s == [] then [] else EncodedByte(s[0], keepSlash) + Encoded(s[1..], keepSlash)
  }

  function PlusToSpace(s: Str): (t: Str)
    ensures |t| == |s|
  {
    if s == [] then [] else [if s[0] == PLUS then SPACE else s[0]] + PlusToSpace(s[1..])
  }

  /** Every %XX, read from the left, becomes its byte; a % that starts none stays. */
  function Percent(s: Str): Str {
    if s == [] then []
    else if Escaped(s) then [EscapedByte(s)] + Percent(s[3..])
    else [s[0]] + Percent(s[1..])
  }

  function Decoded(s: Str): Str { Percent(PlusToSpace(s)) }

  lemma EncodedNext(out: Str, s: Str, i: nat, keepSlash: bool)
    requires i < |s|
    ensures out + Encoded(s[i..], keepSlash) == (out + EncodedByte(s[i], keepSlash)) + Encoded(s[i + 1..], keepSlash)
  {
    assert s[i..][1..] == s[i + 1..];
  }

  method UriEncode(s: Str, keepSlash: bool) returns (out: Str)
    ensures out == Encoded(s, keepSlash)
  {
    out := [];
    assert s[0..] == s && [] + Encoded(s, keepSlash) == Encoded(s, keepSlash);
    for i := 0 to |s|
      invariant out + Encoded(s[i..], keepSlash) == Encoded(s, keepSlash)
    {
      var c := s[i];
      EncodedNext(out, s, i, keepSlash);
      if Unreserved(c) {
        out := out + [c];
      } else if c == SLASH && keepSlash {
        out := out + [c];
      } else {
        out := out + [PERCENT, HexDigit(c / 16), HexDigit(c % 16)];
      }
    }
    assert out + [] == out;
  }

  lemma PercentNext(out: Str, s: Str, i: nat)
    requires i < |s|
    ensures out + Percent(s[i..]) ==
      if Escaped(s[i..]) then (out + [EscapedByte(s[i..])]) + Percent(s[i + 3..]) else (out + [s[i]]) + Percent(s[i + 1..])
  {
    assert s[i..][1..] == s[i + 1..];
    if Escaped(s[i..]) { assert s[i..][3..] == s[i + 3..]; }
  }

  method Unescape(text: Str) returns (out: Str)
    ensures out == Decoded(text)
  {
    var s := PlusToSpace(text);
    out := [];
    var i := 0;
    assert s[0..] == s && [] + Percent(s) == Percent(s);
    while i < |s|
      invariant i <= |s| && out + Percent(s[i..]) == Percent(s)
    {
      PercentNext(out, s, i);
      if s[i] == PERCENT && i + 2 < |s| && HexValue(s[i + 1]) < 16 && HexValue(s[i + 2]) < 16 {
        out := out + [HexValue(s[i + 1]) * 16 + HexValue(s[i + 2])];
        i := i + 3;
      } else {
        out := out + [s[i]];
        i := i + 1;
      }
    }
    assert out + [] == out;
  }

  lemma EscapeOneByte(c: byte, rest: Str)
    ensures var s := [PERCENT, HexDigit(c / 16), HexDigit(c % 16)] + rest;
      Escaped(s) && EscapedByte(s) == c
  {
  }

  /** An encoded text has no byte that means something in a query string, and no plus sign. */
  lemma {:induction false} EncodedIsPlain(s: Str, keepSlash: bool)
    ensures forall c :: c in Encoded(s, keepSlash) ==> Unreserved(c) || c == PERCENT || (c == SLASH && keepSlash)
  {
    if s != [] { EncodedIsPlain(s[1..], keepSlash); }
  }

  lemma {:induction false} NoPlus(s: Str)
    requires PLUS !in s
    ensures PlusToSpace(s) == s
  {
    if s != [] { NoPlus(s[1..]); }
  }

  lemma {:induction false} PercentUndoes(s: Str, keepSlash: bool)
    ensures Percent(Encoded(s, keepSlash)) == s
  {
    if s != [] {
      var rest := Encoded(s[1..], keepSlash);
      PercentUndoes(s[1..], keepSlash);
      var one := EncodedByte(s[0], keepSlash);
      EscapeOneByte(s[0], rest);
      assert (one + rest)[|one|..] == rest;
    }
  }

  /** unescape undoes uriEncode on every byte string, whether or not slashes were kept. */
  lemma DecodedUndoes(s: Str, keepSlash: bool)
    ensures Decoded(Encoded(s, keepSlash)) == s
  {
    EncodedIsPlain(s, keepSlash);
    NoPlus(Encoded(s, keepSlash));
    PercentUndoes(s, keepSlash);
  }

  // ----------------------------------------------------------------- parameters

  datatype Param = Param(k: Str, v: Str)

  /** strings.Cut at the first equals sign, both sides decoded. */
  function ParamOf(piece: Str): Param {
    var i := IndexByte(piece, EQUALS);
    if i < 0 then Param(Decoded(piece), Decoded([])) else Param(Decoded(piece[..i]), Decoded(piece[i + 1..]))
  }

  function ParamsOf(pieces: seq<Str>): seq<Param> {
    if pieces == [] then []
    else ParamsOf(pieces[..|pieces| - 1]) + if pieces[|pieces| - 1] == [] then [] else [ParamOf(pieces[|pieces| - 1])]
  }

  /** The decoded parameters of a query string, in its order. */
  function Params(query: Str): seq<Param> { ParamsOf(Split(query, AMPERSAND)) }

  /** The order of the comparison function: by name, then by value. */
  predicate AtMost(a: Param, b: Param) {
    if a.k != b.k then CompareBytes(a.k, b.k) < 0 else CompareBytes(a.v, b.v) <= 0
  }

  ghost predicate InOrder(ps: seq<Param>) {
    forall i, j :: 0 <= i < j < |ps| ==> AtMost(ps[i], ps[j])
  }

  function Insert(ps: seq<Param>, p: Param): seq<Param> {
    if ps == [] || AtMost(p, ps[0]) then [p] + ps else [ps[0]] + Insert(ps[1..], p)
  }

  /** What sort.Slice leaves in the slice; SortedUnique shows that its algorithm makes no difference. */
  function Sorted(ps: seq<Param>): seq<Param> {
    if ps == [] then [] else Insert(Sorted(ps[1..]), ps[0])
  }

  function Part(p: Param): Str { Encoded(p.k, false) + [EQUALS] + Encoded(p.v, false) }

  function Parts(ps: seq<Param>): (r: seq<Str>)
    ensures |r| == |ps|
    ensures forall i :: 0 <= i < |ps| ==> r[i] == Part(ps[i])
  {
    if ps == [] then [] else Parts(ps[..|ps| - 1]) + [Part(ps[|ps| - 1])]
  }

  /** The parameters of the query in canonical order, re-encoded. */
  function Canonical(query: Str): Str { Join(Parts(Sorted(Params(query))), AMPERSAND) }

  method DecodeParam(piece: Str) returns (p: Param)
    ensures p == ParamOf(piece)
  {
    var cut := IndexByte(piece, EQUALS);
    var k := Unescape(if cut < 0 then piece else piece[..cut]);
    var v := Unescape(if cut < 0 then [] else piece[cut + 1..]);
    p := Param(k, v);
  }

  method DecodeParams(pieces: seq<Str>) returns (decoded: seq<Param>)
    ensures decoded == ParamsOf(pieces)
  {
    decoded := [];
    for i := 0 to |pieces|
      invariant decoded == ParamsOf(pieces[..i])
    {
      assert pieces[..i + 1] == pieces[..i] + [pieces[i]];
      ParamsOfLast(pieces[..i], pieces[i]);
      if pieces[i] == [] { continue; }
      var p := DecodeParam(pieces[i]);
      decoded := decoded + [p];
    }
    assert pieces[..|pieces|] == pieces;
  }

  method EncodeParams(ps: seq<Param>) returns (parts: seq<Str>)
    ensures parts == Parts(ps)
  {
    parts := [];
    for i := 0 to |ps|
      invariant parts == Parts(ps[..i])
    {
      var k := UriEncode(ps[i].k, false);
      var v := UriEncode(ps[i].v, false);
      assert ps[..i + 1] == ps[..i] + [ps[i]];
      PartsOfLast(ps[..i], ps[i]);
      parts := parts + [k + [EQUALS] + v];
    }
    assert ps[..|ps|] == ps;
  }

  method CanonicalQuery(rawQuery: Str) returns (canonical: Str)
    ensures canonical == Canonical(rawQuery)
  {
    if rawQuery == [] {
      CanonicalOfNothing();
      return [];
    }
    var decoded := DecodeParams(Split(rawQuery, AMPERSAND));
    var parts := EncodeParams(Sorted(decoded));
    canonical := Join(parts, AMPERSAND);
  }

  lemma CanonicalOfNothing()
    ensures Canonical([]) == []
  {
    var pieces: seq<Str> := [[]];
    assert Split([], AMPERSAND) == pieces && pieces[..0] == [];
  }

  // -------------------------------------------------------------------- the order

  lemma AtMostTotal(a: Param, b: Param)
    ensures AtMost(a, b) || AtMost(b, a)
    ensures AtMost(a, b) && AtMost(b, a) ==> a == b
  {
    CompareBytesOrder(a.k, b.k);
    CompareBytesOrder(a.v, b.v);
  }

  lemma AtMostTransitive(a: Param, b: Param, c: Param)
    requires AtMost(a, b) && AtMost(b, c)
    ensures AtMost(a, c)
  {
    CompareBytesOrder(a.k, b.k);
    CompareBytesOrder(b.k, c.k);
    CompareBytesOrder(a.k, c.k);
    CompareBytesTransitive(a.k, b.k, c.k);
    if a.k == b.k == c.k { CompareBytesTransitive(a.v, b.v, c.v); }
  }

  lemma {:induction false} InsertSorts(ps: seq<Param>, p: Param)
    requires InOrder(ps)
    ensures InOrder(Insert(ps, p)) && multiset(Insert(ps, p)) == multiset(ps) + multiset{p}
  {
    if ps == [] {
    } else if AtMost(p, ps[0]) {
      forall j | 1 <= j < |ps| ensures AtMost(p, ps[j]) { AtMostTransitive(p, ps[0], ps[j]); }
      assert multiset([p] + ps) == multiset{p} + multiset(ps);
    } else {
      AtMostTotal(p, ps[0]);
      assert ps == [ps[0]] + ps[1..];
      InsertSorts(ps[1..], p);
      var rest := Insert(ps[1..], p);
      forall j | 0 <= j < |rest| ensures AtMost(ps[0], rest[j]) {
        assert rest[j] in multiset(rest);
        if rest[j] != p { assert rest[j] in ps[1..]; }
      }
    }
  }

  lemma {:induction false} SortedSorts(ps: seq<Param>)
    ensures InOrder(Sorted(ps)) && multiset(Sorted(ps)) == multiset(ps)
  {
    if ps != [] {
      SortedSorts(ps[1..]);
      InsertSorts(Sorted(ps[1..]), ps[0]);
      assert ps == [ps[0]] + ps[1..];
    }
  }

  lemma SameHead(a: seq<Param>, b: seq<Param>)
    requires InOrder(a) && InOrder(b) && multiset(a) == multiset(b) && a != []
    ensures b != [] && a[0] == b[0]
  {
    assert a[0] in multiset(b);
    assert b[0] in multiset(a);
    var i :| 0 <= i < |b| && b[i] == a[0];
    var j :| 0 <= j < |a| && a[j] == b[0];
    AtMostTotal(a[0], b[0]);
  }

  lemma Head(s: seq<Param>)
    requires s != []
    ensures s == [s[0]] + s[1..] && multiset(s[1..]) == multiset(s) - multiset{s[0]}
  {
    RemoveAtMultiset(s, 0);
    assert RemoveAt(s, 0) == s[1..];
  }

  /** Two ordered lists of the same parameters are the same list. */
  lemma {:induction false} SortedUnique(a: seq<Param>, b: seq<Param>)
    requires InOrder(a) && InOrder(b) && multiset(a) == multiset(b)
    ensures a == b
  {
    if a == [] {
      assert |multiset(b)| == 0;
    } else {
      SameHead(a, b);
      Head(a);
      Head(b);
      SortedUnique(a[1..], b[1..]);
    }
  }

  // ------------------------------------------------------------------ the theorems

  lemma PartIsPlain(p: Param)
    ensures AMPERSAND !in Part(p) && Part(p) != []
  {
    EncodedIsPlain(p.k, false);
    EncodedIsPlain(p.v, false);
  }

  lemma PartDecodes(p: Param)
    ensures ParamOf(Part(p)) == p
  {
    EncodedIsPlain(p.k, false);
    DecodedUndoes(p.k, false);
    DecodedUndoes(p.v, false);
    CutPart(Encoded(p.k, false), Encoded(p.v, false), Part(p));
  }

  lemma CutPart(k: Str, v: Str, part: Str)
    requires EQUALS !in k && part == k + [EQUALS] + v
    ensures IndexByte(part, EQUALS) == |k| && part[..|k|] == k && part[|k| + 1..] == v
  {
    assert part[..|k|] == k && part[|k|] == EQUALS;
    IndexByteUnique(part, EQUALS, |k|);
  }

  lemma PartsOfLast(ps: seq<Param>, p: Param)
    ensures Parts(ps + [p]) == Parts(ps) + [Part(p)]
  {
    assert (ps + [p])[..|ps|] == ps;
  }

  lemma {:induction false} ParamsOfParts(ps: seq<Param>)
    ensures ParamsOf(Parts(ps)) == ps
  {
    if ps != [] {
      var init, p := ps[..|ps| - 1], ps[|ps| - 1];
      ParamsOfParts(init);
      OneMore(init, p);
      assert ps == init + [p];
    }
  }

  lemma OneMore(ps: seq<Param>, p: Param)
    ensures ParamsOf(Parts(ps + [p])) == ParamsOf(Parts(ps)) + [p]
  {
    PartIsPlain(p);
    PartDecodes(p);
    PartsOfLast(ps, p);
    ParamsOfLast(Parts(ps), Part(p));
  }

  lemma ParamsOfLast(pieces: seq<Str>, piece: Str)
    ensures ParamsOf(pieces + [piece]) == ParamsOf(pieces) + if piece == [] then [] else [ParamOf(piece)]
  {
    assert (pieces + [piece])[..|pieces|] == pieces;
  }

  /** The canonical query carries exactly the parameters of the original, in order. */
  lemma CanonicalKeepsParams(query: Str)
    ensures Params(Canonical(query)) == Sorted(Params(query))
    ensures InOrder(Params(Canonical(query)))
    ensures multiset(Params(Canonical(query))) == multiset(Params(query))
  {
    var ps := Sorted(Params(query));
    SortedSorts(Params(query));
    ParamsOfParts(ps);
    if ps == [] {
      assert Split([], AMPERSAND) == [[]];
    } else {
      forall i | 0 <= i < |ps| ensures AMPERSAND !in Parts(ps)[i] { PartIsPlain(ps[i]); }
      JoinSplit(Parts(ps), AMPERSAND);
    }
  }

  /** Two queries have the same canonical form exactly when they carry the same parameters. */
  lemma CanonicalIffSameParams(a: Str, b: Str)
    ensures Canonical(a) == Canonical(b) <==> multiset(Params(a)) == multiset(Params(b))
  {
    CanonicalKeepsParams(a);
    CanonicalKeepsParams(b);
    if multiset(Params(a)) == multiset(Params(b)) {
      SortedUnique(Params(Canonical(a)), Params(Canonical(b)));
    }
  }

  lemma CanonicalIdempotent(query: Str)
    ensures Canonical(Canonical(query)) == Canonical(query)
  {
    CanonicalKeepsParams(query);
    CanonicalIffSameParams(Canonical(query), query);
  }

  function One(piece: Str): multiset<Param> { if piece == [] then multiset{} else multiset{ParamOf(piece)} }

  lemma {:induction false} ParamsWithout(pieces: seq<Str>, i: nat)
    requires i < |pieces|
    ensures multiset(ParamsOf(pieces)) == multiset(ParamsOf(RemoveAt(pieces, i))) + One(pieces[i])
  {
    var init, last := pieces[..|pieces| - 1], pieces[|pieces| - 1];
    LastCounts(init, last, pieces);
    RemoveAtLast(pieces, i);
    if i < |init| {
      ParamsWithout(init, i);
      LastCounts(RemoveAt(init, i), last, RemoveAt(pieces, i));
    }
  }

  lemma LastCounts(pieces: seq<Str>, piece: Str, all: seq<Str>)
    requires all == pieces + [piece]
    ensures multiset(ParamsOf(all)) == multiset(ParamsOf(pieces)) + One(piece)
  {
    ParamsOfLast(pieces, piece);
  }

  lemma {:induction false} ParamsOfAnyOrder(a: seq<Str>, b: seq<Str>)
    requires multiset(a) == multiset(b)
    ensures multiset(ParamsOf(a)) == multiset(ParamsOf(b))
    decreases |a|
  {
    if a == [] {
      assert |multiset(b)| == 0;
    } else {
      assert a[0] in multiset(b);
      var i :| 0 <= i < |b| && b[i] == a[0];
      RemoveAtMultiset(a, 0);
      RemoveAtMultiset(b, i);
      ParamsOfAnyOrder(RemoveAt(a, 0), RemoveAt(b, i));
      ParamsWithout(a, 0);
      ParamsWithout(b, i);
    }
  }

  /** The order in which a query spells its parameters makes no difference. */
  lemma CanonicalIgnoresOrder(a: Str, b: Str)
    requires multiset(Split(a, AMPERSAND)) == multiset(Split(b, AMPERSAND))
    ensures Canonical(a) == Canonical(b)
  {
    ParamsOfAnyOrder(Split(a, AMPERSAND), Split(b, AMPERSAND));
    CanonicalIffSameParams(a, b);
  }

  // ---------------------------------------------------------- the forms, byte by byte

  /** The characters section 2.3 of RFC 3986 leaves as they are. */
  predicate LeftAlone(c: char) {
    'A' <= c <= 'Z' || 'a' <= c <= 'z' || '0' <= c <= '9' || c in "-._~"
  }

  /** Every other byte becomes a percent sign and two upper-case hexadecimal digits. */
  lemma EncodedByteExactly(c: byte, keepSlash: bool)
    ensures EncodedByte(c, keepSlash) ==
      if LeftAlone(c as char) || (keepSlash && c as char == '/') then [c]
      else ['%' as byte, "0123456789ABCDEF"[c / 16] as byte, "0123456789ABCDEF"[c % 16] as byte]
  {
  }

  /** The value of a hexadecimal digit, in either case. */
  function HexMeaning(c: char): Option<int> {
    if '0' <= c <= '9' then Some(c as int - '0' as int)
    else if 'A' <= c <= 'F' then Some(c as int - 'A' as int + 10)
    else if 'a' <= c <= 'f' then Some(c as int - 'a' as int + 10)
    else None
  }

  lemma HexValueExactly(c: byte)
    ensures if HexValue(c) < 16 then HexMeaning(c as char) == Some(HexValue(c) as int) else HexMeaning(c as char) == None
  {
  }

  lemma PlusToSpaceFrom(s: Str, k: nat)
    requires k <= |s|
    ensures PlusToSpace(s)[k..] == PlusToSpace(s[k..])
    ensures k < |s| ==> PlusToSpace(s)[k] == if s[k] == PLUS then SPACE else s[k]
  {
    if k > 0 {
      PlusToSpaceFrom(s[1..], k - 1);
      assert s[1..][k - 1..] == s[k..];
    }
  }

  /** How decoding reads on: a plus sign is a space, a percent sign with two hexadecimal digits is their byte,
      and anything else stands for itself. */
  lemma DecodedExactly(s: Str)
    requires s != []
    ensures Decoded(s) ==
      if s[0] as char == '+' then [' ' as byte] + Decoded(s[1..])
      else if s[0] as char == '%' && |s| > 2 && HexMeaning(s[1] as char).Some? && HexMeaning(s[2] as char).Some?
      then [(16 * HexMeaning(s[1] as char).value + HexMeaning(s[2] as char).value) as byte] + Decoded(s[3..])
      else [s[0]] + Decoded(s[1..])
  {
    PlusToSpaceFrom(s, 0);
    PlusToSpaceFrom(s, 1);
    if |s| > 2 {
      PlusToSpaceFrom(s, 2);
      PlusToSpaceFrom(s, 3);
      HexValueExactly(s[1]);
      HexValueExactly(s[2]);
    }
  }

  /** One piece of a query string: a name, and a value if there is an equals sign. */
  function PieceText(k: Str, v: Option<Str>): Str { k + if v.Some? then ['=' as byte] + v.value else [] }

  function QueryText(pieces: seq<Str>): Str {
    if pieces == [] then [] else if |pieces| == 1 then pieces[0] else pieces[0] + ['&' as byte] + QueryText(pieces[1..])
  }

  /** A query is the pieces between its ampersands. */
  lemma {:induction false} QueryIsJoined(pieces: seq<Str>)
    ensures Join(pieces, AMPERSAND) == QueryText(pieces)
  {
    if |pieces| > 1 { QueryIsJoined(pieces[1..]); }
  }

  lemma QueryPieces(pieces: seq<Str>)
    requires pieces != [] && forall i :: 0 <= i < |pieces| ==> '&' as byte !in pieces[i]
    ensures Params(QueryText(pieces)) == ParamsOf(pieces)
  {
    QueryIsJoined(pieces);
    JoinSplit(pieces, AMPERSAND);
  }

  /** A piece stands for its decoded name and value, the value empty if there is no equals sign. */
  lemma PieceExactly(k: Str, v: Option<Str>)
    requires '=' as byte !in k
    ensures ParamOf(PieceText(k, v)) == Param(Decoded(k), if v.Some? then Decoded(v.value) else [])
  {
    if v.Some? {
      CutPart(k, v.value, PieceText(k, v));
    } else {
      assert PieceText(k, v) == k;
      IndexByteFirst(k, EQUALS);
    }
  }

  /** The canonical form spells the sorted parameters, name and value encoded without exception for slashes. */
  lemma CanonicalExactly(query: Str) returns (ps: seq<Param>)
    ensures InOrder(ps) && multiset(ps) == multiset(Params(query))
    ensures Canonical(query) == QueryText(seq(|ps|, i requires 0 <= i < |ps| => Encoded(ps[i].k, false) + ['=' as byte] + Encoded(ps[i].v, false)))
  {
    ps := Sorted(Params(query));
    SortedSorts(Params(query));
    QueryIsJoined(Parts(ps));
    assert Parts(ps) == seq(|ps|, i requires 0 <= i < |ps| => Encoded(ps[i].k, false) + ['=' as byte] + Encoded(ps[i].v, false));
  }
}
