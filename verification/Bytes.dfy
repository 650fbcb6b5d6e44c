/** Byte strings, and the few operations of Go's `strings` package the model relies on.
    A Go string is a sequence of bytes; `Str` is exactly that, with no encoding attached. */
module Bytes {

  newtype byte = x: int | 0 <= x < 256

  type Str = seq<byte>

  datatype Option<+T> = None | Some(value: T)

  /** The bytes of an ASCII literal. */
  function Ascii(s: string): (r: Str)
    requires forall i :: 0 <= i < |s| ==> s[i] as int < 256
    ensures |r| == |s|
    ensures forall i :: 0 <= i < |s| ==> r[i] as int == s[i] as int
  {
    seq(|s|, i requires 0 <= i < |s| => s[i] as byte)
  }

  /** Index of the first `c` in `s` at or after `from`, or -1. */
  function IndexFrom(s: Str, c: byte, from: nat): (i: int)
    requires from <= |s|
    ensures i == -1 || (from <= i < |s| && s[i] == c)
    decreases |s| - from
  {
    if from == |s| then -1 else if s[from] == c then from else IndexFrom(s, c, from + 1)
  }

  /** strings.IndexByte: the first `c` in `s`, or -1. */
  function IndexByte(s: Str, c: byte): (i: int)
    ensures -1 <= i < |s|
    ensures i >= 0 ==> s[i] == c
  {
    IndexFrom(s, c, 0)
  }

  lemma {:induction false} NoneBefore(s: Str, c: byte, from: nat)
    requires from <= |s|
    ensures var i := IndexFrom(s, c, from);
      forall k :: from <= k < (if i < 0 then |s| else i) ==> s[k] != c
    decreases |s| - from
  {
    if from < |s| && s[from] != c { NoneBefore(s, c, from + 1); }
  }

  /** Nothing before the first occurrence, and nothing at all where there is none. */
  lemma IndexByteFirst(s: Str, c: byte)
    ensures var i := IndexByte(s, c);
      if i < 0 then c !in s else c !in s[..i]
  {
    NoneBefore(s, c, 0);
  }

  /** The first occurrence is the only index that has `c` there and no `c` before. */
  lemma IndexByteUnique(s: Str, c: byte, i: nat)
    requires i < |s| && s[i] == c && c !in s[..i]
    ensures IndexByte(s, c) == i
  {
    NoneBefore(s, c, 0);
    assert forall j :: 0 <= j < i ==> s[..i][j] == s[j];
  }

  /** The decimal digits of a number. */
  function Decimal(n: nat): Str {
    if n < 10 then [48 + n as byte] else Decimal(n / 10) + [48 + (n % 10) as byte]
  }

  predicate HasPrefix(s: Str, prefix: Str) {
    |prefix| <= |s| && s[..|prefix|] == prefix
  }

  function TrimPrefix(s: Str, prefix: Str): Str {
    if HasPrefix(s, prefix) then s[|prefix|..] else s
  }

  /** strings.Split with a one-byte separator. */
  function Split(s: Str, sep: byte): (r: seq<Str>)
    ensures |r| >= 1
    decreases |s|
  {
    var i := IndexByte(s, sep);
    if i < 0 then [s] else [s[..i]] + Split(s[i + 1..], sep)
  }

  /** The first piece ends at the first separator. */
  lemma SplitFirst(s: Str, sep: byte, i: nat)
    requires i < |s| && IndexByte(s, sep) == i
    ensures Split(s, sep) == [s[..i]] + Split(s[i + 1..], sep)
  {
  }

  /** strings.Join with a one-byte separator. */
  function Join(parts: seq<Str>, sep: byte): Str {
    if parts == [] then []
    else if |parts| == 1 then parts[0]
    else parts[0] + [sep] + Join(parts[1..], sep)
  }

  predicate Free(parts: seq<Str>, sep: byte) {
    forall i :: 0 <= i < |parts| ==> sep !in parts[i]
  }

  /** Join undoes Split, and no piece contains the separator. */
  lemma {:induction false} SplitJoin(s: Str, sep: byte)
    ensures Join(Split(s, sep), sep) == s
    ensures Free(Split(s, sep), sep)
    decreases |s|
  {
    var i := IndexByte(s, sep);
    IndexByteFirst(s, sep);
    if i >= 0 {
      var rest := Split(s[i + 1..], sep);
      SplitJoin(s[i + 1..], sep);
      assert ([s[..i]] + rest)[1..] == rest;
      assert s == s[..i] + [sep] + s[i + 1..];
    }
  }

  /** Split undoes Join on pieces free of the separator, so the pieces are unique. */
  lemma {:induction false} JoinSplit(parts: seq<Str>, sep: byte)
    requires |parts| >= 1 && Free(parts, sep)
    ensures Split(Join(parts, sep), sep) == parts
  {
    var s := Join(parts, sep);
    if |parts| == 1 {
      assert parts[0] == s && parts == [s];
      assert IndexByte(s, sep) < 0;
    } else {
      var i := |parts[0]|;
      assert s[..i] == parts[0] && s[i] == sep;
      IndexByteUnique(s, sep, i);
      assert s[i + 1..] == Join(parts[1..], sep);
      JoinSplit(parts[1..], sep);
      SplitFirst(s, sep, i);
      assert parts == [parts[0]] + parts[1..];
    }
  }

  /** How often `c` occurs. */
  function Count(s: Str, c: byte): nat {
    multiset(s)[c]
  }

  /** A split has one piece more than the text has separators. */
  lemma {:induction false} SplitCount(s: Str, sep: byte)
    ensures |Split(s, sep)| == Count(s, sep) + 1
    decreases |s|
  {
    var i := IndexByte(s, sep);
    IndexByteFirst(s, sep);
    if i >= 0 {
      SplitCount(s[i + 1..], sep);
      assert s == s[..i] + [sep] + s[i + 1..];
      assert multiset(s[..i])[sep] == 0;
    } else {
      assert multiset(s)[sep] == 0;
    }
  }

  /** strings.Compare: byte order, a proper prefix first. */
  function CompareBytes(a: Str, b: Str): (c: int)
    ensures c in {-1, 0, 1}
  {
    if a == [] then (if b == [] then 0 else -1)
    else if b == [] then 1
    else if a[0] != b[0] then (if a[0] < b[0] then -1 else 1)
    else CompareBytes(a[1..], b[1..])
  }

  /** Byte order is a total order: antisymmetric, and zero only on equal strings. */
  lemma {:induction false} CompareBytesOrder(a: Str, b: Str)
    ensures CompareBytes(b, a) == -CompareBytes(a, b)
    ensures CompareBytes(a, b) == 0 <==> a == b
  {
    if a != [] && b != [] && a[0] == b[0] {
      CompareBytesOrder(a[1..], b[1..]);
      assert a == [a[0]] + a[1..] && b == [b[0]] + b[1..];
    }
  }

  lemma {:induction false} CompareBytesTransitive(a: Str, b: Str, c: Str)
    requires CompareBytes(a, b) <= 0 && CompareBytes(b, c) <= 0
    ensures CompareBytes(a, c) <= 0
    ensures CompareBytes(a, b) < 0 || CompareBytes(b, c) < 0 ==> CompareBytes(a, c) < 0
  {
    if a != [] && b != [] && c != [] && a[0] == b[0] == c[0] {
      CompareBytesTransitive(a[1..], b[1..], c[1..]);
    }
  }

  /** What byte order means: after the longest common start, one text ends or has the smaller byte. */
  lemma {:induction false} CompareBytesExactly(a: Str, b: Str)
    ensures CompareBytes(a, b) < 0 <==> exists k :: SplitsBelow(a, b, k)
  {
    if a != [] && b != [] && a[0] == b[0] {
      CompareBytesExactly(a[1..], b[1..]);
      if k :| SplitsBelow(a[1..], b[1..], k) {
        assert a == [a[0]] + a[1..] && b == [b[0]] + b[1..];
        assert SplitsBelow(a, b, k + 1) by { assert a[..k + 1] == [a[0]] + a[1..][..k] && b[..k + 1] == [b[0]] + b[1..][..k]; }
      }
      if k :| SplitsBelow(a, b, k) {
        assert k > 0;
        assert a[1..][..k - 1] == a[..k][1..] && b[1..][..k - 1] == b[..k][1..];
        assert SplitsBelow(a[1..], b[1..], k - 1);
      }
    } else if CompareBytes(a, b) < 0 {
      assert SplitsBelow(a, b, 0);
    } else if k :| SplitsBelow(a, b, k) {
      if k > 0 { SplitsHead(a, b, k); }
    }
  }

  lemma SplitsHead(a: Str, b: Str, k: nat)
    requires SplitsBelow(a, b, k) && k > 0
    ensures a != [] && b != [] && a[0] == b[0]
  {
    assert a[..k][0] == a[0] && b[..k][0] == b[0];
  }

  /** a and b agree on k bytes, and then a ends and b does not, or a has the smaller byte. */
  predicate SplitsBelow(a: Str, b: Str, k: int) {
    0 <= k <= |a| && k < |b| && a[..k] == b[..k] && (k == |a| || a[k] < b[k])
  }
}
