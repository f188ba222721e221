/** The string operations the modelled code takes from Go's strings, strconv and
    fmt packages, on sequences of characters, with the round trips the code
    relies on. */
module Text {
  import opened Int64

  datatype Option<+T> = None | Some(value: T)

  // -----------------------------------------------------------------------
  // Decimal numbers
  // -----------------------------------------------------------------------

  predicate IsDigit(c: char) {
    '0' <= c <= '9'
  }

  predicate AllDigits(s: string) {
    forall i :: 0 <= i < |s| ==> IsDigit(s[i])
  }

  function Digit(n: nat): (c: char)
    requires n < 10
    ensures IsDigit(c) && DigitValue(c) == n
  {
    n as char + '0'
  }

  function DigitValue(c: char): (n: nat)
    requires IsDigit(c)
    ensures n < 10
  {
    (c as int) - ('0' as int)
  }

  // strconv.Itoa of a natural number.
  function Itoa(n: nat): (s: string)
    ensures s != [] && AllDigits(s)
  {
    if n < 10 then [Digit(n)] else Itoa(n / 10) + [Digit(n % 10)]
  }

  function DigitsValue(s: string): nat
    requires AllDigits(s)
  {
    if s == [] then 0 else DigitsValue(s[..|s| - 1]) * 10 + DigitValue(s[|s| - 1])
  }

  // strconv.ParseInt(s, 10, 64) and, on a 64-bit platform, strconv.Atoi.
  function ParseInt(s: string): (r: Option<int>)
    ensures r.Some? ==> -MAX_INT64 - 1 <= r.value <= MAX_INT64
  {
    var negative := s != [] && s[0] == '-';
    var digits := if s != [] && (s[0] == '-' || s[0] == '+') then s[1..] else s;
    if digits == [] || !AllDigits(digits) then None
    else
      var n: int := DigitsValue(digits);
      if negative then (if n <= MAX_INT64 + 1 then Some(-n) else None)
      else if n <= MAX_INT64 then Some(n)
      else None
  }

  lemma {:induction false} ItoaValue(n: nat)
    ensures DigitsValue(Itoa(n)) == n
  {
    if n >= 10 {
      var s := Itoa(n);
      assert s[..|s| - 1] == Itoa(n / 10);
      ItoaValue(n / 10);
    }
  }

  lemma ParseItoa(n: nat)
    requires n <= MAX_INT64
    ensures ParseInt(Itoa(n)) == Some(n)
  {
    ItoaValue(n);
    assert IsDigit(Itoa(n)[0]);
  }

  lemma ItoaInjective(m: nat, n: nat)
    requires Itoa(m) == Itoa(n)
    ensures m == n
  {
    ItoaValue(m);
    ItoaValue(n);
  }

  // -----------------------------------------------------------------------
  // Trimming, cutting, splitting and joining
  // -----------------------------------------------------------------------

  // unicode.IsSpace.
  predicate IsSpace(c: char) {
    || c in {' ', '\t', '\n', '\r', '\U{000B}', '\U{000C}', '\U{0085}', '\U{00A0}'}
    || c in {'\U{1680}', '\U{2028}', '\U{2029}', '\U{202F}', '\U{205F}', '\U{3000}'}
    || '\U{2000}' <= c <= '\U{200A}'
  }

  function TrimLeft(s: string): (t: string)
    ensures |t| <= |s|
  {
    if s != [] && IsSpace(s[0]) then TrimLeft(s[1..]) else s
  }

  function TrimRight(s: string): (t: string)
    ensures |t| <= |s|
  {
    if s != [] && IsSpace(s[|s| - 1]) then TrimRight(s[..|s| - 1]) else s
  }

  function TrimSpace(s: string): string {
    TrimRight(TrimLeft(s))
  }

  lemma TrimSpaceKeeps(s: string)
    requires s != [] && !IsSpace(s[0]) && !IsSpace(s[|s| - 1])
    ensures TrimSpace(s) == s
  {
  }

  ghost predicate NoOuterSpace(s: string) {
    s == [] || (!IsSpace(s[0]) && !IsSpace(s[|s| - 1]))
  }

  // Nothing but white space before i and from j on.
  ghost predicate Padded(s: string, i: nat, j: nat) {
    i <= j <= |s| && forall k :: 0 <= k < i || j <= k < |s| ==> IsSpace(s[k])
  }

  lemma {:induction false} TrimLeftOf(s: string) returns (i: nat)
    ensures i <= |s| && TrimLeft(s) == s[i..] && (i < |s| ==> !IsSpace(s[i]))
    ensures forall k :: 0 <= k < i ==> IsSpace(s[k])
  {
    i := 0;
    if s != [] && IsSpace(s[0]) {
      var k := TrimLeftOf(s[1..]);
      i := k + 1;
      assert s[1..][k..] == s[i..];
      assert forall n :: 1 <= n < i ==> s[n] == s[1..][n - 1];
    }
  }

  lemma {:induction false} TrimRightOf(s: string) returns (j: nat)
    ensures j <= |s| && TrimRight(s) == s[..j] && (j > 0 ==> !IsSpace(s[j - 1]))
    ensures forall k :: j <= k < |s| ==> IsSpace(s[k])
  {
    j := |s|;
    if s != [] && IsSpace(s[|s| - 1]) {
      var n := |s| - 1;
      j := TrimRightOf(s[..n]);
      assert s[..n][..j] == s[..j];
      assert forall k :: j <= k < n ==> s[k] == s[..n][k];
    }
  }

  /** Trimming takes away white space on both sides and leaves none there. */
  lemma {:induction false} TrimmedPart(s: string) returns (i: nat, j: nat)
    ensures Padded(s, i, j) && TrimSpace(s) == s[i..j] && NoOuterSpace(TrimSpace(s))
  {
    i := TrimLeftOf(s);
    var k := TrimRightOf(s[i..]);
    j := i + k;
    assert s[i..][..k] == s[i..j];
    assert forall n :: j <= n < |s| ==> s[n] == s[i..][n - i];
  }

  /** What is left is the only such part, unless it is empty. */
  lemma {:induction false} TrimmedIs(s: string, i: nat, j: nat)
    requires Padded(s, i, j) && i < j && NoOuterSpace(s[i..j])
    ensures TrimSpace(s) == s[i..j]
  {
    var i', j' := TrimmedPart(s);
    assert !IsSpace(s[i]) && !IsSpace(s[j - 1]) by {
      assert s[i..j][0] == s[i] && s[i..j][j - i - 1] == s[j - 1];
    }
    assert i' <= i < j <= j';
    assert s[i'] == TrimSpace(s)[0] && s[j' - 1] == TrimSpace(s)[j' - i' - 1];
  }

  // The first position of c in s, or the length of s.
  function IndexOf(s: string, c: char): (i: nat)
    ensures i <= |s|
    ensures i < |s| ==> s[i] == c
    ensures forall k :: 0 <= k < i ==> s[k] != c
  {
    if s == [] || s[0] == c then 0 else 1 + IndexOf(s[1..], c)
  }

  lemma {:induction false} IndexOfPrefix(s: string, c: char, t: string)
    requires c !in s
    ensures IndexOf(s + [c] + t, c) == |s|
    ensures IndexOf(s, c) == |s|
  {
    var all := s + [c] + t;
    assert all[|s|] == c;
    assert forall i :: 0 <= i < |s| ==> all[i] == s[i] && s[i] in s;
  }

  // strings.Cut around the first occurrence of a character.
  datatype CutResult = NoCut | CutAt(before: string, after: string)

  function Cut(s: string, c: char): CutResult {
    var i := IndexOf(s, c);
    if i == |s| then NoCut else CutAt(s[..i], s[i + 1..])
  }

  lemma CutJoined(s: string, c: char, t: string)
    requires c !in s
    ensures Cut(s + [c] + t, c) == CutAt(s, t)
  {
    IndexOfPrefix(s, c, t);
    assert (s + [c] + t)[..|s|] == s;
    assert (s + [c] + t)[|s| + 1..] == t;
  }

  // strings.Split on a one-character separator.
  function Split(s: string, c: char): (parts: seq<string>)
    ensures parts != []
    decreases |s|
  {
    var i := IndexOf(s, c);
    if i == |s| then [s] else [s[..i]] + Split(s[i + 1..], c)
  }

  // strings.Join with a one-character separator.
  function Join(parts: seq<string>, c: char): string {
    if parts == [] then []
    else if |parts| == 1 then parts[0]
    else parts[0] + [c] + Join(parts[1..], c)
  }

  ghost predicate NoneContains(parts: seq<string>, c: char) {
    forall i :: 0 <= i < |parts| ==> c !in parts[i]
  }

  lemma {:induction false} SplitJoin(parts: seq<string>, c: char)
    requires parts != [] && NoneContains(parts, c)
    ensures Split(Join(parts, c), c) == parts
  {
    if |parts| == 1 {
      IndexOfPrefix(parts[0], c, []);
    } else {
      var rest := Join(parts[1..], c);
      IndexOfPrefix(parts[0], c, rest);
      var all := parts[0] + [c] + rest;
      assert all[..|parts[0]|] == parts[0];
      assert all[|parts[0]| + 1..] == rest;
      SplitJoin(parts[1..], c);
    }
  }

  // Splitting at a character the parts lack loses nothing, so two such lists
  // with one joined text are equal.
  lemma JoinInjective(a: seq<string>, b: seq<string>, c: char)
    requires a != [] && b != [] && NoneContains(a, c) && NoneContains(b, c)
    requires Join(a, c) == Join(b, c)
    ensures a == b
  {
    SplitJoin(a, c);
    SplitJoin(b, c);
  }

  // strings.ReplaceAll of one character by another.
  function ReplaceAll(s: string, from: char, to: char): (t: string)
    ensures |t| == |s|
    ensures forall i :: 0 <= i < |s| ==> t[i] == if s[i] == from then to else s[i]
  {
    if s == [] then []
    else [if s[0] == from then to else s[0]] + ReplaceAll(s[1..], from, to)
  }
}
