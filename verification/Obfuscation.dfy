/** AmneziaWG obfuscation parameters, internal/amneziawg/params.go: the random
    generator and the validator that guards what an administrator enters.

    Random draws are a parameter: draw(k) is the k-th raw value, None when the
    random source fails. Base64 is a parameter too. */
module Obfuscation {
  import opened Int64
  import opened Text

  const MAX_UINT16 := 0xFFFF
  const MAX_UINT32 := 0xFFFF_FFFF
  const H_MAX := 0x7FFF_FFFF

  datatype Obfuscation31 = Obfuscation31(
    jc: int, jmin: int, jmax: int,
    s1: int, s2: int, s3: int, s4: int,
    h1: string, h2: string, h3: string, h4: string,
    i1: string, i2: string, i3: string, i4: string, i5: string,
    headerProtectionKey: string,
    contentPaddingAddition: string,
    rekeyAfterTime: string,
    rekeyTimeout: string,
    rejectAfterTime: string,
    keepaliveTimeout: string,
    maxHandshakeAttempts: string,
    randomTrailers: bool,
    disableCookies: bool)

  // base64.StdEncoding.
  datatype Base64 = Base64(encode: seq<byte> -> string, decode: string -> Option<seq<byte>>)

  // What the generator relies on: encoded text is printable, only the empty
  // key encodes to nothing, and decoding undoes encoding.
  ghost predicate Faithful(base64: Base64) {
    forall key: seq<byte> :: key != [] ==>
      var text := base64.encode(key);
      text != "" && !HasControl(text) && base64.decode(text) == Some(key)
  }

  // -----------------------------------------------------------------------
  // Numbers and ranges as text
  // -----------------------------------------------------------------------

  predicate HasControl(v: string) {
    exists i :: 0 <= i < |v| && (v[i] < ' ' || v[i] == '\U{007F}')
  }

  datatype Range = Range(lo: int, hi: int)

  function ParseUintRange(v: string): Option<Range> {
    var t := TrimSpace(v);
    if t == "" then None
    else match Cut(t, '-')
      case CutAt(loS, hiS) =>
        var l, h := ParseInt(TrimSpace(loS)), ParseInt(TrimSpace(hiS));
        if l.None? || h.None? then None else Some(Range(l.value, h.value))
      case NoCut =>
        var n := ParseInt(t);
        if n.None? then None else Some(Range(n.value, n.value))
  }

  // validateUintRange: blank, or within the bounds.
  predicate ValidUintRange(v: string, minAllowed: int) {
    || TrimSpace(v) == ""
    || (!HasControl(v) &&
        var r := ParseUintRange(v);
        r.Some? && minAllowed <= r.value.lo <= r.value.hi <= MAX_UINT32)
  }

  function RangeText(lo: nat, hi: nat): string {
    Itoa(lo) + "-" + Itoa(hi)
  }

  lemma {:induction false} DigitsArePlain(s: string)
    requires s != [] && AllDigits(s)
    ensures TrimSpace(s) == s && '-' !in s && !HasControl(s)
  {
    assert IsDigit(s[0]) && IsDigit(s[|s| - 1]);
    TrimSpaceKeeps(s);
  }

  lemma {:induction false} RangeTrims(lo: nat, hi: nat)
    ensures TrimSpace(RangeText(lo, hi)) == RangeText(lo, hi) && RangeText(lo, hi) != ""
  {
    var a, b, v := Itoa(lo), Itoa(hi), RangeText(lo, hi);
    assert v[0] == a[0] && IsDigit(a[0]);
    assert v[|v| - 1] == b[|b| - 1] && IsDigit(b[|b| - 1]);
    TrimSpaceKeeps(v);
  }

  lemma {:induction false} RangeHasNoControl(lo: nat, hi: nat)
    ensures !HasControl(RangeText(lo, hi))
  {
    var a, b, v := Itoa(lo), Itoa(hi), RangeText(lo, hi);
    forall i | 0 <= i < |v|
      ensures v[i] == '-' || IsDigit(v[i])
    {
      assert v[i] == if i < |a| then a[i] else if i == |a| then '-' else b[i - |a| - 1];
    }
  }

  lemma {:induction false} RangeIsPlain(lo: nat, hi: nat)
    ensures var v := RangeText(lo, hi);
      TrimSpace(v) == v && v != "" && !HasControl(v) && Cut(v, '-') == CutAt(Itoa(lo), Itoa(hi))
  {
    RangeTrims(lo, hi);
    RangeHasNoControl(lo, hi);
    DigitsArePlain(Itoa(lo));
    CutJoined(Itoa(lo), '-', Itoa(hi));
  }

  /** Printing a range and parsing it back gives the range. */
  lemma {:induction false} RangeRoundTrip(lo: nat, hi: nat)
    requires lo <= MAX_INT64 && hi <= MAX_INT64
    ensures ParseUintRange(RangeText(lo, hi)) == Some(Range(lo, hi))
  {
    RangeIsPlain(lo, hi);
    DigitsArePlain(Itoa(lo));
    DigitsArePlain(Itoa(hi));
    ParseItoa(lo);
    ParseItoa(hi);
  }

  /** Printing a number and parsing it back gives the one-value range. */
  lemma {:induction false} NumberRoundTrip(n: nat)
    requires n <= MAX_INT64
    ensures ParseUintRange(Itoa(n)) == Some(Range(n, n))
  {
    DigitsArePlain(Itoa(n));
    IndexOfPrefix(Itoa(n), '-', []);
    ParseItoa(n);
  }

  lemma {:induction false} RangeIsValid(lo: nat, hi: nat, minAllowed: int)
    requires minAllowed <= lo <= hi <= MAX_UINT32
    ensures ValidUintRange(RangeText(lo, hi), minAllowed)
  {
    RangeIsPlain(lo, hi);
    RangeRoundTrip(lo, hi);
  }

  lemma {:induction false} NumberIsValid(n: nat, minAllowed: int)
    requires minAllowed <= n <= MAX_UINT32
    ensures ValidUintRange(Itoa(n), minAllowed)
  {
    DigitsArePlain(Itoa(n));
    NumberRoundTrip(n);
  }

  // -----------------------------------------------------------------------
  // Signature-packet chains
  // -----------------------------------------------------------------------

  predicate KnownTag(tag: string) {
    tag in ["b", "t", "r", "rc", "rd", "d", "ds", "dz"]
  }

  // The first of strings.Fields(s), empty when there is none.
  function FirstField(s: string): string {
    var t := TrimLeft(s);
    t[..WordLength(t)]
  }

  function WordLength(s: string): (n: nat)
    ensures n <= |s|
    ensures forall i :: 0 <= i < n ==> !IsSpace(s[i])
    ensures n < |s| ==> IsSpace(s[n])
  {
    if s == [] || IsSpace(s[0]) then 0 else 1 + WordLength(s[1..])
  }

  predicate ValidTag(body: string) {
    KnownTag(FirstField(body))
  }

  // The first position of c in s from i on, or the length of s.
  function IndexFrom(s: string, c: char, i: nat): (k: nat)
    requires i <= |s|
    ensures i <= k <= |s|
    ensures k < |s| ==> s[k] == c
    ensures forall m :: i <= m < k ==> s[m] != c
    decreases |s| - i
  {
    if i == |s| || s[i] == c then i else IndexFrom(s, c, i + 1)
  }

  // From position i on, every '<' met outside a tag opens one that is closed
  // and whose body is acceptable; text between tags is free.
  predicate Chain(text: string, i: nat, acceptable: string -> bool)
    requires i <= |text|
    decreases |text| - i
  {
    var start := IndexFrom(text, '<', i);
    start == |text| ||
    (var end := IndexFrom(text, '>', start);
     end < |text| &&
     acceptable(text[start + 1..end]) &&
     Chain(text, end + 1, acceptable))
  }

  predicate ValidChain(text: string) {
    Chain(text, 0, ValidTag)
  }

  lemma {:induction false} BlankIsValidChain(spec: string)
    requires TrimSpace(spec) == ""
    ensures ValidChain(spec)
  {
    BlankIsSpaces(spec);
  }

  lemma {:induction false} TrimRightBlank(s: string)
    requires TrimRight(s) == ""
    ensures forall i :: 0 <= i < |s| ==> IsSpace(s[i])
  {
    if s != [] {
      TrimRightBlank(s[..|s| - 1]);
    }
  }

  lemma {:induction false} BlankIsSpaces(s: string)
    requires TrimSpace(s) == ""
    ensures forall i :: 0 <= i < |s| ==> IsSpace(s[i])
  {
    if s != [] && IsSpace(s[0]) {
      BlankIsSpaces(s[1..]);
      assert forall i :: 1 <= i < |s| ==> s[i] == s[1..][i - 1];
    } else {
      TrimRightBlank(s);
    }
  }

  datatype ChainFault = Unclosed | EmptyTag | UnknownTag

  datatype Scan = Fine | NoClose | Rejected(body: string)

  // The loop; the remainder still to be read is spec from position i on.
  method ScanChain(spec: string, acceptable: string -> bool) returns (scan: Scan)
    ensures scan.Fine? <==> Chain(spec, 0, acceptable)
    ensures scan.Rejected? ==> !acceptable(scan.body)
  {
    var i := 0;
    while true
      invariant i <= |spec|
      invariant Chain(spec, 0, acceptable) <==> Chain(spec, i, acceptable)
      decreases |spec| - i
    {
      var start := IndexFrom(spec, '<', i);
      if start == |spec| {
        return Fine;
      }
      var end := IndexFrom(spec, '>', start);
      if end == |spec| {
        return NoClose;
      }
      if !acceptable(spec[start + 1..end]) {
        return Rejected(spec[start + 1..end]);
      }
      i := end + 1;
    }
  }

  method ValidateObfChain(spec: string) returns (fault: Option<ChainFault>)
    ensures fault.None? <==> ValidChain(spec)
  {
    if TrimSpace(spec) == "" {
      BlankIsValidChain(spec);
      return None;
    }
    var scan := ScanChain(spec, ValidTag);
    match scan
    case Fine => return None;
    case NoClose => return Some(Unclosed);
    case Rejected(body) => return Some(if FirstField(body) == "" then EmptyTag else UnknownTag);
  }

  // -----------------------------------------------------------------------
  // The validator
  // -----------------------------------------------------------------------

  datatype Fault =
    | JminAboveJmax
    | OutOfBounds(field: string)
    | BadChain(slot: nat)
    | SameHandshakeSize
    | BadH(index: nat)
    | BadHeaderProtectionKey
    | PaddingTooShort(index: nat)
    | BadContentPadding
    | BadTiming(field: string)
    | RekeyNotBelowReject

  predicate ValidKey(v: string, base64: Base64) {
    v == "" ||
    (!HasControl(v) && var key := base64.decode(v); key.Some? && |key.value| == 32)
  }

  // The rekey/reject comparison as written: a field that is not the empty
  // string is parsed, and what does not parse counts as 0.
  predicate RekeyBelowReject(rekey: string, reject: string) {
    (rekey == "" && reject == "") ||
    var rekeyHi := if rekey == "" then 120 else var r := ParseUintRange(rekey); if r.Some? then r.value.hi else 0;
    var rejectLo := if reject == "" then 180 else var r := ParseUintRange(reject); if r.Some? then r.value.lo else 0;
    rekeyHi < rejectLo
  }

  // The checks on text that the validator hands out.
  datatype TextChecks = TextChecks(
    chain: string -> bool,
    range: (string, int) -> bool,
    key: string -> bool,
    order: (string, string) -> bool)

  // The first check that fails, in the order they are made.
  function FirstFault(o: Obfuscation31, valid: TextChecks): Option<Fault> {
    if o.jmin > o.jmax then Some(JminAboveJmax)
    else if !(0 <= o.jc <= MAX_UINT32) then Some(OutOfBounds("Jc"))
    else if !(0 <= o.jmin <= MAX_UINT32) then Some(OutOfBounds("Jmin"))
    else if !(0 <= o.jmax <= MAX_UINT32) then Some(OutOfBounds("Jmax"))
    else if !(0 <= o.s1 <= MAX_UINT16) then Some(OutOfBounds("S1"))
    else if !(0 <= o.s2 <= MAX_UINT16) then Some(OutOfBounds("S2"))
    else if !valid.chain(o.i1) then Some(BadChain(1))
    else if !valid.chain(o.i2) then Some(BadChain(2))
    else if !valid.chain(o.i3) then Some(BadChain(3))
    else if !valid.chain(o.i4) then Some(BadChain(4))
    else if !valid.chain(o.i5) then Some(BadChain(5))
    else if !(0 <= o.s3 <= 64) then Some(OutOfBounds("S3"))
    else if !(0 <= o.s4 <= 32) then Some(OutOfBounds("S4"))
    else if o.s1 + 56 == o.s2 then Some(SameHandshakeSize)
    else if !valid.range(o.h1, 0) then Some(BadH(1))
    else if !valid.range(o.h2, 0) then Some(BadH(2))
    else if !valid.range(o.h3, 0) then Some(BadH(3))
    else if !valid.range(o.h4, 0) then Some(BadH(4))
    else if !valid.key(o.headerProtectionKey) then Some(BadHeaderProtectionKey)
    else if o.headerProtectionKey != "" && o.s1 < 12 then Some(PaddingTooShort(1))
    else if o.headerProtectionKey != "" && o.s2 < 12 then Some(PaddingTooShort(2))
    else if o.headerProtectionKey != "" && o.s3 < 12 then Some(PaddingTooShort(3))
    else if o.headerProtectionKey != "" && o.s4 < 12 then Some(PaddingTooShort(4))
    else if !valid.range(o.contentPaddingAddition, 0) then Some(BadContentPadding)
    else if !valid.range(o.rekeyAfterTime, 1) then Some(BadTiming("rekeyAfterTime"))
    else if !valid.range(o.rekeyTimeout, 1) then Some(BadTiming("rekeyTimeout"))
    else if !valid.range(o.rejectAfterTime, 1) then Some(BadTiming("rejectAfterTime"))
    else if !valid.range(o.keepaliveTimeout, 1) then Some(BadTiming("keepaliveTimeout"))
    else if !valid.range(o.maxHandshakeAttempts, 1) then Some(BadTiming("maxHandshakeAttempts"))
    else if !valid.order(o.rekeyAfterTime, o.rejectAfterTime) then Some(RekeyNotBelowReject)
    else None
  }

  // FirstFault finds none exactly when every check passes.
  lemma AcceptedWhen(o: Obfuscation31, valid: TextChecks)
    ensures FirstFault(o, valid).None? <==>
      && o.jmin <= o.jmax && 0 <= o.jc <= MAX_UINT32 && 0 <= o.jmin && o.jmax <= MAX_UINT32
      && 0 <= o.s1 <= MAX_UINT16 && 0 <= o.s2 <= MAX_UINT16 && 0 <= o.s3 <= 64 && 0 <= o.s4 <= 32
      && o.s1 + 56 != o.s2
      && valid.chain(o.i1) && valid.chain(o.i2) && valid.chain(o.i3) && valid.chain(o.i4) && valid.chain(o.i5)
      && valid.range(o.h1, 0) && valid.range(o.h2, 0) && valid.range(o.h3, 0) && valid.range(o.h4, 0)
      && valid.key(o.headerProtectionKey)
      && (o.headerProtectionKey != "" ==> o.s1 >= 12 && o.s2 >= 12 && o.s3 >= 12 && o.s4 >= 12)
      && valid.range(o.contentPaddingAddition, 0)
      && valid.range(o.rekeyAfterTime, 1) && valid.range(o.rekeyTimeout, 1)
      && valid.range(o.rejectAfterTime, 1) && valid.range(o.keepaliveTimeout, 1)
      && valid.range(o.maxHandshakeAttempts, 1)
      && valid.order(o.rekeyAfterTime, o.rejectAfterTime)
  {
  }

  function Checks(base64: Base64): TextChecks {
    TextChecks(ValidChain, ValidUintRange, v => ValidKey(v, base64), RekeyBelowReject)
  }

  function ValidateObfuscation(o: Obfuscation31, base64: Base64): Option<Fault> {
    FirstFault(o, Checks(base64))
  }

  // The rule behind the comparison: a blank side stands for WireGuard's own
  // constant. A field of white space is blank to the range check. The
  // comparison, though, asks for the empty string, and the field reaches the
  // device as it is; what the device makes of it is outside this model.
  function LastRekey(rekey: string): int {
    if TrimSpace(rekey) == "" then 120
    else var r := ParseUintRange(rekey); if r.Some? then r.value.hi else 120
  }

  function FirstReject(reject: string): int {
    if TrimSpace(reject) == "" then 180
    else var r := ParseUintRange(reject); if r.Some? then r.value.lo else 180
  }

  // Every rekey time the rule allows precedes every reject time.
  predicate InOrder(o: Obfuscation31) {
    LastRekey(o.rekeyAfterTime) < FirstReject(o.rejectAfterTime)
  }

  // What the comparison takes a field to be: the default, or a time to parse.
  predicate MeansTime(v: string) {
    v == "" || ParseUintRange(v).Some?
  }

  // Not empty, but nothing except white space.
  predicate OnlySpaces(v: string) {
    v != "" && TrimSpace(v) == ""
  }

  /** In accepted parameters the comparison was between two times, except exactly
      when the rekey field holds only white space. They keep the rule, except
      exactly when besides the reject window starts by 120. */
  lemma {:induction false} AcceptedInOrderIff(o: Obfuscation31, base64: Base64)
    requires ValidateObfuscation(o, base64).None?
    ensures MeansTime(o.rekeyAfterTime) && MeansTime(o.rejectAfterTime) <==> !OnlySpaces(o.rekeyAfterTime)
    ensures InOrder(o) <==>
      !(OnlySpaces(o.rekeyAfterTime) && FirstReject(o.rejectAfterTime) <= 120)
  {
    AcceptedWhen(o, Checks(base64));
    OrderedIff(o.rekeyAfterTime, o.rejectAfterTime);
  }

  lemma {:induction false} OrderedIff(rekey: string, reject: string)
    requires ValidUintRange(rekey, 1) && ValidUintRange(reject, 1) && RekeyBelowReject(rekey, reject)
    ensures MeansTime(rekey) && MeansTime(reject) <==> !OnlySpaces(rekey)
    ensures LastRekey(rekey) < FirstReject(reject) <==>
      !(OnlySpaces(rekey) && FirstReject(reject) <= 120)
  {
    assert TrimSpace("") == "";
    assert TrimSpace(rekey) == "" ==> ParseUintRange(rekey).None?;
    assert TrimSpace(reject) == "" ==> ParseUintRange(reject).None?;
  }

  // strings.ReplaceAll(s, " ", "").
  function WithoutSpaces(s: string): string {
    if s == [] then [] else (if s[0] == ' ' then [] else [s[0]]) + WithoutSpaces(s[1..])
  }

  function CanonicalizeUintRange(v: string): string {
    WithoutSpaces(TrimSpace(v))
  }

  lemma {:induction false} TrimRightIsPrefix(s: string)
    ensures TrimRight(s) <= s
  {
    if s != [] && IsSpace(s[|s| - 1]) {
      TrimRightIsPrefix(s[..|s| - 1]);
    }
  }

  lemma {:induction false} TrimLeftHead(s: string)
    ensures TrimLeft(s) == [] || !IsSpace(TrimLeft(s)[0])
  {
    if s != [] && IsSpace(s[0]) {
      TrimLeftHead(s[1..]);
    }
  }

  lemma {:induction false} CanonicalIsNotBlank(v: string)
    ensures CanonicalizeUintRange(v) == "" || TrimSpace(CanonicalizeUintRange(v)) != ""
  {
    TrimLeftHead(v);
    TrimRightIsPrefix(TrimLeft(v));
    var c := CanonicalizeUintRange(v);
    if TrimSpace(c) == "" {
      BlankIsSpaces(c);
    }
  }

  /** Where fields are put in canonical form first, as for an inbound, the
      exception cannot arise. */
  lemma CanonicalInOrder(o: Obfuscation31, base64: Base64, v: string)
    requires o.rekeyAfterTime == CanonicalizeUintRange(v)
    requires ValidateObfuscation(o, base64).None?
    ensures InOrder(o) && MeansTime(o.rekeyAfterTime) && MeansTime(o.rejectAfterTime)
  {
    CanonicalIsNotBlank(v);
    AcceptedInOrderIff(o, base64);
  }

  // -----------------------------------------------------------------------
  // The generator
  // -----------------------------------------------------------------------

  // randInt: a draw within [lo, hi], or lo when the random source fails.
  function RandInt(lo: int, hi: int, raw: Option<nat>): (n: int)
    ensures lo <= hi ==> lo <= n <= hi
  {
    if hi <= lo || raw.None? then lo else lo + raw.value % (hi - lo + 1)
  }

  const BAND_SIZE: nat := (H_MAX - 5 + 1) / 4

  function BandLo(i: nat): nat {
    5 + i * BAND_SIZE
  }

  method DrawBand(raw: Option<nat>, i: nat) returns (n: nat)
    ensures BandLo(i) <= n < BandLo(i + 1)
  {
    n := RandInt(BandLo(i), BandLo(i) + BAND_SIZE - 1, raw);
  }

  // The text of a number from band i.
  ghost predicate InBand(text: string, i: nat) {
    exists n: nat :: BandLo(i) <= n < BandLo(i + 1) && text == Itoa(n)
  }

  method GenerateHValues(draw: nat -> Option<nat>, first: nat) returns (h: seq<string>)
    ensures |h| == 4 && forall i :: 0 <= i < 4 ==> InBand(h[i], i)
  {
    h := [];
    for i := 0 to 4
      invariant |h| == i
      invariant forall k :: 0 <= k < i ==> InBand(h[k], k)
    {
      var n := DrawBand(draw(first + i), i);
      h := h + [Itoa(n)];
    }
  }

  // The numbers behind the texts.
  lemma BandNumbers(h: seq<string>) returns (values: seq<nat>)
    requires |h| == 4 && forall i :: 0 <= i < 4 ==> InBand(h[i], i)
    ensures |values| == 4
    ensures forall i :: 0 <= i < 4 ==> h[i] == Itoa(values[i]) && BandLo(i) <= values[i] < BandLo(i + 1)
  {
    values := [];
    for i := 0 to 4
      invariant |values| == i
      invariant forall k :: 0 <= k < i ==> h[k] == Itoa(values[k]) && BandLo(k) <= values[k] < BandLo(k + 1)
    {
      assert InBand(h[i], i);
      var n: nat :| BandLo(i) <= n < BandLo(i + 1) && h[i] == Itoa(n);
      values := values + [n];
    }
  }

  // The numbers behind a generated parameter set.
  datatype Numbers = Numbers(
    jc: nat, jmin: nat, jmax: nat,
    s1: nat, s2: nat, s3: nat, s4: nat,
    h: seq<nat>,
    junk: nat,
    key: seq<byte>,
    padding: Range, rekey: Range, reject: Range, timeout: Range, keepalive: Range, attempts: Range)

  predicate Within(r: Range, lo: nat, lastLo: nat, minSpan: nat, maxSpan: nat) {
    lo <= r.lo <= lastLo && r.lo + minSpan <= r.hi <= r.lo + maxSpan
  }

  // Every outcome the generator's comments promise.
  predicate Promised(n: Numbers) {
    && 3 <= n.jc <= 6 && 40 <= n.jmin <= 89 && n.jmin + 50 <= n.jmax <= n.jmin + 250
    && 15 <= n.s1 <= 150 && 15 <= n.s2 <= 150 && n.s1 + 56 != n.s2
    && 12 <= n.s3 <= 55 && 12 <= n.s4 <= 27
    && |n.h| == 4 && (forall i :: 0 <= i < 4 ==> BandLo(i) <= n.h[i] < BandLo(i + 1))
    && 32 <= n.junk <= 256
    && (|n.key| == 32 || |n.key| == 0)
    && Within(n.padding, 8, 24, 8, 40)
    && Within(n.rekey, 100, 120, 10, 40)
    && Within(n.reject, n.rekey.hi + 30, n.rekey.hi + 60, 30, 90)
    && Within(n.timeout, 3, 6, 1, 4)
    && Within(n.keepalive, 8, 12, 2, 8)
    && Within(n.attempts, 15, 25, 5, 25)
  }

  function Show(r: Range): string
    requires 0 <= r.lo && 0 <= r.hi
  {
    RangeText(r.lo, r.hi)
  }

  function Render(n: Numbers, base64: Base64): Obfuscation31
    requires Promised(n)
  {
    Obfuscation31(
      n.jc, n.jmin, n.jmax, n.s1, n.s2, n.s3, n.s4,
      Itoa(n.h[0]), Itoa(n.h[1]), Itoa(n.h[2]), Itoa(n.h[3]),
      "<r " + Itoa(n.junk) + ">", "", "", "", "",
      if n.key == [] then "" else base64.encode(n.key),
      Show(n.padding), Show(n.rekey), Show(n.timeout), Show(n.reject), Show(n.keepalive), Show(n.attempts),
      true, true)
  }

  // A window whose low end and width are drawn.
  method DrawWindow(draw: nat -> Option<nat>, k: nat, lo: nat, lastLo: nat, minSpan: nat, maxSpan: nat)
    returns (r: Range)
    requires lo <= lastLo && minSpan <= maxSpan
    ensures Within(r, lo, lastLo, minSpan, maxSpan)
  {
    var low := RandInt(lo, lastLo, draw(k));
    r := Range(low, low + RandInt(minSpan, maxSpan, draw(k + 1)));
  }

  /** S1 and S2. The redraw loop ends because some draw from the third on,
      number good, is not S1 + 56. */
  method DrawHandshakePadding(draw: nat -> Option<nat>, k: nat, ghost good: nat)
    returns (s1: nat, s2: nat, next: nat)
    requires good > k && RandInt(15, 150, draw(good)) != RandInt(15, 150, draw(k)) + 56
    ensures 15 <= s1 <= 150 && 15 <= s2 <= 150 && s1 + 56 != s2
    ensures k < next <= good + 1
    ensures s1 == RandInt(15, 150, draw(k)) && s2 == RandInt(15, 150, draw(next - 1))
  {
    s1 := RandInt(15, 150, draw(k));
    s2 := RandInt(15, 150, draw(k + 1));
    next := k + 2;
    while s1 + 56 == s2
      invariant k + 2 <= next <= good + 1 && s2 == RandInt(15, 150, draw(next - 1))
      decreases good + 1 - next
    {
      s2 := RandInt(15, 150, draw(next));
      next := next + 1;
    }
  }

  // The generator, with the numbers behind its result.
  method DrawObfuscation31(draw: nat -> Option<nat>, key: Option<seq<byte>>, base64: Base64, ghost good: nat)
    returns (o: Obfuscation31, ghost n: Numbers)
    requires key.Some? ==> |key.value| == 32
    requires good > 3 && RandInt(15, 150, draw(good)) != RandInt(15, 150, draw(3)) + 56
    ensures Promised(n) && o == Render(n, base64)
  {
    var jc := RandInt(3, 6, draw(0));
    var jmin := RandInt(40, 89, draw(1));
    var jmax := jmin + RandInt(50, 250, draw(2));
    var s1, s2, k := DrawHandshakePadding(draw, 3, good);
    var s3 := RandInt(12, 55, draw(k));
    var s4 := RandInt(12, 27, draw(k + 1));
    var h := GenerateHValues(draw, k + 2);
    ghost var values := BandNumbers(h);
    var junk := RandInt(32, 256, draw(k + 6));
    var keyText := if key.Some? then base64.encode(key.value) else "";
    var padding := DrawWindow(draw, k + 7, 8, 24, 8, 40);
    var rekey := DrawWindow(draw, k + 9, 100, 120, 10, 40);
    var reject := DrawWindow(draw, k + 11, rekey.hi + 30, rekey.hi + 60, 30, 90);
    var timeout := DrawWindow(draw, k + 13, 3, 6, 1, 4);
    var keepalive := DrawWindow(draw, k + 15, 8, 12, 2, 8);
    var attempts := DrawWindow(draw, k + 17, 15, 25, 5, 25);
    n := Numbers(jc, jmin, jmax, s1, s2, s3, s4, values, junk, if key.Some? then key.value else [],
                 padding, rekey, reject, timeout, keepalive, attempts);
    o := Obfuscation31(
      jc, jmin, jmax, s1, s2, s3, s4, h[0], h[1], h[2], h[3],
      "<r " + Itoa(junk) + ">", "", "", "", "", keyText,
      Show(padding), Show(rekey), Show(timeout), Show(reject), Show(keepalive), Show(attempts), true, true);
  }

  // -----------------------------------------------------------------------
  // Everything generated is accepted
  // -----------------------------------------------------------------------

  lemma {:induction false} JunkChainIsValid(n: nat)
    ensures ValidChain("<r " + Itoa(n) + ">")
  {
    var text := "<r " + Itoa(n) + ">";
    var last := |text| - 1;
    assert forall i :: 0 <= i < |Itoa(n)| ==> IsDigit(Itoa(n)[i]);
    assert text[0] == '<' && text[last] == '>';
    assert forall i :: 0 <= i < last ==> text[i] != '>';
    assert text[1..last] == "r " + Itoa(n);
    JunkTagIsValid(Itoa(n));
    assert Chain(text, |text|, ValidTag);
  }

  lemma {:induction false} JunkTagIsValid(count: string)
    ensures ValidTag("r " + count)
  {
    var inner := "r " + count;
    assert inner[0] == 'r' && inner[1] == ' ';
    assert inner[1..][0] == ' ';
    assert WordLength(inner) == 1 && inner[..1] == "r";
  }

  lemma WindowIsValid(r: Range, lo: nat, lastLo: nat, minSpan: nat, maxSpan: nat, minAllowed: int)
    requires Within(r, lo, lastLo, minSpan, maxSpan) && minAllowed <= lo && lastLo + maxSpan <= MAX_UINT32
    ensures ValidUintRange(Show(r), minAllowed)
  {
    RangeIsValid(r.lo, r.hi, minAllowed);
  }

  /** H1 to H4 come from four disjoint ascending bands above the vanilla message
      types, and each is a valid value. */
  lemma {:induction false} HValuesAreApart(h: seq<nat>)
    requires |h| == 4 && forall i :: 0 <= i < 4 ==> BandLo(i) <= h[i] < BandLo(i + 1)
    ensures 5 <= h[0] < h[1] < h[2] < h[3] <= H_MAX
    ensures forall i :: 0 <= i < 4 ==> ValidUintRange(Itoa(h[i]), 0)
  {
    assert BandLo(4) == 5 + 4 * BAND_SIZE <= H_MAX + 1;
    forall i | 0 <= i < 4
      ensures ValidUintRange(Itoa(h[i]), 0)
    {
      assert h[i] < BandLo(i + 1) <= BandLo(4);
      NumberIsValid(h[i], 0);
    }
  }

  /** The rendered texts parse back to the numbers, so every rekey time precedes
      every reject time by at least 30. */
  lemma RekeyPrecedesReject(n: Numbers, base64: Base64)
    requires Promised(n)
    ensures var o := Render(n, base64);
      && ParseUintRange(o.rekeyAfterTime) == Some(n.rekey)
      && ParseUintRange(o.rejectAfterTime) == Some(n.reject)
      && n.rekey.hi + 30 <= n.reject.lo
      && RekeyBelowReject(o.rekeyAfterTime, o.rejectAfterTime)
  {
    RangeRoundTrip(n.rekey.lo, n.rekey.hi);
    RangeRoundTrip(n.reject.lo, n.reject.hi);
    RangeIsPlain(n.rekey.lo, n.rekey.hi);
    RangeIsPlain(n.reject.lo, n.reject.hi);
  }

  /** The other texts, too, each mean the window or number drawn for them. */
  lemma RenderReadsBack(n: Numbers, base64: Base64)
    requires Promised(n)
    ensures var o := Render(n, base64);
      && ParseUintRange(o.contentPaddingAddition) == Some(n.padding)
      && ParseUintRange(o.rekeyTimeout) == Some(n.timeout)
      && ParseUintRange(o.keepaliveTimeout) == Some(n.keepalive)
      && ParseUintRange(o.maxHandshakeAttempts) == Some(n.attempts)
    ensures var o := Render(n, base64);
      && ParseUintRange(o.h1) == Some(Range(n.h[0], n.h[0])) && ParseUintRange(o.h2) == Some(Range(n.h[1], n.h[1]))
      && ParseUintRange(o.h3) == Some(Range(n.h[2], n.h[2])) && ParseUintRange(o.h4) == Some(Range(n.h[3], n.h[3]))
  {
    RangeRoundTrip(n.padding.lo, n.padding.hi);
    RangeRoundTrip(n.timeout.lo, n.timeout.hi);
    RangeRoundTrip(n.keepalive.lo, n.keepalive.hi);
    RangeRoundTrip(n.attempts.lo, n.attempts.hi);
    HValuesAreApart(n.h);
    NumberRoundTrip(n.h[0]);
    NumberRoundTrip(n.h[1]);
    NumberRoundTrip(n.h[2]);
    NumberRoundTrip(n.h[3]);
  }

  lemma WindowsAreValid(n: Numbers)
    requires Promised(n)
    ensures ValidUintRange(Show(n.padding), 0)
    ensures ValidUintRange(Show(n.rekey), 1) && ValidUintRange(Show(n.timeout), 1)
    ensures ValidUintRange(Show(n.reject), 1) && ValidUintRange(Show(n.keepalive), 1)
    ensures ValidUintRange(Show(n.attempts), 1)
  {
    WindowIsValid(n.padding, 8, 24, 8, 40, 0);
    WindowIsValid(n.rekey, 100, 120, 10, 40, 1);
    WindowIsValid(n.reject, n.rekey.hi + 30, n.rekey.hi + 60, 30, 90, 1);
    WindowIsValid(n.timeout, 3, 6, 1, 4, 1);
    WindowIsValid(n.keepalive, 8, 12, 2, 8, 1);
    WindowIsValid(n.attempts, 15, 25, 5, 25, 1);
  }

  /** Every outcome of the generator passes the validator. */
  lemma PromisedIsAccepted(n: Numbers, base64: Base64)
    requires Promised(n) && Faithful(base64)
    ensures ValidateObfuscation(Render(n, base64), base64).None?
  {
    JunkChainIsValid(n.junk);
    assert ValidChain("");
    HValuesAreApart(n.h);
    assert n.key != [] ==> ValidKey(base64.encode(n.key), base64);
    WindowsAreValid(n);
    RekeyPrecedesReject(n, base64);
    AcceptedWhen(Render(n, base64), Checks(base64));
  }

  /** Whatever is drawn, the result renders numbers as promised and is accepted. */
  method GenerateObfuscation31(draw: nat -> Option<nat>, key: Option<seq<byte>>, base64: Base64, ghost good: nat)
    returns (o: Obfuscation31)
    requires key.Some? ==> |key.value| == 32
    requires good > 3 && RandInt(15, 150, draw(good)) != RandInt(15, 150, draw(3)) + 56
    ensures exists n :: Promised(n) && o == Render(n, base64)
    ensures Faithful(base64) ==> ValidateObfuscation(o, base64).None?
  {
    ghost var n;
    o, n := DrawObfuscation31(draw, key, base64, good);
    if Faithful(base64) {
      PromisedIsAccepted(n, base64);
    }
  }

  lemma {:induction false} BlankRekeyPasses()
    ensures ValidUintRange(" ", 1) && ValidUintRange(Itoa(100), 1) && RekeyBelowReject(" ", Itoa(100))
    ensures LastRekey(" ") == 120 && FirstReject(Itoa(100)) == 100
    ensures !MeansTime(" ")
  {
    NumberIsValid(100, 1);
    NumberRoundTrip(100);
    DigitsArePlain(Itoa(100));
    assert TrimLeft(" ") == TrimLeft("");
  }

  /** Without that, a single space for the rekey time and 100 for the reject
      time are accepted in any otherwise good set: the comparison is passed
      although the field means no time, and the default breaks the rule. */
  lemma BlankRekeyIsAccepted(n: Numbers, base64: Base64)
    requires Promised(n) && Faithful(base64)
    ensures var o := Render(n, base64).(rekeyAfterTime := " ", rejectAfterTime := Itoa(100));
      && ValidateObfuscation(o, base64).None?
      && !MeansTime(o.rekeyAfterTime)
      && RekeyBelowReject(o.rekeyAfterTime, o.rejectAfterTime) && !InOrder(o)
  {
    var o := Render(n, base64);
    PromisedIsAccepted(n, base64);
    AcceptedWhen(o, Checks(base64));
    BlankRekeyPasses();
    AcceptedWhen(o.(rekeyAfterTime := " ", rejectAfterTime := Itoa(100)), Checks(base64));
  }
}
