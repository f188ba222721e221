/** Per-client port forwarding specs (internal/amneziawg/portfwd.go): a free-form
    text field such as "80, 443; 8000-8100" is parsed into ports and ranges, tested
    for inclusion, and expanded up to a cap without expanding what lies beyond. */
module ForwardedPorts {
  import opened Collections
  import opened Text

  datatype PortSpec = PortSpec(start: nat, end: nat)

  predicate ValidPort(p: int) {
    1 <= p <= 65535
  }

  predicate ValidSpec(s: PortSpec) {
    ValidPort(s.start) && ValidPort(s.end) && s.start <= s.end
  }

  predicate Covers(s: PortSpec, p: nat) {
    s.start <= p <= s.end
  }

  function ParsePortNumber(s: string): (r: Option<nat>)
    ensures r.Some? ==> ValidPort(r.value)
  {
    var n := ParseInt(s);
    if n.None? || n.value < 1 || n.value > 65535 then None else Some(n.value)
  }

  function ParsePortToken(tok: string): (r: Option<PortSpec>)
    ensures r.Some? ==> ValidSpec(r.value)
  {
    match Cut(tok, '-')
    case CutAt(before, after) =>
      var start, end := ParsePortNumber(TrimSpace(before)), ParsePortNumber(TrimSpace(after));
      if start.None? || end.None? || start.value > end.value then None
      else Some(PortSpec(start.value, end.value))
    case NoCut =>
      var p := ParsePortNumber(tok);
      if p.None? then None else Some(PortSpec(p.value, p.value))
  }

  lemma DigitsOnly(n: nat)
    ensures '-' !in Itoa(n) && ',' !in Itoa(n) && ';' !in Itoa(n)
  {
    assert AllDigits(Itoa(n));
  }

  lemma PrintedNumber(n: nat)
    ensures TrimSpace(Itoa(n)) == Itoa(n) && Itoa(n) != ""
    ensures ParsePortNumber(Itoa(n)) == if ValidPort(n) then Some(n) else None
  {
    assert IsDigit(Itoa(n)[0]) && IsDigit(Itoa(n)[|Itoa(n)| - 1]);
    TrimSpaceKeeps(Itoa(n));
    ItoaValue(n);
  }

  // -----------------------------------------------------------------------
  // What a spec string covers
  // -----------------------------------------------------------------------

  function Tokens(input: string): seq<string> {
    Split(ReplaceAll(input, ';', ','), ',')
  }

  // The spec one token stands for; blank and invalid tokens stand for none.
  function TokenSpec(tok: string): (r: Option<PortSpec>)
    ensures r.Some? ==> ValidSpec(r.value)
  {
    var t := TrimSpace(tok);
    if t == "" then None else ParsePortToken(t)
  }

  // How a token is read is a parameter from here on.
  type Reader = string -> Option<PortSpec>

  ghost predicate TokenCovers(tok: string, p: nat, read: Reader) {
    read(tok).Some? && Covers(read(tok).value, p)
  }

  ghost predicate TokensCover(tokens: seq<string>, p: nat, read: Reader) {
    exists i :: 0 <= i < |tokens| && TokenCovers(tokens[i], p, read)
  }

  /** The ports a text covers, straight from its tokens. */
  ghost function Covered(input: string): set<nat> {
    set p: nat | 1 <= p <= 65535 && TokensCover(Tokens(input), p, TokenSpec)
  }

  // A spec is remembered once.
  function WithSpec(specs: seq<PortSpec>, spec: Option<PortSpec>): seq<PortSpec> {
    if spec.None? || spec.value in specs then specs else specs + [spec.value]
  }

  // The specs in order of appearance, each once.
  function SpecsOf(tokens: seq<string>, read: Reader): seq<PortSpec> {
    if tokens == [] then []
    else WithSpec(SpecsOf(tokens[..|tokens| - 1], read), read(tokens[|tokens| - 1]))
  }

  function Specs(input: string): seq<PortSpec> {
    if input == "" then [] else SpecsOf(Tokens(input), TokenSpec)
  }

  ghost predicate SpecsCover(specs: seq<PortSpec>, p: nat) {
    exists i :: 0 <= i < |specs| && Covers(specs[i], p)
  }

  lemma {:induction false} TokensCoverStep(tokens: seq<string>, tok: string, p: nat, read: Reader)
    ensures TokensCover(tokens + [tok], p, read) <==> TokensCover(tokens, p, read) || TokenCovers(tok, p, read)
  {
    var all := tokens + [tok];
    assert forall i :: 0 <= i < |tokens| ==> all[i] == tokens[i];
    assert all[|tokens|] == tok;
  }

  lemma {:induction false} SpecsCoverStep(specs: seq<PortSpec>, spec: Option<PortSpec>, p: nat)
    ensures SpecsCover(WithSpec(specs, spec), p) <==> SpecsCover(specs, p) || (spec.Some? && Covers(spec.value, p))
  {
    if spec.Some? {
      var all := specs + [spec.value];
      assert forall i :: 0 <= i < |specs| ==> all[i] == specs[i];
      assert all[|specs|] == spec.value;
    }
  }

  lemma {:induction false} SpecsOfCover(tokens: seq<string>, p: nat, read: Reader)
    ensures SpecsCover(SpecsOf(tokens, read), p) <==> TokensCover(tokens, p, read)
  {
    if tokens != [] {
      var n := |tokens| - 1;
      SpecsOfCover(tokens[..n], p, read);
      TokensCoverStep(tokens[..n], tokens[n], p, read);
      assert tokens[..n] + [tokens[n]] == tokens;
      SpecsCoverStep(SpecsOf(tokens[..n], read), read(tokens[n]), p);
    }
  }

  lemma {:induction false} SpecsOfValid(tokens: seq<string>, read: Reader)
    requires forall tok :: read(tok).Some? ==> ValidSpec(read(tok).value)
    ensures forall s :: s in SpecsOf(tokens, read) ==> ValidSpec(s)
  {
    if tokens != [] {
      SpecsOfValid(tokens[..|tokens| - 1], read);
    }
  }

  lemma {:induction false} SpecsAreCovered(input: string, p: nat)
    ensures SpecsCover(Specs(input), p) <==> p in Covered(input)
  {
    SpecsOfCover(Tokens(input), p, TokenSpec);
    SpecsOfValid(Tokens(input), TokenSpec);
    if input == "" {
      assert Tokens(input) == [""];
      assert TokenSpec("").None?;
      assert !TokensCover(Tokens(input), p, TokenSpec);
    }
  }

  // -----------------------------------------------------------------------
  // Printed specs mean what they say
  // -----------------------------------------------------------------------

  // A port by itself, or a range.
  function SpecText(s: PortSpec): string {
    if s.start == s.end then Itoa(s.start) else RangeText(s.start, s.end)
  }

  function RangeText(lo: nat, hi: nat): string {
    Itoa(lo) + ['-'] + Itoa(hi)
  }

  // A range is read as its two ends, in this order; ends that are no ports or
  // stand the wrong way round make it invalid.
  lemma PrintedRange(lo: nat, hi: nat)
    ensures TokenSpec(RangeText(lo, hi))
         == if ValidPort(lo) && ValidPort(hi) && lo <= hi then Some(PortSpec(lo, hi)) else None
  {
    RangeIsTrim(lo, hi);
    PrintedNumber(lo);
    PrintedNumber(hi);
    DigitsOnly(lo);
    CutJoined(Itoa(lo), '-', Itoa(hi));
  }

  lemma RangeIsTrim(lo: nat, hi: nat)
    ensures TrimSpace(RangeText(lo, hi)) == RangeText(lo, hi) != ""
  {
    var text := RangeText(lo, hi);
    assert text[0] == Itoa(lo)[0] && text[|text| - 1] == Itoa(hi)[|Itoa(hi)| - 1];
    assert IsDigit(text[0]) && IsDigit(text[|text| - 1]);
    TrimSpaceKeeps(text);
  }

  lemma PrintedPort(p: nat)
    ensures TokenSpec(Itoa(p)) == if ValidPort(p) then Some(PortSpec(p, p)) else None
  {
    PrintedNumber(p);
    DigitsOnly(p);
    assert Cut(Itoa(p), '-') == NoCut;
  }

  lemma PrintedSpec(s: PortSpec)
    requires ValidSpec(s)
    ensures TokenSpec(SpecText(s)) == Some(s)
    ensures ',' !in SpecText(s) && ';' !in SpecText(s)
  {
    PrintedRange(s.start, s.end);
    PrintedPort(s.start);
    DigitsOnly(s.start);
    DigitsOnly(s.end);
  }

  function SpecTexts(specs: seq<PortSpec>): (texts: seq<string>)
    ensures |texts| == |specs|
    ensures forall i :: 0 <= i < |specs| ==> texts[i] == SpecText(specs[i])
  {
    seq(|specs|, i requires 0 <= i < |specs| => SpecText(specs[i]))
  }

  // Semicolons separate like commas.
  lemma {:induction false} SepAsComma(texts: seq<string>, sep: char)
    requires sep in {',', ';'} && NoneContains(texts, ';')
    ensures var a, b := Join(texts, sep), Join(texts, ',');
      |a| == |b| && forall i :: 0 <= i < |a| ==> b[i] == if a[i] == ';' then ',' else a[i]
  {
    if |texts| > 0 {
      assert forall i :: 0 <= i < |texts[0]| ==> texts[0][i] in texts[0];
    }
    if |texts| > 1 {
      SepAsComma(texts[1..], sep);
    }
  }

  lemma TokensOfJoined(texts: seq<string>, sep: char)
    requires texts != [] && sep in {',', ';'} && NoneContains(texts, ',') && NoneContains(texts, ';')
    ensures Tokens(Join(texts, sep)) == texts
  {
    SepAsComma(texts, sep);
    assert ReplaceAll(Join(texts, sep), ';', ',') == Join(texts, ',');
    SplitJoin(texts, ',');
  }

  lemma AllPrinted(specs: seq<PortSpec>)
    requires forall i :: 0 <= i < |specs| ==> ValidSpec(specs[i])
    ensures forall i :: 0 <= i < |specs| ==> TokenSpec(SpecTexts(specs)[i]) == Some(specs[i])
    ensures NoneContains(SpecTexts(specs), ',') && NoneContains(SpecTexts(specs), ';')
  {
    forall i | 0 <= i < |specs|
      ensures TokenSpec(SpecTexts(specs)[i]) == Some(specs[i])
      ensures ',' !in SpecTexts(specs)[i] && ';' !in SpecTexts(specs)[i]
    {
      PrintedSpec(specs[i]);
    }
  }

  /** A list of ports and ranges, printed with commas or semicolons in between,
      covers exactly the ports in one of them. */
  lemma {:induction false} PrintedSpecsCovered(specs: seq<PortSpec>, sep: char, p: nat)
    requires specs != [] && sep in {',', ';'}
    requires forall i :: 0 <= i < |specs| ==> ValidSpec(specs[i])
    ensures p in Covered(Join(SpecTexts(specs), sep)) <==> exists i :: 0 <= i < |specs| && Covers(specs[i], p)
  {
    AllPrinted(specs);
    TokensOfJoined(SpecTexts(specs), sep);
    ReadsCover(specs, SpecTexts(specs), p, TokenSpec);
  }

  lemma ReadsCover(specs: seq<PortSpec>, texts: seq<string>, p: nat, read: Reader)
    requires |texts| == |specs| && forall i :: 0 <= i < |specs| ==> read(texts[i]) == Some(specs[i])
    requires forall i :: 0 <= i < |specs| ==> ValidSpec(specs[i])
    ensures 1 <= p <= 65535 && TokensCover(texts, p, read) <==> exists i :: 0 <= i < |specs| && Covers(specs[i], p)
  {
    if i :| 0 <= i < |specs| && Covers(specs[i], p) {
      assert TokenCovers(texts[i], p, read);
    }
    if i :| 0 <= i < |texts| && TokenCovers(texts[i], p, read) {
      assert Covers(specs[i], p);
    }
  }

  // -----------------------------------------------------------------------
  // The parsing and inclusion loops
  // -----------------------------------------------------------------------

  // The key under which a spec is remembered: "%d-%d".
  function SpecKey(s: PortSpec): string {
    RangeText(s.start, s.end)
  }

  lemma SpecKeyInjective(a: PortSpec, b: PortSpec)
    ensures SpecKey(a) == SpecKey(b) <==> a == b
  {
    if SpecKey(a) == SpecKey(b) {
      DigitsOnly(a.start);
      DigitsOnly(b.start);
      CutJoined(Itoa(a.start), '-', Itoa(a.end));
      CutJoined(Itoa(b.start), '-', Itoa(b.end));
      ItoaInjective(a.start, b.start);
      ItoaInjective(a.end, b.end);
    }
  }

  // One token of the parsing loop: a new spec is remembered under its key.
  method AddSpec(specs: seq<PortSpec>, seen: set<string>, spec: PortSpec)
    returns (specs': seq<PortSpec>, seen': set<string>)
    requires forall k :: k in seen <==> exists i :: 0 <= i < |specs| && SpecKey(specs[i]) == k
    ensures specs' == if spec in specs then specs else specs + [spec]
    ensures forall k :: k in seen' <==> exists i :: 0 <= i < |specs'| && SpecKey(specs'[i]) == k
  {
    specs', seen' := specs, seen;
    var key := SpecKey(spec);
    forall i | 0 <= i < |specs| ensures SpecKey(specs[i]) == key <==> specs[i] == spec {
      SpecKeyInjective(specs[i], spec);
    }
    if key !in seen {
      seen' := seen + {key};
      specs' := specs + [spec];
      assert specs'[|specs|] == spec && forall i :: 0 <= i < |specs| ==> specs'[i] == specs[i];
    }
  }

  method ParseTokens(tokens: seq<string>, read: Reader) returns (specs: seq<PortSpec>)
    ensures specs == SpecsOf(tokens, read)
  {
    specs := [];
    var seen: set<string> := {};
    for i := 0 to |tokens|
      invariant specs == SpecsOf(tokens[..i], read)
      invariant forall k :: k in seen <==> exists j :: 0 <= j < |specs| && SpecKey(specs[j]) == k
    {
      assert tokens[..i + 1][..i] == tokens[..i];
      var spec := read(tokens[i]);
      if spec.None? {
        continue;
      }
      specs, seen := AddSpec(specs, seen, spec.value);
    }
    assert tokens[..|tokens|] == tokens;
  }

  method ParseForwardedPorts(input: string) returns (specs: seq<PortSpec>)
    ensures specs == Specs(input)
  {
    if input == "" {
      return [];
    }
    specs := ParseTokens(Split(ReplaceAll(input, ';', ','), ','), TokenSpec);
  }

  method AnyCovers(specs: seq<PortSpec>, port: nat) returns (covered: bool)
    ensures covered <==> SpecsCover(specs, port)
  {
    for i := 0 to |specs|
      invariant forall j :: 0 <= j < i ==> !Covers(specs[j], port)
    {
      if specs[i].start <= port <= specs[i].end {
        return true;
      }
    }
    return false;
  }

  method ForwardedPortsInclude(input: string, port: nat) returns (included: bool)
    ensures included <==> port in Covered(input)
  {
    var specs := ParseForwardedPorts(input);
    included := AnyCovers(specs, port);
    SpecsAreCovered(input, port);
  }

  // -----------------------------------------------------------------------
  // Capped expansion
  // -----------------------------------------------------------------------

  const MAX_FORWARDED_PORTS: nat := 100

  // Ports lo..hi not yet listed, appended until the limit is reached.
  function CollectRange(ports: seq<nat>, lo: nat, hi: nat, limit: nat): seq<nat>
    decreases hi + 1 - lo
  {
    if lo > hi || |ports| >= limit then ports
    else CollectRange(if lo in ports then ports else ports + [lo], lo + 1, hi, limit)
  }

  function Collect(ports: seq<nat>, specs: seq<PortSpec>, limit: nat): seq<nat> {
    if specs == [] then ports
    else
      var n := |specs| - 1;
      var before := Collect(ports, specs[..n], limit);
      CollectRange(before, specs[n].start, specs[n].end, limit)
  }

  function Expansion(input: string, limit: nat): seq<nat> {
    Collect([], Specs(input), limit)
  }

  ghost predicate Distinct(ports: seq<nat>) {
    forall i, j :: 0 <= i < j < |ports| ==> ports[i] != ports[j]
  }

  lemma {:induction false} CollectRangeAdds(ports: seq<nat>, lo: nat, hi: nat, limit: nat)
    requires Distinct(ports) && |ports| <= limit
    ensures var r := CollectRange(ports, lo, hi, limit);
      && Distinct(r) && |r| <= limit
      && (forall p :: p in ports ==> p in r)
      && (forall p :: p in r ==> p in ports || lo <= p <= hi)
      && (|r| < limit ==> forall p :: lo <= p <= hi ==> p in r)
    decreases hi + 1 - lo
  {
    if lo <= hi && |ports| < limit {
      var next := if lo in ports then ports else ports + [lo];
      assert lo in next;
      CollectRangeAdds(next, lo + 1, hi, limit);
    }
  }

  lemma {:induction false} CollectAdds(specs: seq<PortSpec>, limit: nat)
    ensures var r := Collect([], specs, limit);
      && Distinct(r) && |r| <= limit
      && (forall p :: p in r ==> SpecsCover(specs, p))
      && (|r| < limit ==> forall p :: SpecsCover(specs, p) ==> p in r)
    decreases |specs|
  {
    if specs != [] {
      var n := |specs| - 1;
      var before := Collect([], specs[..n], limit);
      var r := Collect([], specs, limit);
      CollectAdds(specs[..n], limit);
      CollectRangeAdds(before, specs[n].start, specs[n].end, limit);
      forall p ensures SpecsCover(specs, p) <==> SpecsCover(specs[..n], p) || Covers(specs[n], p) {
        assert forall i :: 0 <= i < n ==> specs[..n][i] == specs[i];
      }
      if |r| < limit {
        RangeGrows(before, specs[n].start, specs[n].end, limit);
      }
    }
  }

  lemma {:induction false} RangeGrows(ports: seq<nat>, lo: nat, hi: nat, limit: nat)
    ensures |ports| <= |CollectRange(ports, lo, hi, limit)|
    decreases hi + 1 - lo
  {
    if lo <= hi && |ports| < limit {
      RangeGrows(if lo in ports then ports else ports + [lo], lo + 1, hi, limit);
    }
  }

  lemma {:induction false} DistinctCount(ports: seq<nat>)
    requires Distinct(ports)
    ensures |Elements(ports)| == |ports|
  {
    if ports != [] {
      var n := |ports| - 1;
      DistinctCount(ports[..n]);
      assert Elements(ports) == Elements(ports[..n]) + {ports[n]};
      assert ports[n] !in Elements(ports[..n]);
    }
  }

  /** For every text and cap: the expansion lists covered ports only, as many as
      there are up to the cap, and all of them when it stays below the cap. */
  lemma {:induction false} ExpansionIsCapped(input: string, limit: nat)
    ensures var r := Expansion(input, limit);
      && Distinct(r)
      && Elements(r) <= Covered(input)
      && |r| == (if |Covered(input)| < limit then |Covered(input)| else limit)
      && (|Covered(input)| <= limit ==> Elements(r) == Covered(input))
  {
    var r := Expansion(input, limit);
    var all := Covered(input);
    CollectAdds(Specs(input), limit);
    forall p: nat ensures SpecsCover(Specs(input), p) <==> p in all {
      SpecsAreCovered(input, p);
    }
    DistinctCount(r);
    SubsetSize(Elements(r), all);
    if |r| < limit {
      assert Elements(r) == all;
    } else if |all| <= limit {
      assert |all - Elements(r)| == |all| - |Elements(r)|;
      assert all - Elements(r) == {};
    }
  }

  // -----------------------------------------------------------------------
  // The expansion loop and its callers
  // -----------------------------------------------------------------------

  function InsertedAt(xs: seq<nat>, x: nat, k: nat): (r: seq<nat>)
    requires k <= |xs|
    ensures |r| == |xs| + 1
    ensures forall i :: 0 <= i < |r| ==> r[i] == if i < k then xs[i] else if i == k then x else xs[i - 1]
  {
    xs[..k] + [x] + xs[k..]
  }

  lemma InsertedIncreases(xs: seq<nat>, x: nat, k: nat)
    requires StrictlyIncreasing(xs) && k <= |xs|
    requires (forall j :: 0 <= j < k ==> xs[j] < x) && (k < |xs| ==> x < xs[k])
    ensures StrictlyIncreasing(InsertedAt(xs, x, k))
  {
  }

  lemma InsertedMembers(xs: seq<nat>, x: nat, k: nat)
    requires k <= |xs|
    ensures forall p :: p in InsertedAt(xs, x, k) <==> p in xs || p == x
  {
    var r := InsertedAt(xs, x, k);
    forall p | p in xs || p == x ensures p in r {
      if p == x {
        assert r[k] == p;
      } else {
        var i :| 0 <= i < |xs| && xs[i] == p;
        assert r[if i < k then i else i + 1] == p;
      }
    }
    forall i | 0 <= i < |r| ensures r[i] in xs || r[i] == x {
    }
  }

  method InsertSorted(sorted: seq<nat>, x: nat) returns (r: seq<nat>)
    requires StrictlyIncreasing(sorted) && x !in sorted
    ensures StrictlyIncreasing(r) && |r| == |sorted| + 1
    ensures forall p :: p in r <==> p in sorted || p == x
  {
    var k := 0;
    while k < |sorted| && sorted[k] < x
      invariant k <= |sorted|
      invariant forall j :: 0 <= j < k ==> sorted[j] < x
    {
      k := k + 1;
    }
    assert k < |sorted| ==> sorted[k] in sorted;
    InsertedIncreases(sorted, x, k);
    InsertedMembers(sorted, x, k);
    r := InsertedAt(sorted, x, k);
  }

  // sort.Ints on a list without duplicates.
  method SortInts(ports: seq<nat>) returns (sorted: seq<nat>)
    requires Distinct(ports)
    ensures StrictlyIncreasing(sorted) && |sorted| == |ports|
    ensures forall p :: p in sorted <==> p in ports
  {
    sorted := [];
    for i := 0 to |ports|
      invariant StrictlyIncreasing(sorted) && |sorted| == i
      invariant forall p :: p in sorted <==> p in ports[..i]
    {
      assert ports[i] !in ports[..i];
      sorted := InsertSorted(sorted, ports[i]);
      assert ports[..i + 1] == ports[..i] + [ports[i]];
    }
    assert ports[..|ports|] == ports;
  }

  // The inner loop: one range, one port at a time, stopping at the limit.
  method ExpandRange(ports: seq<nat>, spec: PortSpec, limit: nat) returns (found: seq<nat>, full: bool)
    ensures found == CollectRange(ports, spec.start, spec.end, limit)
    ensures full ==> |found| >= limit
  {
    found, full := ports, false;
    var seen := set q | q in ports;
    var p := spec.start;
    while p <= spec.end
      invariant CollectRange(ports, spec.start, spec.end, limit) == CollectRange(found, p, spec.end, limit)
      invariant seen == Elements(found)
      decreases spec.end + 1 - p
    {
      if |found| >= limit {
        full := true;
        return;
      }
      if p !in seen {
        seen := seen + {p};
        found := found + [p];
      }
      p := p + 1;
    }
  }

  lemma {:induction false} FullStays(ports: seq<nat>, specs: seq<PortSpec>, k: nat, limit: nat)
    requires k <= |specs| && |Collect(ports, specs[..k], limit)| >= limit
    ensures Collect(ports, specs, limit) == Collect(ports, specs[..k], limit)
    decreases |specs|
  {
    if k == |specs| {
      assert specs[..k] == specs;
    } else {
      var n := |specs| - 1;
      assert specs[..n][..k] == specs[..k];
      FullStays(ports, specs[..n], k, limit);
    }
  }

  method ExpandSpecs(specs: seq<PortSpec>, limit: nat) returns (ports: seq<nat>)
    ensures StrictlyIncreasing(ports)
    ensures |ports| == |Collect([], specs, limit)|
    ensures forall p :: p in ports <==> p in Collect([], specs, limit)
  {
    var found: seq<nat> := [];
    var i := 0;
    while i < |specs|
      invariant i <= |specs|
      invariant found == Collect([], specs[..i], limit)
    {
      var full;
      assert specs[..i + 1][..i] == specs[..i];
      found, full := ExpandRange(found, specs[i], limit);
      i := i + 1;
      if full {
        break;
      }
    }
    if i < |specs| {
      FullStays([], specs, i, limit);
    }
    assert specs[..|specs|] == specs;
    CollectAdds(specs, limit);
    ports := SortInts(found);
  }

  method ExpandUpTo(input: string, limit: nat) returns (ports: seq<nat>)
    ensures StrictlyIncreasing(ports)
    ensures |ports| == |Expansion(input, limit)|
    ensures forall p :: p in ports <==> p in Expansion(input, limit)
  {
    var specs := ParseForwardedPorts(input);
    ports := ExpandSpecs(specs, limit);
  }

  method ExpandForwardedPorts(input: string) returns (ports: seq<nat>)
    ensures StrictlyIncreasing(ports)
    ensures forall p :: p in ports <==> p in Expansion(input, MAX_FORWARDED_PORTS)
    ensures forall p :: p in ports ==> p in Covered(input)
    ensures |ports| == (if |Covered(input)| < MAX_FORWARDED_PORTS then |Covered(input)| else MAX_FORWARDED_PORTS)
    ensures |Covered(input)| <= MAX_FORWARDED_PORTS ==> forall p :: p in Covered(input) ==> p in ports
  {
    ports := ExpandUpTo(input, MAX_FORWARDED_PORTS);
    ExpansionIsCapped(input, MAX_FORWARDED_PORTS);
  }

  /** Probing one past the cap tells "exactly at the cap" from "over it". */
  method ExceedsForwardedPortsCap(input: string) returns (exceeds: bool)
    ensures exceeds <==> |Covered(input)| > 100
  {
    var ports := ExpandUpTo(input, MAX_FORWARDED_PORTS + 1);
    ExpansionIsCapped(input, MAX_FORWARDED_PORTS + 1);
    exceeds := |ports| > MAX_FORWARDED_PORTS;
  }
}
