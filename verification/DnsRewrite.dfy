/** The two rewrites of the Xray template's dns outbounds in
    internal/database/db.go: legacy nonIPQuery and blockTypes become first-match
    rules, and a numeric qType 0 is respelled.

    JSON parsing and printing and fmt.Sprint are parameters. */
module DnsRewrite {
  import opened Text

  datatype Json =
    | Null
    | Bool(b: bool)
    | Num(n: real)
    | Str(s: string)
    | Arr(items: seq<Json>)
    | Obj(fields: map<string, Json>)

  type Fields = map<string, Json>

  // A field, Null when it is absent: the code tells the two apart nowhere.
  function Get(o: Fields, key: string): Json {
    if key in o then o[key] else Null
  }

  // -----------------------------------------------------------------------
  // Query types as JSON
  // -----------------------------------------------------------------------

  function Itoas(types: seq<nat>): (parts: seq<string>)
    ensures |parts| == |types|
    ensures forall i :: 0 <= i < |types| ==> parts[i] == Itoa(types[i])
  {
    seq(|types|, i requires 0 <= i < |types| => Itoa(types[i]))
  }

  // A lone type stays a number, except 0.
  function QTypeValue(types: seq<nat>): Json {
    if |types| == 1 && types[0] != 0 then Num(types[0] as real) else Str(Join(Itoas(types), ','))
  }

  method DnsQTypeValue(blockTypes: seq<nat>) returns (value: Json)
    ensures value == QTypeValue(blockTypes)
  {
    if |blockTypes| == 1 && blockTypes[0] != 0 {
      return Num(blockTypes[0] as real);
    }
    var parts: seq<string> := [];
    for i := 0 to |blockTypes|
      invariant parts == Itoas(blockTypes[..i])
    {
      parts := parts + [Itoa(blockTypes[i])];
    }
    assert blockTypes[..|blockTypes|] == blockTypes;
    return Str(Join(parts, ','));
  }

  // What each part of a text contributes, in order.
  function Gather<T>(parts: seq<string>, read: string -> seq<T>): seq<T> {
    if parts == [] then [] else Gather(parts[..|parts| - 1], read) + read(parts[|parts| - 1])
  }

  function Number(part: string): seq<int> {
    var n := ParseInt(TrimSpace(part));
    if n.Some? then [n.value] else []
  }

  // How the core reads a rule's qType. It drops a numeric 0, and a rule without
  // types matches every query.
  function TypesOf(qType: Json): seq<int> {
    match qType
    case Num(n) => if n == 0.0 then [] else [n.Floor]
    case Str(s) => Gather(Split(s, ','), Number)
    case _ => []
  }

  lemma {:induction false} ItoaReads(n: nat)
    requires n <= 65535
    ensures ParseInt(TrimSpace(Itoa(n))) == Some(n)
  {
    var text := Itoa(n);
    assert IsDigit(text[0]) && IsDigit(text[|text| - 1]);
    TrimSpaceKeeps(text);
    ParseItoa(n);
  }

  lemma {:induction false} GatherItoas(types: seq<nat>, read: string -> seq<int>)
    requires forall i :: 0 <= i < |types| ==> read(Itoa(types[i])) == [types[i]]
    ensures Gather(Itoas(types), read) == types
  {
    if types != [] {
      var n := |types| - 1;
      assert Itoas(types)[..n] == Itoas(types[..n]);
      GatherItoas(types[..n], read);
      assert types == types[..n] + [types[n]];
    }
  }

  lemma {:induction false} ItoasHaveNoComma(types: seq<nat>)
    ensures NoneContains(Itoas(types), ',')
  {
    var parts := Itoas(types);
    forall i | 0 <= i < |parts|
      ensures ',' !in parts[i]
    {
      assert forall k :: 0 <= k < |parts[i]| ==> IsDigit(parts[i][k]);
    }
  }

  lemma {:induction false} GatherJoined(types: seq<nat>, read: string -> seq<int>)
    requires types != [] && forall i :: 0 <= i < |types| ==> read(Itoa(types[i])) == [types[i]]
    ensures Gather(Split(Join(Itoas(types), ','), ','), read) == types
  {
    ItoasHaveNoComma(types);
    SplitJoin(Itoas(types), ',');
    GatherItoas(types, read);
  }

  lemma {:induction false} TextReads(types: seq<nat>)
    requires types != [] && AllLegal(types)
    ensures TypesOf(Str(Join(Itoas(types), ','))) == types
  {
    forall i | 0 <= i < |types|
      ensures Number(Itoa(types[i])) == [types[i]]
    {
      ItoaReads(types[i]);
    }
    GatherJoined(types, Number);
  }

  lemma NumberReads(t: nat)
    requires t != 0
    ensures TypesOf(Num(t as real)) == [t] && Num(t as real) != Num(0.0)
  {
    assert (t as real).Floor == t;
  }

  /** The encoding is read back as exactly the list, and is never a numeric 0. */
  lemma {:induction false} QTypeRoundTrip(types: seq<nat>)
    requires types != [] && AllLegal(types)
    ensures TypesOf(QTypeValue(types)) == types
    ensures QTypeValue(types) != Num(0.0)
  {
    if |types| == 1 && types[0] != 0 {
      NumberReads(types[0]);
    } else {
      TextReads(types);
    }
  }

  // -----------------------------------------------------------------------
  // The legacy keys
  // -----------------------------------------------------------------------

  datatype Mode = Reject | Drop | Skip

  // strings.ToLower, as far as it can produce an ASCII letter.
  function Lower(c: char): char {
    if 'A' <= c <= 'Z' then c + ('a' - 'A')
    else if c == '\U{212A}' then 'k'
    else if c == '\U{0130}' then 'i'
    else c
  }

  function ToLower(s: string): string {
    seq(|s|, i requires 0 <= i < |s| => Lower(s[i]))
  }

  function NonIPQueryMode(value: Json): Mode {
    var mode := if value.Str? then ToLower(TrimSpace(value.s)) else "";
    if mode == "drop" then Drop else if mode == "skip" then Skip else Reject
  }

  // A part that is no query type contributes nothing.
  function LegalType(part: string): (types: seq<int>)
    ensures forall i :: 0 <= i < |types| ==> 0 <= types[i] <= 65535
  {
    var n := ParseInt(TrimSpace(part));
    if n.None? || n.value < 0 || n.value > 65535 then [] else [n.value]
  }

  function TypesIn(items: seq<Json>, sprint: Json -> string, read: string -> seq<int>): seq<int> {
    if items == [] then []
    else
      var n := |items| - 1;
      TypesIn(items[..n], sprint, read) + Gather(Split(sprint(items[n]), ','), read)
  }

  // A list, a bare value or a comma-separated text.
  function Items(value: Json): seq<Json> {
    match value
    case Arr(items) => items
    case Null => []
    case _ => [value]
  }

  ghost predicate AllLegal(types: seq<int>) {
    forall i :: 0 <= i < |types| ==> 0 <= types[i] <= 65535
  }

  lemma {:induction false} GatherLegal(parts: seq<string>, read: string -> seq<int>)
    requires forall part :: AllLegal(read(part))
    ensures AllLegal(Gather(parts, read))
  {
    if parts != [] {
      GatherLegal(parts[..|parts| - 1], read);
      assert AllLegal(read(parts[|parts| - 1]));
    }
  }

  lemma {:induction false} TypesInLegal(items: seq<Json>, sprint: Json -> string, read: string -> seq<int>)
    requires forall part :: AllLegal(read(part))
    ensures AllLegal(TypesIn(items, sprint, read))
  {
    if items != [] {
      TypesInLegal(items[..|items| - 1], sprint, read);
      GatherLegal(Split(sprint(items[|items| - 1]), ','), read);
    }
  }

  function BlockTypes(value: Json, sprint: Json -> string): (types: seq<nat>)
    ensures AllLegal(types)
  {
    TypesInLegal(Items(value), sprint, LegalType);
    TypesIn(Items(value), sprint, LegalType)
  }

  // The inner loop: one item's parts.
  method AppendTypes(out: seq<int>, parts: seq<string>, read: string -> seq<int>) returns (types: seq<int>)
    ensures types == out + Gather(parts, read)
  {
    types := out;
    for i := 0 to |parts|
      invariant types == out + Gather(parts[..i], read)
    {
      types := types + read(parts[i]);
      assert parts[..i + 1][..i] == parts[..i];
    }
    assert parts[..|parts|] == parts;
  }

  method CollectTypes(items: seq<Json>, sprint: Json -> string, read: string -> seq<int>) returns (types: seq<int>)
    ensures types == TypesIn(items, sprint, read)
  {
    types := [];
    for i := 0 to |items|
      invariant types == TypesIn(items[..i], sprint, read)
    {
      types := AppendTypes(types, Split(sprint(items[i]), ','), read);
      assert items[..i + 1][..i] == items[..i];
    }
    assert items[..|items|] == items;
  }

  method LegacyDNSBlockTypes(value: Json, sprint: Json -> string) returns (types: seq<int>)
    ensures types == BlockTypes(value, sprint)
  {
    types := CollectTypes(Items(value), sprint, LegalType);
  }

  // The block list behind a list of items, each listing some types.
  function Concat(groups: seq<seq<nat>>): seq<nat> {
    if groups == [] then [] else Concat(groups[..|groups| - 1]) + groups[|groups| - 1]
  }

  // The item prints as the group's types, separated by commas.
  ghost predicate PrintsAs(item: Json, group: seq<nat>, sprint: Json -> string) {
    group != [] && sprint(item) == Join(Itoas(group), ',')
  }

  lemma LegalTypesRead(types: seq<nat>)
    requires AllLegal(types)
    ensures forall i :: 0 <= i < |types| ==> LegalType(Itoa(types[i])) == [types[i]]
  {
    forall i | 0 <= i < |types|
      ensures LegalType(Itoa(types[i])) == [types[i]]
    {
      ItoaReads(types[i]);
    }
  }

  lemma {:induction false} TypesInGroups(items: seq<Json>, groups: seq<seq<nat>>, sprint: Json -> string)
    requires |items| == |groups|
    requires forall i :: 0 <= i < |items| ==> PrintsAs(items[i], groups[i], sprint) && AllLegal(groups[i])
    ensures TypesIn(items, sprint, LegalType) == Concat(groups)
  {
    if items != [] {
      var n := |items| - 1;
      TypesInGroups(items[..n], groups[..n], sprint);
      assert PrintsAs(items[n], groups[n], sprint);
      LegalTypesRead(groups[n]);
      GatherJoined(groups[n], LegalType);
    }
  }

  /** Every shape the old card could save is read as its types: a list, whose
      items are numbers or texts with one or more types each, or one such item
      by itself. */
  lemma {:induction false} BlockTypesOfShapes(items: seq<Json>, groups: seq<seq<nat>>, sprint: Json -> string)
    requires |items| == |groups|
    requires forall i :: 0 <= i < |items| ==> PrintsAs(items[i], groups[i], sprint) && AllLegal(groups[i])
    ensures BlockTypes(Arr(items), sprint) == Concat(groups)
    ensures |items| == 1 && !items[0].Arr? && !items[0].Null? ==> BlockTypes(items[0], sprint) == groups[0]
  {
    TypesInGroups(items, groups, sprint);
    if |items| == 1 && !items[0].Arr? && !items[0].Null? {
      assert items == [items[0]] == Items(items[0]);
      assert groups[..0] == [] && Concat(groups) == groups[0];
    }
  }

  lemma {:induction false} ConcatOnes(types: seq<nat>, ones: seq<seq<nat>>)
    requires |ones| == |types| && forall i :: 0 <= i < |types| ==> ones[i] == [types[i]]
    ensures Concat(ones) == types
  {
    if types != [] {
      var n := |types| - 1;
      ConcatOnes(types[..n], ones[..n]);
      assert types == types[..n] + [types[n]];
    }
  }

  // One item by itself.
  lemma OneItemReads(item: Json, group: seq<nat>, sprint: Json -> string)
    requires PrintsAs(item, group, sprint) && AllLegal(group) && !item.Arr? && !item.Null?
    ensures BlockTypes(item, sprint) == group
  {
    BlockTypesOfShapes([item], [group], sprint);
  }

  lemma NumberPrints(t: nat, sprint: Json -> string)
    requires sprint(Num(t as real)) == Itoa(t)
    ensures PrintsAs(Num(t as real), [t], sprint)
  {
    assert Itoas([t]) == [Itoa(t)];
  }

  // A list of numbers.
  lemma {:induction false} NumbersRead(nums: seq<Json>, types: seq<nat>, sprint: Json -> string)
    requires AllLegal(types) && |nums| == |types|
    requires forall i :: 0 <= i < |types| ==> PrintsAs(nums[i], [types[i]], sprint)
    ensures BlockTypes(Arr(nums), sprint) == types
  {
    var ones := seq(|types|, i requires 0 <= i < |types| => [types[i]]);
    BlockTypesOfShapes(nums, ones, sprint);
    ConcatOnes(types, ones);
  }

  /** With Go's way of printing numbers and texts: a list of numbers, a bare
      number and a comma-separated text are read as the types they hold. */
  lemma BlockTypesOfValues(types: seq<nat>, sprint: Json -> string)
    requires types != [] && AllLegal(types)
    requires forall s :: sprint(Str(s)) == s
    requires forall t: nat :: t <= 65535 ==> sprint(Num(t as real)) == Itoa(t)
    ensures BlockTypes(Arr(seq(|types|, i requires 0 <= i < |types| => Num(types[i] as real))), sprint) == types
    ensures BlockTypes(Num(types[0] as real), sprint) == [types[0]]
    ensures BlockTypes(Str(Join(Itoas(types), ',')), sprint) == types
  {
    forall i | 0 <= i < |types|
      ensures PrintsAs(Num(types[i] as real), [types[i]], sprint)
    {
      NumberPrints(types[i], sprint);
    }
    NumbersRead(seq(|types|, i requires 0 <= i < |types| => Num(types[i] as real)), types, sprint);
    OneItemReads(Num(types[0] as real), [types[0]], sprint);
    OneItemReads(Str(Join(Itoas(types), ',')), types, sprint);
  }

  // -----------------------------------------------------------------------
  // Rules and what they answer
  // -----------------------------------------------------------------------

  datatype Answer = Hijack | Direct | Dropped | Return(rCode: int) | NoRule

  // The core's legacy policy, in its order.
  function LegacyAnswer(mode: Mode, blocked: seq<nat>, q: nat): Answer {
    if q in blocked then (if mode.Reject? then Return(5) else Dropped)
    else if q == 1 || q == 28 then Hijack
    else match mode
      case Reject => Return(5)
      case Drop => Dropped
      case Skip => Direct
  }

  function Rule(action: string): Fields {
    map["action" := Str(action)]
  }

  function Refuse(rule: Fields): Fields {
    rule["action" := Str("return")]["rCode" := Num(5.0)]
  }

  function BlockRule(mode: Mode, blocked: seq<nat>): Fields {
    var rule := Rule("drop")["qType" := QTypeValue(blocked)];
    if mode.Reject? then Refuse(rule) else rule
  }

  function Fallback(mode: Mode): Fields {
    match mode
    case Reject => Refuse(Rule("direct"))
    case Drop => Rule("drop")
    case Skip => Rule("direct")
  }

  function LegacyRules(mode: Mode, blocked: seq<nat>): seq<Json> {
    (if blocked == [] then [] else [Obj(BlockRule(mode, blocked))]) +
    [Obj(Rule("hijack")["qType" := Str("1,28")]), Obj(Fallback(mode))]
  }

  method LegacyDNSOutboundRules(mode: Mode, blockTypes: seq<nat>) returns (rules: seq<Json>)
    ensures rules == LegacyRules(mode, blockTypes)
  {
    rules := [];
    if |blockTypes| > 0 {
      var value := DnsQTypeValue(blockTypes);
      var rule := Rule("drop")["qType" := value];
      if mode.Reject? {
        rule := Refuse(rule);
      }
      rules := rules + [Obj(rule)];
    }
    rules := rules + [Obj(Rule("hijack")["qType" := Str("1,28")])];
    var fallback := Rule("direct");
    match mode {
      case Reject => fallback := Refuse(fallback);
      case Drop => fallback := Rule("drop");
      case Skip =>
    }
    rules := rules + [Obj(fallback)];
  }

  function ActionOf(rule: Fields): Answer {
    var action := Get(rule, "action");
    if action == Str("hijack") then Hijack
    else if action == Str("direct") then Direct
    else if action == Str("drop") then Dropped
    else if action == Str("return") then
      Return(if Get(rule, "rCode").Num? then Get(rule, "rCode").n.Floor else 0)
    else NoRule
  }

  predicate Matches(rule: Fields, q: nat, read: Json -> seq<int>) {
    var types := read(Get(rule, "qType"));
    types == [] || q in types
  }

  // First match: the first rule whose types admit the query answers it.
  function Evaluate(rules: seq<Json>, q: nat, read: Json -> seq<int>): Answer {
    if rules == [] then NoRule
    else if rules[0].Obj? && Matches(rules[0].fields, q, read) then ActionOf(rules[0].fields)
    else Evaluate(rules[1..], q, read)
  }

  lemma ActionsOfRules()
    ensures ActionOf(Rule("hijack")["qType" := Str("1,28")]) == Hijack
    ensures ActionOf(Fallback(Reject)) == Return(5)
    ensures ActionOf(Fallback(Drop)) == Dropped
    ensures ActionOf(Fallback(Skip)) == Direct
    ensures forall m: Mode :: Get(Fallback(m), "qType") == Null
  {
    Words();
  }

  lemma BlockRuleReads(mode: Mode, blocked: seq<nat>)
    ensures ActionOf(BlockRule(mode, blocked)) == if mode.Reject? then Return(5) else Dropped
    ensures Get(BlockRule(mode, blocked), "qType") == QTypeValue(blocked)
  {
    Words();
  }

  // The field names and actions are different words.
  lemma Words()
    ensures "action" != "qType" && "action" != "rCode" && "qType" != "rCode"
    ensures "hijack" != "direct" && "hijack" != "return" && "direct" != "return"
    ensures "drop" != "hijack" && "drop" != "direct" && "drop" != "return"
  {
    assert "hijack"[0] == 'h' && "direct"[0] == 'd' && "return"[0] == 'r';
    assert "qType"[0] == 'q' && "rCode"[0] == 'r';
  }

  lemma HijackTypes()
    ensures TypesOf(Str("1,28")) == [1, 28]
  {
    var types: seq<nat> := [1, 28];
    assert Itoa(1) == "1" && Itoa(28) == Itoa(2) + "8" == "28";
    assert Itoas(types) == ["1", "28"];
    assert ["1", "28"][1..] == ["28"];
    assert Join(["1", "28"], ',') == "1" + [','] + "28" == "1,28";
    QTypeRoundTrip(types);
  }

  // However qTypes are read, as long as these three are read right.
  lemma {:induction false} EvaluatesAsPolicy(mode: Mode, blocked: seq<nat>, q: nat, read: Json -> seq<int>)
    requires read(Null) == [] && read(Str("1,28")) == [1, 28]
    requires blocked != [] ==> read(QTypeValue(blocked)) == blocked
    ensures Evaluate(LegacyRules(mode, blocked), q, read) == LegacyAnswer(mode, blocked, q)
  {
    var hijack, last := Rule("hijack")["qType" := Str("1,28")], Fallback(mode);
    var tail := [Obj(hijack), Obj(last)];
    ActionsOfRules();
    assert Get(hijack, "qType") == Str("1,28");
    assert tail[1..] == [Obj(last)];
    assert Evaluate([Obj(last)], q, read) == ActionOf(last);
    assert Evaluate(tail, q, read) == if q == 1 || q == 28 then Hijack else ActionOf(last);
    var rules := LegacyRules(mode, blocked);
    if blocked == [] {
      assert rules == tail;
    } else {
      assert rules[1..] == tail;
      BlockRuleReads(mode, blocked);
    }
  }

  /** The generated rules answer every query type as the legacy policy did. */
  lemma {:induction false} RulesGiveLegacyAnswer(mode: Mode, blocked: seq<nat>, q: nat)
    requires AllLegal(blocked)
    ensures Evaluate(LegacyRules(mode, blocked), q, TypesOf) == LegacyAnswer(mode, blocked, q)
  {
    HijackTypes();
    if blocked != [] {
      QTypeRoundTrip(blocked);
    }
    EvaluatesAsPolicy(mode, blocked, q, TypesOf);
  }

  // -----------------------------------------------------------------------
  // Rewriting the legacy keys of a whole configuration
  // -----------------------------------------------------------------------

  // strings.EqualFold(proto, "dns"); U+017F folds to s.
  predicate FoldsToDns(proto: string) {
    |proto| == 3 && proto[0] in {'d', 'D'} && proto[1] in {'n', 'N'} && proto[2] in {'s', 'S', '\U{017F}'}
  }

  // In any mix of case.
  lemma DnsInAnyCase(proto: string)
    ensures ToLower(proto) == "dns" ==> FoldsToDns(proto)
    ensures FoldsToDns(proto) ==> ToLower(proto[..2]) == "dn" && (Lower(proto[2]) == 's' || proto[2] == '\U{017F}')
  {
    var t := ToLower(proto);
    assert |proto| == 3 ==> t == [Lower(proto[0]), Lower(proto[1]), Lower(proto[2])];
    assert "dns" == ['d', 'n', 's'] && "dn" == ['d', 'n'];
    assert |proto| == 3 ==> ToLower(proto[..2]) == [Lower(proto[0]), Lower(proto[1])];
  }

  // A dns outbound that has settings.
  predicate IsDns(ob: Json) {
    ob.Obj? &&
    (var proto := Get(ob.fields, "protocol"); proto.Str? && FoldsToDns(proto.s)) &&
    Get(ob.fields, "settings").Obj?
  }

  function SettingsOf(ob: Json): Fields
    requires IsDns(ob)
  {
    Get(ob.fields, "settings").fields
  }

  // Present and not null.
  predicate IsSet(o: Fields, key: string) {
    Get(o, key) != Null
  }

  predicate HasLegacy(settings: Fields) {
    IsSet(settings, "nonIPQuery") || IsSet(settings, "blockTypes")
  }

  // Builds the rules for a nonIPQuery and a blockTypes value.
  type Builder = (Json, Json) -> seq<Json>

  function RewriteSettings(settings: Fields, build: Builder): Fields {
    if !HasLegacy(settings) then settings
    else
      var ruled :=
        if IsSet(settings, "rules") then settings
        else settings["rules" := Arr(build(Get(settings, "nonIPQuery"), Get(settings, "blockTypes")))];
      ruled - {"nonIPQuery", "blockTypes"}
  }

  function RewriteOutbound(ob: Json, build: Builder): Json {
    if IsDns(ob) && HasLegacy(SettingsOf(ob)) then
      Obj(ob.fields["settings" := Obj(RewriteSettings(SettingsOf(ob), build))])
    else ob
  }

  function RewriteOutbounds(outbounds: seq<Json>, build: Builder): (r: seq<Json>)
    ensures |r| == |outbounds|
    ensures forall i :: 0 <= i < |r| ==> r[i] == RewriteOutbound(outbounds[i], build)
  {
    seq(|outbounds|, i requires 0 <= i < |outbounds| => RewriteOutbound(outbounds[i], build))
  }

  lemma Keys()
    ensures "rules" != "nonIPQuery" && "rules" != "blockTypes" && "nonIPQuery" != "blockTypes"
    ensures "protocol" != "settings"
  {
    assert "nonIPQuery"[0] == 'n' && "blockTypes"[0] == 'b';
    assert "protocol"[0] == 'p' && "settings"[0] == 's';
  }

  /** What a rewrite of settings does, field by field. */
  lemma RewrittenSettings(settings: Fields, build: Builder)
    requires HasLegacy(settings)
    ensures var r := RewriteSettings(settings, build);
      && !HasLegacy(r)
      && "nonIPQuery" !in r && "blockTypes" !in r
      && Get(r, "rules") == (if IsSet(settings, "rules") then settings["rules"]
                             else Arr(build(Get(settings, "nonIPQuery"), Get(settings, "blockTypes"))))
      && forall key :: key !in {"rules", "nonIPQuery", "blockTypes"} ==> Get(r, key) == Get(settings, key)
  {
    Keys();
  }

  /** An outbound changes exactly when it is a dns outbound with a legacy key;
      the result has none, so a second rewrite changes nothing. */
  lemma RewriteOutboundOnce(ob: Json, build: Builder)
    ensures RewriteOutbound(ob, build) != ob <==> IsDns(ob) && HasLegacy(SettingsOf(ob))
    ensures RewriteOutbound(RewriteOutbound(ob, build), build) == RewriteOutbound(ob, build)
  {
    if IsDns(ob) && HasLegacy(SettingsOf(ob)) {
      Keys();
      RewrittenSettings(SettingsOf(ob), build);
      var r := RewriteOutbound(ob, build);
      assert Get(r.fields, "protocol") == Get(ob.fields, "protocol");
      assert IsDns(r) && SettingsOf(r) == RewriteSettings(SettingsOf(ob), build);
    }
  }

  lemma {:induction false} RewriteOutboundsOnce(outbounds: seq<Json>, build: Builder)
    ensures var r := RewriteOutbounds(outbounds, build); RewriteOutbounds(r, build) == r
  {
    forall i | 0 <= i < |outbounds|
      ensures RewriteOutbound(RewriteOutbound(outbounds[i], build), build) == RewriteOutbound(outbounds[i], build)
    {
      RewriteOutboundOnce(outbounds[i], build);
    }
  }

  /** The loop of rewriteDNSOutboundLegacyKeys. */
  method RewriteLegacyKeys(outbounds: seq<Json>, build: Builder) returns (out: seq<Json>, changed: bool)
    ensures out == RewriteOutbounds(outbounds, build)
    ensures changed <==> out != outbounds
  {
    out, changed := outbounds, false;
    for i := 0 to |outbounds|
      invariant |out| == |outbounds|
      invariant forall k :: 0 <= k < i ==> out[k] == RewriteOutbound(outbounds[k], build)
      invariant forall k :: i <= k < |out| ==> out[k] == outbounds[k]
      invariant changed <==> exists k :: 0 <= k < i && out[k] != outbounds[k]
    {
      var ob := outbounds[i];
      RewriteOutboundOnce(ob, build);
      if !IsDns(ob) {
        continue;
      }
      var settings := SettingsOf(ob);
      if !IsSet(settings, "nonIPQuery") && !IsSet(settings, "blockTypes") {
        continue;
      }
      var nonIPQuery, blockTypes := Get(settings, "nonIPQuery"), Get(settings, "blockTypes");
      if !IsSet(settings, "rules") {
        settings := settings["rules" := Arr(build(nonIPQuery, blockTypes))];
      }
      settings := settings - {"nonIPQuery"};
      settings := settings - {"blockTypes"};
      assert settings == RewriteSettings(SettingsOf(ob), build);
      out := out[i := Obj(ob.fields["settings" := Obj(settings)])];
      changed := true;
    }
  }

  // -----------------------------------------------------------------------
  // The rewrite keeps every answer
  // -----------------------------------------------------------------------

  function LegacyBuilder(sprint: Json -> string): Builder {
    (nonIPQuery, blockTypes) => LegacyRules(NonIPQueryMode(nonIPQuery), BlockTypes(blockTypes, sprint))
  }

  // What the core answers under given settings: by the rules when there are
  // any, else by the legacy keys; None stands for its built-in default.
  function AnswerTo(q: nat, settings: Fields, sprint: Json -> string): Option<Answer> {
    if IsSet(settings, "rules") then
      var rules := settings["rules"];
      Some(if rules.Arr? then Evaluate(rules.items, q, TypesOf) else NoRule)
    else if HasLegacy(settings) then
      Some(LegacyAnswer(NonIPQueryMode(Get(settings, "nonIPQuery")),
                        BlockTypes(Get(settings, "blockTypes"), sprint), q))
    else None
  }

  lemma RewriteKeepsAnswers(settings: Fields, sprint: Json -> string, q: nat)
    ensures AnswerTo(q, RewriteSettings(settings, LegacyBuilder(sprint)), sprint) == AnswerTo(q, settings, sprint)
  {
    if HasLegacy(settings) {
      RewrittenSettings(settings, LegacyBuilder(sprint));
      RulesGiveLegacyAnswer(
        NonIPQueryMode(Get(settings, "nonIPQuery")), BlockTypes(Get(settings, "blockTypes"), sprint), q);
    }
  }

  // "drop" and "skip" in any mix of case; U+212A and U+0130 lower to k and i.
  predicate SpellsDrop(w: string) {
    |w| == 4 && w[0] in {'d', 'D'} && w[1] in {'r', 'R'} && w[2] in {'o', 'O'} && w[3] in {'p', 'P'}
  }

  predicate SpellsSkip(w: string) {
    && |w| == 4 && w[0] in {'s', 'S'} && w[1] in {'k', 'K', '\U{212A}'}
    && w[2] in {'i', 'I', '\U{0130}'} && w[3] in {'p', 'P'}
  }

  // A text that is such a word but for white space around it.
  ghost predicate Says(value: Json, spells: string -> bool) {
    value.Str? && exists i: nat, j: nat :: Padded(value.s, i, j) && spells(value.s[i..j])
  }

  lemma LowersTo(w: string)
    ensures ToLower(w) == "drop" <==> SpellsDrop(w)
    ensures ToLower(w) == "skip" <==> SpellsSkip(w)
  {
    var t := ToLower(w);
    assert |w| == 4 ==> t == [Lower(w[0]), Lower(w[1]), Lower(w[2]), Lower(w[3])];
    assert "drop" == ['d', 'r', 'o', 'p'] && "skip" == ['s', 'k', 'i', 'p'];
  }

  // A word without white space at its ends is what trimming leaves.
  lemma {:induction false} SaysTrimmed(value: Json, spells: string -> bool)
    requires forall w :: spells(w) ==> w != [] && NoOuterSpace(w)
    ensures Says(value, spells) <==> value.Str? && spells(TrimSpace(value.s))
  {
    if value.Str? {
      if i: nat, j: nat :| Padded(value.s, i, j) && spells(value.s[i..j]) {
        TrimmedIs(value.s, i, j);
      }
      var i, j := TrimmedPart(value.s);
      assert spells(TrimSpace(value.s)) ==> Padded(value.s, i, j) && spells(value.s[i..j]);
    }
  }

  lemma ModeSaid(value: Json)
    ensures NonIPQueryMode(value)
         == if Says(value, SpellsDrop) then Drop else if Says(value, SpellsSkip) then Skip else Reject
  {
    SaysTrimmed(value, SpellsDrop);
    SaysTrimmed(value, SpellsSkip);
    if value.Str? {
      LowersTo(TrimSpace(value.s));
    } else {
      assert "" != "drop" && "" != "skip";
    }
  }

  /** What the rewritten rules answer, from the stored values themselves: address
      queries are hijacked unless they are blocked; a blocked query is dropped
      under "drop" and "skip" and refused otherwise; any other query is dropped
      under "drop", let through under "skip" and refused under every other text
      and every value that is no text. */
  lemma RewrittenPolicy(settings: Fields, sprint: Json -> string, q: nat)
    requires HasLegacy(settings) && !IsSet(settings, "rules")
    ensures var rules := Get(RewriteSettings(settings, LegacyBuilder(sprint)), "rules");
      var mode, blocked := Get(settings, "nonIPQuery"), BlockTypes(Get(settings, "blockTypes"), sprint);
      && rules.Arr?
      && Evaluate(rules.items, q, TypesOf) ==
           if q in blocked then (if Says(mode, SpellsDrop) || Says(mode, SpellsSkip) then Dropped else Return(5))
           else if q in {1, 28} then Hijack
           else if Says(mode, SpellsDrop) then Dropped
           else if Says(mode, SpellsSkip) then Direct
           else Return(5)
  {
    var mode, blocked := Get(settings, "nonIPQuery"), BlockTypes(Get(settings, "blockTypes"), sprint);
    RewrittenSettings(settings, LegacyBuilder(sprint));
    RulesGiveLegacyAnswer(NonIPQueryMode(mode), blocked, q);
    ModeSaid(mode);
  }

  // -----------------------------------------------------------------------
  // Respelling a numeric qType 0
  // -----------------------------------------------------------------------

  predicate IsZeroRule(rule: Json) {
    rule.Obj? && Get(rule.fields, "qType") == Num(0.0)
  }

  function FixRule(rule: Json): Json {
    if IsZeroRule(rule) then Obj(rule.fields["qType" := Str("0")]) else rule
  }

  function FixRules(rules: seq<Json>): (r: seq<Json>)
    ensures |r| == |rules|
    ensures forall i :: 0 <= i < |r| ==> r[i] == FixRule(rules[i])
  {
    seq(|rules|, i requires 0 <= i < |rules| => FixRule(rules[i]))
  }

  predicate HasRules(ob: Json) {
    IsDns(ob) && Get(SettingsOf(ob), "rules").Arr?
  }

  function RulesOf(ob: Json): seq<Json>
    requires HasRules(ob)
  {
    Get(SettingsOf(ob), "rules").items
  }

  function WithRules(ob: Json, rules: seq<Json>): Json
    requires HasRules(ob)
  {
    Obj(ob.fields["settings" := Obj(SettingsOf(ob)["rules" := Arr(rules)])])
  }

  function FixOutbound(ob: Json): Json {
    if HasRules(ob) then WithRules(ob, FixRules(RulesOf(ob))) else ob
  }

  function FixOutbounds(outbounds: seq<Json>): (r: seq<Json>)
    ensures |r| == |outbounds|
    ensures forall i :: 0 <= i < |r| ==> r[i] == FixOutbound(outbounds[i])
  {
    seq(|outbounds|, i requires 0 <= i < |outbounds| => FixOutbound(outbounds[i]))
  }

  lemma WithSameRules(ob: Json)
    requires HasRules(ob)
    ensures WithRules(ob, RulesOf(ob)) == ob
  {
    assert SettingsOf(ob)["rules" := Arr(RulesOf(ob))] == SettingsOf(ob);
    assert ob.fields["settings" := Obj(SettingsOf(ob))] == ob.fields;
  }

  lemma RulesOfWithRules(ob: Json, rules: seq<Json>)
    requires HasRules(ob)
    ensures HasRules(WithRules(ob, rules)) && RulesOf(WithRules(ob, rules)) == rules
    ensures forall again: seq<Json> :: WithRules(WithRules(ob, rules), again) == WithRules(ob, again)
  {
    Keys();
    var r := WithRules(ob, rules);
    assert Get(r.fields, "protocol") == Get(ob.fields, "protocol");
    forall again: seq<Json>
      ensures WithRules(r, again) == WithRules(ob, again)
    {
      assert SettingsOf(r)["rules" := Arr(again)] == SettingsOf(ob)["rules" := Arr(again)];
      assert r.fields["settings" := Obj(SettingsOf(ob)["rules" := Arr(again)])]
          == ob.fields["settings" := Obj(SettingsOf(ob)["rules" := Arr(again)])];
    }
  }

  /** One pass leaves no numeric 0 in any rule and changes nothing else, so a
      second pass changes nothing. */
  lemma {:induction false} FixRulesOnce(rules: seq<Json>)
    ensures forall i :: 0 <= i < |rules| ==> !IsZeroRule(FixRules(rules)[i])
    ensures forall i :: 0 <= i < |rules| && !IsZeroRule(rules[i]) ==> FixRules(rules)[i] == rules[i]
    ensures FixRules(FixRules(rules)) == FixRules(rules)
    ensures FixRules(rules) == rules <==> forall i :: 0 <= i < |rules| ==> !IsZeroRule(rules[i])
  {
  }

  lemma FixOutboundOnce(ob: Json)
    ensures FixOutbound(FixOutbound(ob)) == FixOutbound(ob)
    ensures FixOutbound(ob) != ob <==> HasRules(ob) && FixRules(RulesOf(ob)) != RulesOf(ob)
  {
    if HasRules(ob) {
      var rules := FixRules(RulesOf(ob));
      RulesOfWithRules(ob, rules);
      FixRulesOnce(RulesOf(ob));
      WithSameRules(ob);
    }
  }

  lemma {:induction false} FixOutboundsOnce(outbounds: seq<Json>)
    ensures var r := FixOutbounds(outbounds); FixOutbounds(r) == r
  {
    forall i | 0 <= i < |outbounds|
      ensures FixOutbound(FixOutbound(outbounds[i])) == FixOutbound(outbounds[i])
    {
      FixOutboundOnce(outbounds[i]);
    }
  }

  // The inner loop.
  method FixRuleList(rules: seq<Json>) returns (out: seq<Json>, changed: bool)
    ensures out == FixRules(rules)
    ensures changed <==> out != rules
  {
    out, changed := rules, false;
    for i := 0 to |rules|
      invariant |out| == |rules|
      invariant forall k :: 0 <= k < i ==> out[k] == FixRule(rules[k])
      invariant forall k :: i <= k < |out| ==> out[k] == rules[k]
      invariant changed <==> exists k :: 0 <= k < i && out[k] != rules[k]
    {
      if IsZeroRule(rules[i]) {
        out := out[i := Obj(rules[i].fields["qType" := Str("0")])];
        assert Get(out[i].fields, "qType") == Str("0");
        changed := true;
      }
    }
  }

  /** The loops of RewriteDNSOutboundQTypeZero. */
  method RewriteQTypeZero(outbounds: seq<Json>) returns (out: seq<Json>, changed: bool)
    ensures out == FixOutbounds(outbounds)
    ensures changed <==> out != outbounds
  {
    out, changed := outbounds, false;
    for i := 0 to |outbounds|
      invariant |out| == |outbounds|
      invariant forall k :: 0 <= k < i ==> out[k] == FixOutbound(outbounds[k])
      invariant forall k :: i <= k < |out| ==> out[k] == outbounds[k]
      invariant changed <==> exists k :: 0 <= k < i && out[k] != outbounds[k]
    {
      FixOutboundOnce(outbounds[i]);
      if HasRules(outbounds[i]) {
        var rules, ruleChanged := FixRuleList(RulesOf(outbounds[i]));
        out := out[i := WithRules(outbounds[i], rules)];
        changed := changed || ruleChanged;
      }
    }
  }

  // A reader that takes a numeric 0 for query type 0, as its author meant it.
  function Intended(qType: Json): seq<int> {
    if qType.Num? then [qType.n.Floor] else TypesOf(qType)
  }

  lemma ZeroTextReads()
    ensures TypesOf(Str("0")) == [0]
  {
    var types: seq<nat> := [0];
    assert Itoas(types) == ["0"];
    TextReads(types);
  }

  lemma FixKeepsAction(rule: Json)
    requires rule.Obj?
    ensures FixRule(rule).Obj? && ActionOf(FixRule(rule).fields) == ActionOf(rule.fields)
  {
    Words();
  }

  lemma FixedTypes(rule: Json)
    requires rule.Obj?
    ensures TypesOf(Get(FixRule(rule).fields, "qType")) == Intended(Get(rule.fields, "qType"))
  {
    ZeroTextReads();
  }

  /** After the fix the core gives every query the answer that was meant. */
  lemma {:induction false} FixGivesIntendedAnswer(rules: seq<Json>, q: nat)
    ensures Evaluate(FixRules(rules), q, TypesOf) == Evaluate(rules, q, Intended)
  {
    if rules != [] {
      assert FixRules(rules)[1..] == FixRules(rules[1..]);
      if rules[0].Obj? {
        FixKeepsAction(rules[0]);
        FixedTypes(rules[0]);
      }
      FixGivesIntendedAnswer(rules[1..], q);
    }
  }

  /** What the first rewrite generates needs no fix. */
  lemma GeneratedNeedNoFix(mode: Mode, blocked: seq<nat>)
    requires AllLegal(blocked)
    ensures FixRules(LegacyRules(mode, blocked)) == LegacyRules(mode, blocked)
  {
    ActionsOfRules();
    BlockRuleReads(mode, blocked);
    if blocked != [] {
      QTypeRoundTrip(blocked);
    }
    FixRulesOnce(LegacyRules(mode, blocked));
  }

  // -----------------------------------------------------------------------
  // The stored text
  // -----------------------------------------------------------------------

  datatype Codec = Codec(parse: string -> Option<Fields>, show: Fields -> string)

  // Printing this configuration loses nothing of it.
  ghost predicate Survives(codec: Codec, cfg: Fields) {
    TrimSpace(codec.show(cfg)) != "" && codec.parse(codec.show(cfg)) == Some(cfg)
  }

  datatype Outcome = Unchanged | Rewritten(text: string) | Invalid

  // Both entry points: blank text, a missing list and a list that needs nothing
  // leave the stored text byte for byte as it is.
  function RewriteText(raw: string, codec: Codec, rewrite: seq<Json> -> seq<Json>): Outcome {
    if TrimSpace(raw) == "" then Unchanged
    else match codec.parse(raw)
      case None => Invalid
      case Some(cfg) =>
        var outbounds := Get(cfg, "outbounds");
        if !outbounds.Arr? then Unchanged
        else
          var r := rewrite(outbounds.items);
          if r == outbounds.items then Unchanged else Rewritten(codec.show(cfg["outbounds" := Arr(r)]))
  }

  method RewriteDNSOutboundLegacyKeys(raw: string, codec: Codec, build: Builder) returns (r: Outcome)
    ensures r == RewriteText(raw, codec, obs => RewriteOutbounds(obs, build))
  {
    if TrimSpace(raw) == "" {
      return Unchanged;
    }
    var cfg := codec.parse(raw);
    if cfg.None? {
      return Invalid;
    }
    var outbounds := Get(cfg.value, "outbounds");
    if !outbounds.Arr? {
      return Unchanged;
    }
    var out, changed := RewriteLegacyKeys(outbounds.items, build);
    if !changed {
      return Unchanged;
    }
    return Rewritten(codec.show(cfg.value["outbounds" := Arr(out)]));
  }

  method RewriteDNSOutboundQTypeZero(raw: string, codec: Codec) returns (r: Outcome)
    ensures r == RewriteText(raw, codec, FixOutbounds)
  {
    if TrimSpace(raw) == "" {
      return Unchanged;
    }
    var cfg := codec.parse(raw);
    if cfg.None? {
      return Invalid;
    }
    var outbounds := Get(cfg.value, "outbounds");
    var items := if outbounds.Arr? then outbounds.items else [];
    var out, changed := RewriteQTypeZero(items);
    if !changed {
      return Unchanged;
    }
    return Rewritten(codec.show(cfg.value["outbounds" := Arr(out)]));
  }

  // The configuration a changed text stands for.
  function RewrittenConfig(raw: string, codec: Codec, rewrite: seq<Json> -> seq<Json>): Fields
    requires RewriteText(raw, codec, rewrite).Rewritten?
  {
    var cfg := codec.parse(raw).value;
    cfg["outbounds" := Arr(rewrite(cfg["outbounds"].items))]
  }

  // Rewriting the text once is enough.
  lemma RewriteTextOnce(raw: string, codec: Codec, rewrite: seq<Json> -> seq<Json>)
    requires forall obs :: rewrite(rewrite(obs)) == rewrite(obs)
    requires RewriteText(raw, codec, rewrite).Rewritten?
    requires Survives(codec, RewrittenConfig(raw, codec, rewrite))
    ensures RewriteText(RewriteText(raw, codec, rewrite).text, codec, rewrite) == Unchanged
  {
    var outbounds := codec.parse(raw).value["outbounds"].items;
    assert rewrite(rewrite(outbounds)) == rewrite(outbounds);
  }

  /** A text either rewrite has changed is left alone by that rewrite from then
      on. All it needs of the JSON codec is that the one configuration just
      stored is read back as it was. */
  lemma BothRewritesOnce(raw: string, codec: Codec, sprint: Json -> string)
    ensures var legacy := (obs: seq<Json>) => RewriteOutbounds(obs, LegacyBuilder(sprint));
      var first := RewriteText(raw, codec, legacy);
      first.Rewritten? && Survives(codec, RewrittenConfig(raw, codec, legacy)) ==>
        RewriteText(first.text, codec, legacy) == Unchanged
    ensures var first := RewriteText(raw, codec, FixOutbounds);
      first.Rewritten? && Survives(codec, RewrittenConfig(raw, codec, FixOutbounds)) ==>
        RewriteText(first.text, codec, FixOutbounds) == Unchanged
  {
    var legacy := (obs: seq<Json>) => RewriteOutbounds(obs, LegacyBuilder(sprint));
    forall obs: seq<Json>
      ensures legacy(legacy(obs)) == legacy(obs) && FixOutbounds(FixOutbounds(obs)) == FixOutbounds(obs)
    {
      RewriteOutboundsOnce(obs, LegacyBuilder(sprint));
      FixOutboundsOnce(obs);
    }
    if RewriteText(raw, codec, legacy).Rewritten? && Survives(codec, RewrittenConfig(raw, codec, legacy)) {
      RewriteTextOnce(raw, codec, legacy);
    }
    if RewriteText(raw, codec, FixOutbounds).Rewritten? && Survives(codec, RewrittenConfig(raw, codec, FixOutbounds)) {
      RewriteTextOnce(raw, codec, FixOutbounds);
    }
  }
}
