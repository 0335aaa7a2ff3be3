/** The registry-log parser: reads the lines the drop registry writes to the
    game log and turns them into one record per item.  Each line is cleaned
    (trimmed, log prefix removed); separator lines are skipped; a line naming a
    `minecraft:` or `cobblemon:` item opens a new record; any other line is
    matched against an ordered list of labels, and the first label it contains
    decides which fields of the open record it fills. */
module RegistryLog {
  import opened Common

  /** A record is a dictionary from field name to text or a boolean. */
  datatype Value = Text(text: string) | Flag(flag: bool)

  type Record = map<string, Value>

  // ---------------------------------------------------------------- regular expressions

  /** The character class `[\d.]` or, when `digitsOnly`, `\d`. */
  predicate InClass(c: char, digitsOnly: bool)
  {
    IsDigit(c) || (!digitsOnly && c == '.')
  }

  /** The end of the longest run of class characters starting at `i`. */
  function RunEnd(s: string, i: nat, digitsOnly: bool): (e: nat)
    requires i <= |s|
    decreases |s| - i
    ensures i <= e <= |s|
    ensures forall k :: i <= k < e ==> InClass(s[k], digitsOnly)
    ensures e == |s| || !InClass(s[e], digitsOnly)
  {
    if i < |s| && InClass(s[i], digitsOnly) then RunEnd(s, i + 1, digitsOnly) else i
  }

  /** The three shapes of pattern the parser searches for.  In `NumberThen`
      the suffix never begins with a class character, so a greedy run can only
      be followed by the suffix at the run's end. */
  datatype Pattern =
    | NumberThen(digitsOnly: bool, suffix: string)   // ([\d.]+)suffix  or  (\d+)suffix
    | AfterText(prefix: string)                      // prefix([\d.]+)
    | DigitRange(suffix: string)                     // (\d+)-(\d+)suffix

  function Arity(p: Pattern): nat
  {
    if p.DigitRange? then 2 else 1
  }

  predicate IsNumber(g: string, digitsOnly: bool)
  {
    g != [] && forall k :: 0 <= k < |g| ==> InClass(g[k], digitsOnly)
  }

  /** The groups of a match of `p` that starts at index `i` of `s`, if any. */
  function MatchAt(s: string, i: nat, p: Pattern): (r: Option<seq<string>>)
    ensures r.Some? ==> |r.value| == Arity(p)
    ensures r.Some? ==> forall g :: g in r.value ==> IsNumber(g, p.DigitRange? || (p.NumberThen? && p.digitsOnly))
  {
    if i >= |s| then None
    else match p
      case NumberThen(d, suffix) =>
        var e := RunEnd(s, i, d);
        if InClass(s[i], d) && StartsWith(s[e..], suffix) then Some([s[i..e]]) else None
      case AfterText(prefix) =>
        var j := i + |prefix|;
        if OccursAt(s, prefix, i) && j < |s| && InClass(s[j], false)
        then Some([s[j..RunEnd(s, j, false)]])
        else None
      case DigitRange(suffix) =>
        var e1 := RunEnd(s, i, true);
        if IsDigit(s[i]) && e1 + 1 < |s| && s[e1] == '-' && IsDigit(s[e1 + 1]) then
          var e2 := RunEnd(s, e1 + 1, true);
          if StartsWith(s[e2..], suffix) then Some([s[i..e1], s[e1 + 1..e2]]) else None
        else None
  }

  function SearchFrom(s: string, p: Pattern, from: nat): (r: Option<seq<string>>)
    decreases |s| - from
    ensures r.Some? ==> |r.value| == Arity(p)
    ensures r.Some? ==> exists i :: from <= i && MatchAt(s, i, p) == r
                          && forall j :: from <= j < i ==> MatchAt(s, j, p).None?
    ensures r.None? ==> forall i :: from <= i ==> MatchAt(s, i, p).None?
  {
    if from >= |s| then None
    else if MatchAt(s, from, p).Some? then MatchAt(s, from, p)
    else SearchFrom(s, p, from + 1)
  }

  /** `re.search`: the groups of the leftmost match, if there is one. */
  function Search(s: string, p: Pattern): (r: Option<seq<string>>)
    ensures r.Some? ==> |r.value| == Arity(p)
    ensures r.Some? ==> exists i: nat :: MatchAt(s, i, p) == r && forall j :: 0 <= j < i ==> MatchAt(s, j, p).None?
    ensures r.None? <==> forall i :: MatchAt(s, i, p).None?
  {
    SearchFrom(s, p, 0)
  }

  // ---------------------------------------------------------------- the label chain

  datatype Action =
    | SetGroups(pattern: Pattern, keys: seq<string>)         // one field per group, only on a match
    | SetFlag(key: string)                                   // whether the line says `true`
    | SetModifier(pattern: Pattern, key: string, flagKey: string, marker: string)
    | SetRest(key: string)                                   // the trimmed text after the label

  datatype Rule = Rule(heading: string, action: Action)

  /** The `elif` chain, in source order. */
  const Rules: seq<Rule> := [
    Rule("Avg Drop Chance:", SetGroups(NumberThen(false, "%"), ["avg_drop_chance"])),
    Rule("Avg Drop Quantity:", SetGroups(NumberThen(false, ""), ["avg_drop_quantity"])),
    Rule("Pokemon Count:", SetGroups(NumberThen(true, " pokemon"), ["pokemon_count"])),
    Rule("Cobblemon-Exclusive:", SetFlag("cobblemon_exclusive")),
    Rule("Craftable:", SetFlag("craftable")),
    Rule("Growable:", SetFlag("growable")),
    Rule("Rarity Score:", SetGroups(AfterText("Rarity Score: "), ["rarity_score"])),
    Rule("Exclusivity Multiplier:", SetGroups(NumberThen(false, "x"), ["exclusivity_mult"])),
    Rule("Craftability Multiplier:", SetGroups(NumberThen(false, "x"), ["craftability_mult"])),
    Rule("Availability Divisor:", SetGroups(NumberThen(false, ""), ["availability"])),
    Rule("Gameplay Modifier:", SetModifier(NumberThen(false, "x"), "gameplay_modifier", "has_custom_modifier", "(CUSTOM)")),
    Rule("Global Multiplier:", SetGroups(NumberThen(false, "x"), ["global_mult"])),
    Rule("Calculated Base Value:", SetGroups(NumberThen(false, " relic coins"), ["base_value"])),
    Rule("Price Range", SetGroups(DigitRange(" coins"), ["price_min", "price_max"])),
    Rule("Dropped by:", SetRest("dropped_by"))
  ]

  const ItemIdKey := "item_id"

  function ActionKeys(a: Action): set<string>
  {
    match a
    case SetGroups(_, keys) => set k | k in keys
    case SetFlag(key) => {key}
    case SetModifier(_, key, flagKey, _) => {key, flagKey}
    case SetRest(key) => {key}
  }

  /** The index of the first rule whose label occurs in the line. */
  function FirstRuleFrom(line: string, from: nat): (r: Option<nat>)
    requires from <= |Rules|
    decreases |Rules| - from
    ensures r.Some? ==> from <= r.value < |Rules| && Contains(line, Rules[r.value].heading)
    ensures r.Some? ==> forall j :: from <= j < r.value ==> !Contains(line, Rules[j].heading)
    ensures r.None? ==> forall j :: from <= j < |Rules| ==> !Contains(line, Rules[j].heading)
  {
    if from == |Rules| then None
    else if Contains(line, Rules[from].heading) then Some(from)
    else FirstRuleFrom(line, from + 1)
  }

  function FirstRule(line: string): Option<nat>
  {
    FirstRuleFrom(line, 0)
  }

  /** Sets `keys[k]` to `values[k]`, pairwise. */
  function SetAll(rec: Record, keys: seq<string>, values: seq<string>): (r: Record)
    ensures forall k :: k !in keys ==> (k in r <==> k in rec) && (k in rec ==> r[k] == rec[k])
    ensures forall n :: 0 <= n < |keys| && n < |values| && keys[n] !in keys[n + 1..] ==> keys[n] in r && r[keys[n]] == Text(values[n])
    ensures rec.Keys <= r.Keys
    decreases |keys|
  {
    if keys == [] || values == [] then rec
    else SetAll(rec[keys[0] := Text(values[0])], keys[1..], values[1..])
  }

  function ApplyAction(rec: Record, line: string, heading: string, a: Action): Record
    requires Contains(line, heading)
  {
    match a
    case SetGroups(p, keys) =>
      var m := Search(line, p);
      if m.Some? then SetAll(rec, keys, m.value) else rec
    case SetFlag(key) =>
      rec[key := Flag(Contains(Lower(line), "true"))]
    case SetModifier(p, key, flagKey, marker) =>
      var m := Search(line, p);
      if m.Some? then rec[key := Text(m.value[0])][flagKey := Flag(Contains(line, marker))] else rec
    case SetRest(key) =>
      rec[key := Text(Strip(AfterFirst(line, heading)))]
  }

  /** A field line: the first matching label, if any, fills its fields. */
  function ApplyFields(rec: Record, line: string): Record
  {
    match FirstRule(line)
    case None => rec
    case Some(n) => ApplyAction(rec, line, Rules[n].heading, Rules[n].action)
  }

  // ---------------------------------------------------------------- lines

  /** Trims the line and drops everything through the first `]:` (the log
      prefix), trimming again after it. */
  function Clean(raw: string): string
  {
    var line := Strip(raw);
    if Contains(line, "]:") then Strip(AfterFirst(line, "]:")) else line
  }

  function CleanAll(raws: seq<string>): (lines: seq<string>)
    ensures |lines| == |raws|
  {
    if raws == [] then [] else CleanAll(raws[..|raws| - 1]) + [Clean(raws[|raws| - 1])]
  }

  predicate IsSeparator(line: string)
  {
    Contains(line, "===") || Contains(line, "---")
  }

  predicate IsStart(line: string)
  {
    StartsWith(line, "minecraft:") || StartsWith(line, "cobblemon:")
  }

  /** A cleaned line that opens a record. */
  predicate OpensRecord(line: string)
  {
    !IsSeparator(line) && IsStart(line)
  }

  datatype ParseState = ParseState(items: seq<Record>, current: Record)

  const Initial := ParseState([], map[])

  /** The closed records plus the open one, if it is non-empty. */
  function Flush(st: ParseState): seq<Record>
  {
    if st.current != map[] then st.items + [st.current] else st.items
  }

  /** What a line that neither separates nor opens a record does to the open
      record.  The parser uses `ApplyFields`; the line structure below holds
      for any handler that leaves `item_id` alone. */
  type FieldHandler = (Record, string) -> Record

  ghost predicate KeepsItemId(fields: FieldHandler)
  {
    forall rec, line :: ItemIdKey in fields(rec, line) <==> ItemIdKey in rec
  }

  /** One iteration of the parser's loop, on a cleaned line. */
  function Step(st: ParseState, line: string, fields: FieldHandler): ParseState
  {
    if IsSeparator(line) then st
    else if IsStart(line) then ParseState(Flush(st), map[ItemIdKey := Text(line)])
    else ParseState(st.items, fields(st.current, line))
  }

  /** The state after the given cleaned lines. */
  function Run(lines: seq<string>, fields: FieldHandler): ParseState
  {
    if lines == [] then Initial else Step(Run(lines[..|lines| - 1], fields), lines[|lines| - 1], fields)
  }

  /** The records produced from the raw lines of a log. */
  function Parse(raws: seq<string>): seq<Record>
  {
    Flush(Run(CleanAll(raws), ApplyFields))
  }

  /** One more raw line is one more step of the loop. */
  lemma RunOneMore(raws: seq<string>, i: nat, fields: FieldHandler)
    requires i < |raws|
    ensures Run(CleanAll(raws[..i + 1]), fields) == Step(Run(CleanAll(raws[..i]), fields), Clean(raws[i]), fields)
  {
    var done := CleanAll(raws[..i]);
    assert raws[..i + 1][..i] == raws[..i];
    assert CleanAll(raws[..i + 1]) == done + [Clean(raws[i])];
    assert (done + [Clean(raws[i])])[..i] == done;
  }

  /** `parse_log_file`, given the lines of the file. */
  method ParseLogFile(raws: seq<string>) returns (items: seq<Record>)
    ensures items == Parse(raws)
  {
    items := [];
    var current: Record := map[];
    var fields: FieldHandler := ApplyFields;  // the label chain
    for i := 0 to |raws|
      invariant ParseState(items, current) == Run(CleanAll(raws[..i]), fields)
    {
      var line := Clean(raws[i]);
      RunOneMore(raws, i, fields);
      if !Contains(line, "===") && !Contains(line, "---") {
        if StartsWith(line, "minecraft:") || StartsWith(line, "cobblemon:") {
          if current != map[] {
            items := items + [current];
          }
          current := map[ItemIdKey := Text(line)];
        } else {
          current := fields(current, line);
        }
      }
    }
    assert raws[..|raws|] == raws;
    if current != map[] {
      items := items + [current];
    }
  }

  // ---------------------------------------------------------------- properties

  /** A separator line changes nothing, wherever it appears. */
  lemma SeparatorIsSkipped(lines: seq<string>, line: string, fields: FieldHandler)
    requires IsSeparator(line)
    ensures Run(lines + [line], fields) == Run(lines, fields)
  {
    assert (lines + [line])[..|lines|] == lines;
  }

  /** A start line closes the open record when it is non-empty and opens one
      whose `item_id` is the whole cleaned line. */
  lemma StartLineOpensRecord(lines: seq<string>, line: string, fields: FieldHandler)
    requires OpensRecord(line)
    ensures Run(lines + [line], fields).current == map[ItemIdKey := Text(line)]
    ensures Run(lines + [line], fields).items == Flush(Run(lines, fields))
  {
    assert (lines + [line])[..|lines|] == lines;
  }

  /** Only the fields of the first label the line contains can change. */
  lemma FieldLineTouchesOnlyFirstRule(rec: Record, line: string, k: string)
    requires FirstRule(line).Some?
    requires k !in ActionKeys(Rules[FirstRule(line).value].action)
    ensures k in ApplyFields(rec, line) <==> k in rec
    ensures k in rec ==> ApplyFields(rec, line)[k] == rec[k]
  {
  }

  /** A line with no label leaves the record as it was. */
  lemma UnlabelledLineIsIgnored(rec: Record, line: string)
    requires FirstRule(line).None?
    ensures ApplyFields(rec, line) == rec
  {
  }

  /** `cobblemon_exclusive`, `craftable` and `growable` record whether the
      lower-cased line says `true`. */
  lemma FlagFields(rec: Record, line: string)
    requires FirstRule(line).Some? && Rules[FirstRule(line).value].action.SetFlag?
    ensures var key := Rules[FirstRule(line).value].action.key;
      key in {"cobblemon_exclusive", "craftable", "growable"}
      && ApplyFields(rec, line) == rec[key := Flag(Contains(Lower(line), "true"))]
  {
    FlagRules(FirstRule(line).value);
  }

  /** The three rules that set a flag. */
  lemma FlagRules(n: nat)
    requires n < |Rules| && Rules[n].action.SetFlag?
    ensures Rules[n].action.key in {"cobblemon_exclusive", "craftable", "growable"}
  {
  }

  /** The gameplay modifier and the custom flag are set together, and only
      when a number followed by `x` was found. */
  lemma GameplayModifier(rec: Record, line: string)
    requires FirstRule(line) == Some(10)
    ensures var m := Search(line, NumberThen(false, "x"));
      (m.None? ==> ApplyFields(rec, line) == rec)
      && (m.Some? ==> (ApplyFields(rec, line) ==
            rec["gameplay_modifier" := Text(m.value[0])]["has_custom_modifier" := Flag(Contains(line, "(CUSTOM)"))]))
  {
    GameplayModifierRule();
  }

  lemma GameplayModifierRule()
    ensures Rules[10] == Rule("Gameplay Modifier:", SetModifier(NumberThen(false, "x"), "gameplay_modifier", "has_custom_modifier", "(CUSTOM)"))
  {
  }

  /** A price range line sets both ends from the two groups of the first
      match, and leaves the record alone when there is none. */
  lemma PriceRange(rec: Record, line: string)
    requires FirstRule(line) == Some(13)
    ensures var m := Search(line, DigitRange(" coins"));
      && (m.None? ==> ApplyFields(rec, line) == rec)
      && (m.Some? ==>
            |m.value| == 2 && ApplyFields(rec, line) == rec["price_min" := Text(m.value[0])]["price_max" := Text(m.value[1])])
  {
    var m := Search(line, DigitRange(" coins"));
    ApplyPriceRange(rec, line, m);
    if m.Some? {
      SetPriceRange(rec, m.value);
    }
  }

  lemma SetPriceRange(rec: Record, v: seq<string>)
    requires |v| == 2
    ensures SetAll(rec, ["price_min", "price_max"], v) == rec["price_min" := Text(v[0])]["price_max" := Text(v[1])]
  {
    assert v == [v[0], v[1]];
    assert "price_min"[7] != "price_max"[7];
    SetTwo(rec, "price_min", "price_max", v[0], v[1]);
  }

  /** Both ends are digit strings; nothing compares them. */
  lemma PriceRangeDigits(line: string)
    ensures var m := Search(line, DigitRange(" coins"));
      m.Some? ==> |m.value| == 2 && IsNumber(m.value[0], true) && IsNumber(m.value[1], true)
  {
    var m := Search(line, DigitRange(" coins"));
    if m.Some? {
      var i: nat :| MatchAt(line, i, DigitRange(" coins")) == m;
      assert m.value[0] in m.value && m.value[1] in m.value;
    }
  }

  /** The price range line is handled by the price range rule. */
  lemma ApplyPriceRange(rec: Record, line: string, m: Option<seq<string>>)
    requires FirstRule(line) == Some(13) && m == Search(line, DigitRange(" coins"))
    ensures ApplyFields(rec, line) == if m.Some? then SetAll(rec, ["price_min", "price_max"], m.value) else rec
  {
    PriceRangeRule();
  }

  lemma PriceRangeRule()
    ensures Rules[13] == Rule("Price Range", SetGroups(DigitRange(" coins"), ["price_min", "price_max"]))
  {
  }

  /** Setting two distinct keys from two groups. */
  lemma SetTwo(rec: Record, k0: string, k1: string, v0: string, v1: string)
    requires k0 != k1
    ensures SetAll(rec, [k0, k1], [v0, v1]) == rec[k0 := Text(v0)][k1 := Text(v1)]
  {
    var rec' := rec[k0 := Text(v0)];
    assert [k0, k1][1..] == [k1] && [v0, v1][1..] == [v1];
    assert SetAll(rec', [k1], [v1]) == SetAll(rec'[k1 := Text(v1)], [], []);
  }

  /** A later line that sets a field overwrites the earlier value. */
  lemma LaterValueWins(lines: seq<string>, line: string, key: string)
    requires !IsStart(line) && !IsSeparator(line)
    requires FirstRule(line).Some?
    requires Rules[FirstRule(line).value].action.SetFlag?
    requires Rules[FirstRule(line).value].action.key == key
    ensures key in Run(lines + [line], ApplyFields).current
    ensures Run(lines + [line], ApplyFields).current[key] == Flag(Contains(Lower(line), "true"))
  {
    assert (lines + [line])[..|lines|] == lines;
  }

  lemma ItemIdIsNoRuleKey(n: nat)
    requires n < |Rules|
    ensures ItemIdKey !in ActionKeys(Rules[n].action)
  {
  }

  /** Field lines never remove a field. */
  lemma FieldLineKeepsKeys(rec: Record, line: string)
    ensures rec.Keys <= ApplyFields(rec, line).Keys
  {
  }

  lemma ApplyFieldsKeepsItemId()
    ensures KeepsItemId(ApplyFields)
  {
    forall rec, line
      ensures ItemIdKey in ApplyFields(rec, line) <==> ItemIdKey in rec
    {
      FieldLineKeepsKeys(rec, line);
      match FirstRule(line)
      case None =>
      case Some(n) =>
        ItemIdIsNoRuleKey(n);
        FieldLineTouchesOnlyFirstRule(rec, line, ItemIdKey);
    }
  }

  /** What one line does to the closed list and to the `item_id` of the open record. */
  lemma StepShape(st: ParseState, line: string, fields: FieldHandler)
    requires KeepsItemId(fields)
    ensures Step(st, line, fields).items == if OpensRecord(line) then Flush(st) else st.items
    ensures OpensRecord(line) ==> ItemIdKey in Step(st, line, fields).current
    ensures !OpensRecord(line) ==> (ItemIdKey in Step(st, line, fields).current <==> ItemIdKey in st.current)
  {
  }

  /** Lines that open no record leave the closed list empty. */
  lemma {:induction false} NoStartNoItems(pre: seq<string>, fields: FieldHandler)
    requires KeepsItemId(fields)
    requires forall k :: 0 <= k < |pre| ==> !OpensRecord(pre[k])
    ensures Run(pre, fields).items == []
    ensures ItemIdKey !in Run(pre, fields).current
  {
    if pre != [] {
      var init := pre[..|pre| - 1];
      NoStartNoItems(init, fields);
      StepShape(Run(init, fields), pre[|pre| - 1], fields);
    }
  }

  function Starts(lines: seq<string>): nat
  {
    if lines == [] then 0
    else Starts(lines[..|lines| - 1]) + (if OpensRecord(lines[|lines| - 1]) then 1 else 0)
  }

  lemma {:induction false} StartsPositive(lines: seq<string>)
    requires lines != [] && OpensRecord(lines[0])
    ensures Starts(lines) >= 1
  {
    if |lines| > 1 {
      var init := lines[..|lines| - 1];
      assert init[0] == lines[0];
      StartsPositive(init);
    }
  }

  /** The last of the lines after `pre` is the last step of the run. */
  lemma RunLast(pre: seq<string>, rest: seq<string>, fields: FieldHandler)
    requires rest != []
    ensures Run(pre + rest, fields) == Step(Run(pre + rest[..|rest| - 1], fields), rest[|rest| - 1], fields)
    ensures Starts(rest) == Starts(rest[..|rest| - 1]) + (if OpensRecord(rest[|rest| - 1]) then 1 else 0)
  {
    var lines := pre + rest;
    assert lines[..|lines| - 1] == pre + rest[..|rest| - 1];
    assert lines[|lines| - 1] == rest[|rest| - 1];
  }

  /** Once a start line has been read, the open record has an `item_id`. */
  lemma {:induction false} RunShapeItemId(pre: seq<string>, rest: seq<string>, fields: FieldHandler)
    requires KeepsItemId(fields)
    requires rest != [] && OpensRecord(rest[0])
    ensures ItemIdKey in Run(pre + rest, fields).current
  {
    var restInit := rest[..|rest| - 1];
    RunLast(pre, rest, fields);
    StepShape(Run(pre + restInit, fields), rest[|rest| - 1], fields);
    if |rest| > 1 {
      assert restInit[0] == rest[0];
      RunShapeItemId(pre, restInit, fields);
    }
  }

  /** One closed record per start line after the first, plus the preamble
      when it is non-empty. */
  lemma {:induction false} RunShape(pre: seq<string>, rest: seq<string>, fields: FieldHandler)
    requires KeepsItemId(fields)
    requires forall k :: 0 <= k < |pre| ==> !OpensRecord(pre[k])
    requires rest != [] && OpensRecord(rest[0])
    ensures |Run(pre + rest, fields).items| + 1
              == Starts(rest) + (if Run(pre, fields).current != map[] then 1 else 0)
  {
    var restInit := rest[..|rest| - 1];
    RunLast(pre, rest, fields);
    StepShape(Run(pre + restInit, fields), rest[|rest| - 1], fields);
    if |rest| == 1 {
      assert pre + restInit == pre;
      assert Starts(restInit) == 0;
      NoStartNoItems(pre, fields);
    } else {
      assert restInit[0] == rest[0];
      RunShape(pre, restInit, fields);
      RunShapeItemId(pre, restInit, fields);
    }
  }

  /** A non-empty preamble is the first record closed. */
  lemma {:induction false} RunShapePreamble(pre: seq<string>, rest: seq<string>, fields: FieldHandler)
    requires KeepsItemId(fields)
    requires forall k :: 0 <= k < |pre| ==> !OpensRecord(pre[k])
    requires rest != [] && OpensRecord(rest[0])
    requires Run(pre, fields).current != map[]
    ensures |Run(pre + rest, fields).items| > 0 && Run(pre + rest, fields).items[0] == Run(pre, fields).current
  {
    var restInit := rest[..|rest| - 1];
    RunLast(pre, rest, fields);
    StepShape(Run(pre + restInit, fields), rest[|rest| - 1], fields);
    if |rest| == 1 {
      assert pre + restInit == pre;
      NoStartNoItems(pre, fields);
    } else {
      assert restInit[0] == rest[0];
      RunShapePreamble(pre, restInit, fields);
    }
  }

  /** One record per start line, plus one record for the field lines that
      come before the first start line when they filled any field; that record
      has no `item_id`. */
  lemma {:induction false} RecordCount(raws: seq<string>, pre: seq<string>, rest: seq<string>)
    requires CleanAll(raws) == pre + rest
    requires forall k :: 0 <= k < |pre| ==> !OpensRecord(pre[k])
    requires rest == [] || OpensRecord(rest[0])
    ensures var preamble := Run(pre, ApplyFields).current;
      |Parse(raws)| == Starts(rest) + (if preamble != map[] then 1 else 0)
      && (preamble != map[] ==> Parse(raws)[0] == preamble && ItemIdKey !in preamble)
  {
    ApplyFieldsKeepsItemId();
    NoStartNoItems(pre, ApplyFields);
    if rest == [] {
      assert pre + rest == pre;
    } else {
      RunShape(pre, rest, ApplyFields);
      RunShapeItemId(pre, rest, ApplyFields);
      if Run(pre, ApplyFields).current != map[] {
        RunShapePreamble(pre, rest, ApplyFields);
      }
    }
  }
}
