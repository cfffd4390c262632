/** Value-level row transforms. Text primitives of the Go library (trimming, case
    mapping, replacement, JSON syntax) are parameters in Text. */
module Transform {
  import opened Wrappers

  type Bytes = string

  datatype Value = Null | Raw(bytes: Bytes)

  type Row = seq<Value>

  datatype UniversalType = Boolean | Integer | BigInt | Json | Date | Timestamp | Other

  datatype Action =
    | Trim | Lower | Upper | EmptyToNull | NullToValue | ReplaceLiteral
    | ZeroDateToNull | ZeroDateToValue | JsonCompact | Unsupported

  datatype Rule = Rule(action: Action, pattern: Bytes, value: Bytes)

  datatype ColumnPlan = ColumnPlan(from: UniversalType, to: UniversalType, rules: seq<Rule>)

  datatype Text = Text(
    trim: Bytes -> Bytes,
    lower: Bytes -> Bytes,
    upper: Bytes -> Bytes,
    replaceAll: (Bytes, Bytes, Bytes) -> Bytes,
    jsonCompact: Bytes -> Option<Bytes>,
    jsonValid: Bytes -> bool)

  datatype Plan = Plan(columns: seq<ColumnPlan>, text: Text)

  datatype Failure = WidthMismatch | UnsupportedAction | InvalidJson | InvalidBoolean | ZeroDate

  const ZERO_DATE := "0000-00-00"

  predicate IsZeroDate(t: Text, raw: Bytes) {
    ZERO_DATE <= t.trim(raw)
  }

  predicate IsIntegerType(t: UniversalType) {
    t == Integer || t == BigInt
  }

  function ParseBool(t: Text, raw: Bytes): Result<bool, Failure> {
    var s := t.lower(t.trim(raw));
    if s in {"1", "t", "true", "y", "yes", "on"} then Ok(true)
    else if s in {"0", "f", "false", "n", "no", "off"} then Ok(false)
    else Err(InvalidBoolean)
  }

  function ApplyRule(t: Text, v: Value, r: Rule): Result<Value, Failure> {
    match v
    case Null => Ok(if r.action == NullToValue then Raw(r.value) else Null)
    case Raw(s) =>
      match r.action
      case Trim => Ok(Raw(t.trim(s)))
      case Lower => Ok(Raw(t.lower(s)))
      case Upper => Ok(Raw(t.upper(s)))
      case EmptyToNull => Ok(if s == "" then Null else v)
      case ReplaceLiteral => Ok(Raw(t.replaceAll(s, r.pattern, r.value)))
      case ZeroDateToNull => Ok(if IsZeroDate(t, s) then Null else v)
      case ZeroDateToValue => Ok(if IsZeroDate(t, s) then Raw(r.value) else v)
      case JsonCompact =>
        (match t.jsonCompact(s)
         case Some(c) => Ok(Raw(c))
         case None => Err(InvalidJson))
      case NullToValue => Ok(v)
      case Unsupported => Err(UnsupportedAction)
  }

  /** Rules in declaration order, stopping at the first failure. */
  function ApplyRules(t: Text, v: Value, rules: seq<Rule>): Result<Value, Failure>
    decreases |rules|
  {
    if rules == [] then Ok(v)
    else
      var w :- ApplyRule(t, v, rules[0]);
      ApplyRules(t, w, rules[1..])
  }

  /** Conversion to the target type after the declared rules have run. */
  function Convert(t: Text, v: Value, c: ColumnPlan): Result<Value, Failure> {
    match v
    case Null => Ok(Null)
    case Raw(s) =>
      if c.from == Boolean && c.to == Boolean then
        var b :- ParseBool(t, s);
        Ok(Raw(if b then "true" else "false"))
      else if c.from == Boolean && IsIntegerType(c.to) then
        var b :- ParseBool(t, s);
        Ok(Raw(if b then "1" else "0"))
      else if IsIntegerType(c.from) && c.to == Boolean then
        if t.trim(s) == "0" then Ok(Raw("false"))
        else if t.trim(s) == "1" then Ok(Raw("true"))
        else Err(InvalidBoolean)
      else if c.to == Json then
        if t.jsonValid(t.trim(s)) then Ok(Raw(t.trim(s))) else Err(InvalidJson)
      else if (c.to == Date || c.to == Timestamp) && IsZeroDate(t, s) then Err(ZeroDate)
      else Ok(v)
  }

  function CellImage(t: Text, v: Value, c: ColumnPlan): Result<Value, Failure> {
    var w :- ApplyRules(t, v, c.rules);
    Convert(t, w, c)
  }

  function CellImages(t: Text, row: Row, columns: seq<ColumnPlan>): Result<Row, Failure>
    requires |row| == |columns|
  {
    if row == [] then Ok([])
    else
      var v :- CellImage(t, row[0], columns[0]);
      var rest :- CellImages(t, row[1..], columns[1..]);
      Ok([v] + rest)
  }

  /** The image of one source row, or the reason it has none. */
  function RowImage(p: Plan, row: Row): Result<Row, Failure> {
    if |row| != |p.columns| then Err(WidthMismatch)
    else CellImages(p.text, row, p.columns)
  }

  /** Two rule lists in a row: the second one gets what the first one lets through. */
  lemma {:induction false} RulesCompose(t: Text, v: Value, a: seq<Rule>, b: seq<Rule>)
    ensures ApplyRules(t, v, a + b) ==
            (match ApplyRules(t, v, a)
             case Ok(w) => ApplyRules(t, w, b)
             case Err(e) => Err(e))
    decreases |a|
  {
    if a == [] {
      assert a + b == b;
    } else {
      assert (a + b)[1..] == a[1..] + b;
      var w := ApplyRule(t, v, a[0]);
      if w.Ok? {
        RulesCompose(t, w.value, a[1..], b);
      }
    }
  }

  lemma OneRule(t: Text, v: Value, r: Rule)
    ensures ApplyRules(t, v, [r]) == ApplyRule(t, v, r)
  {
    assert [r][1..] == [];
    var w := ApplyRule(t, v, r);
    assert w.Ok? ==> ApplyRules(t, w.value, []) == w;
  }

  /** The per-cell loop over the column's rules. */
  method TransformValue(t: Text, v: Value, c: ColumnPlan) returns (r: Result<Value, Failure>)
    ensures r == CellImage(t, v, c)
  {
    var w := v;
    for i := 0 to |c.rules|
      invariant ApplyRules(t, v, c.rules[..i]) == Ok(w)
    {
      assert c.rules[..i + 1] == c.rules[..i] + [c.rules[i]];
      RulesCompose(t, v, c.rules[..i], [c.rules[i]]);
      OneRule(t, w, c.rules[i]);
      var next := ApplyRule(t, w, c.rules[i]);
      if next.Err? {
        assert c.rules == c.rules[..i + 1] + c.rules[i + 1..];
        RulesCompose(t, v, c.rules[..i + 1], c.rules[i + 1..]);
        return next;
      }
      w := next.value;
    }
    assert c.rules[..|c.rules|] == c.rules;
    return Convert(t, w, c);
  }

  /** Images of all rows, or the failure of the first row that has none. */
  function RowImages(p: Plan, rows: seq<Row>): Result<seq<Row>, Failure> {
    if rows == [] then Ok([])
    else
      var first :- RowImage(p, rows[0]);
      var rest :- RowImages(p, rows[1..]);
      Ok([first] + rest)
  }

  lemma {:induction false} CellImagesAppend(t: Text, row: Row, cs: seq<ColumnPlan>, v: Value, c: ColumnPlan)
    requires |row| == |cs|
    ensures CellImages(t, row + [v], cs + [c]) ==
            (match CellImages(t, row, cs)
             case Err(e) => Err(e)
             case Ok(vs) =>
               match CellImage(t, v, c)
               case Ok(w) => Ok(vs + [w])
               case Err(e) => Err(e))
  {
    if row == [] {
      assert row + [v] == [v] && cs + [c] == [c];
      var last := CellImage(t, v, c);
      if last.Ok? {
        assert [last.value] + [] == [] + [last.value];
      }
    } else {
      assert (row + [v])[1..] == row[1..] + [v] && (cs + [c])[1..] == cs[1..] + [c];
      CellImagesAppend(t, row[1..], cs[1..], v, c);
      var first, rest, last := CellImage(t, row[0], cs[0]), CellImages(t, row[1..], cs[1..]), CellImage(t, v, c);
      if first.Ok? && rest.Ok? && last.Ok? {
        assert [first.value] + (rest.value + [last.value]) == [first.value] + rest.value + [last.value];
      }
    }
  }

  lemma {:induction false} CellImagesFail(t: Text, row: Row, cs: seq<ColumnPlan>, k: nat)
    requires |row| == |cs| && k <= |row| && CellImages(t, row[..k], cs[..k]).Err?
    ensures CellImages(t, row, cs) == CellImages(t, row[..k], cs[..k])
    decreases |row| - k
  {
    if k == |row| {
      assert row[..k] == row && cs[..k] == cs;
    } else {
      assert row[..k + 1] == row[..k] + [row[k]] && cs[..k + 1] == cs[..k] + [cs[k]];
      CellImagesAppend(t, row[..k], cs[..k], row[k], cs[k]);
      CellImagesFail(t, row, cs, k + 1);
    }
  }

  method TransformRow(p: Plan, row: Row) returns (r: Result<Row, Failure>)
    ensures r == RowImage(p, row)
  {
    if |row| != |p.columns| {
      return Err(WidthMismatch);
    }
    var out: Row := [];
    for ci := 0 to |row|
      invariant CellImages(p.text, row[..ci], p.columns[..ci]) == Ok(out)
    {
      var v := TransformValue(p.text, row[ci], p.columns[ci]);
      assert row[..ci + 1] == row[..ci] + [row[ci]];
      assert p.columns[..ci + 1] == p.columns[..ci] + [p.columns[ci]];
      CellImagesAppend(p.text, row[..ci], p.columns[..ci], row[ci], p.columns[ci]);
      if v.Err? {
        CellImagesFail(p.text, row, p.columns, ci + 1);
        return Err(v.error);
      }
      out := out + [v.value];
    }
    assert row[..|row|] == row && p.columns[..|row|] == p.columns;
    return Ok(out);
  }

  /** Cutting a batch anywhere does not change the images: the transform is row-wise. */
  lemma {:induction false} RowImagesSplit(p: Plan, a: seq<Row>, b: seq<Row>)
    ensures RowImages(p, a + b) ==
            (match RowImages(p, a)
             case Err(e) => Err(e)
             case Ok(xs) =>
               match RowImages(p, b)
               case Ok(ys) => Ok(xs + ys)
               case Err(e) => Err(e))
  {
    if a == [] {
      assert a + b == b;
      assert RowImages(p, b).Ok? ==> [] + RowImages(p, b).value == RowImages(p, b).value;
    } else {
      assert (a + b)[1..] == a[1..] + b;
      RowImagesSplit(p, a[1..], b);
      var first, xs, ys := RowImage(p, a[0]), RowImages(p, a[1..]), RowImages(p, b);
      if first.Ok? && xs.Ok? && ys.Ok? {
        assert [first.value] + (xs.value + ys.value) == [first.value] + xs.value + ys.value;
      }
    }
  }

  /** A batch has images exactly when each of its rows has one, position by position. */
  lemma {:induction false} RowImagesPointwise(p: Plan, rows: seq<Row>)
    ensures RowImages(p, rows).Ok? <==> forall i | 0 <= i < |rows| :: RowImage(p, rows[i]).Ok?
    ensures RowImages(p, rows).Ok? ==> |RowImages(p, rows).value| == |rows|
    ensures RowImages(p, rows).Ok? ==>
              forall i | 0 <= i < |rows| :: RowImage(p, rows[i]) == Ok(RowImages(p, rows).value[i])
  {
    if rows != [] {
      RowImagesPointwise(p, rows[1..]);
      assert forall i | 1 <= i < |rows| :: rows[i] == rows[1..][i - 1];
      if forall i | 0 <= i < |rows| :: RowImage(p, rows[i]).Ok? {
        assert forall i | 0 <= i < |rows[1..]| :: rows[1..][i] == rows[i + 1];
      }
    }
  }

  method TransformRows(p: Plan, rows: seq<Row>) returns (r: Result<seq<Row>, Failure>)
    ensures r == RowImages(p, rows)
  {
    var out: seq<Row> := [];
    for ri := 0 to |rows|
      invariant RowImages(p, rows[..ri]) == Ok(out)
    {
      var image := TransformRow(p, rows[ri]);
      assert rows == rows[..ri + 1] + rows[ri + 1..];
      assert rows[..ri + 1] == rows[..ri] + [rows[ri]];
      RowImagesSplit(p, rows[..ri], [rows[ri]]);
      if image.Ok? {
        assert [image.value] + [] == [image.value];
      }
      if image.Err? {
        RowImagesSplit(p, rows[..ri + 1], rows[ri + 1..]);
        return Err(image.error);
      }
      out := out + [image.value];
    }
    assert rows[..|rows|] == rows;
    return Ok(out);
  }

  /** What a target column is guaranteed about every value the plan lets through. */
  ghost predicate AcceptedBy(t: Text, c: ColumnPlan, v: Value) {
    match v
    case Null => true
    case Raw(s) =>
      && (c.to == Boolean && (c.from == Boolean || IsIntegerType(c.from)) ==> s in {"true", "false"})
      && (IsIntegerType(c.to) && c.from == Boolean ==> s in {"0", "1"})
      && (c.to == Json ==> t.jsonValid(s))
      && (c.to == Date || c.to == Timestamp ==> !IsZeroDate(t, s))
  }

  /** Whatever rules a column declares, an image that is produced is fit for the target type. */
  lemma ImagesAreAccepted(p: Plan, row: Row, i: nat)
    requires RowImage(p, row).Ok? && i < |row|
    ensures |RowImage(p, row).value| == |row|
    ensures AcceptedBy(p.text, p.columns[i], RowImage(p, row).value[i])
  {
    CellImagesAt(p.text, row, p.columns, i);
  }

  lemma {:induction false} CellImagesAt(t: Text, row: Row, cs: seq<ColumnPlan>, i: nat)
    requires |row| == |cs| && i < |row| && CellImages(t, row, cs).Ok?
    ensures |CellImages(t, row, cs).value| == |row|
    ensures CellImage(t, row[i], cs[i]) == Ok(CellImages(t, row, cs).value[i])
  {
    if i > 0 {
      CellImagesAt(t, row[1..], cs[1..], i - 1);
    } else if |row| > 1 {
      CellImagesAt(t, row[1..], cs[1..], 0);
    }
  }

  /** NULL survives every rule list without a NULL replacement. */
  lemma {:induction false} NullStaysNull(t: Text, c: ColumnPlan)
    requires forall r | r in c.rules :: r.action != NullToValue
    ensures CellImage(t, Null, c) == Ok(Null)
    decreases |c.rules|
  {
    if c.rules != [] {
      assert c.rules[0] in c.rules;
      NullStaysNull(t, c.(rules := c.rules[1..]));
    }
  }

  predicate IsTextRule(r: Rule) {
    r.action in {Trim, Lower, Upper, ReplaceLiteral}
  }

  function TextImage(t: Text, s: Bytes, r: Rule): Bytes
    requires IsTextRule(r)
  {
    match r.action
    case Trim => t.trim(s)
    case Lower => t.lower(s)
    case Upper => t.upper(s)
    case ReplaceLiteral => t.replaceAll(s, r.pattern, r.value)
  }

  /** The functions of the rules composed, that of the last rule outermost. */
  function Composed(t: Text, rules: seq<Rule>, s: Bytes): Bytes
    requires forall r | r in rules :: IsTextRule(r)
    decreases |rules|
  {
    if rules == [] then s
    else
      var last := |rules| - 1;
      TextImage(t, Composed(t, rules[..last], s), rules[last])
  }

  /** Any list of text rules is the composition of their functions. */
  lemma {:induction false} TextRulesCompose(t: Text, s: Bytes, rules: seq<Rule>)
    requires forall r | r in rules :: IsTextRule(r)
    ensures ApplyRules(t, Raw(s), rules) == Ok(Raw(Composed(t, rules, s)))
    decreases |rules|
  {
    if rules != [] {
      var last := |rules| - 1;
      TextRulesCompose(t, s, rules[..last]);
      assert rules == rules[..last] + [rules[last]];
      RulesCompose(t, Raw(s), rules[..last], [rules[last]]);
      var before := Composed(t, rules[..last], s);
      OneRule(t, Raw(before), rules[last]);
      assert IsTextRule(rules[last]);
      assert Composed(t, rules, s) == TextImage(t, before, rules[last]);
    }
  }

  /** Whatever rules come first, an empty-to-NULL rule and a NULL replacement after them give
      missing values a default, and change no other. */
  lemma DefaultForMissing(t: Text, v: Value, rules: seq<Rule>, empty: Rule, missing: Rule)
    requires empty.action == EmptyToNull && missing.action == NullToValue
    ensures ApplyRules(t, v, rules + ([empty] + [missing])) ==
            (match ApplyRules(t, v, rules)
             case Ok(w) => Ok(if w.Null? || w.bytes == "" then Raw(missing.value) else w)
             case Err(e) => Err(e))
  {
    RulesCompose(t, v, rules, [empty] + [missing]);
    var w := ApplyRules(t, v, rules);
    if w.Ok? {
      RulesCompose(t, w.value, [empty], [missing]);
      OneRule(t, w.value, empty);
      OneRule(t, ApplyRule(t, w.value, empty).value, missing);
    }
  }

  /** What the rules before it leave of a value: exactly the zero dates are refused without
      a policy rule; either policy rule, as the last one, makes sure that none is left (a
      replacement that is itself no zero date). */
  lemma ZeroDatesNeedAPolicy(t: Text, v: Value, c: ColumnPlan, policy: Rule)
    requires (c.to == Date || c.to == Timestamp) && ApplyRules(t, v, c.rules).Ok?
    ensures var w := ApplyRules(t, v, c.rules).value;
            var zero := w.Raw? && IsZeroDate(t, w.bytes);
            && CellImage(t, v, c) == (if zero then Err(ZeroDate) else Ok(w))
            && (policy.action == ZeroDateToNull ==>
                  CellImage(t, v, c.(rules := c.rules + [policy])) == Ok(if zero then Null else w))
            && (policy.action == ZeroDateToValue && !IsZeroDate(t, policy.value) ==>
                  CellImage(t, v, c.(rules := c.rules + [policy])) == Ok(if zero then Raw(policy.value) else w))
  {
    RulesCompose(t, v, c.rules, [policy]);
    OneRule(t, ApplyRules(t, v, c.rules).value, policy);
  }

  /** The canonical spellings are not changed by trimming and lower-casing. */
  ghost predicate PlainText(t: Text) {
    forall s | s in {"0", "1", "true", "false"} :: t.trim(s) == s && t.lower(s) == s
  }

  /** A boolean carried through an integer column and back is the boolean carried over
      directly, and its image is stable. */
  lemma BooleanRoundTrip(t: Text, v: Value, integer: UniversalType)
    requires PlainText(t) && IsIntegerType(integer)
    ensures var direct := Convert(t, v, ColumnPlan(Boolean, Boolean, []));
            match Convert(t, v, ColumnPlan(Boolean, integer, []))
            case Err(_) => direct.Err?
            case Ok(w) => && Convert(t, w, ColumnPlan(integer, Boolean, [])) == direct
                          && direct.Ok? && Convert(t, direct.value, ColumnPlan(Boolean, Boolean, [])) == direct
  {
    assert t.lower(t.trim("true")) == "true" && t.lower(t.trim("false")) == "false";
    assert t.trim("0") == "0" && t.trim("1") == "1";
    assert "true"[0] != "false"[0] && "0"[0] != "1"[0];
  }
}
