/** What becomes of a value, rule by rule and conversion by conversion, spelled out. */
module TransformMeaning {
  import opened Wrappers
  import opened Transform

  predicate SaysTrue(word: Bytes) {
    word == "1" || word == "t" || word == "true" || word == "y" || word == "yes" || word == "on"
  }

  predicate SaysFalse(word: Bytes) {
    word == "0" || word == "f" || word == "false" || word == "n" || word == "no" || word == "off"
  }

  /** The trimmed text starts with a zero date. */
  predicate StartsWithZeroDate(t: Text, s: Bytes) {
    |t.trim(s)| >= 10 && t.trim(s)[..10] == "0000-00-00"
  }

  lemma ZeroDatePrefix(t: Text, s: Bytes)
    ensures IsZeroDate(t, s) <==> StartsWithZeroDate(t, s)
  {
    assert |"0000-00-00"| == 10;
  }

  // ----- rules

  /** What one more rule does to the value that the rules before it leave. */
  lemma RuleMeaning(t: Text, v: Value, rules: seq<Rule>, r: Rule, w: Value)
    requires ApplyRules(t, v, rules) == Ok(w)
    ensures w == Null ==> ApplyRules(t, v, rules + [r]) == Ok(if r.action == NullToValue then Raw(r.value) else Null)
    ensures w.Raw? ==>
              && (r.action == Trim ==> ApplyRules(t, v, rules + [r]) == Ok(Raw(t.trim(w.bytes))))
              && (r.action == Lower ==> ApplyRules(t, v, rules + [r]) == Ok(Raw(t.lower(w.bytes))))
              && (r.action == Upper ==> ApplyRules(t, v, rules + [r]) == Ok(Raw(t.upper(w.bytes))))
              && (r.action == EmptyToNull ==> ApplyRules(t, v, rules + [r]) == Ok(if |w.bytes| == 0 then Null else w))
              && (r.action == NullToValue ==> ApplyRules(t, v, rules + [r]) == Ok(w))
              && (r.action == ReplaceLiteral ==>
                    ApplyRules(t, v, rules + [r]) == Ok(Raw(t.replaceAll(w.bytes, r.pattern, r.value))))
              && (r.action == ZeroDateToNull ==>
                    ApplyRules(t, v, rules + [r]) == Ok(if StartsWithZeroDate(t, w.bytes) then Null else w))
              && (r.action == ZeroDateToValue ==>
                    ApplyRules(t, v, rules + [r]) == Ok(if StartsWithZeroDate(t, w.bytes) then Raw(r.value) else w))
              && (r.action == JsonCompact ==>
                    ApplyRules(t, v, rules + [r])
                    == match t.jsonCompact(w.bytes) case Some(c) => Ok(Raw(c)) case None => Err(InvalidJson))
              && (r.action == Unsupported ==> ApplyRules(t, v, rules + [r]) == Err(UnsupportedAction))
  {
    RulesCompose(t, v, rules, [r]);
    OneRule(t, w, r);
    if w.Raw? {
      ZeroDatePrefix(t, w.bytes);
    }
  }

  /** Without rules nothing happens, and after a failure nothing more. */
  lemma RulesStop(t: Text, v: Value, rules: seq<Rule>, more: seq<Rule>)
    ensures ApplyRules(t, v, []) == Ok(v)
    ensures ApplyRules(t, v, rules).Err? ==> ApplyRules(t, v, rules + more) == ApplyRules(t, v, rules)
  {
    RulesCompose(t, v, rules, more);
  }

  // ----- conversions

  /** The pair of types asks for a boolean to be respelled. */
  predicate Respells(from: UniversalType, to: UniversalType) {
    || (from == Boolean && (to == Boolean || to == Integer || to == BigInt))
    || ((from == Integer || from == BigInt) && to == Boolean)
  }

  /** What the rules leave is the image, unless the pair of types asks for a conversion. */
  lemma PlainValueIsCopied(t: Text, v: Value, c: ColumnPlan, w: Value)
    requires ApplyRules(t, v, c.rules) == Ok(w)
    requires w == Null || (!Respells(c.from, c.to) && c.to != Json
                           && !((c.to == Date || c.to == Timestamp) && StartsWithZeroDate(t, w.bytes)))
    ensures CellImage(t, v, c) == Ok(w)
  {
    if w.Raw? {
      ZeroDatePrefix(t, w.bytes);
    }
  }

  lemma BooleanMeaning(t: Text, v: Value, c: ColumnPlan, w: Value)
    requires ApplyRules(t, v, c.rules) == Ok(w) && w.Raw? && c.from == Boolean
    ensures var word := t.lower(t.trim(w.bytes));
            && (c.to == Boolean ==>
                  CellImage(t, v, c) == if SaysTrue(word) then Ok(Raw("true")) else if SaysFalse(word) then Ok(Raw("false"))
                                        else Err(InvalidBoolean))
            && (c.to == Integer || c.to == BigInt ==>
                  CellImage(t, v, c) == if SaysTrue(word) then Ok(Raw("1")) else if SaysFalse(word) then Ok(Raw("0"))
                                        else Err(InvalidBoolean))
  {
  }

  /** Of the integers only 0 and 1 become booleans. */
  lemma IntegerMeaning(t: Text, v: Value, c: ColumnPlan, w: Value)
    requires ApplyRules(t, v, c.rules) == Ok(w) && w.Raw? && (c.from == Integer || c.from == BigInt) && c.to == Boolean
    ensures t.trim(w.bytes) == "1" ==> CellImage(t, v, c) == Ok(Raw("true"))
    ensures t.trim(w.bytes) == "0" ==> CellImage(t, v, c) == Ok(Raw("false"))
    ensures t.trim(w.bytes) != "0" && t.trim(w.bytes) != "1" ==> CellImage(t, v, c) == Err(InvalidBoolean)
  {
    assert "0"[0] != "1"[0];
  }

  lemma JsonMeaning(t: Text, v: Value, c: ColumnPlan, w: Value)
    requires ApplyRules(t, v, c.rules) == Ok(w) && w.Raw? && c.to == Json
    ensures CellImage(t, v, c) == if t.jsonValid(t.trim(w.bytes)) then Ok(Raw(t.trim(w.bytes))) else Err(InvalidJson)
  {
  }

  lemma ZeroDateMeaning(t: Text, v: Value, c: ColumnPlan, w: Value)
    requires ApplyRules(t, v, c.rules) == Ok(w) && w.Raw? && (c.to == Date || c.to == Timestamp)
    requires StartsWithZeroDate(t, w.bytes)
    ensures CellImage(t, v, c) == Err(ZeroDate)
  {
    ZeroDatePrefix(t, w.bytes);
  }

  lemma FailedRulesFailTheCell(t: Text, v: Value, c: ColumnPlan)
    requires ApplyRules(t, v, c.rules).Err?
    ensures CellImage(t, v, c) == Err(ApplyRules(t, v, c.rules).error)
  {
  }

  // ----- rows and batches

  ghost predicate FailsFirstAt(p: Plan, row: Row, i: nat, e: Failure) {
    && i < |row| == |p.columns| && CellImage(p.text, row[i], p.columns[i]) == Err(e)
    && forall j | 0 <= j < i :: CellImage(p.text, row[j], p.columns[j]).Ok?
  }

  /** The image of a row holds the images of its cells in their places. It fails on a wrong
      width, and otherwise exactly if a cell fails, with the failure of the first one. */
  lemma RowMeaning(p: Plan, row: Row)
    ensures |row| != |p.columns| ==> RowImage(p, row) == Err(WidthMismatch)
    ensures |row| == |p.columns| ==>
              match RowImage(p, row)
              case Ok(out) => |out| == |row| && forall i | 0 <= i < |row| :: CellImage(p.text, row[i], p.columns[i]) == Ok(out[i])
              case Err(e) => exists i :: FailsFirstAt(p, row, i, e)
  {
    if |row| == |p.columns| {
      CellsMeaning(p.text, row, p.columns);
      match RowImage(p, row)
      case Ok(_) =>
      case Err(e) =>
        var i := FirstFailure(p.text, row, p.columns);
        assert FailsFirstAt(p, row, i, e);
    }
  }

  lemma CellsMeaning(t: Text, row: Row, cs: seq<ColumnPlan>)
    requires |row| == |cs|
    ensures CellImages(t, row, cs).Ok? ==>
              && |CellImages(t, row, cs).value| == |row|
              && forall i | 0 <= i < |row| :: CellImage(t, row[i], cs[i]) == Ok(CellImages(t, row, cs).value[i])
  {
    if CellImages(t, row, cs).Ok? && row != [] {
      forall i | 0 <= i < |row|
        ensures |CellImages(t, row, cs).value| == |row| && CellImage(t, row[i], cs[i]) == Ok(CellImages(t, row, cs).value[i])
      {
        CellImagesAt(t, row, cs, i);
      }
      assert 0 < |row|;
    }
  }

  lemma {:induction false} FirstFailure(t: Text, row: Row, cs: seq<ColumnPlan>) returns (i: nat)
    requires |row| == |cs| && CellImages(t, row, cs).Err?
    ensures i < |row| && CellImage(t, row[i], cs[i]) == Err(CellImages(t, row, cs).error)
    ensures forall j | 0 <= j < i :: CellImage(t, row[j], cs[j]).Ok?
  {
    if CellImage(t, row[0], cs[0]).Err? {
      i := 0;
    } else {
      var k := FirstFailure(t, row[1..], cs[1..]);
      i := k + 1;
      forall j | 0 <= j < i ensures CellImage(t, row[j], cs[j]).Ok? {
        if j > 0 {
          assert row[j] == row[1..][j - 1] && cs[j] == cs[1..][j - 1];
        }
      }
    }
  }

  /** A batch without images fails with the failure of its first row that has none. */
  lemma {:induction false} BatchFailure(p: Plan, rows: seq<Row>) returns (i: nat)
    requires RowImages(p, rows).Err?
    ensures i < |rows| && RowImage(p, rows[i]) == Err(RowImages(p, rows).error)
    ensures forall j | 0 <= j < i :: RowImage(p, rows[j]).Ok?
  {
    if RowImage(p, rows[0]).Err? {
      i := 0;
    } else {
      var k := BatchFailure(p, rows[1..]);
      i := k + 1;
      forall j | 0 <= j < i ensures RowImage(p, rows[j]).Ok? {
        if j > 0 {
          assert rows[j] == rows[1..][j - 1];
        }
      }
    }
  }
}
