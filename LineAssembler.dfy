/**
 * One data line: split, quote stripping, conversion to the setter's
 * parameter type and assignment, in column order, stopping at the first
 * exception (CSVFileReader.processLine).
 */
module LineAssembler {
  import opened Options
  import opened JavaText
  import opened JavaNumbers
  import opened CsvTypes

  /**
   * A token starting with '"' loses its first and last characters, whatever
   * the last one is; a lone '"' makes substring(1, 0) throw.
   */
  function StripQuote(token: string): (r: Result<string>)
    ensures r.Err? <==> token == "\""
    ensures r.Err? ==> r.failure == IndexOutOfBounds(token)
    ensures r.Ok? && StartsWith(token, '"') ==> token == "\"" + r.value + [token[|token| - 1]]
    ensures !StartsWith(token, '"') ==> r == Ok(token)
  {
    if StartsWith(token, '"') then
      if |token| < 2 then Err(IndexOutOfBounds(token)) else Ok(token[1..|token| - 1])
    else Ok(token)
  }

  /** Quoting a text and stripping the quotes gives the text back. */
  lemma QuoteRoundTrip(s: string)
    ensures StripQuote("\"" + s + "\"") == Ok(s)
  {
    var q := "\"" + s + "\"";
    assert q[1..|q| - 1] == s;
  }

  /**
   * The value passed to a setter with parameter type `param`: parseLong for
   * Long, parseInt for Integer, the token itself for String, and an
   * exception for every other type.
   */
  function Convert(token: string, param: JType): (r: Result<Value>)
    ensures param == JString ==> r == Ok(StringValue(token))
    ensures param.OtherType? ==> r == Err(UnsupportedType(param.name))
    ensures param == BoxedLong ==>
      r == if DecimalText(token) && LongMin <= DecimalValue(token) <= LongMax
           then Ok(LongValue(DecimalValue(token))) else Err(NumberFormat(token))
    ensures param == BoxedInteger ==>
      r == if DecimalText(token) && IntMin <= DecimalValue(token) <= IntMax
           then Ok(IntegerValue(DecimalValue(token))) else Err(NumberFormat(token))
  {
    match param
    case BoxedLong =>
      (match ParseLong(token) case Some(v) => Ok(LongValue(v)) case None => Err(NumberFormat(token)))
    case BoxedInteger =>
      (match ParseInt(token) case Some(v) => Ok(IntegerValue(v)) case None => Err(NumberFormat(token)))
    case JString => Ok(StringValue(token))
    case OtherType(name) => Err(UnsupportedType(name))
  }

  /** A number written in decimal converts back to itself for both numeric types, within range. */
  lemma ConvertRoundTrip(n: int)
    ensures IntMin <= n <= IntMax ==> Convert(ShowInt(n), BoxedInteger) == Ok(IntegerValue(n))
    ensures !(IntMin <= n <= IntMax) ==> Convert(ShowInt(n), BoxedInteger) == Err(NumberFormat(ShowInt(n)))
    ensures LongMin <= n <= LongMax ==> Convert(ShowInt(n), BoxedLong) == Ok(LongValue(n))
    ensures !(LongMin <= n <= LongMax) ==> Convert(ShowInt(n), BoxedLong) == Err(NumberFormat(ShowInt(n)))
  {
    ParseShowInt(n, IntMin, IntMax);
    ParseShowInt(n, LongMin, LongMax);
  }

  /**
   * The work on column i: strip the quotes (even when no setter is bound
   * there), then, if a setter is bound at i, convert for it. `None` means
   * the column is skipped; `Some((f, v))` means setter of f gets v.
   */
  function Step(methods: Bindings, tokens: seq<string>, i: nat): (r: Result<Option<(FieldName, Value)>>)
    requires i < |tokens|
    ensures r.Ok? && r.value.Some? ==> Some(i) in methods && r.value.value.0 == methods[Some(i)].field
    ensures Some(i) !in methods ==> (r.Ok? <==> tokens[i] != "\"")
  {
    match StripQuote(tokens[i])
    case Err(e) => Err(e)
    case Ok(value) =>
      if Some(i) !in methods then Ok(None)
      else
        var b := methods[Some(i)];
        match Convert(value, b.param)
        case Err(e) => Err(e)
        case Ok(v) => Ok(Some((b.field, v)))
  }

  /** The loop of processLine from column `from` on, with the record built so far. */
  function Assemble(methods: Bindings, tokens: seq<string>, from: nat, record: Record): (r: Result<Record>)
    ensures r.Ok? ==> record.Keys <= r.value.Keys
    decreases |tokens| - from
  {
    if from >= |tokens| then Ok(record)
    else match Step(methods, tokens, from)
      case Err(e) => Err(e)
      case Ok(None) => Assemble(methods, tokens, from + 1, record)
      case Ok(Some(fv)) => Assemble(methods, tokens, from + 1, record[fv.0 := fv.1])
  }

  /** The one call processLine makes to the sink for `line`. */
  function LineOutcome(methods: Bindings, line: string): (o: Outcome) {
    match Assemble(methods, Split(line), 0, map[])
    case Ok(record) => Succeeded(record)
    case Err(e) => Failed(e)
  }

  /** No field is bound at two columns. */
  ghost predicate DistinctColumns(methods: Bindings) {
    forall c, d :: Some(c) in methods && Some(d) in methods && methods[Some(c)].field == methods[Some(d)].field ==> c == d
  }

  /** The line succeeds exactly when every column's step succeeds. */
  lemma {:induction false} AssembleOk(methods: Bindings, tokens: seq<string>, from: nat, record: Record)
    ensures Assemble(methods, tokens, from, record).Ok? <==> forall i :: from <= i < |tokens| ==> Step(methods, tokens, i).Ok?
    decreases |tokens| - from
  {
    if from < |tokens| {
      match Step(methods, tokens, from)
      case Err(e) =>
      case Ok(None) => AssembleOk(methods, tokens, from + 1, record);
      case Ok(Some(fv)) => AssembleOk(methods, tokens, from + 1, record[fv.0 := fv.1]);
    }
  }

  /** A failing line reports the exception of its first failing column. */
  lemma {:induction false} AssembleFirstError(methods: Bindings, tokens: seq<string>, from: nat, record: Record)
    requires Assemble(methods, tokens, from, record).Err?
    ensures exists i :: from <= i < |tokens| && Step(methods, tokens, i) == Err(Assemble(methods, tokens, from, record).failure) &&
                        forall j :: from <= j < i ==> Step(methods, tokens, j).Ok?
    decreases |tokens| - from
  {
    var e := Assemble(methods, tokens, from, record).failure;
    match Step(methods, tokens, from)
    case Err(e0) =>
      assert Step(methods, tokens, from) == Err(e);
    case Ok(None) =>
      AssembleFirstError(methods, tokens, from + 1, record);
    case Ok(Some(fv)) =>
      AssembleFirstError(methods, tokens, from + 1, record[fv.0 := fv.1]);
  }

  /**
   * A successful line holds, for every bound column it reaches, the value
   * converted from that column under that column's field, and nothing else
   * beyond what the record held before.
   */
  lemma {:induction false} AssembleRecord(methods: Bindings, tokens: seq<string>, from: nat, record: Record)
    requires DistinctColumns(methods)
    requires Assemble(methods, tokens, from, record).Ok?
    ensures var r := Assemble(methods, tokens, from, record).value;
      && (forall k :: k in r <==> k in record || exists i :: from <= i < |tokens| && Some(i) in methods && methods[Some(i)].field == k)
      && (forall i :: from <= i < |tokens| && Some(i) in methods ==>
            methods[Some(i)].field in r && Step(methods, tokens, i) == Ok(Some((methods[Some(i)].field, r[methods[Some(i)].field]))))
      && (forall k :: k in record && (forall i :: from <= i < |tokens| && Some(i) in methods ==> methods[Some(i)].field != k) ==>
            k in r && r[k] == record[k])
    decreases |tokens| - from
  {
    if from < |tokens| {
      var r := Assemble(methods, tokens, from, record).value;
      match Step(methods, tokens, from)
      case Ok(None) =>
        AssembleRecord(methods, tokens, from + 1, record);
      case Ok(Some(fv)) =>
        var record' := record[fv.0 := fv.1];
        AssembleRecord(methods, tokens, from + 1, record');
        assert fv.0 == methods[Some(from)].field;
        forall i | from + 1 <= i < |tokens| && Some(i) in methods ensures methods[Some(i)].field != fv.0 { }
        assert r[fv.0] == fv.1;
    }
  }

  /**
   * A token that is a lone '"' fails its line even where no setter is
   * bound, because quotes are stripped before the binding is looked up.
   */
  lemma LoneQuoteFailsLine(methods: Bindings, line: string, i: nat)
    requires i < |Split(line)| && Split(line)[i] == "\""
    ensures LineOutcome(methods, line).Failed?
  {
    AssembleOk(methods, Split(line), 0, map[]);
    assert Step(methods, Split(line), i).Err?;
  }
}
