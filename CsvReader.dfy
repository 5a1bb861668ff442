/**
 * The reader object and its driver (CSVFileReader.process): the header is
 * bound first; a setup exception is reported once and ends the run;
 * otherwise every later line is processed once. The worker pool is
 * replaced by processing the lines one after another.
 */
module CsvReader {
  import opened Options
  import opened JavaText
  import opened CsvTypes
  import opened HeaderBinder
  import opened JavaNumbers
  import opened LineAssembler

  /** prepareProcessing as a whole: the bindings it leaves and its exception, if any. */
  function Prepare(rt: RecordType, methods: Bindings, header: Option<string>): (r: (Bindings, Option<Failure>))
    ensures header == None ==> r.1 == Some(NullHeader)
    ensures header != None ==> r.1 == None || r.1.value.NoSuchMethod?
  {
    match header
    case None => (methods, Some(NullHeader))
    case Some(h) => BindFields(PositionsOf(Split(h)), rt.setters, rt.fields, methods)
  }

  /** The first readLine: null for an empty file. */
  function Header(lines: seq<string>): (h: Option<string>)
    ensures h.None? <==> lines == []
  {
    if lines == [] then None else Some(lines[0])
  }

  /** Opening the file and preparing from its header; `None` is a file that cannot be opened. */
  function Setup(rt: RecordType, methods: Bindings, file: Option<seq<string>>): (r: (Bindings, Option<Failure>))
    ensures r.1 == None ==> file.Some? && file.value != []
  {
    match file
    case None => (methods, Some(FileNotFound))
    case Some(lines) => Prepare(rt, methods, Header(lines))
  }

  /** The outcome of each line, in order. */
  function LineOutcomes(methods: Bindings, lines: seq<string>): (r: seq<Outcome>) {
    if lines == [] then []
    else LineOutcomes(methods, lines[..|lines| - 1]) + [LineOutcome(methods, lines[|lines| - 1])]
  }

  /** Exactly one outcome per line, the i-th for the i-th line. */
  lemma {:induction false} LineOutcomesAt(methods: Bindings, lines: seq<string>)
    ensures |LineOutcomes(methods, lines)| == |lines|
    ensures forall i :: 0 <= i < |lines| ==> LineOutcomes(methods, lines)[i] == LineOutcome(methods, lines[i])
  {
    if lines != [] {
      var init := lines[..|lines| - 1];
      var last := LineOutcome(methods, lines[|lines| - 1]);
      var prev := LineOutcomes(methods, init);
      LineOutcomesAt(methods, init);
      assert LineOutcomes(methods, lines) == prev + [last];
      forall i | 0 <= i < |lines|
        ensures LineOutcomes(methods, lines)[i] == LineOutcome(methods, lines[i])
      {
        if i < |init| {
          assert init[i] == lines[i];
          assert (prev + [last])[i] == prev[i];
        }
      }
    }
  }

  lemma LineOutcomesSnoc(methods: Bindings, lines: seq<string>, n: nat)
    requires 1 <= n < |lines|
    ensures LineOutcomes(methods, lines[1..n + 1]) == LineOutcomes(methods, lines[1..n]) + [LineOutcome(methods, lines[n])]
  {
    var xs := lines[1..n + 1];
    assert xs[..|xs| - 1] == lines[1..n];
    assert xs[|xs| - 1] == lines[n];
  }

  /**
   * The calls process() makes to the sink, given the reader's bindings and
   * whether its pool was already shut down by an earlier run.
   */
  function ProcessOutcomes(rt: RecordType, methods: Bindings, shutDown: bool, file: Option<seq<string>>): (r: seq<Outcome>)
    ensures r == [] ==> Setup(rt, methods, file).1 == None
  {
    var (bound, failure) := Setup(rt, methods, file);
    if failure.Some? then [Failed(failure.value)]
    else
      var data := file.value[1..];
      if shutDown && data != [] then [Failed(Rejected)] else LineOutcomes(bound, data)
  }

  /** An unreadable or empty file ends in a single onFail and nothing else. */
  lemma FileFailures(rt: RecordType, methods: Bindings, shutDown: bool)
    ensures ProcessOutcomes(rt, methods, shutDown, None) == [Failed(FileNotFound)]
    ensures ProcessOutcomes(rt, methods, shutDown, Some([])) == [Failed(NullHeader)]
  {
  }

  /**
   * Setup fails exactly when some declared field has no setter, whatever
   * the header says; the failure is then the only outcome, naming the first
   * such field's setter. Otherwise every line after the header is processed
   * exactly once, in file order, and the header never is.
   */
  lemma {:induction false} BindingOutcome(rt: RecordType, methods: Bindings, shutDown: bool, lines: seq<string>)
    requires lines != []
    ensures var outs := ProcessOutcomes(rt, methods, shutDown, Some(lines));
      (exists i :: 0 <= i < |rt.fields| && !HasSetter(rt.setters, rt.fields[i])) ==>
        exists i :: 0 <= i < |rt.fields| && !HasSetter(rt.setters, rt.fields[i]) &&
                    outs == [Failed(NoSuchMethod(SetterName(rt.fields[i].name)))]
    ensures var outs := ProcessOutcomes(rt, methods, shutDown, Some(lines));
      (forall i :: 0 <= i < |rt.fields| ==> HasSetter(rt.setters, rt.fields[i])) && !shutDown ==>
        |outs| == |lines| - 1 &&
        forall j :: 0 <= j < |lines| - 1 ==> outs[j] == LineOutcome(Setup(rt, methods, Some(lines)).0, lines[j + 1])
  {
    BindFieldsFailure(PositionsOf(Split(lines[0])), rt.setters, rt.fields, methods);
    LineOutcomesAt(Setup(rt, methods, Some(lines)).0, lines[1..]);
  }

  /** Consistent bindings never bind one field at two columns. */
  lemma ConsistentDistinct(positions: map<string, nat>, methods: Bindings)
    requires Consistent(positions, methods)
    ensures DistinctColumns(methods)
  {
    forall c, d | Some(c) in methods && Some(d) in methods && methods[Some(c)].field == methods[Some(d)].field
      ensures c == d
    {
      assert positions[methods[Some(c)].field] == c;
    }
  }

  /**
   * With bindings consistent with the header, a field present in a
   * successful record is a header column that the line reaches.
   */
  lemma AssignedFieldsAreColumns(positions: map<string, nat>, methods: Bindings, line: string, k: FieldName)
    requires Consistent(positions, methods)
    requires LineOutcome(methods, line).Succeeded?
    requires k in LineOutcome(methods, line).record
    ensures k in positions && positions[k] < |Split(line)|
  {
    ConsistentDistinct(positions, methods);
    AssembleRecord(methods, Split(line), 0, map[]);
  }

  /**
   * On a fresh reader, a declared field whose name no header column carries
   * is never assigned, on any line; its absence from the header is not an
   * error.
   */
  lemma UnmatchedFieldNeverSet(rt: RecordType, shutDown: bool, lines: seq<string>, f: Field)
    requires lines != [] && f in rt.fields
    requires f.name !in PositionsOf(Split(lines[0]))
    ensures forall o :: o in ProcessOutcomes(rt, map[], shutDown, Some(lines)) && o.Succeeded? ==> f.name !in o.record
    ensures (forall g :: g in rt.fields ==> HasSetter(rt.setters, g)) ==> Setup(rt, map[], Some(lines)).1 == None
  {
    BindFieldsFailure(PositionsOf(Split(lines[0])), rt.setters, rt.fields, map[]);
    var positions := PositionsOf(Split(lines[0]));
    BindFieldsConsistent(positions, rt.setters, rt.fields, map[]);
    var outs := ProcessOutcomes(rt, map[], shutDown, Some(lines));
    var m := Setup(rt, map[], Some(lines)).0;
    LineOutcomesAt(m, lines[1..]);
    forall o | o in outs && o.Succeeded? ensures f.name !in o.record {
      var j :| 0 <= j < |outs| && outs[j] == o;
      assert o == LineOutcome(m, lines[1..][j]);
      if f.name in o.record {
        AssignedFieldsAreColumns(positions, m, lines[1..][j], f.name);
      }
    }
  }

  /**
   * On a fresh reader whose setup succeeded, a successful line holds, for
   * each declared field, the value converted from the column the header
   * gives it when the line reaches that column, and nothing when the header
   * lacks the field or the line is too short.
   */
  lemma BoundFieldsAssigned(rt: RecordType, header: string, line: string, i: nat)
    requires DistinctNames(rt.fields) && i < |rt.fields|
    requires Prepare(rt, map[], Some(header)).1 == None
    requires LineOutcome(Prepare(rt, map[], Some(header)).0, line).Succeeded?
    ensures var f := rt.fields[i];
            var positions := PositionsOf(Split(header));
            var tokens := Split(line);
            var r := LineOutcome(Prepare(rt, map[], Some(header)).0, line).record;
            && (f.name in positions && positions[f.name] < |tokens| ==>
                  && f.name in r
                  && StripQuote(tokens[positions[f.name]]).Ok?
                  && Convert(StripQuote(tokens[positions[f.name]]).value, f.ftype) == Ok(r[f.name]))
            && (f.name !in positions || positions[f.name] >= |tokens| ==> f.name !in r)
  {
    var f := rt.fields[i];
    var positions := PositionsOf(Split(header));
    var tokens := Split(line);
    var m := Prepare(rt, map[], Some(header)).0;
    var r := LineOutcome(m, line).record;
    BindFieldsConsistent(positions, rt.setters, rt.fields, map[]);
    ConsistentDistinct(positions, m);
    PositionsOfSpec(Split(header));
    BindFieldsComplete(positions, rt.setters, rt.fields, map[]);
    AssembleRecord(m, tokens, 0, map[]);
    if f.name in r {
      AssignedFieldsAreColumns(positions, m, line, f.name);
    }
    if f.name in positions && positions[f.name] < |tokens| {
      var c := positions[f.name];
      assert m[Some(c)] == Binding(f.name, f.ftype);
      assert Step(m, tokens, c) == Ok(Some((f.name, r[f.name])));
    }
  }

  lemma AppendAssoc<T>(a: seq<T>, b: seq<T>, c: seq<T>)
    ensures (a + b) + c == a + (b + c)
  {
  }

  class CsvFileReader {
    /** The target record type, which the source discovers by reflection. */
    const recordType: RecordType
    /** Column index (or null) to setter. */
    var methods: Bindings
    /** Whether the worker pool has been shut down. */
    var shutDown: bool
    /** The calls made to onSuccess and onFail, in order. */
    var outcomes: seq<Outcome>

    constructor (recordType: RecordType)
      ensures this.recordType == recordType
      ensures methods == map[] && !shutDown && outcomes == []
    {
      this.recordType := recordType;
      methods := map[];
      shutDown := false;
      outcomes := [];
    }

    /** Reads the header, binds the setters, then processes every later line. */
    method Process(file: Option<seq<string>>)
      modifies this
      ensures methods == Setup(recordType, old(methods), file).0
      ensures shutDown == (old(shutDown) || Setup(recordType, old(methods), file).1 == None)
      ensures outcomes == old(outcomes) + ProcessOutcomes(recordType, old(methods), old(shutDown), file)
    {
      if file.None? {
        outcomes := outcomes + [Failed(FileNotFound)];
        return;
      }
      var lines := file.value;
      var line := if |lines| == 0 then None else Some(lines[0]);
      assert line == Header(lines);
      ghost var setup := Setup(recordType, methods, file);
      ghost var outcomes0 := outcomes;
      var failure := PrepareProcessing(line);
      assert (methods, failure) == setup;
      ghost var expected := ProcessOutcomes(recordType, old(methods), old(shutDown), file);
      if failure.Some? {
        assert expected == [Failed(failure.value)];
        outcomes := outcomes + [Failed(failure.value)];
        return;
      }
      assert lines[1..] != [] ==> expected == if shutDown then [Failed(Rejected)] else LineOutcomes(setup.0, lines[1..]);
      var n := 1;
      while n < |lines|
        invariant 1 <= n <= |lines|
        invariant methods == setup.0
        invariant shutDown == old(shutDown) && (n > 1 ==> !shutDown)
        invariant outcomes == outcomes0 + LineOutcomes(setup.0, lines[1..n])
      {
        if shutDown {
          assert lines[1..] != [] && n == 1;
          outcomes := outcomes + [Failed(Rejected)];
          return;
        }
        ghost var done := LineOutcomes(setup.0, lines[1..n]);
        ProcessLine(lines[n]);
        ghost var next := LineOutcome(setup.0, lines[n]);
        assert outcomes == (outcomes0 + done) + [next];
        LineOutcomesSnoc(setup.0, lines, n);
        AppendAssoc(outcomes0, done, [next]);
        n := n + 1;
      }
      assert lines[1..n] == lines[1..];
      assert expected == LineOutcomes(setup.0, lines[1..]);
      shutDown := true;
    }

    /** Binds every declared field's setter to the column that carries its name. */
    method PrepareProcessing(line: Option<string>) returns (failure: Option<Failure>)
      modifies this`methods
      ensures (methods, failure) == Prepare(recordType, old(methods), line)
    {
      if line.None? {
        return Some(NullHeader);
      }
      var elements := Split(line.value);
      var columnPosition := ColumnPositions(elements);
      var fields := recordType.fields;
      for i := 0 to |fields|
        invariant BindFields(columnPosition, recordType.setters, fields, old(methods))
               == BindFields(columnPosition, recordType.setters, fields[i..], methods)
      {
        var field := fields[i];
        var methodName := SetterName(field.name);
        if Setter(methodName, field.ftype) !in recordType.setters {
          return Some(NoSuchMethod(methodName));
        }
        methods := methods[ColumnOf(columnPosition, field.name) := Binding(field.name, field.ftype)];
      }
      failure := None;
    }

    /** Builds one record from `line` and reports it, or reports the first exception. */
    method ProcessLine(line: string)
      modifies this`outcomes
      ensures outcomes == old(outcomes) + [LineOutcome(methods, line)]
    {
      var elements := Split(line);
      var t: Record := map[];
      for i := 0 to |elements|
        invariant Assemble(methods, elements, 0, map[]) == Assemble(methods, elements, i, t)
        invariant outcomes == old(outcomes)
      {
        var value := elements[i];
        if StartsWith(value, '"') {
          if |value| < 2 {
            outcomes := outcomes + [Failed(IndexOutOfBounds(value))];
            return;
          }
          value := value[1..|value| - 1];
        }
        if Some(i) in methods {
          var setter := methods[Some(i)];
          match setter.param {
            case BoxedLong =>
              var parsed := ParseLong(value);
              if parsed.None? {
                outcomes := outcomes + [Failed(NumberFormat(value))];
                return;
              }
              t := t[setter.field := LongValue(parsed.value)];
            case BoxedInteger =>
              var parsed := ParseInt(value);
              if parsed.None? {
                outcomes := outcomes + [Failed(NumberFormat(value))];
                return;
              }
              t := t[setter.field := IntegerValue(parsed.value)];
            case JString =>
              t := t[setter.field := StringValue(value)];
            case OtherType(name) =>
              outcomes := outcomes + [Failed(UnsupportedType(name))];
              return;
          }
        }
      }
      outcomes := outcomes + [Succeeded(t)];
    }
  }
}
