/**
 * The reader applied to an Account type with a Long id, a String name and
 * an Integer balance, worked through one file step by step. The texts are
 * passed as parameters so that each step is unfolded only as far as asked.
 */
module AccountSample {
  import opened Options
  import opened JavaText
  import opened JavaNumbers
  import opened CsvTypes
  import opened HeaderBinder
  import opened LineAssembler
  import opened CsvReader

  const Account := RecordType(
    [Field("id", BoxedLong), Field("name", JString), Field("balance", BoxedInteger)],
    {Setter("setId", BoxedLong), Setter("setName", JString), Setter("setBalance", BoxedInteger)})

  const AccountBindings: Bindings :=
    map[Some(0) := Binding("id", BoxedLong), Some(1) := Binding("name", JString), Some(2) := Binding("balance", BoxedInteger)]

  lemma HeaderTokens(header: string)
    requires header == "\U{FEFF}id,name,balance"
    ensures Split(header) == ["\U{FEFF}id", "name", "balance"]
  {
    var parts := ["\U{FEFF}id", "name", "balance"];
    assert Join(parts) == header;
    SplitJoin(parts);
  }

  lemma AccountColumns(tokens: seq<string>)
    requires tokens == ["\U{FEFF}id", "name", "balance"]
    ensures PositionsOf(tokens) == map["id" := 0, "name" := 1, "balance" := 2]
  {
    assert HeaderKey(tokens[0]) == "id";
    assert HeaderKey(tokens[1]) == "name";
    assert HeaderKey(tokens[2]) == "balance";
    assert PositionsOf(tokens[..1]) == map["id" := 0] by { assert tokens[..1][..0] == []; }
    assert PositionsOf(tokens[..2]) == map["id" := 0, "name" := 1] by { assert tokens[..2][..1] == tokens[..1]; }
    assert tokens[..3][..2] == tokens[..2];
    assert tokens[..3] == tokens;
  }

  /** The byte-order mark is dropped and each name gets its column. */
  lemma HeaderPositions(header: string)
    requires header == "\U{FEFF}id,name,balance"
    ensures PositionsOf(Split(header)) == map["id" := 0, "name" := 1, "balance" := 2]
  {
    HeaderTokens(header);
    AccountColumns(Split(header));
  }

  lemma AccountSetterNames()
    ensures SetterName("id") == "setId"
    ensures SetterName("name") == "setName"
    ensures SetterName("balance") == "setBalance"
  {
  }

  /** Every field of Account finds its setter at its column. */
  lemma BindAccountFields(positions: map<string, nat>)
    requires positions == map["id" := 0, "name" := 1, "balance" := 2]
    ensures BindFields(positions, Account.setters, Account.fields, map[]) == (AccountBindings, None)
  {
    AccountSetterNames();
    var fs := Account.fields;
    var m1 := map[Some(0) := Binding("id", BoxedLong)];
    var m2 := m1[Some(1) := Binding("name", JString)];
    assert BindFields(positions, Account.setters, fs[2..], m2) == (AccountBindings, None) by {
      assert fs[2..][1..] == [];
    }
    assert fs[1..][1..] == fs[2..];
  }

  lemma AccountBinds(header: string)
    requires header == "\U{FEFF}id,name,balance"
    ensures Prepare(Account, map[], Some(header)) == (AccountBindings, None)
  {
    HeaderPositions(header);
    BindAccountFields(PositionsOf(Split(header)));
  }

  lemma AliceTokens(line: string)
    requires line == "7,\"Alice\",1500"
    ensures Split(line) == ["7", "\"Alice\"", "1500"]
  {
    var parts := ["7", "\"Alice\"", "1500"];
    assert Join(parts) == line;
    SplitJoin(parts);
  }

  lemma AliceValues()
    ensures ParseLong("7") == Some(7)
    ensures ParseInt("1500") == Some(1500)
    ensures StripQuote("\"Alice\"") == Ok("Alice")
  {
    ParseLongRoundTrip(7);
    assert ShowInt(7) == "7";
    ParseIntRoundTrip(1500);
    assert ShowInt(1500) == "1500" by {
      assert ShowNat(1) == "1";
      assert ShowNat(15) == "15";
      assert ShowNat(150) == "150";
    }
    QuoteRoundTrip("Alice");
    assert "\"" + "Alice" + "\"" == "\"Alice\"";
  }

  lemma AliceAssemble(tokens: seq<string>)
    requires tokens == ["7", "\"Alice\"", "1500"]
    ensures Assemble(AccountBindings, tokens, 0, map[])
         == Ok(map["id" := LongValue(7), "name" := StringValue("Alice"), "balance" := IntegerValue(1500)])
  {
    AliceValues();
    var m := AccountBindings;
    var r1 := map["id" := LongValue(7)];
    var r2 := r1["name" := StringValue("Alice")];
    var r3 := r2["balance" := IntegerValue(1500)];
    assert Step(m, tokens, 0) == Ok(Some(("id", LongValue(7))));
    assert Step(m, tokens, 1) == Ok(Some(("name", StringValue("Alice"))));
    assert Step(m, tokens, 2) == Ok(Some(("balance", IntegerValue(1500))));
    assert Assemble(m, tokens, 2, r2) == Ok(r3);
    assert Assemble(m, tokens, 1, r1) == Ok(r3);
  }

  /** A quoted name is unquoted and both numbers are parsed. */
  lemma AliceLine(line: string)
    requires line == "7,\"Alice\",1500"
    ensures LineOutcome(AccountBindings, line)
         == Succeeded(map["id" := LongValue(7), "name" := StringValue("Alice"), "balance" := IntegerValue(1500)])
  {
    AliceTokens(line);
    AliceAssemble(Split(line));
  }

  /** A non-numeric id fails its line before the rest is looked at. */
  lemma BadIdLine(line: string)
    requires line == "x,Bob,1"
    ensures LineOutcome(AccountBindings, line) == Failed(NumberFormat("x"))
  {
    var parts := ["x", "Bob", "1"];
    assert Join(parts) == line;
    SplitJoin(parts);
    var tokens := Split(line);
    assert ParseLong(tokens[0]) == None;
    assert Step(AccountBindings, tokens, 0) == Err(NumberFormat("x"));
  }

  /** A line shorter than the header succeeds with only the columns it has. */
  lemma ShortLine(line: string)
    requires line == "8"
    ensures LineOutcome(AccountBindings, line) == Succeeded(map["id" := LongValue(8)])
  {
    SplitJoin([line]);
    var tokens := Split(line);
    ParseLongRoundTrip(8);
    assert ShowInt(8) == "8";
    assert Step(AccountBindings, tokens, 0) == Ok(Some(("id", LongValue(8))));
    assert Assemble(AccountBindings, tokens, 1, map["id" := LongValue(8)]) == Ok(map["id" := LongValue(8)]);
  }

  lemma ThreeLines(methods: Bindings, a: string, b: string, c: string)
    ensures LineOutcomes(methods, [a, b, c]) == [LineOutcome(methods, a), LineOutcome(methods, b), LineOutcome(methods, c)]
  {
    LineOutcomesAt(methods, [a, b, c]);
  }

  /** The whole file: one outcome per data line, in order. */
  lemma AccountFile(header: string, a: string, b: string, c: string)
    requires header == "\U{FEFF}id,name,balance"
    requires a == "7,\"Alice\",1500" && b == "x,Bob,1" && c == "8"
    ensures ProcessOutcomes(Account, map[], false, Some([header, a, b, c]))
         == [Succeeded(map["id" := LongValue(7), "name" := StringValue("Alice"), "balance" := IntegerValue(1500)]),
             Failed(NumberFormat("x")),
             Succeeded(map["id" := LongValue(8)])]
  {
    AccountBinds(header);
    AliceLine(a);
    BadIdLine(b);
    ShortLine(c);
    var lines := [header, a, b, c];
    assert Setup(Account, map[], Some(lines)) == (AccountBindings, None);
    assert lines[1..] == [a, b, c];
    ThreeLines(AccountBindings, a, b, c);
  }
}
