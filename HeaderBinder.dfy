/**
 * From the header line to the column positions of the names, and from
 * the declared fields to the setters stored per column
 * (CSVFileReader.prepareProcessing).
 */
module HeaderBinder {
  import opened Options
  import opened JavaText
  import opened CsvTypes

  /** U+FEFF, the byte-order mark some editors put at the start of a file. */
  const Bom: char := '\U{FEFF}'

  /** The name a header token stands for: without a leading byte-order mark. */
  function HeaderKey(token: string): (k: string)
    ensures StartsWith(token, Bom) ==> token == [Bom] + k
    ensures !StartsWith(token, Bom) ==> k == token
  {
    if StartsWith(token, Bom) then token[1..] else token
  }

  /**
   * The name-to-position map built from the header tokens, one put per token
   * in order, so that a later token with the same name replaces the earlier.
   */
  function PositionsOf(tokens: seq<string>): (m: map<string, nat>)
    ensures forall k :: k in m ==> m[k] < |tokens|
  {
    if tokens == [] then map[]
    else PositionsOf(tokens[..|tokens| - 1])[HeaderKey(tokens[|tokens| - 1]) := |tokens| - 1]
  }

  /** Each header token is keyed by its name without a byte-order mark, at any position. */
  lemma {:induction false} PositionsOfKeys(tokens: seq<string>)
    ensures forall k :: k in PositionsOf(tokens) <==> exists i :: 0 <= i < |tokens| && HeaderKey(tokens[i]) == k
  {
    if tokens != [] {
      var init := tokens[..|tokens| - 1];
      PositionsOfKeys(init);
      assert forall i :: 0 <= i < |init| ==> init[i] == tokens[i];
    }
  }

  /** Each name is mapped to the LAST position whose token carries it. */
  lemma {:induction false} PositionsOfLast(tokens: seq<string>)
    ensures forall k :: k in PositionsOf(tokens) ==>
      var p := PositionsOf(tokens)[k];
      p < |tokens| && HeaderKey(tokens[p]) == k &&
      forall j :: p < j < |tokens| ==> HeaderKey(tokens[j]) != k
  {
    if tokens != [] {
      var init := tokens[..|tokens| - 1];
      var last := |tokens| - 1;
      PositionsOfLast(init);
      var m := PositionsOf(tokens);
      assert m == PositionsOf(init)[HeaderKey(tokens[last]) := last];
      forall k | k in m
        ensures m[k] < |tokens| && HeaderKey(tokens[m[k]]) == k
        ensures forall j :: m[k] < j < |tokens| ==> HeaderKey(tokens[j]) != k
      {
        if k != HeaderKey(tokens[last]) {
          assert k in PositionsOf(init) && m[k] == PositionsOf(init)[k];
          assert tokens[m[k]] == init[m[k]];
          forall j | m[k] < j < |tokens| ensures HeaderKey(tokens[j]) != k {
            if j < last { assert tokens[j] == init[j]; }
          }
        }
      }
    }
  }

  /**
   * The full account of the name-to-position map: the keys are the header
   * names, each at its last position, and distinct names have distinct
   * positions.
   */
  lemma PositionsOfSpec(tokens: seq<string>)
    ensures forall k :: k in PositionsOf(tokens) <==> exists i :: 0 <= i < |tokens| && HeaderKey(tokens[i]) == k
    ensures forall k :: k in PositionsOf(tokens) ==>
      var p := PositionsOf(tokens)[k];
      p < |tokens| && HeaderKey(tokens[p]) == k &&
      forall j :: p < j < |tokens| ==> HeaderKey(tokens[j]) != k
    ensures forall a, b :: a in PositionsOf(tokens) && b in PositionsOf(tokens) && PositionsOf(tokens)[a] == PositionsOf(tokens)[b] ==> a == b
  {
    PositionsOfKeys(tokens);
    PositionsOfLast(tokens);
  }

  /** The loop that fills columnPosition. */
  method ColumnPositions(tokens: seq<string>) returns (columnPosition: map<string, nat>)
    ensures columnPosition == PositionsOf(tokens)
  {
    columnPosition := map[];
    for i := 0 to |tokens|
      invariant columnPosition == PositionsOf(tokens[..i])
    {
      assert tokens[..i + 1][..i] == tokens[..i];
      var elem := tokens[i];
      if StartsWith(elem, Bom) {
        columnPosition := columnPosition[elem[1..] := i];
      } else {
        columnPosition := columnPosition[elem := i];
      }
    }
    assert tokens[..|tokens|] == tokens;
  }

  /** `columnPosition.get(name)`: the column of a name, or null. */
  function ColumnOf(positions: map<string, nat>, name: string): (c: Option<nat>) {
    if name in positions then Some(positions[name]) else None
  }

  /** `getMethod(SetterName(f), f.getType())`. */
  function ResolveSetter(setters: set<Setter>, f: Field): (r: Result<Binding>)
    ensures r.Ok? <==> HasSetter(setters, f)
    ensures r.Ok? ==> r.value == Binding(f.name, f.ftype)
    ensures r.Err? ==> r.failure == NoSuchMethod(SetterName(f.name))
  {
    var name := SetterName(f.name);
    if Setter(name, f.ftype) in setters then Ok(Binding(f.name, f.ftype)) else Err(NoSuchMethod(name))
  }

  /**
   * The field loop of prepareProcessing, one field after another in the
   * order of `RecordType.fields`: the bindings it leaves behind and the
   * exception it stopped on, if any.
   */
  function BindFields(positions: map<string, nat>, setters: set<Setter>, fields: seq<Field>, methods: Bindings)
    : (r: (Bindings, Option<Failure>))
    ensures r.1 == None || r.1.value.NoSuchMethod?
    ensures methods.Keys <= r.0.Keys
    decreases |fields|
  {
    if fields == [] then (methods, None)
    else match ResolveSetter(setters, fields[0])
      case Err(e) => (methods, Some(e))
      case Ok(b) => BindFields(positions, setters, fields[1..], methods[ColumnOf(positions, fields[0].name) := b])
  }

  predicate HasSetter(setters: set<Setter>, f: Field) {
    Setter(SetterName(f.name), f.ftype) in setters
  }

  /**
   * Binding fails exactly when some declared field has no setter, and then
   * with NoSuchMethod for the FIRST such field.
   */
  lemma {:induction false} BindFieldsFailure(positions: map<string, nat>, setters: set<Setter>, fields: seq<Field>, methods: Bindings)
    ensures BindFields(positions, setters, fields, methods).1 == None
      <==> forall i :: 0 <= i < |fields| ==> HasSetter(setters, fields[i])
    ensures BindFields(positions, setters, fields, methods).1 != None ==>
      exists i :: 0 <= i < |fields| && !HasSetter(setters, fields[i]) &&
        (forall j :: 0 <= j < i ==> HasSetter(setters, fields[j])) &&
        BindFields(positions, setters, fields, methods).1 == Some(NoSuchMethod(SetterName(fields[i].name)))
  {
    if fields != [] && HasSetter(setters, fields[0]) {
      var b := Binding(fields[0].name, fields[0].ftype);
      BindFieldsFailure(positions, setters, fields[1..], methods[ColumnOf(positions, fields[0].name) := b]);
      if BindFields(positions, setters, fields, methods).1 != None {
        var k :| 0 <= k < |fields| - 1 && !HasSetter(setters, fields[1..][k]) &&
          (forall j :: 0 <= j < k ==> HasSetter(setters, fields[1..][j])) &&
          BindFields(positions, setters, fields, methods).1 == Some(NoSuchMethod(SetterName(fields[1..][k].name)));
        assert forall j :: 0 <= j < k + 1 ==> HasSetter(setters, fields[j]) by {
          forall j | 0 <= j < k + 1 ensures HasSetter(setters, fields[j]) {
            if j > 0 { assert fields[j] == fields[1..][j - 1]; }
          }
        }
      }
    }
  }

  /**
   * Every binding stored under an integer column belongs to a field whose
   * name the header carries at exactly that column.
   */
  ghost predicate Consistent(positions: map<string, nat>, methods: Bindings) {
    forall c :: Some(c) in methods ==>
      methods[Some(c)].field in positions && positions[methods[Some(c)].field] == c
  }

  /**
   * The field loop keeps the bindings consistent with the header, whether it
   * finishes or stops on a missing setter: a field whose name is no header
   * column only ever reaches the null key.
   */
  lemma {:induction false} BindFieldsConsistent(positions: map<string, nat>, setters: set<Setter>, fields: seq<Field>, methods: Bindings)
    requires Consistent(positions, methods)
    ensures Consistent(positions, BindFields(positions, setters, fields, methods).0)
  {
    if fields != [] && HasSetter(setters, fields[0]) {
      var b := Binding(fields[0].name, fields[0].ftype);
      BindFieldsConsistent(positions, setters, fields[1..], methods[ColumnOf(positions, fields[0].name) := b]);
    }
  }

  /** Keys that no field's column hits keep their old binding. */
  lemma {:induction false} BindFieldsFrame(positions: map<string, nat>, setters: set<Setter>, fields: seq<Field>, methods: Bindings, k: Option<nat>)
    requires k in methods
    requires forall i :: 0 <= i < |fields| ==> ColumnOf(positions, fields[i].name) != k
    ensures k in BindFields(positions, setters, fields, methods).0
    ensures BindFields(positions, setters, fields, methods).0[k] == methods[k]
  {
    if fields != [] && HasSetter(setters, fields[0]) {
      var b := Binding(fields[0].name, fields[0].ftype);
      assert ColumnOf(positions, fields[0].name) != k;
      forall i | 0 <= i < |fields| - 1 ensures ColumnOf(positions, fields[1..][i].name) != k {
        assert fields[1..][i] == fields[i + 1];
      }
      BindFieldsFrame(positions, setters, fields[1..], methods[ColumnOf(positions, fields[0].name) := b], k);
    }
  }

  /**
   * When binding succeeds, every declared field that the header names is
   * bound, at its column, to its own setter.
   */
  lemma {:induction false} BindFieldsComplete(positions: map<string, nat>, setters: set<Setter>, fields: seq<Field>, methods: Bindings)
    requires BindFields(positions, setters, fields, methods).1 == None
    requires DistinctNames(fields)
    requires forall a, b :: a in positions && b in positions && positions[a] == positions[b] ==> a == b
    ensures forall i :: 0 <= i < |fields| && fields[i].name in positions ==>
      var r := BindFields(positions, setters, fields, methods).0;
      Some(positions[fields[i].name]) in r && r[Some(positions[fields[i].name])] == Binding(fields[i].name, fields[i].ftype)
  {
    if fields != [] {
      var f := fields[0];
      var b := Binding(f.name, f.ftype);
      var m' := methods[ColumnOf(positions, f.name) := b];
      BindFieldsComplete(positions, setters, fields[1..], m');
      var r := BindFields(positions, setters, fields, methods).0;
      assert r == BindFields(positions, setters, fields[1..], m').0;
      forall i | 0 <= i < |fields| && fields[i].name in positions
        ensures Some(positions[fields[i].name]) in r && r[Some(positions[fields[i].name])] == Binding(fields[i].name, fields[i].ftype)
      {
        if i == 0 {
          forall j | 0 <= j < |fields| - 1 ensures ColumnOf(positions, fields[1..][j].name) != Some(positions[f.name]) {
            assert fields[1..][j] == fields[j + 1];
          }
          BindFieldsFrame(positions, setters, fields[1..], m', Some(positions[f.name]));
        } else {
          assert fields[i] == fields[1..][i - 1];
        }
      }
    }
  }
}
