/**
 * The values the reader works with: the description of the target record
 * type that replaces reflection, the column bindings, the converted values,
 * the exceptions and the calls made to the outcome sink.
 */
module CsvTypes {
  import opened Options

  /** A Java field name, never empty. */
  type FieldName = s: string | |s| > 0 witness "x"

  /** The parameter or field types the reader distinguishes. */
  datatype JType =
    | BoxedLong             // java.lang.Long
    | BoxedInteger          // java.lang.Integer
    | JString               // java.lang.String
    | OtherType(name: string) // anything else, primitive int and long included

  /** A declared field of the target type. */
  datatype Field = Field(name: FieldName, ftype: JType)

  /** A public one-argument method of the target type. */
  datatype Setter = Setter(name: string, param: JType)

  /**
   * What reflection would report about the target type: its declared fields
   * in the order getDeclaredFields returns them (an order Java leaves
   * unspecified) and its public one-argument methods.
   */
  datatype RecordType = RecordType(fields: seq<Field>, setters: set<Setter>)

  /** Java field names of one class are distinct. */
  predicate DistinctNames(fields: seq<Field>) {
    forall i, j :: 0 <= i < j < |fields| ==> fields[i].name != fields[j].name
  }

  /**
   * A resolved setter: the field it assigns and its parameter type. It is
   * stored under the column of the field, or under `None` (Java's null key)
   * when no header column carries the field's name.
   */
  datatype Binding = Binding(field: FieldName, param: JType)

  type Bindings = map<Option<nat>, Binding>

  /** A value handed to a setter. */
  datatype Value = LongValue(l: int) | IntegerValue(i: int) | StringValue(s: string)

  /** A record instance: the fields that a setter has assigned, by name. */
  type Record = map<FieldName, Value>

  /** The exceptions that end in onFail. */
  datatype Failure =
    | FileNotFound                          // opening the file
    | NullHeader                            // line.split on the null of an empty file
    | NoSuchMethod(setter: string)          // getMethod found no setter
    | IndexOutOfBounds(token: string)       // substring(1, 0) on a lone '"'
    | NumberFormat(token: string)           // parseLong / parseInt
    | UnsupportedType(typeName: string)     // "This data type is not supported"
    | Rejected                              // execute on a pool already shut down

  datatype Result<T> = Ok(value: T) | Err(failure: Failure)

  /** One call to the outcome sink. */
  datatype Outcome = Succeeded(record: Record) | Failed(failure: Failure)
}
