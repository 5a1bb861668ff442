# CSV file reader — a Dafny model

This project models `CSVFileReader`, a reader for comma-separated files. The
first line of a file names the columns. The reader binds each declared field
of a target record type to the column carrying its name, through a setter
`set` + capitalised field name. Each later line becomes one record. Each line
ends in exactly one call to the outcome sink: `onSuccess(record)` or
`onFail(exception)`.

The model is sequential and deterministic:

- Reflection becomes an explicit descriptor, `CsvTypes.RecordType`. It holds
  the declared fields, each with a name and a type, and the public
  one-argument methods, each with a name and a parameter type.
- A record is the map from field name to the value its setter received.
- The sink is the `outcomes` sequence of the reader object.
- The file is a sequence of lines. `None` stands for a file that cannot be
  opened.

Modules, following the source's components:

- `JavaText`: `String.startsWith` and `String.split(",")`, including its rule
  that trailing empty tokens are dropped. Also the setter name built with
  `Character.toUpperCase`.
- `JavaNumbers`: `Integer.parseInt` and `Long.parseLong`, with their 32-bit
  and 64-bit range checks.
- `CsvTypes`: the descriptor, bindings, values, exceptions and sink calls.
- `HeaderBinder`: the header half of `prepareProcessing`, that is, the
  name→column map and the field→setter loop.
- `LineAssembler`: `processLine` as specification functions. This covers
  quote stripping, conversion by parameter type, assignment in column order
  and stopping at the first exception.
- `CsvReader`: the `CsvFileReader` class. Its fields are `methods`, a
  `shutDown` flag standing for the pool's state, and `outcomes`. Its methods
  are `Process`, `PrepareProcessing` and `ProcessLine`, each proved against
  the specification functions. The module also holds the driver-level lemmas.
- `AccountSample`: one account file worked through end to end.

Three behaviours of `CSVFileReader` are worth knowing:

- A leading U+FEFF is stripped from every header token that starts with one,
  not only from the first token (CSVFileReader.java line 73).
- A declared field that no header column names is not an error. Its setter is
  stored under the `null` key and is never looked up (line 90). Binding fails
  only when some declared field has no setter, and that field may be one the
  header does not name (line 88).
- A token that is a lone `"` fails its line, because `substring(1, 0)` throws
  (line 104). This happens even at a column with no setter.

## Model

| member | source | states |
|---|---|---|
| `JavaText.Split` | src/main/java/org/personal/reader/CSVFileReader.java:95 | `split(",")` on one line, characterised by `SplitSpec` and inverted by `SplitJoin` |
| `JavaText.Pieces` | src/main/java/org/personal/reader/CSVFileReader.java:68 | splitting on commas gives at least one piece, and no piece contains a comma |
| `JavaText.PiecesCount` | src/main/java/org/personal/reader/CSVFileReader.java:68 | there is one more piece than there are commas |
| `JavaText.JoinPieces` | src/main/java/org/personal/reader/CSVFileReader.java:95 | joining the pieces with commas gives the input back |
| `JavaText.PiecesJoin` | src/main/java/org/personal/reader/CSVFileReader.java:95 | splitting a comma-join of comma-free parts gives the parts back |
| `JavaText.DropTrailingEmpty` | src/main/java/org/personal/reader/CSVFileReader.java:95 | the result is a prefix of the input, only empty elements are removed, and its last element is non-empty |
| `JavaText.SplitSpec` | src/main/java/org/personal/reader/CSVFileReader.java:95 | `split(",")` tokens hold no comma. Input without a comma yields one token, even when empty. Otherwise the tokens are the pieces up to the last non-empty one, so `a,b,,` has two tokens |
| `JavaText.SplitJoin` | src/main/java/org/personal/reader/CSVFileReader.java:95 | `split(",")` inverts a join of comma-free parts whose last part is non-empty |
| `JavaText.ToUpper` | src/main/java/org/personal/reader/CSVFileReader.java:86 | each lower-case ASCII letter maps to its own capital, and every other character is left as it is |
| `JavaText.SetterName` | src/main/java/org/personal/reader/CSVFileReader.java:86 | the setter name is `set` followed by the field name, whose first character is upper-cased and whose rest is unchanged |
| `JavaText.SetterNameCollision` | src/main/java/org/personal/reader/CSVFileReader.java:86 | two field names need the same setter exactly when their first letters upper-case alike and the rest agree |
| `JavaNumbers.DecimalValue` | src/main/java/org/personal/reader/CSVFileReader.java:115-119 | the reference value of a decimal text: the leading digit at its place value plus the rest, negated after `-`. Its sign follows the text's sign |
| `JavaNumbers.ParseDecimal` | src/main/java/org/personal/reader/CSVFileReader.java:115-119 | a text is accepted exactly when it is an optional sign and then at least one digit, with nothing else, and its value lies within the range. The result is then the value `DecimalValue` gives the text, leading zeros and `+` included |
| `JavaNumbers.ParseInt` | src/main/java/org/personal/reader/CSVFileReader.java:119 | `Integer.parseInt` yields only 32-bit values |
| `JavaNumbers.ParseLong` | src/main/java/org/personal/reader/CSVFileReader.java:116 | `Long.parseLong` yields only 64-bit values |
| `JavaNumbers.ShowNat` | src/main/java/org/personal/reader/CSVFileReader.java:115-119 | the decimal rendering is a non-empty digit string |
| `JavaNumbers.DigitsOfShowNat` | src/main/java/org/personal/reader/CSVFileReader.java:115-119 | the digits of a rendering denote the number rendered |
| `JavaNumbers.ParseShowInt` | src/main/java/org/personal/reader/CSVFileReader.java:115-119 | parsing a rendered number gives it back exactly when it is in range, and is an exception otherwise |
| `JavaNumbers.ParseIntRoundTrip` | src/main/java/org/personal/reader/CSVFileReader.java:118-119 | every 32-bit value survives toString and then `parseInt` |
| `JavaNumbers.ParseLongRoundTrip` | src/main/java/org/personal/reader/CSVFileReader.java:115-116 | every 64-bit value survives toString and then `parseLong` |
| `JavaNumbers.LeadingZeros` | src/main/java/org/personal/reader/CSVFileReader.java:115-119 | leading zeros do not change the number a digit string denotes |
| `JavaNumbers.ParsePaddedUnsigned` | src/main/java/org/personal/reader/CSVFileReader.java:115-119 | a zero-padded rendering such as `007` parses to its number exactly when that is in range |
| `JavaNumbers.ParsePaddedSigned` | src/main/java/org/personal/reader/CSVFileReader.java:115-119 | after `+` or `-`, zero-padded digits parse to the number, or to its negation after `-`, exactly when in range, so `+007` is 7 and `-0` is 0 |
| `HeaderBinder.HeaderKey` | src/main/java/org/personal/reader/CSVFileReader.java:73-77 | a token starting with U+FEFF is keyed by the rest of it, and any other token by itself |
| `HeaderBinder.PositionsOf` | src/main/java/org/personal/reader/CSVFileReader.java:69-78 | the name-to-position map, one `put` per token in order. Every position it holds is a column of the header. Its keys and positions are pinned down by `PositionsOfSpec` |
| `HeaderBinder.PositionsOfKeys` | src/main/java/org/personal/reader/CSVFileReader.java:68-78 | the map's keys are exactly the header tokens with a leading U+FEFF removed, at any position |
| `HeaderBinder.PositionsOfLast` | src/main/java/org/personal/reader/CSVFileReader.java:70-78 | each name maps to the last 0-based position carrying it, so a later duplicate wins |
| `HeaderBinder.PositionsOfSpec` | src/main/java/org/personal/reader/CSVFileReader.java:68-78 | keys, last positions, and distinct names having distinct positions, together |
| `HeaderBinder.ColumnPositions` | src/main/java/org/personal/reader/CSVFileReader.java:69-78 | the `columnPosition` loop builds exactly the name-to-position map |
| `HeaderBinder.ResolveSetter` | src/main/java/org/personal/reader/CSVFileReader.java:86-88 | `getMethod` succeeds exactly when the type has a setter named `set`+Name taking the field's type. The binding then records that field and type, and otherwise the failure is `NoSuchMethod` naming the setter |
| `HeaderBinder.BindFields` | src/main/java/org/personal/reader/CSVFileReader.java:84-91 | the field loop, storing each setter under `columnPosition.get(name)` (`ColumnOf`, null when the header lacks the name), fails only with `NoSuchMethod`, and it never removes a binding it started with. `BindFieldsFailure`, `BindFieldsConsistent`, `BindFieldsFrame` and `BindFieldsComplete` pin it down |
| `HeaderBinder.BindFieldsFailure` | src/main/java/org/personal/reader/CSVFileReader.java:84-88 | binding fails exactly when a declared field has no setter named `set`+Name taking the field's type. It fails with `NoSuchMethod` for the first such field |
| `HeaderBinder.BindFieldsConsistent` | src/main/java/org/personal/reader/CSVFileReader.java:84-90 | every binding under an integer column belongs to a field the header names at that column. A field the header lacks reaches only the null key |
| `HeaderBinder.BindFieldsFrame` | src/main/java/org/personal/reader/CSVFileReader.java:90 | a key no field's column hits keeps its old setter |
| `HeaderBinder.BindFieldsComplete` | src/main/java/org/personal/reader/CSVFileReader.java:84-90 | after successful binding, every field the header names is bound at its column to its own setter and type |
| `LineAssembler.StripQuote` | src/main/java/org/personal/reader/CSVFileReader.java:103-105 | a token starting with `"` loses its first and last characters, whatever the last one is. Other tokens are unchanged. Only a lone `"` throws |
| `LineAssembler.QuoteRoundTrip` | src/main/java/org/personal/reader/CSVFileReader.java:103-105 | stripping a quoted text gives the text back |
| `LineAssembler.Convert` | src/main/java/org/personal/reader/CSVFileReader.java:110-126 | for `Long`, an in-range decimal text gives `LongValue` of its value, and anything else gives `NumberFormat`. `Integer` is the same with the 32-bit range and `IntegerValue`. `String` gets the token unchanged, and any other type is "not supported" |
| `LineAssembler.ConvertRoundTrip` | src/main/java/org/personal/reader/CSVFileReader.java:115-119 | a rendered number converts back to itself for `Integer` and `Long` when it is in range, and fails otherwise |
| `LineAssembler.Step` | src/main/java/org/personal/reader/CSVFileReader.java:101-127 | a column yields an assignment only at a column with a bound setter, and only to that setter's field. At a column with no setter, the step fails exactly when the token is a lone `"` |
| `LineAssembler.Assemble` | src/main/java/org/personal/reader/CSVFileReader.java:100-129 | the column loop from a given column on never drops a field already assigned. `AssembleOk`, `AssembleFirstError` and `AssembleRecord` pin it down |
| `LineAssembler.LineOutcome` | src/main/java/org/personal/reader/CSVFileReader.java:94-135 | the one sink call for a line, characterised by `AssembleOk`, `AssembleFirstError` and `AssembleRecord` and used by `ProcessLine` |
| `LineAssembler.AssembleOk` | src/main/java/org/personal/reader/CSVFileReader.java:97-134 | a line succeeds exactly when every column's strip-lookup-convert step succeeds |
| `LineAssembler.AssembleFirstError` | src/main/java/org/personal/reader/CSVFileReader.java:100-133 | a failing line reports the exception of its first failing column, and every earlier column succeeded |
| `LineAssembler.AssembleRecord` | src/main/java/org/personal/reader/CSVFileReader.java:98-129 | a record holds exactly the fields bound at columns the line reaches, each with the value converted from its own column. Unbound columns and unreached fields leave nothing |
| `LineAssembler.LoneQuoteFailsLine` | src/main/java/org/personal/reader/CSVFileReader.java:101-107 | a token that is a lone `"` fails its line even where no setter is bound |
| `CsvReader.Prepare` | src/main/java/org/personal/reader/CSVFileReader.java:64-91 | a null header fails with the exception for `split` on `null`. Otherwise preparation fails only with `NoSuchMethod` |
| `CsvReader.Setup` | src/main/java/org/personal/reader/CSVFileReader.java:36-43 | setup succeeds only for a file that opens and whose first `readLine` (`Header`, null for an empty file) gives a header line |
| `CsvReader.LineOutcomes` | src/main/java/org/personal/reader/CSVFileReader.java:45-55 | the outcome of each data line in order, characterised by `LineOutcomesAt` |
| `CsvReader.ProcessOutcomes` | src/main/java/org/personal/reader/CSVFileReader.java:34-62 | the sink calls of one `process()`. They are empty only when setup succeeded. `FileFailures` and `BindingOutcome` pin them down |
| `CsvReader.LineOutcomesAt` | src/main/java/org/personal/reader/CSVFileReader.java:45-55 | one outcome per line, the i-th for the i-th line |
| `CsvReader.LineOutcomesSnoc` | src/main/java/org/personal/reader/CSVFileReader.java:45-55 | processing one more line appends exactly its outcome |
| `CsvReader.FileFailures` | src/main/java/org/personal/reader/CSVFileReader.java:36-45 | a file that cannot be opened, or an empty file whose null header fails `split`, ends in a single `onFail` and nothing else |
| `CsvReader.BindingOutcome` | src/main/java/org/personal/reader/CSVFileReader.java:41-60 | a missing setter makes one `onFail(NoSuchMethod)` the only outcome. Otherwise each line after the header is processed exactly once, and the header never is |
| `CsvReader.ConsistentDistinct` | src/main/java/org/personal/reader/CSVFileReader.java:90 | bindings consistent with the header never put one field at two columns |
| `CsvReader.AssignedFieldsAreColumns` | src/main/java/org/personal/reader/CSVFileReader.java:107-109 | a field present in a record is a header column that the line reaches |
| `CsvReader.UnmatchedFieldNeverSet` | src/main/java/org/personal/reader/CSVFileReader.java:88-90 | a declared field that no header column names is never assigned on any line. Its absence is not an error: setup succeeds whenever every declared field has its setter |
| `CsvReader.BoundFieldsAssigned` | src/main/java/org/personal/reader/CSVFileReader.java:84-129 | each field of a successful record holds the value converted from its header column when the line reaches that column. The field is absent when the header lacks it or the line is too short |
| `CsvReader.CsvFileReader.constructor` | src/main/java/org/personal/reader/CSVFileReader.java:29-32 | a new reader has no bindings, a live pool and no sink calls |
| `CsvReader.CsvFileReader.Process` | src/main/java/org/personal/reader/CSVFileReader.java:34-62 | the sink calls, the bindings left behind and the pool state are those of the header-then-lines driver. The pool is shut down only after a successful setup |
| `CsvReader.CsvFileReader.PrepareProcessing` | src/main/java/org/personal/reader/CSVFileReader.java:64-92 | the `methods` map and the exception are those of the field-binding loop over the header's positions |
| `CsvReader.CsvFileReader.ProcessLine` | src/main/java/org/personal/reader/CSVFileReader.java:94-135 | appends exactly one sink call: the line's record, or its first exception |
| `AccountSample.HeaderPositions` | src/main/java/org/personal/reader/CSVFileReader.java:68-78 | the header `﻿id,name,balance` gives id→0, name→1, balance→2 |
| `AccountSample.AccountBinds` | src/main/java/org/personal/reader/CSVFileReader.java:84-90 | the account type binds `setId`, `setName` and `setBalance` at columns 0, 1 and 2 |
| `AccountSample.AliceLine` | src/main/java/org/personal/reader/CSVFileReader.java:94-131 | `7,"Alice",1500` gives id 7, name Alice with the quotes stripped, and balance 1500 |
| `AccountSample.BadIdLine` | src/main/java/org/personal/reader/CSVFileReader.java:115-116 | a non-numeric id fails its line with `NumberFormat` |
| `AccountSample.ShortLine` | src/main/java/org/personal/reader/CSVFileReader.java:100-109 | a one-token line succeeds and sets the id only |
| `AccountSample.AccountFile` | src/main/java/org/personal/reader/CSVFileReader.java:34-62 | a three-line account file gives success, failure, success, one outcome per line |

## Left out

- The worker pool (`newFixedThreadPool`, `execute`, `awaitTermination`) is left out because it is concurrency. Lines are processed one after another.
- Only the pool's shut-down state is kept. The pool is shut down at the end of a run whose setup succeeded.
- A later `process()` on the same reader first does its own setup. If that fails, the failure is reported as usual. If it succeeds and the file has data lines, the first `execute` is rejected, giving one `onFail(Rejected)`.
- A reader whose earlier runs all failed in setup keeps a live pool and processes lines normally.
- CsvReader.CsvFileReader.Process: its outcomes come in file order. The source reports them in whatever order the workers finish, so only the multiset of outcomes is meaningful.
- Opening the file and `readLine` are I/O. The file is a sequence of lines, or `None` when it cannot be opened. An `IOException` while reading is not modelled.
- Reflection is replaced by the `RecordType` descriptor. This covers generic type discovery, `getDeclaredFields`, `getMethod`, `newInstance` and `invoke`. Record construction always succeeds. A setter is assumed to store its argument in the field it is named after. An exception thrown inside a setter is not modelled.
- HeaderBinder.BindFieldsFailure: the fields are taken in the order of `RecordType.fields`. `getDeclaredFields` promises no order, so when several setters are missing, the source's `NoSuchMethod` names whichever one the JVM lists first.
- JavaNumbers.ParseDecimal: only ASCII digits are accepted. `parseInt` and `parseLong` also accept other Unicode decimal digits.
- JavaText.ToUpper: only ASCII letters are upper-cased. `Character.toUpperCase` also maps other letters.
- LineAssembler.StripQuote: strings are modelled as sequences of Unicode characters, but a Java `String` is a sequence of UTF-16 units. A character beyond U+FFFF counts as one here but as two in `length()`, and `substring` can cut it in half. For example, a quote followed by U+1F600 strips to a lone high surrogate in Java and to the empty string here.
- A sink whose `onSuccess` throws is not modelled. In the source it triggers an extra `onFail` for that line.
- AccountReaderSample.java and Application.java are not part of this model. They are application wiring, configuration and logging.
