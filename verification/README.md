# colprint core in Dafny

A model of the core of `colprint`, a Go package that prints a struct, or a slice of structs, as an aligned table. Columns come from the struct's `colprint:"Label,Order"` field tags.

The model covers these parts of the package:

- **Column discovery.** This is `findColumns`. It reads each tag:
  - an empty tag or `-` skips the field;
  - a tag with one part is a column sorting with order `math.MaxInt32`;
  - a tag with two parts is a label plus an `Atoi` order, or an error naming the field;
  - a tag with three or more parts is silently dropped.

  Discovery then sorts the kept columns by order.
- **Cell text.** This is `valueOf` and `valueOfSlice`.
  - Integers are printed in decimal.
  - Booleans print as `true` or `false`.
  - Floats go through an uninterpreted formatter at the configured precision.
  - Strings print as they are.
  - Pointers are followed; a nil pointer prints as nothing.
  - Slices and arrays list their items joined by `", "`, cut to the configured limit with `",..."` appended.
  - Any other kind prints `<Unsupported kind:…>`.
- **Configuration.** This is `createDefaultConfig` and `mergeConfig`. The defaults are 3 slice items and precision 2. Each field the caller sets overrides the default.
- **The printer state.** This is `cPrinter.add`, `init` and `initColumn`. The schema is discovered on the first `add` and reused after that. One cell per column is buffered for each record.
- **Line assembly.** `fprint` builds a header line and one line per record. Cells are separated by `|`.
- **Dispatch.** `Fprint` treats one record as a one-element slice. It stops at the first error.

A struct value is modelled as a `Record`: its fields in declaration order, each with a name, its tag and a `Value`. The reflect kinds that the formatter distinguishes become constructors of `Value`. The printer is an immutable datatype threaded through `Add`.

Three points about what the Go code does, which the model follows:

- There is no traversal into nested structs. A struct-valued field prints the unsupported-kind placeholder.
- A tag with three or more comma-separated parts is not an error. The field is silently left out.
- `sort.Sort` is not stable. `Columns.FindColumns` promises only a sorted permutation of the kept columns. `Columns.SortedPermutationsAgreeOnOrders` shows that every ordering allowed by that promise has the same sequence of order keys. Columns with equal orders may come out in either order. The printer's contracts are stated over the one ordering the model computes (see "## Left out").

## Model

| member | source | states |
|---|---|---|
| Text.Split | colprint.go:172 | `strings.Split` on one character: there is one more part than occurrences of the separator, no part contains it, and joining the parts with it gives the input back |
| Text.SplitJoin | colprint.go:172 | splitting parts joined by a separator that none of them contains gives the parts back |
| Decimal.ParseInt | colprint.go:178 | `strconv.Atoi` succeeds only on an optional sign followed by one or more digits; unsigned or `+`-signed digits read as their decimal value and `-`-signed digits as its negation, each exactly when the result fits in 64 bits; an empty string or a bare sign is an error |
| Decimal.DecimalText | colprint.go:195 | `strconv.FormatInt(n, 10)` is non-empty digits, with a leading `-` exactly when `n` is negative, and without leading zeros: "0" for zero, otherwise the first digit is not `0` |
| Decimal.DecimalRoundTrip | colprint.go:195 | parsing the decimal text of any 64-bit integer gives the integer back |
| Decimal.PlusSignIsOptional | colprint.go:178 | `Atoi` reads `+` followed by digits exactly as it reads the digits alone, in range or not |
| Configuration.MergeConfig | colprint.go:238-249 | each field the caller set replaces the base field, each unset field keeps it, and a nil configuration changes nothing |
| Configuration.EmptyConfigIsNoConfig | colprint.go:239-247 | a configuration with no field set merges like no configuration at all |
| Configuration.MergeIdempotent | colprint.go:238-249 | merging the same configuration a second time changes nothing |
| Printer.NewPrinter | colprint.go:43 | `Fprint` starts with no schema and no records, under the defaults (3 slice items, precision 2) merged with the caller's configuration |
| Values.Lookup | colprint.go:117 | `FieldByName` returns the value of a field carrying the requested name |
| Format.ValueOf | colprint.go:190-211 | cell text by kind: decimal integers that `Atoi` reads back when in width, `true`/`false`, the float formatter at the configured precision, strings as they are, nil pointers as "", other pointers as their target, and the unsupported-kind placeholder with Go's kind name otherwise |
| Format.ValueOfSlice | colprint.go:214-227 | an empty slice gives ""; past a positive limit `k`, the first `k` item texts joined by ", " and then ",..."; otherwise all item texts joined by ", " |
| Format.PointerChainIsTransparent | colprint.go:204-208 | any chain of non-nil pointers prints like the value at its end |
| Format.SliceTextIgnoresTail | colprint.go:217-221 | a truncated slice's text depends only on its first `k` items, whether it is a slice or an array |
| Columns.ParseTag | colprint.go:167-183 | "" and "-" are skipped; a tag without a comma is its own label with order `MaxInt32`; a tag with one comma is the text before it with the `Atoi` reading of the text after it, or a bad order; a tag with two or more commas is ignored |
| Columns.ColumnOf | colprint.go:169-183 | a field's column, stated against its tag text: none for "" or "-"; the whole tag as label with order `MaxInt32` when it has no comma; the text before its only comma as label and the `Atoi` reading of the text after it as order, or none when that does not parse; none for two or more commas; the column always reads the field itself |
| Columns.MessageNamesField | colprint.go:180 | the error text "Invalid order on field …" gives back the field's name, so distinct fields give distinct messages |
| Columns.KeptSource | colprint.go:165-184 | every discovered column is the column of some field |
| Columns.KeptComplete | colprint.go:165-184 | every labelled field's column is discovered |
| Columns.Discover | colprint.go:165-184 | the field loop succeeds exactly when no tag has a bad order; otherwise it reports the first such field by name; on success it keeps the labelled fields' columns in declaration order |
| Columns.SortColumns | colprint.go:185 | the result is sorted by order and is a permutation of its input |
| Columns.FindColumns | colprint.go:162-187 | success exactly when no tag has a bad order; otherwise the error names the first bad field; on success a sorted permutation of the kept columns in which a smaller order comes first, each reading a field the record has |
| Columns.SortedOrderLaw | colprint.go:80-82 | in a list sorted under `Less`, a column of strictly smaller order comes before one of larger order |
| Columns.SortedPermutationsAgreeOnOrders | colprint.go:185 | any two sorted permutations of the same columns have the same sequence of orders, so the outcome of `sort.Sort` is unique up to ties |
| Columns.SchemaIgnoresValues | colprint.go:162-187 | discovery depends only on the fields' names and tags, not on their values |
| Printer.Init | colprint.go:152-155 | `init` gives an empty, non-nil schema and no buffers, and keeps the count and settings |
| Printer.InitColumns | colprint.go:108-112 | installing the schema gives every column an empty buffer |
| Printer.AppendRecord | colprint.go:114-120 | each column's buffer grows by the record's cell for that column's field, and the count grows by one |
| Printer.Add | colprint.go:100-122 | fails exactly when there is no schema yet and discovery fails, with discovery's error, leaving an empty schema and the count unchanged; otherwise it keeps the existing schema or installs the discovered one, appends one cell per column and counts the record |
| Printer.AddAfterFailedFirstAdd | colprint.go:102-108 | after a failed first `add`, the next `add` succeeds with no columns and counts a record |
| Printer.JoinCells | colprint.go:129-134 | the `i != len-1` loop builds the cells joined by the separator |
| Printer.AssembleLines | colprint.go:125-147 | one header line of the column labels and one line per record of its buffered cells, each joined by "|"; when the schema has at least one column and no cell contains "|", splitting a line on "|" gives its cells back |
| Printer.AddAll | colprint.go:47-60 | the records are added in order and the loop stops at the first error; only discovery on the first record can fail, with that record's discovery error; otherwise the printer holds one row per record, row `k` being record `k`'s cells under the first record's schema and the merged settings |
| Printer.Fprint | colprint.go:42-64 | fails exactly when there is a first record and its discovery fails, with that error, whose text "Invalid order on field …" names the first field of that record whose order does not parse; a single record is handled as a one-element slice; otherwise the lines are the header of the first record's schema and, for each record in order, its cells under the merged configuration joined by "|" |
| Fixtures.TwoPartTag | colprint.go:172-182 | a two-part tag is its label with the `Atoi` reading of its order, or a bad order |
| Fixtures.UnorderedTag | colprint.go:174-176 | a tag without a comma is a column of order `MaxInt32` |
| Fixtures.FirstNameTag | colprint_test.go:167 | `Person.FirstName`'s tag gives label "First name" and order 1 |
| Fixtures.ErrornousTag | colprint_test.go:154-156 | `Errornous.Error`'s tag "Error,a" has a bad order |
| Fixtures.ThreePartTag | colprint.go:174-183 | a three-part tag is ignored without an error |

## Left out

- `columnize.SimpleFormat` and the write to the `io.Writer`: the third-party aligner is not part of this model. `Fprint` returns the `|`-separated lines it would align.
- `DefaultPrint`, `DefaultFprint` and `Print` only pass a nil configuration or `os.Stdout` to `Fprint`. They are left out as I/O wrappers.
- `strconv.FormatFloat` is the parameter `FloatFormat`: floating-point formatting is not interpreted. A float is carried as the bits of its float64 widening.
- Reflection is replaced by explicit `Record` and `Value` data. `reflect.StructTag.Get` is replaced by each field's tag string, with "" for an absent tag.
- Panics on a non-struct argument, a pointer-to-struct argument and unexported fields are not modelled. Only the error results are. A nil interface field is modelled: it prints `<Unsupported kind:invalid>`.
- Go strings need not be valid UTF-8, and a Dafny `string` cannot hold such text. Nothing modelled here depends on the encoding: the core splits on the ASCII `,`, joins on `|` and reads ASCII digits.
- Printer.Fprint: requires that every record has the fields the first record's schema reads. This is always the case for a Go slice of one struct type; elements of mixed types would panic in the Go code.
- Printer.Add: requires that a record conforms to an existing schema, for the same reason.
- The `map[column][]string` buffers are modelled as one buffer per column position. This makes a difference only when two columns are equal in name, label and order, which distinct struct fields never are.
- `Len` and `Swap` of the sort interface are left out: the model sorts a sequence functionally.
- Columns.SortColumns: stands for one outcome of the unstable `sort.Sort`, namely insertion sort. Its contract and that of Columns.FindColumns state only "sorted permutation", because `sort.Sort` does not pin down the order among columns of equal order either.
- Printer.Add: installs `FindColumns(rec).value` as the schema. Among columns of equal order, that is insertion sort's order, which `sort.Sort` does not promise. Only the order keys of the schema are fixed by the Go code (Columns.SortedPermutationsAgreeOnOrders).
- Printer.AddAll: its rows are stated under `TableSchema`, the first record's `FindColumns` value, so it fixes the same tie order as Printer.Add.
- Printer.Fprint: its header and row lines are stated under the same schema, so for columns of equal order they fix an arrangement of cells that the Go code may produce in another order.
- Decimal.ParseInt: models `strconv.Atoi` on a 64-bit platform. `int` is 64 bits wide, and an out-of-range value is an error rather than being clamped. Underscores and base prefixes are rejected, as `Atoi` rejects them.
- Values.InWidth: integer widths are recorded but not enforced on values. The round trip in Format.ValueOf is stated only for values in range.
- `mergeConfig` writes through the default configuration's pointers. The model returns a new value, which is indistinguishable here because `Fprint` creates a fresh default each time.
