/** Field values and their cell text (`valueOf`, `valueOfSlice`).
    A Go value reached through reflection is modelled by a sum type over
    the reflect kinds the formatter distinguishes; a record is the ordered
    list of a struct's fields with their tags. */
module Values {
  import opened Wrappers
  import opened Text
  import opened Decimal
  import opened Configuration

  datatype IntWidth = Int | Int8 | Int16 | Int32 | Int64
  datatype FloatWidth = Float32 | Float64

  /** The reflect kinds that reach the "unsupported" placeholder; `Invalid`
      is the kind of a nil interface value. */
  datatype OtherKind =
    | Invalid | Uint | Uint8 | Uint16 | Uint32 | Uint64 | Uintptr
    | Complex64 | Complex128 | Chan | Func | Map | Struct | UnsafePointer

  /** `reflect.Kind.String()` for the unsupported kinds. */
  function KindName(k: OtherKind): string
  {
    match k
    case Invalid => "invalid"
    case Uint => "uint"
    case Uint8 => "uint8"
    case Uint16 => "uint16"
    case Uint32 => "uint32"
    case Uint64 => "uint64"
    case Uintptr => "uintptr"
    case Complex64 => "complex64"
    case Complex128 => "complex128"
    case Chan => "chan"
    case Func => "func"
    case Map => "map"
    case Struct => "struct"
    case UnsafePointer => "unsafe.Pointer"
  }

  /** The dynamic value of one field. A float carries the IEEE-754 bits of
      its float64 widening; a pointer carries its pointee, `None` when nil;
      a slice or array carries its elements. Struct values (and so nested
      records) are `OtherVal(Struct)`: the formatter does not look inside. */
  datatype Value =
    | IntVal(width: IntWidth, n: int)
    | BoolVal(b: bool)
    | FloatVal(fwidth: FloatWidth, bits: bv64)
    | StringVal(s: string)
    | PtrVal(target: Option<Value>)
    | SliceVal(isArray: bool, elems: seq<Value>)
    | OtherVal(kind: OtherKind)

  /** Whether `n` is representable in a Go integer of the given width
      (`int` being 64 bits wide). */
  predicate InWidth(w: IntWidth, n: int)
  {
    match w
    case Int8 => -0x80 <= n <= 0x7f
    case Int16 => -0x8000 <= n <= 0x7fff
    case Int32 => -0x8000_0000 <= n <= 0x7fff_ffff
    case _ => Int64Min <= n <= Int64Max
  }

  /** `strconv.FormatFloat(x, 'f', precision, 64)`, which the model does
      not interpret. */
  type FloatFormat = (bv64, int) -> string

  /** One named struct field with its `colprint` tag ("" when absent). */
  datatype Field = Field(name: string, tag: string, value: Value)

  /** A struct value: its fields in declaration order. */
  datatype Record = Record(fields: seq<Field>)

  predicate HasField(rec: Record, name: string)
  {
    exists k :: 0 <= k < |rec.fields| && rec.fields[k].name == name
  }

  /** `reflect.Value.FieldByName`: the field called `name`. */
  function Lookup(rec: Record, name: string): (v: Value)
    requires HasField(rec, name)
    ensures exists k :: 0 <= k < |rec.fields| && rec.fields[k].name == name && rec.fields[k].value == v
    decreases |rec.fields|
  {
    if rec.fields[0].name == name then rec.fields[0].value
    else
      assert HasField(Record(rec.fields[1..]), name) by {
        var k :| 0 <= k < |rec.fields| && rec.fields[k].name == name;
        assert rec.fields[1..][k - 1] == rec.fields[k];
      }
      var v := Lookup(Record(rec.fields[1..]), name);
      ghost var k :| 0 <= k < |rec.fields| - 1 && rec.fields[1..][k].name == name && rec.fields[1..][k].value == v;
      assert rec.fields[k + 1] == rec.fields[1..][k];
      v
  }

  /** A slice of `n` items with item limit `k` is cut short exactly when
      the limit is positive and exceeded. */
  predicate Truncates(n: int, k: int)
  {
    k >= 1 && n > k
  }

  /** How many items of a slice of `n` items are shown. */
  function Shown(n: nat, k: int): (m: nat)
    ensures m <= n
  {
    if Truncates(n, k) then k else n
  }

  /** The cell text of a slice whose items have texts `texts`: the shown
      items joined by ", ", then ",..." when items were left out. */
  function SliceText(texts: seq<string>, k: int): string
  {
    Join(texts[..Shown(|texts|, k)], ", ") + (if Truncates(|texts|, k) then ",..." else "")
  }

  /** The cell text of a value; the reference the formatter is held to. */
  function ValueText(v: Value, s: Settings, ff: FloatFormat): string
    decreases v, 1
  {
    match v
    case IntVal(_, n) => DecimalText(n)
    case BoolVal(b) => if b then "true" else "false"
    case FloatVal(_, bits) => ff(bits, s.floatPrecision)
    case StringVal(t) => t
    case PtrVal(target) => if target.None? then "" else ValueText(target.value, s, ff)
    case SliceVal(_, _) => SliceText(ItemTexts(v, s, ff), s.maxPrintedSliceItems)
    case OtherVal(k) => "<Unsupported kind:" + KindName(k) + ">"
  }

  /** The cell texts of a slice's items, each formatted with the same
      settings as the slice. */
  function ItemTexts(v: Value, s: Settings, ff: FloatFormat): (texts: seq<string>)
    requires v.SliceVal?
    ensures |texts| == |v.elems|
    decreases v, 0
  {
    seq(|v.elems|, i requires 0 <= i < |v.elems| => ValueText(v.elems[i], s, ff))
  }
}
