/**
 * The vocabulary shared by the schema tables: the JavaScript constructors a
 * table names for each field, the mask-table entry [offset, bit, type,
 * element decoder], and the decoded values those constructors produce.
 */
module Schema {
  import opened Wrappers

  /** The constructor a table names: `Number`, `String`, `Boolean` or `Array`. */
  datatype Ctor = NumberCtor | StringCtor | BooleanCtor | ArrayCtor

  /**
   * One row of a mask table, `[offset, bit, type, elementDecoder]`: the byte
   * of the mask the field lives in, the bit value it adds there, the
   * constructor of the decoded value, and, for list fields, the constructor
   * applied to each element (`null` is `None`).
   */
  datatype MaskEntry = MaskEntry(offset: nat, bit: bv8, kind: Ctor, element: Option<Ctor>)

  /**
   * A decoded value. The JavaScript conversions are kept symbolic:
   * `Number(t)` stands for what `Number(t)` yields (so `Number("")` is 0),
   * `Text(t)` for `String(t)`, which is `t` itself, and `Boolean(t)` for
   * `Boolean(t)`. A list field decodes to `List` of its converted elements.
   */
  datatype Value =
    | Number(text: string)
    | Text(text: string)
    | Boolean(text: string)
    | List(items: seq<Value>)

  /** Applying a table's constructor to one slot of text; `Array(t)` is `[t]`. */
  function Convert(c: Ctor, t: string): (v: Value)
    ensures c != ArrayCtor ==> !v.List? && v.text == t
    ensures c == NumberCtor <==> v.Number?
    ensures c == StringCtor <==> v.Text?
    ensures c == BooleanCtor <==> v.Boolean?
  {
    match c
    case NumberCtor => Number(t)
    case StringCtor => Text(t)
    case BooleanCtor => Boolean(t)
    case ArrayCtor => List([Text(t)])
  }

  /** The wire text a scalar value was converted from. */
  function TextOf(v: Value): string
    requires !v.List?
  {
    v.text
  }

  /** The bit values a mask table may use: zero or a single bit of one byte. */
  predicate IsBitValue(b: bv8) {
    b == 0 || b == 1 || b == 2 || b == 4 || b == 8 || b == 16 || b == 32 || b == 64 || b == 128
  }

  /** Every field of the table addresses a byte below `width`. */
  ghost predicate OffsetsBelow<F(!new)>(table: F -> MaskEntry, width: nat) {
    forall f :: table(f).offset < width
  }

  /** Every bit value of the table is zero or a power of two below 256. */
  ghost predicate BitValues<F(!new)>(table: F -> MaskEntry) {
    forall f :: IsBitValue(table(f).bit)
  }

  /** Two different fields in the same byte never share a non-zero bit value. */
  ghost predicate BitsDistinct<F(!new)>(table: F -> MaskEntry) {
    forall f, g :: f != g && table(f).offset == table(g).offset && table(f).bit == table(g).bit ==> table(f).bit == 0
  }

  /** A field carries an element decoder exactly when its type is `Array`. */
  ghost predicate ListsHaveDecoders<F(!new)>(table: F -> MaskEntry) {
    forall f :: (table(f).kind == ArrayCtor <==> table(f).element.Some?)
  }

  /** Element decoders are `Number` or `String`. */
  ghost predicate ScalarDecoders<F(!new)>(table: F -> MaskEntry) {
    forall f :: table(f).element.Some? ==> table(f).element.value in {NumberCtor, StringCtor}
  }

  /** Everything the encoder and decoder rely on about a mask table of `width` bytes. */
  ghost predicate WellFormed<F(!new)>(table: F -> MaskEntry, width: nat) {
    OffsetsBelow(table, width) && BitValues(table) && BitsDistinct(table)
    && ListsHaveDecoders(table) && ScalarDecoders(table)
  }

  /** The order in which `Object.keys` lists a table's fields covers each field exactly once. */
  ghost predicate KeyOrder<F(!new)>(keys: seq<F>) {
    (forall i, j :: 0 <= i < j < |keys| ==> keys[i] != keys[j]) && (forall f :: f in keys)
  }
}
