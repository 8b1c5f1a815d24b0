/**
 * The field-mask encoder shared by `generateAnimeMask`, `generateFileMask` and
 * `generateFAnimeMask`: a zero-filled byte buffer, one `mask[offset] += bit`
 * per requested field, then the buffer as lowercase hexadecimal.
 */
module Mask {
  import opened Wrappers
  import opened Schema

  /** One element of a Node.js `Buffer`. */
  type Byte = b: int | 0 <= b < 256

  /** `Buffer.alloc(width)`. */
  function Zeros(width: nat): (z: seq<Byte>)
    ensures |z| == width && forall j :: 0 <= j < width ==> z[j] == 0
  {
    seq(width, _ => 0)
  }

  /**
   * `mask[e.offset] += e.bit` on a byte buffer: the stored sum wraps modulo 256,
   * and a write past the end of the buffer is ignored.
   */
  function AddBit(mask: seq<Byte>, e: MaskEntry): seq<Byte> {
    if e.offset < |mask| then mask[e.offset := (mask[e.offset] + e.bit as int) % 256] else mask
  }

  /** The buffer after the fields have been added to it in list order. */
  function Bytes<F>(table: F -> MaskEntry, width: nat, fields: seq<F>): seq<Byte>
    decreases |fields|
  {
    if |fields| == 0 then Zeros(width)
    else AddBit(Bytes(table, width, fields[..|fields| - 1]), table(fields[|fields| - 1]))
  }

  /** Adding one more field to a prefix of the list. */
  lemma BytesStep<F>(table: F -> MaskEntry, width: nat, fields: seq<F>, k: nat)
    requires k < |fields|
    ensures Bytes(table, width, fields[..k + 1]) == AddBit(Bytes(table, width, fields[..k]), table(fields[k]))
  {
    assert fields[..k + 1][..k] == fields[..k];
  }

  /** What field `f` contributes to byte `j`. */
  function Contribution<F>(table: F -> MaskEntry, f: F, j: nat): bv8 {
    if table(f).offset == j then table(f).bit else 0
  }

  /** The plain sum of the bit values the fields add to byte `j`. */
  function BitSum<F>(table: F -> MaskEntry, fields: seq<F>, j: nat): nat
    decreases |fields|
  {
    if |fields| == 0 then 0
    else BitSum(table, fields[..|fields| - 1], j) + Contribution(table, fields[|fields| - 1], j) as int
  }

  /** The bitwise OR of the bit values the fields set in byte `j`. */
  function BitOr<F>(table: F -> MaskEntry, fields: seq<F>, j: nat): bv8
    decreases |fields|
  {
    if |fields| == 0 then 0
    else BitOr(table, fields[..|fields| - 1], j) | Contribution(table, fields[|fields| - 1], j)
  }

  /** No field is requested twice. */
  predicate NoDuplicates<F(==)>(fields: seq<F>) {
    forall i, j :: 0 <= i < j < |fields| ==> fields[i] != fields[j]
  }

  /**
   * The buffer always has `width` bytes, and byte `j` holds the sum of the bit
   * values of the fields addressed to byte `j`, modulo 256; fields addressed to
   * other bytes leave it alone.
   */
  lemma {:induction false} BytesAreSums<F>(table: F -> MaskEntry, width: nat, fields: seq<F>)
    ensures |Bytes(table, width, fields)| == width
    ensures forall j :: 0 <= j < width ==> Bytes(table, width, fields)[j] == BitSum(table, fields, j) % 256
    decreases |fields|
  {
    if |fields| > 0 {
      var init := fields[..|fields| - 1];
      BytesAreSums(table, width, init);
      var e := table(fields[|fields| - 1]);
      forall j | 0 <= j < width
        ensures Bytes(table, width, fields)[j] == BitSum(table, fields, j) % 256
      {
        if j == e.offset {
          ModAdd(BitSum(table, init, j), e.bit as int);
        }
      }
    }
  }

  lemma ModAdd(a: nat, b: nat)
    ensures (a % 256 + b) % 256 == (a + b) % 256
  {
  }

  /** The sum over a concatenation is the sum of the sums. */
  lemma {:induction false} BitSumAppend<F>(table: F -> MaskEntry, xs: seq<F>, ys: seq<F>, j: nat)
    ensures BitSum(table, xs + ys, j) == BitSum(table, xs, j) + BitSum(table, ys, j)
    decreases |ys|
  {
    if |ys| == 0 {
      assert xs + ys == xs;
    } else {
      var ys' := ys[..|ys| - 1];
      BitSumAppend(table, xs, ys', j);
      assert (xs + ys)[..|xs + ys| - 1] == xs + ys';
      assert (xs + ys)[|xs + ys| - 1] == ys[|ys| - 1];
    }
  }

  /** Taking element `k` out of a list takes one copy of it out of its multiset. */
  lemma RemoveOne<F>(ys: seq<F>, k: nat)
    requires k < |ys|
    ensures multiset(ys) == multiset(ys[..k] + ys[k + 1..]) + multiset{ys[k]}
  {
    assert ys == ys[..k] + [ys[k]] + ys[k + 1..];
  }

  /** Taking element `k` out of a list takes its contribution out of every sum. */
  lemma BitSumRemove<F>(table: F -> MaskEntry, ys: seq<F>, k: nat, j: nat)
    requires k < |ys|
    ensures BitSum(table, ys, j) == BitSum(table, ys[..k] + ys[k + 1..], j) + Contribution(table, ys[k], j) as int
  {
    var x := ys[k];
    assert ys == ys[..k] + [x] + ys[k + 1..];
    BitSumAppend(table, ys[..k] + [x], ys[k + 1..], j);
    BitSumAppend(table, ys[..k], [x], j);
    BitSumAppend(table, ys[..k], ys[k + 1..], j);
    assert BitSum(table, [x], j) == Contribution(table, x, j) as int by {
      assert [x][..0] == [];
    }
  }

  /** Multisets that agree after adding the same element agreed before. */
  lemma MultisetCancel<F>(a: multiset<F>, b: multiset<F>, x: F)
    requires a + multiset{x} == b + multiset{x}
    ensures a == b
  {
    forall y ensures a[y] == b[y] {
      assert (a + multiset{x})[y] == (b + multiset{x})[y];
    }
  }

  /** The sums, and so the whole buffer, depend only on which fields are requested how often. */
  lemma {:induction false} BitSumPermutation<F>(table: F -> MaskEntry, xs: seq<F>, ys: seq<F>, j: nat)
    requires multiset(xs) == multiset(ys)
    ensures BitSum(table, xs, j) == BitSum(table, ys, j)
    decreases |xs|
  {
    if |xs| > 0 {
      var n := |xs| - 1;
      var x, xs' := xs[n], xs[..n];
      RemoveOne(xs, n);
      assert xs[..n] + xs[n + 1..] == xs';
      assert x in multiset(ys);
      var k :| 0 <= k < |ys| && ys[k] == x;
      var ys' := ys[..k] + ys[k + 1..];
      RemoveOne(ys, k);
      MultisetCancel(multiset(xs'), multiset(ys'), x);
      BitSumPermutation(table, xs', ys', j);
      BitSumRemove(table, ys, k, j);
    } else {
      assert |ys| == |multiset(ys)| == 0;
    }
  }

  /** The mask does not depend on the order in which the fields are listed. */
  lemma OrderIndependent<F>(table: F -> MaskEntry, width: nat, xs: seq<F>, ys: seq<F>)
    requires multiset(xs) == multiset(ys)
    ensures Bytes(table, width, xs) == Bytes(table, width, ys)
  {
    BytesAreSums(table, width, xs);
    BytesAreSums(table, width, ys);
    forall j | 0 <= j < width
      ensures Bytes(table, width, xs)[j] == Bytes(table, width, ys)[j]
    {
      BitSumPermutation(table, xs, ys, j);
    }
  }

  /** The OR over a concatenation is the OR of the two ORs. */
  lemma {:induction false} BitOrAppend<F>(table: F -> MaskEntry, xs: seq<F>, ys: seq<F>, j: nat)
    ensures BitOr(table, xs + ys, j) == BitOr(table, xs, j) | BitOr(table, ys, j)
    decreases |ys|
  {
    if |ys| == 0 {
      assert xs + ys == xs;
    } else {
      var ys' := ys[..|ys| - 1];
      BitOrAppend(table, xs, ys', j);
      assert (xs + ys)[..|xs + ys| - 1] == xs + ys';
      assert (xs + ys)[|xs + ys| - 1] == ys[|ys| - 1];
      OrAssociates(BitOr(table, xs, j), BitOr(table, ys', j), Contribution(table, ys[|ys| - 1], j));
    }
  }

  lemma OrAssociates(u: bv8, v: bv8, w: bv8)
    ensures (u | v) | w == u | (v | w)
  {
  }

  /** A set single bit is all there is of that bit. */
  lemma SingleBit(v: bv8, b: bv8)
    requires IsBitValue(b) && v & b != 0
    ensures v & b == b
  {
  }

  lemma Collect(v: bv8, a: bv8, b: bv8)
    requires v & a == a && v & b == b
    ensures v & (a | b) == a | b
  {
  }

  /** A byte with every bit of `full` set and no other bit is `full`. */
  lemma BitsDetermine(v: bv8, full: bv8)
    requires v & full == full && v & !full == 0
    ensures v == full
  {
  }

  /** Setting a clear single bit adds its value. */
  lemma OrIsAdd(v: bv8, w: bv8)
    requires IsBitValue(w) && v & w == 0
    ensures (v | w) as int == v as int + w as int
  {
    if w == 0 { OrBit0(v, w); }
    else if w == 1 { OrBit1(v, w); }
    else if w == 2 { OrBit2(v, w); }
    else if w == 4 { OrBit4(v, w); }
    else if w == 8 { OrBit8(v, w); }
    else if w == 16 { OrBit16(v, w); }
    else if w == 32 { OrBit32(v, w); }
    else if w == 64 { OrBit64(v, w); }
    else { OrBit128(v, w); }
  }

  lemma OrBit0(v: bv8, w: bv8)
    requires w == 0 && v & w == 0
    ensures (v | w) as int == v as int + w as int
  {
  }

  lemma OrBit1(v: bv8, w: bv8)
    requires w == 1 && v & w == 0
    ensures (v | w) as int == v as int + w as int
  {
  }

  lemma OrBit2(v: bv8, w: bv8)
    requires w == 2 && v & w == 0
    ensures (v | w) as int == v as int + w as int
  {
  }

  lemma OrBit4(v: bv8, w: bv8)
    requires w == 4 && v & w == 0
    ensures (v | w) as int == v as int + w as int
  {
  }

  lemma OrBit8(v: bv8, w: bv8)
    requires w == 8 && v & w == 0
    ensures (v | w) as int == v as int + w as int
  {
  }

  lemma OrBit16(v: bv8, w: bv8)
    requires w == 16 && v & w == 0
    ensures (v | w) as int == v as int + w as int
  {
  }

  lemma OrBit32(v: bv8, w: bv8)
    requires w == 32 && v & w == 0
    ensures (v | w) as int == v as int + w as int
  {
  }

  lemma OrBit64(v: bv8, w: bv8)
    requires w == 64 && v & w == 0
    ensures (v | w) as int == v as int + w as int
  {
  }

  lemma OrBit128(v: bv8, w: bv8)
    requires w == 128 && v & w == 0
    ensures (v | w) as int == v as int + w as int
  {
  }

  lemma IntBits(v: bv8)
    ensures (v as int) as bv8 == v
  {
  }

  /** Whether bit value `bit` is set in `byte`. */
  predicate HasBit(byte: bv8, bit: bv8) {
    byte & bit != 0
  }

  lemma ByteRoundTrip(n: Byte, v: bv8)
    requires n == v as int
    ensures n as bv8 == v
  {
    IntBits(v);
  }

  lemma AndOverOr(u: bv8, w: bv8, b: bv8)
    ensures (u | w) & b == (u & b) | (w & b)
  {
  }

  lemma OrNonZero(p: bv8, q: bv8)
    ensures (p | q != 0) <==> (p != 0 || q != 0)
  {
  }

  /** Different single bits do not overlap. */
  lemma DistinctBits(a: bv8, b: bv8)
    requires IsBitValue(a) && IsBitValue(b) && a != b
    ensures a & b == 0
  {
  }

  lemma ZeroAnd(a: bv8, b: bv8)
    requires a == 0 || b == 0
    ensures a & b == 0
  {
  }

  lemma AndSelf(b: bv8)
    ensures b & b == b
  {
  }

  /** A field's bit is clear in the OR of the other fields' bits. */
  lemma {:induction false} BitOrExcludes<F(!new)>(table: F -> MaskEntry, fields: seq<F>, x: F, j: nat)
    requires BitValues(table) && BitsDistinct(table)
    requires x !in fields
    ensures BitOr(table, fields, j) & Contribution(table, x, j) == 0
    decreases |fields|
  {
    if |fields| > 0 {
      var y := fields[|fields| - 1];
      BitOrExcludes(table, fields[..|fields| - 1], x, j);
      var u, w, b := BitOr(table, fields[..|fields| - 1], j), Contribution(table, y, j), Contribution(table, x, j);
      assert w & b == 0 by {
        if w != 0 && b != 0 {
          DistinctBits(w, b);
        } else {
          ZeroAnd(w, b);
        }
      }
      AndOverOr(u, w, b);
    }
  }

  /**
   * A field with a non-zero bit has that bit set in the OR of its byte exactly
   * when the field is one of those listed.
   */
  lemma {:induction false} BitOrHas<F(!new)>(table: F -> MaskEntry, fields: seq<F>, x: F)
    requires BitValues(table) && BitsDistinct(table)
    requires table(x).bit != 0
    ensures HasBit(BitOr(table, fields, table(x).offset), table(x).bit) <==> x in fields
    decreases |fields|
  {
    if |fields| > 0 {
      var j := table(x).offset;
      var init, y := fields[..|fields| - 1], fields[|fields| - 1];
      BitOrHas(table, init, x);
      var u, w, b := BitOr(table, init, j), Contribution(table, y, j), table(x).bit;
      AndOverOr(u, w, b);
      OrNonZero(u & b, w & b);
      if y == x {
        AndSelf(b);
      } else if w != 0 {
        DistinctBits(w, b);
      } else {
        ZeroAnd(w, b);
      }
      assert x in fields <==> x in init || x == y by {
        assert fields == init + [y];
      }
    }
  }

  /** Bits that no field of byte `j` uses stay clear in the OR, whatever the fields. */
  lemma {:induction false} BitOrClear<F(!new)>(table: F -> MaskEntry, fields: seq<F>, j: nat, m: bv8)
    requires forall f :: table(f).offset == j ==> table(f).bit & m == 0
    ensures BitOr(table, fields, j) & m == 0
    decreases |fields|
  {
    if |fields| > 0 {
      var init := fields[..|fields| - 1];
      BitOrClear(table, init, j, m);
      AndOverOr(BitOr(table, init, j), Contribution(table, fields[|fields| - 1], j), m);
    }
  }

  /**
   * For a duplicate-free field list of a table whose bits do not collide, the sum
   * each byte accumulates is the bitwise OR of the fields' bits, so it never
   * exceeds 255 and the byte never wraps.
   */
  lemma {:induction false} SumIsOr<F(!new)>(table: F -> MaskEntry, fields: seq<F>, j: nat)
    requires BitValues(table) && BitsDistinct(table)
    requires NoDuplicates(fields)
    ensures BitSum(table, fields, j) == BitOr(table, fields, j) as int
    ensures BitSum(table, fields, j) < 256
    decreases |fields|
  {
    if |fields| > 0 {
      var init, x := fields[..|fields| - 1], fields[|fields| - 1];
      SumIsOr(table, init, j);
      assert x !in init;
      BitOrExcludes(table, init, x, j);
      assert IsBitValue(Contribution(table, x, j));
      OrIsAdd(BitOr(table, init, j), Contribution(table, x, j));
    }
  }

  /** So in that case each byte of the mask is exactly the OR of its fields' bits: no carry, no wrap. */
  lemma MaskIsOr<F(!new)>(table: F -> MaskEntry, width: nat, fields: seq<F>)
    requires BitValues(table) && BitsDistinct(table)
    requires NoDuplicates(fields)
    ensures |Bytes(table, width, fields)| == width
    ensures forall j :: 0 <= j < width ==> Bytes(table, width, fields)[j] == BitOr(table, fields, j) as int
  {
    BytesAreSums(table, width, fields);
    forall j | 0 <= j < width
      ensures Bytes(table, width, fields)[j] == BitOr(table, fields, j) as int
    {
      MaskByte(table, width, fields, j);
    }
  }

  /**
   * The mask names exactly the requested fields: for a duplicate-free list, the
   * bit of every field with a non-zero bit inside the buffer is set exactly when
   * the field was requested.
   */
  lemma MaskSelects<F(!new)>(table: F -> MaskEntry, width: nat, fields: seq<F>, x: F)
    requires BitValues(table) && BitsDistinct(table)
    requires NoDuplicates(fields)
    requires table(x).offset < width && table(x).bit != 0
    ensures |Bytes(table, width, fields)| == width
    ensures HasBit(Bytes(table, width, fields)[table(x).offset] as bv8, table(x).bit) <==> x in fields
  {
    var j := table(x).offset;
    MaskByte(table, width, fields, j);
    ByteRoundTrip(Bytes(table, width, fields)[j], BitOr(table, fields, j));
    BitOrHas(table, fields, x);
  }

  lemma MaskByte<F(!new)>(table: F -> MaskEntry, width: nat, fields: seq<F>, j: nat)
    requires BitValues(table) && BitsDistinct(table)
    requires NoDuplicates(fields)
    requires j < width
    ensures |Bytes(table, width, fields)| == width
    ensures Bytes(table, width, fields)[j] == BitOr(table, fields, j) as int
  {
    ByteIsSum(table, width, fields, j);
    SumBelow(table, fields, j);
    assert Bytes(table, width, fields)[j] as int == BitSum(table, fields, j);
    SumIsOr(table, fields, j);
  }

  /** Without collisions a byte's sum stays below 256. */
  lemma SumBelow<F(!new)>(table: F -> MaskEntry, fields: seq<F>, j: nat)
    requires BitValues(table) && BitsDistinct(table)
    requires NoDuplicates(fields)
    ensures BitSum(table, fields, j) < 256
  {
    SumIsOr(table, fields, j);
  }

  /** One byte of the mask is its fields' sum, wrapped. */
  lemma ByteIsSum<F>(table: F -> MaskEntry, width: nat, fields: seq<F>, j: nat)
    requires j < width
    ensures |Bytes(table, width, fields)| == width
    ensures Bytes(table, width, fields)[j] as int == BitSum(table, fields, j) % 256
  {
    BytesAreSums(table, width, fields);
  }

  const HEX_DIGITS := "0123456789abcdef"

  predicate IsLowerHex(c: char) {
    '0' <= c <= '9' || 'a' <= c <= 'f'
  }

  /** `buffer.toString('hex')`: two lowercase hexadecimal digits per byte, high nibble first. */
  function Hex(bytes: seq<Byte>): (s: string)
    ensures |s| == 2 * |bytes|
    ensures forall i :: 0 <= i < |s| ==> IsLowerHex(s[i])
  {
    if |bytes| == 0 then ""
    else [HEX_DIGITS[bytes[0] / 16], HEX_DIGITS[bytes[0] % 16]] + Hex(bytes[1..])
  }

  /** The value of one lowercase hexadecimal digit. */
  function HexValue(c: char): (v: Option<nat>)
    ensures v.Some? ==> v.value < 16
  {
    if '0' <= c <= '9' then Some(c as int - '0' as int)
    else if 'a' <= c <= 'f' then Some(c as int - 'a' as int + 10)
    else None
  }

  /** Reading a hexadecimal mask back into bytes; `None` for an odd length or a non-digit. */
  function Unhex(s: string): Option<seq<Byte>>
    decreases |s|
  {
    if |s| == 0 then Some([])
    else if |s| == 1 then None
    else
      var hi, lo, rest := HexValue(s[0]), HexValue(s[1]), Unhex(s[2..]);
      if hi.Some? && lo.Some? && rest.Some? then Some([hi.value * 16 + lo.value] + rest.value) else None
  }

  /** Byte `i` of the buffer renders as characters `2 * i` and `2 * i + 1`. */
  lemma {:induction false} HexAt(bytes: seq<Byte>, i: nat)
    requires i < |bytes|
    ensures Hex(bytes)[2 * i] == HEX_DIGITS[bytes[i] / 16]
    ensures Hex(bytes)[2 * i + 1] == HEX_DIGITS[bytes[i] % 16]
  {
    if i > 0 {
      HexAt(bytes[1..], i - 1);
    }
  }

  lemma HexDigitValue(d: nat)
    requires d < 16
    ensures HexValue(HEX_DIGITS[d]) == Some(d)
  {
  }

  lemma DivMod16(b: Byte)
    ensures b / 16 < 16 && (b / 16) * 16 + b % 16 == b
  {
  }

  /** The rendered mask reads back as the buffer it came from. */
  lemma {:induction false} UnhexHex(bytes: seq<Byte>)
    ensures Unhex(Hex(bytes)) == Some(bytes)
  {
    if |bytes| > 0 {
      var b := bytes[0];
      var hi, lo := b / 16, b % 16;
      var tail := Hex(bytes[1..]);
      var s := Hex(bytes);
      assert s == [HEX_DIGITS[hi], HEX_DIGITS[lo]] + tail;
      UnhexHex(bytes[1..]);
      HexDigitValue(hi);
      HexDigitValue(lo);
      assert s[0] == HEX_DIGITS[hi] && s[1] == HEX_DIGITS[lo];
      assert s[2..] == tail;
      DivMod16(b);
      assert Unhex(s) == Some([b] + bytes[1..]);
      assert bytes == [b] + bytes[1..];
    }
  }

  /**
   * The encoder itself: allocate a zero-filled buffer of `width` bytes, add every
   * field's bit into its byte in list order, render as hexadecimal.
   */
  method Generate<F>(table: F -> MaskEntry, width: nat, fields: seq<F>) returns (hex: string)
    ensures hex == Hex(Bytes(table, width, fields))
    ensures |hex| == 2 * width
  {
    var mask := new Byte[width](_ => 0);
    assert mask[..] == Zeros(width);
    for k := 0 to |fields|
      invariant mask[..] == Bytes(table, width, fields[..k])
    {
      var e := table(fields[k]);
      assert fields[..k + 1][..k] == fields[..k];
      if e.offset < mask.Length {
        mask[e.offset] := (mask[e.offset] + e.bit as int) % 256;
      }
    }
    assert fields[..|fields|] == fields;
    hex := Hex(mask[..]);
  }

  /** `fields?.includes(key) ?? true`: without a field list every key is requested. */
  predicate Requested<F(==)>(fields: Option<seq<F>>, key: F) {
    fields.None? || key in fields.value
  }

  /**
   * `Object.keys(TABLE).filter(key => (fields?.includes(key) ?? true) || ...)`:
   * the schema keys, in declaration order, that were requested or belong to
   * `always` (the file request always keeps `fid`).
   */
  function Select<F(==,!new)>(keys: seq<F>, fields: Option<seq<F>>, always: set<F>): (r: seq<F>)
    ensures forall f :: f in r <==> f in keys && (Requested(fields, f) || f in always)
    ensures |r| <= |keys|
  {
    if |keys| == 0 then []
    else
      var rest := Select(keys[1..], fields, always);
      assert forall f :: f in keys <==> f == keys[0] || f in keys[1..];
      if Requested(fields, keys[0]) || keys[0] in always then [keys[0]] + rest else rest
  }

  /** Selecting from duplicate-free keys gives duplicate-free keys, as the mask lemmas need. */
  lemma {:induction false} SelectNoDuplicates<F(!new)>(keys: seq<F>, fields: Option<seq<F>>, always: set<F>)
    requires NoDuplicates(keys)
    ensures NoDuplicates(Select(keys, fields, always))
  {
    if |keys| > 0 {
      var rest := Select(keys[1..], fields, always);
      assert NoDuplicates(keys[1..]) by {
        forall i, j | 0 <= i < j < |keys[1..]| ensures keys[1..][i] != keys[1..][j] {
          assert keys[1..][i] == keys[i + 1] && keys[1..][j] == keys[j + 1];
        }
      }
      SelectNoDuplicates(keys[1..], fields, always);
      assert keys[0] !in keys[1..] by {
        forall i | 0 <= i < |keys[1..]| ensures keys[1..][i] != keys[0] {
          assert keys[1..][i] == keys[i + 1];
        }
      }
      assert keys[0] !in rest;
    }
  }

  /** Without a field list the whole schema is selected, in schema order. */
  lemma {:induction false} SelectAll<F(!new)>(keys: seq<F>, always: set<F>)
    ensures Select(keys, None, always) == keys
  {
    if |keys| > 0 {
      SelectAll(keys[1..], always);
      assert keys == [keys[0]] + keys[1..];
    }
  }

  /** Selecting from a schema that lists every field once. */
  lemma SelectFromSchema<F(!new)>(keys: seq<F>, fields: Option<seq<F>>, always: set<F>)
    requires NoDuplicates(keys) && forall f :: f in keys
    ensures forall f :: f in Select(keys, fields, always) <==> Requested(fields, f) || f in always
    ensures Subsequence(Select(keys, fields, always), keys)
    ensures fields.None? ==> Select(keys, fields, always) == keys
  {
    SelectKeepsOrder(keys, fields, always);
    SelectAll(keys, always);
  }

  /** An empty field list selects only the keys that are always sent. */
  lemma SelectNothing<F(!new)>(keys: seq<F>, always: set<F>)
    ensures forall f :: f in Select(keys, Some([]), always) <==> f in keys && f in always
  {
  }

  /** `sub` lists some of the elements of `s`, in the order `s` lists them. */
  predicate Subsequence<F(==)>(sub: seq<F>, s: seq<F>)
    decreases |s|
  {
    if |sub| == 0 then true
    else if |s| == 0 then false
    else if sub[0] == s[0] then Subsequence(sub[1..], s[1..])
    else Subsequence(sub, s[1..])
  }

  /** The selection keeps the schema's declaration order. */
  lemma {:induction false} SelectKeepsOrder<F(!new)>(keys: seq<F>, fields: Option<seq<F>>, always: set<F>)
    requires NoDuplicates(keys)
    ensures Subsequence(Select(keys, fields, always), keys)
    decreases |keys|
  {
    if |keys| > 0 {
      var rest := Select(keys[1..], fields, always);
      assert NoDuplicates(keys[1..]) by {
        forall i, j | 0 <= i < j < |keys[1..]| ensures keys[1..][i] != keys[1..][j] {
          assert keys[1..][i] == keys[i + 1] && keys[1..][j] == keys[j + 1];
        }
      }
      SelectKeepsOrder(keys[1..], fields, always);
      if !(Requested(fields, keys[0]) || keys[0] in always) && |rest| > 0 {
        assert rest[0] in keys[1..];
        assert keys[0] !in keys[1..] by {
          forall i | 0 <= i < |keys[1..]| ensures keys[1..][i] != keys[0] {
            assert keys[1..][i] == keys[i + 1];
          }
        }
      }
    }
  }

  /** Summing a field in front of a list adds its contribution. */
  lemma BitSumCons<F>(table: F -> MaskEntry, x: F, xs: seq<F>, j: nat)
    ensures BitSum(table, [x] + xs, j) == Contribution(table, x, j) as int + BitSum(table, xs, j)
  {
    BitSumAppend(table, [x], xs, j);
    assert [x][..0] == [];
  }

  /** Keys forced in with a zero bit add nothing to any byte's sum. */
  lemma {:induction false} SelectZeroBitSum<F(!new)>(table: F -> MaskEntry, keys: seq<F>, fields: Option<seq<F>>, always: set<F>, j: nat)
    requires forall a :: a in always ==> table(a).bit == 0
    ensures BitSum(table, Select(keys, fields, always), j) == BitSum(table, Select(keys, fields, {}), j)
  {
    if |keys| > 0 {
      var with, without := Select(keys[1..], fields, always), Select(keys[1..], fields, {});
      SelectZeroBitSum(table, keys[1..], fields, always, j);
      if Requested(fields, keys[0]) || keys[0] in always {
        BitSumCons(table, keys[0], with, j);
      }
      if Requested(fields, keys[0]) {
        BitSumCons(table, keys[0], without, j);
      }
    }
  }

  /**
   * Forcing keys whose bit value is zero into the selection never changes the
   * mask: the buffer is the same with or without them.
   */
  lemma ForcedZeroBits<F(!new)>(table: F -> MaskEntry, width: nat, keys: seq<F>, fields: Option<seq<F>>, always: set<F>)
    requires forall a :: a in always ==> table(a).bit == 0
    ensures Bytes(table, width, Select(keys, fields, always)) == Bytes(table, width, Select(keys, fields, {}))
  {
    var xs, ys := Select(keys, fields, always), Select(keys, fields, {});
    BytesAreSums(table, width, xs);
    BytesAreSums(table, width, ys);
    forall j | 0 <= j < width ensures Bytes(table, width, xs)[j] == Bytes(table, width, ys)[j] {
      SelectZeroBitSum(table, keys, fields, always, j);
    }
  }
}
