/**
 * The reply decoding shared by every operation of the client: the status code
 * in bytes 6..9, the payload between the first and the last line feed, its
 * `|`-separated slots, and the two ways slots become records — by the keys a
 * mask selected (anime and file replies) or by the position of the slot in a
 * fixed key list (episode, creator, character, group, group status, anime
 * description). A record is the list of entries `Object.fromEntries` is given,
 * in order.
 */
module Decode {
  import opened Wrappers
  import opened Strings
  import opened Schema

  /** The three ways an operation can throw. */
  datatype Error =
    | NotAuthenticated         // `new Error('Not authenticated')`
    | UnexpectedResult         // `new Error('Unexpected result')`
    | TypeError                // a property read on `undefined`, or a call of `undefined`

  /** What the decoder hands to `Object.fromEntries`, in order. */
  type Record<K> = seq<(K, Value)>

  /** The keys of a record, in order. */
  function KeysOf<K>(r: Record<K>): (ks: seq<K>)
    ensures |ks| == |r| && forall i :: 0 <= i < |r| ==> ks[i] == r[i].0
  {
    if |r| == 0 then [] else [r[0].0] + KeysOf(r[1..])
  }

  const LF := '\n'
  const SLOT_SEPARATOR := '|'
  /** The element separators of a list slot, the character class of /'|,/. */
  const LIST_SEPARATORS: set<char> := {'\'', ','}

  /** `data.subarray(6, 9)`: the three-digit status code after the five-byte tag and a space. */
  function ReturnCode(data: string): (code: string)
    ensures |data| >= 9 ==> code == data[6..9]
    ensures |code| <= 3
  {
    Subarray(data, 6, 9)
  }

  /** `data.subarray(data.indexOf(10) + 1, data.lastIndexOf(10))`. */
  function Payload(data: string): string {
    Subarray(data, IndexOf(data, LF, 0) + 1, LastIndexOf(data, LF))
  }

  /**
   * For a reply made of a status line, a line feed, a body and a final line feed,
   * the payload is the body, whatever line feeds the body holds.
   */
  lemma PayloadOfReply(status: string, body: string)
    requires Clean(status, {LF})
    ensures Payload(status + [LF] + body + [LF]) == body
  {
    var data := status + [LF] + body + [LF];
    var first := IndexOf(data, LF, 0);
    assert data[|status|] == LF;
    assert first == |status| by {
      assert forall i :: 0 <= i < |status| ==> data[i] == status[i];
    }
    assert LastIndexOf(data, LF) == |data| - 1;
    assert data[|status| + 1..|data| - 1] == body;
  }

  /** The `|`-separated slots of the payload. */
  function Slots(data: string): (raw: seq<string>)
    ensures |raw| >= 1
  {
    Split(Payload(data), {SLOT_SEPARATOR})
  }

  // ---------------------------------------------------------------------------
  // Decoding by mask (anime and file replies)
  // ---------------------------------------------------------------------------

  /**
   * A non-empty list slot split on `'` and `,`, with the element decoder
   * applied to each piece; an empty slot is `new Array(0)`.
   */
  function ListItems(element: Ctor, text: string): (items: seq<Value>)
    ensures |text| == 0 ==> items == []
    ensures |text| > 0 ==> |items| == |Split(text, LIST_SEPARATORS)|
    ensures |text| > 0 ==> forall k :: 0 <= k < |items| ==> items[k] == Convert(element, Split(text, LIST_SEPARATORS)[k])
  {
    if |text| == 0 then [] else
      var pieces := Split(text, LIST_SEPARATORS);
      seq(|pieces|, k requires 0 <= k < |pieces| => Convert(element, pieces[k]))
  }

  /**
   * The value of the field `e` describes, read from slot `i`: a list field reads
   * `raw[i].length`, which throws when the slot is missing; a scalar field reads
   * `raw[i] || ''`, so a missing slot converts the empty string.
   */
  function MaskedSlot(e: MaskEntry, raw: seq<string>, i: nat): (r: Result<Value, Error>)
    ensures r.Failure? <==> e.element.Some? && i >= |raw|
    ensures e.element.None? ==> r == Success(Convert(e.kind, if i < |raw| then raw[i] else ""))
    ensures e.element.Some? && i < |raw| ==> r == Success(List(ListItems(e.element.value, raw[i])))
    ensures r.Failure? ==> r.error == TypeError
  {
    if e.element.Some? then
      if i < |raw| then Success(List(ListItems(e.element.value, raw[i]))) else Failure(TypeError)
    else
      Success(Convert(e.kind, if i < |raw| then raw[i] else ""))
  }

  /**
   * `keys.map((key, i) => ...)` against the slots, the `i`-th key reading slot
   * `start + i`. The decode throws exactly when some list field's slot is
   * missing; otherwise the record lists every key once, in order.
   */
  function DecodeMasked<K>(table: K -> MaskEntry, keys: seq<K>, raw: seq<string>, start: nat): (r: Result<Record<K>, Error>)
    ensures r.Failure? <==> exists i :: 0 <= i < |keys| && table(keys[i]).element.Some? && start + i >= |raw|
    ensures r.Failure? ==> r.error == TypeError
    ensures r.Success? ==> |r.value| == |keys|
    ensures r.Success? ==> forall i :: 0 <= i < |keys| ==>
      r.value[i].0 == keys[i] && Success(r.value[i].1) == MaskedSlot(table(keys[i]), raw, start + i)
    decreases |keys|
  {
    if |keys| == 0 then Success([])
    else
      var s := MaskedSlot(table(keys[0]), raw, start);
      var rest := DecodeMasked(table, keys[1..], raw, start + 1);
      assert forall j :: 0 <= j < |keys| - 1 ==> keys[1..][j] == keys[j + 1];
      if s.Failure? then Failure(s.error)
      else if rest.Failure? then Failure(rest.error)
      else
        var r := [(keys[0], s.value)] + rest.value;
        assert forall i :: 1 <= i < |keys| ==> r[i] == rest.value[i - 1] && keys[i] == keys[1..][i - 1];
        Success(r)
  }

  /** The wire text of a value: a scalar's own text, a list's elements joined by `'`. */
  function Render(v: Value): string {
    match v
    case List(items) => Join(seq(|items|, k requires 0 <= k < |items| => if items[k].List? then "" else items[k].text), "'")
    case _ => v.text
  }

  /** The slots a server would send for a record: one rendered value per entry. */
  function RenderAll<K>(r: Record<K>): (raw: seq<string>)
    ensures |raw| == |r| && forall i :: 0 <= i < |r| ==> raw[i] == Render(r[i].1)
  {
    seq(|r|, i requires 0 <= i < |r| => Render(r[i].1))
  }

  /**
   * A value the field `e` can be decoded into from a single slot: a scalar
   * converted by the field's constructor from text free of `|`, or a list of
   * elements converted by the element decoder from text free of `|`, `'` and `,`
   * (a list whose only element is empty reads back as the empty list, so it is
   * excluded).
   */
  predicate Fits(e: MaskEntry, v: Value) {
    match e.element
    case None => !v.List? && e.kind != ArrayCtor && v == Convert(e.kind, v.text) && Clean(v.text, {SLOT_SEPARATOR})
    case Some(c) =>
      c != ArrayCtor && v.List? && v.items != [Convert(c, "")] &&
      forall k :: 0 <= k < |v.items| ==>
        !v.items[k].List? && v.items[k] == Convert(c, v.items[k].text)
        && Clean(v.items[k].text, {SLOT_SEPARATOR} + LIST_SEPARATORS)
  }

  /** A record the keys `keys` of `table` can be decoded into. */
  predicate FitsAll<K(==)>(table: K -> MaskEntry, keys: seq<K>, r: Record<K>) {
    |r| == |keys| && forall i :: 0 <= i < |keys| ==> r[i].0 == keys[i] && Fits(table(keys[i]), r[i].1)
  }

  /** Reading a rendered list slot gives the list back. */
  lemma ListItemsRender(c: Ctor, v: Value)
    requires Fits(MaskEntry(0, 0, ArrayCtor, Some(c)), v)
    ensures ListItems(c, Render(v)) == v.items
  {
    var items := v.items;
    var texts := seq(|items|, k requires 0 <= k < |items| => if items[k].List? then "" else items[k].text);
    assert Render(v) == Join(texts, "'");
    if |items| > 0 {
      assert Join(texts, "'") != "" by {
        if |texts| == 1 {
          assert Join(texts, "'") == texts[0] == items[0].text;
        } else {
          JoinLong(texts, "'");
        }
      }
      forall k | 0 <= k < |texts| ensures Clean(texts[k], {'\''}) && Clean(texts[k], LIST_SEPARATORS) {
        assert texts[k] == items[k].text;
      }
      SplitJoinClass(texts, '\'', LIST_SEPARATORS);
      var pieces := Split(Render(v), LIST_SEPARATORS);
      assert pieces == texts;
      assert ListItems(c, Render(v)) == v.items by {
        assert forall k :: 0 <= k < |items| ==> Convert(c, pieces[k]) == items[k];
      }
    }
  }

  /** A join of two or more pieces contains the separator, so it is not empty. */
  lemma JoinLong(pieces: seq<string>, sep: string)
    requires |pieces| >= 2 && |sep| > 0
    ensures |Join(pieces, sep)| > 0
  {
  }

  /**
   * Splitting on a character class that contains the joining separator, when no
   * piece contains any character of the class, gives the pieces back.
   */
  lemma {:induction false} SplitJoinClass(pieces: seq<string>, c: char, seps: set<char>)
    requires |pieces| >= 1 && c in seps
    requires forall k :: 0 <= k < |pieces| ==> Clean(pieces[k], seps)
    ensures Split(Join(pieces, [c]), seps) == pieces
    decreases |pieces|
  {
    if |pieces| == 1 {
      SplitCleanPrefix(pieces[0], "", seps);
      assert pieces[0] + "" == pieces[0];
    } else {
      var tail := Join(pieces[1..], [c]);
      SplitJoinClass(pieces[1..], c, seps);
      assert Join(pieces, [c]) == pieces[0] + ([c] + tail);
      SplitCleanPrefix(pieces[0], [c] + tail, seps);
      assert ([c] + tail)[1..] == tail;
      assert Split([c] + tail, seps) == [""] + pieces[1..];
      assert pieces[0] + "" == pieces[0];
      assert pieces == [pieces[0]] + pieces[1..];
    }
  }

  /** What a field decodes from the rendering of a value that fits it is that value. */
  lemma MaskedSlotRender(e: MaskEntry, v: Value, raw: seq<string>, i: nat)
    requires Fits(e, v) && i < |raw| && raw[i] == Render(v)
    ensures MaskedSlot(e, raw, i) == Success(v)
  {
    if e.element.Some? {
      ListItemsRender(e.element.value, v);
    }
  }

  /**
   * Decoding is the inverse of rendering: the slots a record renders to, read
   * from position `start` on, decode into exactly that record.
   */
  lemma DecodeMaskedRender<K>(table: K -> MaskEntry, keys: seq<K>, r: Record<K>, raw: seq<string>, start: nat)
    requires FitsAll(table, keys, r)
    requires start + |r| <= |raw| && raw[start..start + |r|] == RenderAll(r)
    ensures DecodeMasked(table, keys, raw, start) == Success(r)
  {
    var d := DecodeMasked(table, keys, raw, start);
    forall i | 0 <= i < |keys| ensures MaskedSlot(table(keys[i]), raw, start + i) == Success(r[i].1) {
      assert raw[start + i] == raw[start..start + |r|][i];
      MaskedSlotRender(table(keys[i]), r[i].1, raw, start + i);
    }
    assert d.Success?;
    assert d.value == r;
  }

  /** The rendering of a value that fits a field holds no `|`. */
  lemma RenderClean(e: MaskEntry, v: Value)
    requires Fits(e, v)
    ensures Clean(Render(v), {SLOT_SEPARATOR})
  {
    if v.List? {
      var items := v.items;
      var texts := seq(|items|, k requires 0 <= k < |items| => if items[k].List? then "" else items[k].text);
      forall k | 0 <= k < |texts| ensures Clean(texts[k], {SLOT_SEPARATOR}) {
        assert texts[k] == items[k].text;
      }
      JoinClean(texts, "'", {SLOT_SEPARATOR});
    }
  }

  /**
   * Splitting slot texts joined with `|` gives them back at the front: all of
   * them when there is at least one, and nothing is lost when there is none.
   */
  lemma JoinedSlots(texts: seq<string>)
    requires forall k :: 0 <= k < |texts| ==> Clean(texts[k], {SLOT_SEPARATOR})
    ensures |texts| <= |Split(Join(texts, [SLOT_SEPARATOR]), {SLOT_SEPARATOR})|
    ensures Split(Join(texts, [SLOT_SEPARATOR]), {SLOT_SEPARATOR})[..|texts|] == texts
  {
    if |texts| >= 1 {
      SplitJoin(texts, SLOT_SEPARATOR);
    }
  }

  /**
   * The payload a server sends for a record, its rendered values joined by `|`,
   * decodes by mask into exactly that record.
   */
  lemma DecodeMaskedJoined<K>(table: K -> MaskEntry, keys: seq<K>, r: Record<K>)
    requires FitsAll(table, keys, r)
    ensures DecodeMasked(table, keys, Split(Join(RenderAll(r), [SLOT_SEPARATOR]), {SLOT_SEPARATOR}), 0) == Success(r)
  {
    var texts := RenderAll(r);
    forall k | 0 <= k < |texts| ensures Clean(texts[k], {SLOT_SEPARATOR}) {
      RenderClean(table(keys[k]), r[k].1);
    }
    JoinedSlots(texts);
    var raw := Split(Join(texts, [SLOT_SEPARATOR]), {SLOT_SEPARATOR});
    assert raw[0..|r|] == texts;
    DecodeMaskedRender(table, keys, r, raw, 0);
  }

  /** No rendered value of a fitting record contains the slot separator. */
  lemma RenderAllClean<K>(table: K -> MaskEntry, keys: seq<K>, r: Record<K>)
    requires FitsAll(table, keys, r)
    ensures forall k :: 0 <= k < |RenderAll(r)| ==> Clean(RenderAll(r)[k], {SLOT_SEPARATOR})
  {
    forall k | 0 <= k < |r| ensures Clean(RenderAll(r)[k], {SLOT_SEPARATOR}) {
      RenderClean(table(keys[k]), r[k].1);
    }
  }

  /** No rendered value of two fitting records contains the slot separator. */
  lemma PairClean<K, L>(t1: K -> MaskEntry, keys1: seq<K>, r1: Record<K>, t2: L -> MaskEntry, keys2: seq<L>, r2: Record<L>)
    requires FitsAll(t1, keys1, r1) && FitsAll(t2, keys2, r2)
    ensures forall k :: 0 <= k < |RenderAll(r1) + RenderAll(r2)| ==> Clean((RenderAll(r1) + RenderAll(r2))[k], {SLOT_SEPARATOR})
  {
    var texts := RenderAll(r1) + RenderAll(r2);
    RenderAllClean(t1, keys1, r1);
    RenderAllClean(t2, keys2, r2);
    forall k | 0 <= k < |texts| ensures Clean(texts[k], {SLOT_SEPARATOR}) {
      if k >= |r1| {
        assert texts[k] == RenderAll(r2)[k - |r1|];
      }
    }
  }

  /** The two halves of a prefix that is a concatenation. */
  lemma SliceOfConcat<T>(raw: seq<T>, a: seq<T>, b: seq<T>)
    requires |a| + |b| <= |raw| && raw[..|a| + |b|] == a + b
    ensures raw[0..|a|] == a && raw[|a|..|a| + |b|] == b
  {
    assert raw[..|a| + |b|][..|a|] == a;
    assert raw[..|a| + |b|][|a|..] == b;
  }

  /**
   * Two records rendered one after the other into the slots: the first is
   * read by mask from slot 0, the second from the slot where the first ends.
   */
  lemma DecodeMaskedPair<K, L>(t1: K -> MaskEntry, keys1: seq<K>, r1: Record<K>, t2: L -> MaskEntry, keys2: seq<L>, r2: Record<L>, raw: seq<string>)
    requires FitsAll(t1, keys1, r1) && FitsAll(t2, keys2, r2)
    requires |r1| + |r2| <= |raw| && raw[..|r1| + |r2|] == RenderAll(r1) + RenderAll(r2)
    ensures DecodeMasked(t1, keys1, raw, 0) == Success(r1)
    ensures DecodeMasked(t2, keys2, raw, |keys1|) == Success(r2)
  {
    var n := |RenderAll(r1)|;
    SliceOfConcat(raw, RenderAll(r1), RenderAll(r2));
    assert raw[0..|r1|] == RenderAll(r1) && raw[n..n + |r2|] == RenderAll(r2);
    assert DecodeMasked(t1, keys1, raw, 0) == Success(r1) by {
      DecodeMaskedRender(t1, keys1, r1, raw, 0);
    }
    assert n == |keys1|;
    DecodeMaskedRender(t2, keys2, r2, raw, n);
  }

  // ---------------------------------------------------------------------------
  // Decoding by position (episode, creator, group status, description, ...)
  // ---------------------------------------------------------------------------

  /**
   * `split('|').map((val, i) => [keys[i], TABLE[keys[i]](val)])`: slot `i`
   * becomes key `i`. Fewer slots than keys give a record without the trailing
   * keys; a slot past the last key calls `TABLE[undefined]` and throws.
   */
  function DecodePositional<K>(keys: seq<K>, ctor: K -> Ctor, raw: seq<string>): (r: Result<Record<K>, Error>)
    ensures r.Failure? <==> |raw| > |keys|
    ensures r.Failure? ==> r.error == TypeError
    ensures r.Success? ==> |r.value| == |raw| && KeysOf(r.value) == keys[..|raw|]
    ensures r.Success? ==> forall i :: 0 <= i < |raw| ==> r.value[i].1 == Convert(ctor(keys[i]), raw[i])
  {
    if |raw| > |keys| then Failure(TypeError)
    else
      var rec := seq(|raw|, i requires 0 <= i < |raw| => (keys[i], Convert(ctor(keys[i]), raw[i])));
      assert KeysOf(rec) == keys[..|raw|];
      Success(rec)
  }

  /**
   * A record of scalars the first `|r|` keys can be decoded into, one slot
   * each, whose texts hold no character of `seps`.
   */
  predicate FitsPrefix<K(==)>(keys: seq<K>, ctor: K -> Ctor, r: Record<K>, seps: set<char>) {
    |r| <= |keys| && forall i :: 0 <= i < |r| ==>
      r[i].0 == keys[i] && ctor(keys[i]) != ArrayCtor && !r[i].1.List?
      && r[i].1 == Convert(ctor(keys[i]), r[i].1.text) && Clean(r[i].1.text, seps)
  }

  /** The text of a record of scalars, its values joined by `sep`. */
  function RenderJoined<K>(r: Record<K>, sep: char): string {
    Join(RenderAll(r), [sep])
  }

  /**
   * Position decoding is the inverse of joining the values' texts with a
   * separator: any non-empty record of fitting scalars, the full one or one
   * missing trailing keys, comes back exactly.
   */
  lemma DecodePositionalRender<K>(keys: seq<K>, ctor: K -> Ctor, r: Record<K>, sep: char, seps: set<char>)
    requires sep in seps && |r| >= 1 && FitsPrefix(keys, ctor, r, seps)
    ensures DecodePositional(keys, ctor, Split(RenderJoined(r, sep), {sep})) == Success(r)
  {
    var texts := RenderAll(r);
    forall k | 0 <= k < |texts| ensures Clean(texts[k], {sep}) {
      assert texts[k] == r[k].1.text;
    }
    SplitJoin(texts, sep);
    var d := DecodePositional(keys, ctor, texts);
    assert d.Success?;
    assert forall i :: 0 <= i < |r| ==> d.value[i].0 == KeysOf(d.value)[i] == keys[i];
    assert d.value == r;
  }

  /** The text of a record of scalars holds no character its values' texts avoid, given a clean separator. */
  lemma RenderJoinedClean<K>(keys: seq<K>, ctor: K -> Ctor, r: Record<K>, sep: char, seps: set<char>, avoid: set<char>)
    requires FitsPrefix(keys, ctor, r, seps) && avoid <= seps && sep !in avoid
    ensures Clean(RenderJoined(r, sep), avoid)
  {
    var texts := RenderAll(r);
    forall k | 0 <= k < |texts| ensures Clean(texts[k], avoid) {
      assert texts[k] == r[k].1.text;
    }
    JoinClean(texts, [sep], avoid);
  }

  // ---------------------------------------------------------------------------
  // Nested slots and multi-line payloads
  // ---------------------------------------------------------------------------

  /** The separators of a nested slot: `'` between blocks, `,` between a block's values. */
  const BLOCK_SEPARATOR := '\''
  const VALUE_SEPARATOR := ','

  /** Some `outer`-separated block of `text` has more than `n` pieces when split on `inner`. */
  predicate SomeBlockTooLong(text: string, outer: char, inner: char, n: nat) {
    exists b :: 0 <= b < |Split(text, {outer})| && |Split(Split(text, {outer})[b], {inner})| > n
  }

  /**
   * Text split on `outer` into blocks, every block split on `inner` and decoded
   * by position against `keys`: `text.split(outer).map(block => block.split(inner)...)`.
   * A block with more pieces than keys reaches `TABLE[undefined]` and throws.
   */
  function DecodeBlocks<K>(keys: seq<K>, ctor: K -> Ctor, text: string, outer: char, inner: char): (r: Result<seq<Record<K>>, Error>)
    ensures r.Failure? <==> SomeBlockTooLong(text, outer, inner, |keys|)
    ensures r.Failure? ==> r.error == TypeError
    ensures r.Success? ==> |r.value| == |Split(text, {outer})|
    ensures r.Success? ==> forall b :: 0 <= b < |r.value| ==>
      DecodePositional(keys, ctor, Split(Split(text, {outer})[b], {inner})) == Success(r.value[b])
  {
    BlocksOf(keys, ctor, Split(text, {outer}), inner)
  }

  /** The blocks, each split on `inner` and decoded in order; the first block that throws decides. */
  function BlocksOf<K>(keys: seq<K>, ctor: K -> Ctor, blocks: seq<string>, inner: char): (r: Result<seq<Record<K>>, Error>)
    ensures r.Failure? <==> exists b :: 0 <= b < |blocks| && |Split(blocks[b], {inner})| > |keys|
    ensures r.Failure? ==> r.error == TypeError
    ensures r.Success? ==> |r.value| == |blocks|
    ensures r.Success? ==> forall b :: 0 <= b < |blocks| ==>
      DecodePositional(keys, ctor, Split(blocks[b], {inner})) == Success(r.value[b])
    decreases |blocks|
  {
    if |blocks| == 0 then Success([])
    else
      var first := DecodePositional(keys, ctor, Split(blocks[0], {inner}));
      var rest := BlocksOf(keys, ctor, blocks[1..], inner);
      if first.Failure? then Failure(first.error)
      else if rest.Failure? then Failure(rest.error)
      else
        var r := [first.value] + rest.value;
        assert forall b :: 1 <= b < |blocks| ==> r[b] == rest.value[b - 1] && blocks[b] == blocks[1..][b - 1];
        Success(r)
  }

  /** An empty text is one empty block, which decodes to the first key alone, converted from "". */
  lemma EmptyBlocks<K>(keys: seq<K>, ctor: K -> Ctor, outer: char, inner: char)
    requires |keys| >= 1
    ensures DecodeBlocks(keys, ctor, "", outer, inner) == Success([[(keys[0], Convert(ctor(keys[0]), ""))]])
  {
    assert Split("", {outer}) == [""];
    assert Split("", {inner}) == [""];
    var d := DecodePositional(keys, ctor, [""]);
    assert d.Success? && |d.value| == 1;
    assert KeysOf(d.value)[0] == keys[0];
    assert d.value == [(keys[0], Convert(ctor(keys[0]), ""))];
    assert [""][1..] == [];
    assert BlocksOf(keys, ctor, [], inner) == Success([]);
    assert [d.value] + [] == [d.value];
    assert BlocksOf(keys, ctor, [""], inner) == Success([d.value]);
  }

  /** The text a server would send for a list of blocks: each block's values joined by `inner`, the blocks by `outer`. */
  function RenderBlocks<K>(blocks: seq<Record<K>>, outer: char, inner: char): string {
    Join(seq(|blocks|, b requires 0 <= b < |blocks| => RenderJoined(blocks[b], inner)), [outer])
  }

  /** Blocks of scalars the keys can be decoded into, none empty, their texts free of `seps`. */
  predicate BlocksFit<K(==)>(keys: seq<K>, ctor: K -> Ctor, blocks: seq<Record<K>>, seps: set<char>) {
    |blocks| >= 1 && forall b :: 0 <= b < |blocks| ==> |blocks[b]| >= 1 && FitsPrefix(keys, ctor, blocks[b], seps)
  }

  /**
   * Block decoding is the inverse of block rendering: blocks whose texts hold
   * neither separator come back exactly, each with the keys it had.
   */
  lemma DecodeBlocksRender<K>(keys: seq<K>, ctor: K -> Ctor, blocks: seq<Record<K>>, outer: char, inner: char, seps: set<char>)
    requires outer != inner && outer in seps && inner in seps && BlocksFit(keys, ctor, blocks, seps)
    ensures DecodeBlocks(keys, ctor, RenderBlocks(blocks, outer, inner), outer, inner) == Success(blocks)
  {
    var texts := seq(|blocks|, b requires 0 <= b < |blocks| => RenderJoined(blocks[b], inner));
    forall b | 0 <= b < |texts| ensures Clean(texts[b], {outer}) {
      RenderJoinedClean(keys, ctor, blocks[b], inner, seps, {outer});
    }
    SplitJoin(texts, outer);
    assert Split(RenderBlocks(blocks, outer, inner), {outer}) == texts;
    forall b | 0 <= b < |blocks| ensures DecodePositional(keys, ctor, Split(texts[b], {inner})) == Success(blocks[b]) {
      DecodePositionalRender(keys, ctor, blocks[b], inner, seps);
    }
    var d := BlocksOf(keys, ctor, texts, inner);
    assert d.Success?;
    assert d.value == blocks;
  }

  /** Rendered blocks hold no character that their texts and both separators avoid. */
  lemma RenderBlocksClean<K>(keys: seq<K>, ctor: K -> Ctor, blocks: seq<Record<K>>, outer: char, inner: char, seps: set<char>, avoid: set<char>)
    requires BlocksFit(keys, ctor, blocks, seps) && avoid <= seps && outer !in avoid && inner !in avoid
    ensures Clean(RenderBlocks(blocks, outer, inner), avoid)
  {
    var texts := seq(|blocks|, b requires 0 <= b < |blocks| => RenderJoined(blocks[b], inner));
    forall b | 0 <= b < |texts| ensures Clean(texts[b], avoid) {
      RenderJoinedClean(keys, ctor, blocks[b], inner, seps, avoid);
    }
    JoinClean(texts, [outer], avoid);
  }

  // ---------------------------------------------------------------------------
  // Records with nested slots (character and group replies)
  // ---------------------------------------------------------------------------

  /** A decoded slot of a record with nested slots: a scalar, or the blocks of a nested slot. */
  datatype Slot<B> = Scalar(value: Value) | Nested(blocks: seq<Record<B>>)

  /** The wire text of a slot: a scalar's own text, or its blocks joined by `'` and `,`. */
  function RenderSlot<B>(s: Slot<B>): string {
    match s
    case Scalar(v) => Render(v)
    case Nested(blocks) => RenderBlocks(blocks, BLOCK_SEPARATOR, VALUE_SEPARATOR)
  }

  /**
   * `raw.map((val, i) => [keys[i], decode(keys[i], val)])`, where `slot`
   * returns `None` when decoding the slot throws. A slot past the last key
   * reaches `TABLE[undefined]` and throws too. Every throw is a `TypeError`.
   */
  function DecodeSlots<K, S>(keys: seq<K>, slot: (K, string) -> Option<S>, raw: seq<string>): (r: Result<seq<(K, S)>, Error>)
    ensures r.Failure? <==> |raw| > |keys| || exists i :: 0 <= i < |raw| && i < |keys| && slot(keys[i], raw[i]).None?
    ensures r.Failure? ==> r.error == TypeError
    ensures r.Success? ==> |r.value| == |raw| && forall i :: 0 <= i < |raw| ==>
      r.value[i].0 == keys[i] && slot(keys[i], raw[i]) == Some(r.value[i].1)
    decreases |raw|
  {
    if |raw| == 0 then Success([])
    else if |keys| == 0 then Failure(TypeError)
    else
      var first := slot(keys[0], raw[0]);
      var rest := DecodeSlots(keys[1..], slot, raw[1..]);
      if first.None? then Failure(TypeError)
      else if rest.Failure? then Failure(TypeError)
      else
        var r := [(keys[0], first.value)] + rest.value;
        assert forall i :: 1 <= i < |raw| ==> r[i] == rest.value[i - 1] && keys[i] == keys[1..][i - 1] && raw[i] == raw[1..][i - 1];
        Success(r)
  }

  /** Slots each of which decodes to the matching entry of `r` decode, together, to `r`. */
  lemma {:induction false} DecodeSlotsRender<K, S>(keys: seq<K>, slot: (K, string) -> Option<S>, r: seq<(K, S)>, raw: seq<string>)
    requires |raw| == |r| <= |keys|
    requires forall i :: 0 <= i < |r| ==> r[i].0 == keys[i] && slot(keys[i], raw[i]) == Some(r[i].1)
    ensures DecodeSlots(keys, slot, raw) == Success(r)
    decreases |raw|
  {
    if |raw| > 0 {
      assert forall i :: 0 <= i < |r| - 1 ==> r[1..][i] == r[i + 1] && keys[1..][i] == keys[i + 1] && raw[1..][i] == raw[i + 1];
      DecodeSlotsRender(keys[1..], slot, r[1..], raw[1..]);
      assert r == [(keys[0], r[0].1)] + r[1..];
    }
  }
}
