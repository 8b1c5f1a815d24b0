/**
 * The `ANIME_DESCRIPTION` schema of src/payloads/AnimeDescription.ts: the
 * three slots of one page of an anime description reply, in order.
 */
module AnimeDescription {
  import opened Schema

  /** The field names of the table. */
  datatype DescriptionField =
    | CurrentPart
    | MaxParts
    | Description

  /** The constructor `ANIME_DESCRIPTION` names for each field. */
  function Constructor(f: DescriptionField): Ctor {
    match f
    case CurrentPart => NumberCtor
    case MaxParts    => NumberCtor
    case Description => StringCtor
  }

  /** The number of keys. */
  const SIZE := 3

  /** The `i`-th key of `Object.keys` of the table, in declaration order. */
  function KeyAt(i: nat): DescriptionField
    requires i < SIZE
  {
    match i
    case 0 => CurrentPart
    case 1 => MaxParts
    case _ => Description
  }

  /** The position of a field among the keys. */
  function KeyIndex(f: DescriptionField): (i: nat)
    ensures i < SIZE
  {
    match f
    case CurrentPart => 0
    case MaxParts    => 1
    case Description => 2
  }

  /** `Object.keys(ANIME_DESCRIPTION)`: currentPart, maxParts, description. */
  function Keys(): (keys: seq<DescriptionField>)
    ensures |keys| == SIZE
    ensures forall i :: 0 <= i < SIZE ==> keys[i] == KeyAt(i)
  {
    seq(SIZE, i requires 0 <= i < SIZE => KeyAt(i))
  }

  lemma KeyIndexOfKeyAt(i: nat)
    requires i < SIZE
    ensures KeyIndex(KeyAt(i)) == i
  {
  }

  /** The keys list every field exactly once, each at its own position. */
  lemma KeysInOrder()
    ensures KeyOrder(Keys())
    ensures forall f :: Keys()[KeyIndex(f)] == f
  {
    var keys := Keys();
    forall i | 0 <= i < SIZE ensures KeyIndex(keys[i]) == i {
      KeyIndexOfKeyAt(i);
    }
    forall f ensures keys[KeyIndex(f)] == f {
      match f
      case CurrentPart =>
      case MaxParts =>
      case Description =>
    }
    forall f ensures f in keys {
      assert keys[KeyIndex(f)] == f;
    }
    forall i, j | 0 <= i < j < |keys| ensures keys[i] != keys[j] {
      assert KeyIndex(keys[i]) == i && KeyIndex(keys[j]) == j;
    }
  }

  /** The type each field decodes to. */
  lemma FieldTypes(f: DescriptionField)
    ensures Constructor(f) == NumberCtor <==> f == CurrentPart || f == MaxParts
    ensures Constructor(f) == StringCtor <==> f == Description
    ensures Constructor(f) != BooleanCtor
    ensures Constructor(f) != ArrayCtor
  {
  }
}
