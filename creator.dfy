/**
 * The `CREATOR` schema of src/payloads/Creator.ts: the ten slots of a creator
 * reply, in order.
 */
module Creator {
  import opened Schema

  /** The field names of the table. */
  datatype CreatorField =
    | CreatorId
    | KanjiName
    | EnglishName
    | Type
    | PicName
    | UrlEnglish
    | UrlJapanese
    | WikiUrlEnglish
    | WikiUrlJapanese
    | LastUpdateDate

  /** The constructor `CREATOR` names for each field. */
  function Constructor(f: CreatorField): Ctor {
    match f
    case CreatorId       => NumberCtor
    case KanjiName       => StringCtor
    case EnglishName     => StringCtor
    case Type            => NumberCtor
    case PicName         => StringCtor
    case UrlEnglish      => StringCtor
    case UrlJapanese     => StringCtor
    case WikiUrlEnglish  => StringCtor
    case WikiUrlJapanese => StringCtor
    case LastUpdateDate  => NumberCtor
  }

  /** The number of keys. */
  const SIZE := 10

  /** The `i`-th key of `Object.keys` of the table, in declaration order. */
  function KeyAt(i: nat): CreatorField
    requires i < SIZE
  {
    match i
    case 0 => CreatorId
    case 1 => KanjiName
    case 2 => EnglishName
    case 3 => Type
    case 4 => PicName
    case 5 => UrlEnglish
    case 6 => UrlJapanese
    case 7 => WikiUrlEnglish
    case 8 => WikiUrlJapanese
    case _ => LastUpdateDate
  }

  /** The position of a field among the keys. */
  function KeyIndex(f: CreatorField): (i: nat)
    ensures i < SIZE
  {
    match f
    case CreatorId       => 0
    case KanjiName       => 1
    case EnglishName     => 2
    case Type            => 3
    case PicName         => 4
    case UrlEnglish      => 5
    case UrlJapanese     => 6
    case WikiUrlEnglish  => 7
    case WikiUrlJapanese => 8
    case LastUpdateDate  => 9
  }

  /** `Object.keys(CREATOR)`: the ten slots in declaration order. */
  function Keys(): (keys: seq<CreatorField>)
    ensures |keys| == SIZE
    ensures forall i :: 0 <= i < SIZE ==> keys[i] == KeyAt(i)
  {
    seq(SIZE, i requires 0 <= i < SIZE => KeyAt(i))
  }

  lemma KeyIndexOfKeyAt(i: nat)
    requires i < SIZE
    ensures KeyIndex(KeyAt(i)) == i
  {
  }

  /** The keys list every field exactly once, each at its own position. */
  lemma KeysInOrder()
    ensures KeyOrder(Keys())
    ensures forall f :: Keys()[KeyIndex(f)] == f
  {
    var keys := Keys();
    forall i | 0 <= i < SIZE ensures KeyIndex(keys[i]) == i {
      KeyIndexOfKeyAt(i);
    }
    forall f ensures keys[KeyIndex(f)] == f {
      match f
      case CreatorId =>
      case KanjiName =>
      case EnglishName =>
      case Type =>
      case PicName =>
      case UrlEnglish =>
      case UrlJapanese =>
      case WikiUrlEnglish =>
      case WikiUrlJapanese =>
      case LastUpdateDate =>
    }
    forall f ensures f in keys {
      assert keys[KeyIndex(f)] == f;
    }
    forall i, j | 0 <= i < j < |keys| ensures keys[i] != keys[j] {
      assert KeyIndex(keys[i]) == i && KeyIndex(keys[j]) == j;
    }
  }

  /** The type each field decodes to. */
  lemma FieldTypes(f: CreatorField)
    ensures Constructor(f) == NumberCtor <==> f == CreatorId || f == Type || f == LastUpdateDate
    ensures Constructor(f) == StringCtor <==> f == KanjiName || f == EnglishName || f == PicName || f == UrlEnglish || f == UrlJapanese || f == WikiUrlEnglish || f == WikiUrlJapanese
    ensures Constructor(f) != BooleanCtor
    ensures Constructor(f) != ArrayCtor
  {
  }
}
