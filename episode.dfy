/**
 * The `EPISODE` schema of src/Episode.ts: the eleven slots of an episode
 * reply, in order.
 */
module Episode {
  import opened Schema

  /** The field names of the table. */
  datatype EpisodeField =
    | Eid
    | Aid
    | Length
    | Rating
    | VoteCount
    | EpisodeNumber
    | EnglishName
    | RomajiName
    | KanjiName
    | AirDate
    | Type

  /** The constructor `EPISODE` names for each field. */
  function Constructor(f: EpisodeField): Ctor {
    match f
    case Eid           => NumberCtor
    case Aid           => NumberCtor
    case Length        => NumberCtor
    case Rating        => NumberCtor
    case VoteCount     => NumberCtor
    case EpisodeNumber => StringCtor
    case EnglishName   => StringCtor
    case RomajiName    => StringCtor
    case KanjiName     => StringCtor
    case AirDate       => NumberCtor
    case Type          => NumberCtor
  }

  /** The number of keys. */
  const SIZE := 11

  /** The `i`-th key of `Object.keys` of the table, in declaration order. */
  function KeyAt(i: nat): EpisodeField
    requires i < SIZE
  {
    match i
    case 0 => Eid
    case 1 => Aid
    case 2 => Length
    case 3 => Rating
    case 4 => VoteCount
    case 5 => EpisodeNumber
    case 6 => EnglishName
    case 7 => RomajiName
    case 8 => KanjiName
    case 9 => AirDate
    case _ => Type
  }

  /** The position of a field among the keys. */
  function KeyIndex(f: EpisodeField): (i: nat)
    ensures i < SIZE
  {
    match f
    case Eid           => 0
    case Aid           => 1
    case Length        => 2
    case Rating        => 3
    case VoteCount     => 4
    case EpisodeNumber => 5
    case EnglishName   => 6
    case RomajiName    => 7
    case KanjiName     => 8
    case AirDate       => 9
    case Type          => 10
  }

  /** `Object.keys(EPISODE)`: the eleven slots in declaration order. */
  function Keys(): (keys: seq<EpisodeField>)
    ensures |keys| == SIZE
    ensures forall i :: 0 <= i < SIZE ==> keys[i] == KeyAt(i)
  {
    seq(SIZE, i requires 0 <= i < SIZE => KeyAt(i))
  }

  lemma KeyIndexOfKeyAt(i: nat)
    requires i < SIZE
    ensures KeyIndex(KeyAt(i)) == i
  {
  }

  /** The keys list every field exactly once, each at its own position. */
  lemma KeysInOrder()
    ensures KeyOrder(Keys())
    ensures forall f :: Keys()[KeyIndex(f)] == f
  {
    var keys := Keys();
    forall i | 0 <= i < SIZE ensures KeyIndex(keys[i]) == i {
      KeyIndexOfKeyAt(i);
    }
    forall f ensures keys[KeyIndex(f)] == f {
      match f
      case Eid =>
      case Aid =>
      case Length =>
      case Rating =>
      case VoteCount =>
      case EpisodeNumber =>
      case EnglishName =>
      case RomajiName =>
      case KanjiName =>
      case AirDate =>
      case Type =>
    }
    forall f ensures f in keys {
      assert keys[KeyIndex(f)] == f;
    }
    forall i, j | 0 <= i < j < |keys| ensures keys[i] != keys[j] {
      assert KeyIndex(keys[i]) == i && KeyIndex(keys[j]) == j;
    }
  }

  /** The type each field decodes to. */
  lemma FieldTypes(f: EpisodeField)
    ensures Constructor(f) == NumberCtor <==> f == Eid || f == Aid || f == Length || f == Rating || f == VoteCount || f == AirDate || f == Type
    ensures Constructor(f) == StringCtor <==> f == EpisodeNumber || f == EnglishName || f == RomajiName || f == KanjiName
    ensures Constructor(f) != BooleanCtor
    ensures Constructor(f) != ArrayCtor
  {
  }
}
