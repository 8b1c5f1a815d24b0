/**
 * The `GROUP_STATUS` schema of src/payloads/GroupStatus.ts: the seven slots of
 * one line of a group-status reply, in order.
 */
module GroupStatus {
  import opened Schema

  /** The field names of the table. */
  datatype GroupStatusField =
    | Gid
    | GroupName
    | CompletionState
    | LastEpisodeNumber
    | Rating
    | VoteCount
    | EpisodeRange

  /** The constructor `GROUP_STATUS` names for each field. */
  function Constructor(f: GroupStatusField): Ctor {
    match f
    case Gid               => NumberCtor
    case GroupName         => StringCtor
    case CompletionState   => NumberCtor
    case LastEpisodeNumber => NumberCtor
    case Rating            => NumberCtor
    case VoteCount         => NumberCtor
    case EpisodeRange      => StringCtor
  }

  /** The number of keys. */
  const SIZE := 7

  /** The `i`-th key of `Object.keys` of the table, in declaration order. */
  function KeyAt(i: nat): GroupStatusField
    requires i < SIZE
  {
    match i
    case 0 => Gid
    case 1 => GroupName
    case 2 => CompletionState
    case 3 => LastEpisodeNumber
    case 4 => Rating
    case 5 => VoteCount
    case _ => EpisodeRange
  }

  /** The position of a field among the keys. */
  function KeyIndex(f: GroupStatusField): (i: nat)
    ensures i < SIZE
  {
    match f
    case Gid               => 0
    case GroupName         => 1
    case CompletionState   => 2
    case LastEpisodeNumber => 3
    case Rating            => 4
    case VoteCount         => 5
    case EpisodeRange      => 6
  }

  /** `Object.keys(GROUP_STATUS)`: the seven slots in declaration order. */
  function Keys(): (keys: seq<GroupStatusField>)
    ensures |keys| == SIZE
    ensures forall i :: 0 <= i < SIZE ==> keys[i] == KeyAt(i)
  {
    seq(SIZE, i requires 0 <= i < SIZE => KeyAt(i))
  }

  lemma KeyIndexOfKeyAt(i: nat)
    requires i < SIZE
    ensures KeyIndex(KeyAt(i)) == i
  {
  }

  /** The keys list every field exactly once, each at its own position. */
  lemma KeysInOrder()
    ensures KeyOrder(Keys())
    ensures forall f :: Keys()[KeyIndex(f)] == f
  {
    var keys := Keys();
    forall i | 0 <= i < SIZE ensures KeyIndex(keys[i]) == i {
      KeyIndexOfKeyAt(i);
    }
    forall f ensures keys[KeyIndex(f)] == f {
      match f
      case Gid =>
      case GroupName =>
      case CompletionState =>
      case LastEpisodeNumber =>
      case Rating =>
      case VoteCount =>
      case EpisodeRange =>
    }
    forall f ensures f in keys {
      assert keys[KeyIndex(f)] == f;
    }
    forall i, j | 0 <= i < j < |keys| ensures keys[i] != keys[j] {
      assert KeyIndex(keys[i]) == i && KeyIndex(keys[j]) == j;
    }
  }

  /** The type each field decodes to. */
  lemma FieldTypes(f: GroupStatusField)
    ensures Constructor(f) == NumberCtor <==> f == Gid || f == CompletionState || f == LastEpisodeNumber || f == Rating || f == VoteCount
    ensures Constructor(f) == StringCtor <==> f == GroupName || f == EpisodeRange
    ensures Constructor(f) != BooleanCtor
    ensures Constructor(f) != ArrayCtor
  {
  }
}
