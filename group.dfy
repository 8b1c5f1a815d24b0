/**
 * The `GROUP_RELATION` sub-schema of src/Group.ts: the two values of one
 * `'`-separated block of a group's relation slot, decoded by position.
 */
module GroupRelation {
  import opened Schema

  /** The field names of the table. */
  datatype GroupRelationField =
    | OtherGid
    | RelationType

  /** The constructor `GROUP_RELATION` names for each field. */
  function Constructor(f: GroupRelationField): Ctor {
    match f
    case OtherGid     => NumberCtor
    case RelationType => NumberCtor
  }

  /** The number of keys. */
  const SIZE := 2

  /** The `i`-th key of `Object.keys` of the table, in declaration order. */
  function KeyAt(i: nat): GroupRelationField
    requires i < SIZE
  {
    match i
    case 0 => OtherGid
    case _ => RelationType
  }

  /** The position of a field among the keys. */
  function KeyIndex(f: GroupRelationField): (i: nat)
    ensures i < SIZE
  {
    match f
    case OtherGid     => 0
    case RelationType => 1
  }

  /** `Object.keys(GROUP_RELATION)`: otherGid, relationType. */
  function Keys(): (keys: seq<GroupRelationField>)
    ensures |keys| == SIZE
    ensures forall i :: 0 <= i < SIZE ==> keys[i] == KeyAt(i)
  {
    seq(SIZE, i requires 0 <= i < SIZE => KeyAt(i))
  }

  lemma KeyIndexOfKeyAt(i: nat)
    requires i < SIZE
    ensures KeyIndex(KeyAt(i)) == i
  {
  }

  /** The keys list every field exactly once, each at its own position. */
  lemma KeysInOrder()
    ensures KeyOrder(Keys())
    ensures forall f :: Keys()[KeyIndex(f)] == f
  {
    var keys := Keys();
    forall i | 0 <= i < SIZE ensures KeyIndex(keys[i]) == i {
      KeyIndexOfKeyAt(i);
    }
    forall f ensures keys[KeyIndex(f)] == f {
      match f
      case OtherGid =>
      case RelationType =>
    }
    forall f ensures f in keys {
      assert keys[KeyIndex(f)] == f;
    }
    forall i, j | 0 <= i < j < |keys| ensures keys[i] != keys[j] {
      assert KeyIndex(keys[i]) == i && KeyIndex(keys[j]) == j;
    }
  }

  /** The type each field decodes to. */
  lemma FieldTypes(f: GroupRelationField)
    ensures Constructor(f) == NumberCtor <==> f == OtherGid || f == RelationType
    ensures Constructor(f) != StringCtor
    ensures Constructor(f) != BooleanCtor
    ensures Constructor(f) != ArrayCtor
  {
  }
}

/**
 * The `GROUP` schema of src/Group.ts: the seventeen slots of a group reply,
 * in order. The last slot, `groupRelations`, holds nested `GROUP_RELATION` records.
 */
module Group {
  import opened Schema

  /** The field names of the table. */
  datatype GroupField =
    | Gid
    | Rating
    | VoteCount
    | AnimeCount
    | FileCount
    | LongName
    | ShortName
    | IrcChannel
    | IrcServer
    | Url
    | PicName
    | FoundedDate
    | DisbandedDate
    | DateFlags
    | LastReleaseDate
    | LastActivityDate
    | GroupRelations

  /** The constructor `GROUP` names for each field. */
  function Constructor(f: GroupField): Ctor {
    match f
    case Gid              => NumberCtor
    case Rating           => NumberCtor
    case VoteCount        => NumberCtor
    case AnimeCount       => NumberCtor
    case FileCount        => NumberCtor
    case LongName         => StringCtor
    case ShortName        => StringCtor
    case IrcChannel       => StringCtor
    case IrcServer        => StringCtor
    case Url              => StringCtor
    case PicName          => StringCtor
    case FoundedDate      => NumberCtor
    case DisbandedDate    => NumberCtor
    case DateFlags        => NumberCtor
    case LastReleaseDate  => NumberCtor
    case LastActivityDate => NumberCtor
    case GroupRelations   => ArrayCtor
  }

  /** The number of keys. */
  const SIZE := 17

  /** The `i`-th key of `Object.keys` of the table, in declaration order. */
  function KeyAt(i: nat): GroupField
    requires i < SIZE
  {
    match i
    case 0 => Gid
    case 1 => Rating
    case 2 => VoteCount
    case 3 => AnimeCount
    case 4 => FileCount
    case 5 => LongName
    case 6 => ShortName
    case 7 => IrcChannel
    case 8 => IrcServer
    case 9 => Url
    case 10 => PicName
    case 11 => FoundedDate
    case 12 => DisbandedDate
    case 13 => DateFlags
    case 14 => LastReleaseDate
    case 15 => LastActivityDate
    case _ => GroupRelations
  }

  /** The position of a field among the keys. */
  function KeyIndex(f: GroupField): (i: nat)
    ensures i < SIZE
  {
    match f
    case Gid              => 0
    case Rating           => 1
    case VoteCount        => 2
    case AnimeCount       => 3
    case FileCount        => 4
    case LongName         => 5
    case ShortName        => 6
    case IrcChannel       => 7
    case IrcServer        => 8
    case Url              => 9
    case PicName          => 10
    case FoundedDate      => 11
    case DisbandedDate    => 12
    case DateFlags        => 13
    case LastReleaseDate  => 14
    case LastActivityDate => 15
    case GroupRelations   => 16
  }

  /** `Object.keys(GROUP)`: the seventeen slots in declaration order. */
  function Keys(): (keys: seq<GroupField>)
    ensures |keys| == SIZE
    ensures forall i :: 0 <= i < SIZE ==> keys[i] == KeyAt(i)
  {
    seq(SIZE, i requires 0 <= i < SIZE => KeyAt(i))
  }

  lemma KeyIndexOfKeyAt(i: nat)
    requires i < SIZE
    ensures KeyIndex(KeyAt(i)) == i
  {
  }

  /** The keys list every field exactly once, each at its own position. */
  lemma KeysInOrder()
    ensures KeyOrder(Keys())
    ensures forall f :: Keys()[KeyIndex(f)] == f
  {
    var keys := Keys();
    forall i | 0 <= i < SIZE ensures KeyIndex(keys[i]) == i {
      KeyIndexOfKeyAt(i);
    }
    forall f ensures keys[KeyIndex(f)] == f {
      match f
      case Gid =>
      case Rating =>
      case VoteCount =>
      case AnimeCount =>
      case FileCount =>
      case LongName =>
      case ShortName =>
      case IrcChannel =>
      case IrcServer =>
      case Url =>
      case PicName =>
      case FoundedDate =>
      case DisbandedDate =>
      case DateFlags =>
      case LastReleaseDate =>
      case LastActivityDate =>
      case GroupRelations =>
    }
    forall f ensures f in keys {
      assert keys[KeyIndex(f)] == f;
    }
    forall i, j | 0 <= i < j < |keys| ensures keys[i] != keys[j] {
      assert KeyIndex(keys[i]) == i && KeyIndex(keys[j]) == j;
    }
  }

  /** The type each field decodes to. */
  lemma FieldTypes(f: GroupField)
    ensures Constructor(f) == NumberCtor <==> f == Gid || f == Rating || f == VoteCount || f == AnimeCount || f == FileCount || f == FoundedDate || f == DisbandedDate || f == DateFlags || f == LastReleaseDate || f == LastActivityDate
    ensures Constructor(f) == StringCtor <==> f == LongName || f == ShortName || f == IrcChannel || f == IrcServer || f == Url || f == PicName
    ensures Constructor(f) != BooleanCtor
    ensures Constructor(f) == ArrayCtor <==> f == GroupRelations
  {
  }
}
