/**
 * The `ANIME_BLOCK` sub-schema of src/Character.ts: the four values of one
 * `'`-separated block of a character's anime slot, decoded by position.
 */
module AnimeBlock {
  import opened Schema

  /** The field names of the table. */
  datatype AnimeBlockField =
    | Aid
    | Appearance
    | CreatorId
    | IsMainSeiyuu

  /** The constructor `ANIME_BLOCK` names for each field. */
  function Constructor(f: AnimeBlockField): Ctor {
    match f
    case Aid          => NumberCtor
    case Appearance   => NumberCtor
    case CreatorId    => NumberCtor
    case IsMainSeiyuu => BooleanCtor
  }

  /** The number of keys. */
  const SIZE := 4

  /** The `i`-th key of `Object.keys` of the table, in declaration order. */
  function KeyAt(i: nat): AnimeBlockField
    requires i < SIZE
  {
    match i
    case 0 => Aid
    case 1 => Appearance
    case 2 => CreatorId
    case _ => IsMainSeiyuu
  }

  /** The position of a field among the keys. */
  function KeyIndex(f: AnimeBlockField): (i: nat)
    ensures i < SIZE
  {
    match f
    case Aid          => 0
    case Appearance   => 1
    case CreatorId    => 2
    case IsMainSeiyuu => 3
  }

  /** `Object.keys(ANIME_BLOCK)`: aid, appearance, creatorId, isMainSeiyuu. */
  function Keys(): (keys: seq<AnimeBlockField>)
    ensures |keys| == SIZE
    ensures forall i :: 0 <= i < SIZE ==> keys[i] == KeyAt(i)
  {
    seq(SIZE, i requires 0 <= i < SIZE => KeyAt(i))
  }

  lemma KeyIndexOfKeyAt(i: nat)
    requires i < SIZE
    ensures KeyIndex(KeyAt(i)) == i
  {
  }

  /** The keys list every field exactly once, each at its own position. */
  lemma KeysInOrder()
    ensures KeyOrder(Keys())
    ensures forall f :: Keys()[KeyIndex(f)] == f
  {
    var keys := Keys();
    forall i | 0 <= i < SIZE ensures KeyIndex(keys[i]) == i {
      KeyIndexOfKeyAt(i);
    }
    forall f ensures keys[KeyIndex(f)] == f {
      match f
      case Aid =>
      case Appearance =>
      case CreatorId =>
      case IsMainSeiyuu =>
    }
    forall f ensures f in keys {
      assert keys[KeyIndex(f)] == f;
    }
    forall i, j | 0 <= i < j < |keys| ensures keys[i] != keys[j] {
      assert KeyIndex(keys[i]) == i && KeyIndex(keys[j]) == j;
    }
  }

  /** The type each field decodes to. */
  lemma FieldTypes(f: AnimeBlockField)
    ensures Constructor(f) == NumberCtor <==> f == Aid || f == Appearance || f == CreatorId
    ensures Constructor(f) != StringCtor
    ensures Constructor(f) == BooleanCtor <==> f == IsMainSeiyuu
    ensures Constructor(f) != ArrayCtor
  {
  }
}

/**
 * The `CHARACTER` schema of src/Character.ts: the nine slots of a character
 * reply, in order. The `animeBlocks` slot holds nested `ANIME_BLOCK` records.
 */
module Character {
  import opened Schema

  /** The field names of the table. */
  datatype CharacterField =
    | CharId
    | KanjiName
    | EnglishName
    | PicName
    | AnimeBlocks
    | EpisodeList
    | LastUpdateDate
    | Type
    | Gender

  /** The constructor `CHARACTER` names for each field. */
  function Constructor(f: CharacterField): Ctor {
    match f
    case CharId         => NumberCtor
    case KanjiName      => StringCtor
    case EnglishName    => StringCtor
    case PicName        => StringCtor
    case AnimeBlocks    => ArrayCtor
    case EpisodeList    => StringCtor
    case LastUpdateDate => NumberCtor
    case Type           => NumberCtor
    case Gender         => StringCtor
  }

  /** The number of keys. */
  const SIZE := 9

  /** The `i`-th key of `Object.keys` of the table, in declaration order. */
  function KeyAt(i: nat): CharacterField
    requires i < SIZE
  {
    match i
    case 0 => CharId
    case 1 => KanjiName
    case 2 => EnglishName
    case 3 => PicName
    case 4 => AnimeBlocks
    case 5 => EpisodeList
    case 6 => LastUpdateDate
    case 7 => Type
    case _ => Gender
  }

  /** The position of a field among the keys. */
  function KeyIndex(f: CharacterField): (i: nat)
    ensures i < SIZE
  {
    match f
    case CharId         => 0
    case KanjiName      => 1
    case EnglishName    => 2
    case PicName        => 3
    case AnimeBlocks    => 4
    case EpisodeList    => 5
    case LastUpdateDate => 6
    case Type           => 7
    case Gender         => 8
  }

  /** `Object.keys(CHARACTER)`: the nine slots in declaration order. */
  function Keys(): (keys: seq<CharacterField>)
    ensures |keys| == SIZE
    ensures forall i :: 0 <= i < SIZE ==> keys[i] == KeyAt(i)
  {
    seq(SIZE, i requires 0 <= i < SIZE => KeyAt(i))
  }

  lemma KeyIndexOfKeyAt(i: nat)
    requires i < SIZE
    ensures KeyIndex(KeyAt(i)) == i
  {
  }

  /** The keys list every field exactly once, each at its own position. */
  lemma KeysInOrder()
    ensures KeyOrder(Keys())
    ensures forall f :: Keys()[KeyIndex(f)] == f
  {
    var keys := Keys();
    forall i | 0 <= i < SIZE ensures KeyIndex(keys[i]) == i {
      KeyIndexOfKeyAt(i);
    }
    forall f ensures keys[KeyIndex(f)] == f {
      match f
      case CharId =>
      case KanjiName =>
      case EnglishName =>
      case PicName =>
      case AnimeBlocks =>
      case EpisodeList =>
      case LastUpdateDate =>
      case Type =>
      case Gender =>
    }
    forall f ensures f in keys {
      assert keys[KeyIndex(f)] == f;
    }
    forall i, j | 0 <= i < j < |keys| ensures keys[i] != keys[j] {
      assert KeyIndex(keys[i]) == i && KeyIndex(keys[j]) == j;
    }
  }

  /** The type each field decodes to. */
  lemma FieldTypes(f: CharacterField)
    ensures Constructor(f) == NumberCtor <==> f == CharId || f == LastUpdateDate || f == Type
    ensures Constructor(f) == StringCtor <==> f == KanjiName || f == EnglishName || f == PicName || f == EpisodeList || f == Gender
    ensures Constructor(f) != BooleanCtor
    ensures Constructor(f) == ArrayCtor <==> f == AnimeBlocks
  {
  }
}
