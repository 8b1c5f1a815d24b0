/**
 * The anime field mask: the `ANIME_MASK` table and the `generateAnimeMask`
 * encoder of src/Anime.ts.
 */
module Anime {
  import opened Wrappers
  import opened Schema
  import Mask

  /** The field names of the mask table. */
  datatype AnimeField =
    | Aid
    | DateFlags
    | Year
    | Type
    | RelatedAidList
    | RelatedAidType
    | RomajiName
    | KanjiName
    | EnglishName
    | OtherNames
    | ShortNames
    | Synonyms
    | Episodes
    | HighestEpisodeNumber
    | SpecialEpisodeCount
    | AirDate
    | EndDate
    | Url
    | PicName
    | Rating
    | VoteCount
    | TempRating
    | TempVoteCount
    | AverageReviewRating
    | ReviewCount
    | AwardList
    | IsAdultRestricted
    | AnnId
    | AllCinemaId
    | AnimeNfoId
    | TagNameList
    | TagIdList
    | TagWeightList
    | DateRecordUpdated
    | CharacterIdList
    | SpecialsCount
    | CreditsCount
    | OtherCount
    | TrailerCount
    | ParodyCount

  /** The mask table: each field's byte offset, bit value, type and element decoder. */
  function AnimeMask(f: AnimeField): MaskEntry {
    match f
    case Aid                  => MaskEntry(0, 128, NumberCtor, None)
    case DateFlags            => MaskEntry(0,  64, NumberCtor, None)
    case Year                 => MaskEntry(0,  32, StringCtor, None)
    case Type                 => MaskEntry(0,  16, StringCtor, None)
    case RelatedAidList       => MaskEntry(0,   8, ArrayCtor, Some(StringCtor))
    case RelatedAidType       => MaskEntry(0,   4, ArrayCtor, Some(StringCtor))
    case RomajiName           => MaskEntry(1, 128, StringCtor, None)
    case KanjiName            => MaskEntry(1,  64, StringCtor, None)
    case EnglishName          => MaskEntry(1,  32, StringCtor, None)
    case OtherNames           => MaskEntry(1,  16, ArrayCtor, Some(StringCtor))
    case ShortNames           => MaskEntry(1,   8, ArrayCtor, Some(StringCtor))
    case Synonyms             => MaskEntry(1,   4, ArrayCtor, Some(StringCtor))
    case Episodes             => MaskEntry(2, 128, NumberCtor, None)
    case HighestEpisodeNumber => MaskEntry(2,  64, NumberCtor, None)
    case SpecialEpisodeCount  => MaskEntry(2,  32, NumberCtor, None)
    case AirDate              => MaskEntry(2,  16, NumberCtor, None)
    case EndDate              => MaskEntry(2,   8, NumberCtor, None)
    case Url                  => MaskEntry(2,   4, StringCtor, None)
    case PicName              => MaskEntry(2,   2, StringCtor, None)
    case Rating               => MaskEntry(3, 128, NumberCtor, None)
    case VoteCount            => MaskEntry(3,  64, NumberCtor, None)
    case TempRating           => MaskEntry(3,  32, NumberCtor, None)
    case TempVoteCount        => MaskEntry(3,  16, NumberCtor, None)
    case AverageReviewRating  => MaskEntry(3,   8, NumberCtor, None)
    case ReviewCount          => MaskEntry(3,   4, NumberCtor, None)
    case AwardList            => MaskEntry(3,   2, ArrayCtor, Some(StringCtor))
    case IsAdultRestricted    => MaskEntry(3,   1, BooleanCtor, None)
    case AnnId                => MaskEntry(4,  64, NumberCtor, None)
    case AllCinemaId          => MaskEntry(4,  32, NumberCtor, None)
    case AnimeNfoId           => MaskEntry(4,  16, NumberCtor, None)
    case TagNameList          => MaskEntry(4,   8, ArrayCtor, Some(StringCtor))
    case TagIdList            => MaskEntry(4,   4, ArrayCtor, Some(NumberCtor))
    case TagWeightList        => MaskEntry(4,   2, ArrayCtor, Some(NumberCtor))
    case DateRecordUpdated    => MaskEntry(4,   1, NumberCtor, None)
    case CharacterIdList      => MaskEntry(5, 128, ArrayCtor, Some(NumberCtor))
    case SpecialsCount        => MaskEntry(6, 128, NumberCtor, None)
    case CreditsCount         => MaskEntry(6,  64, NumberCtor, None)
    case OtherCount           => MaskEntry(6,  32, NumberCtor, None)
    case TrailerCount         => MaskEntry(6,  16, NumberCtor, None)
    case ParodyCount          => MaskEntry(6,   8, NumberCtor, None)
  }

  /** The size in bytes of the buffer the mask is built in. */
  const WIDTH := 7

  /** The `i`-th key of `Object.keys` of the table, in declaration order. */
  function KeyAt(i: nat): AnimeField
    requires i < 40
  {
    match i
    case 0 => Aid
    case 1 => DateFlags
    case 2 => Year
    case 3 => Type
    case 4 => RelatedAidList
    case 5 => RelatedAidType
    case 6 => RomajiName
    case 7 => KanjiName
    case 8 => EnglishName
    case 9 => OtherNames
    case 10 => ShortNames
    case 11 => Synonyms
    case 12 => Episodes
    case 13 => HighestEpisodeNumber
    case 14 => SpecialEpisodeCount
    case 15 => AirDate
    case 16 => EndDate
    case 17 => Url
    case 18 => PicName
    case 19 => Rating
    case 20 => VoteCount
    case 21 => TempRating
    case 22 => TempVoteCount
    case 23 => AverageReviewRating
    case 24 => ReviewCount
    case 25 => AwardList
    case 26 => IsAdultRestricted
    case 27 => AnnId
    case 28 => AllCinemaId
    case 29 => AnimeNfoId
    case 30 => TagNameList
    case 31 => TagIdList
    case 32 => TagWeightList
    case 33 => DateRecordUpdated
    case 34 => CharacterIdList
    case 35 => SpecialsCount
    case 36 => CreditsCount
    case 37 => OtherCount
    case 38 => TrailerCount
    case _ => ParodyCount
  }

  /** The position of a field among the keys. */
  function KeyIndex(f: AnimeField): (i: nat)
    ensures i < 40
  {
    match f
    case Aid                  => 0
    case DateFlags            => 1
    case Year                 => 2
    case Type                 => 3
    case RelatedAidList       => 4
    case RelatedAidType       => 5
    case RomajiName           => 6
    case KanjiName            => 7
    case EnglishName          => 8
    case OtherNames           => 9
    case ShortNames           => 10
    case Synonyms             => 11
    case Episodes             => 12
    case HighestEpisodeNumber => 13
    case SpecialEpisodeCount  => 14
    case AirDate              => 15
    case EndDate              => 16
    case Url                  => 17
    case PicName              => 18
    case Rating               => 19
    case VoteCount            => 20
    case TempRating           => 21
    case TempVoteCount        => 22
    case AverageReviewRating  => 23
    case ReviewCount          => 24
    case AwardList            => 25
    case IsAdultRestricted    => 26
    case AnnId                => 27
    case AllCinemaId          => 28
    case AnimeNfoId           => 29
    case TagNameList          => 30
    case TagIdList            => 31
    case TagWeightList        => 32
    case DateRecordUpdated    => 33
    case CharacterIdList      => 34
    case SpecialsCount        => 35
    case CreditsCount         => 36
    case OtherCount           => 37
    case TrailerCount         => 38
    case ParodyCount          => 39
  }

  /** `Object.keys` of the table. */
  function Keys(): (keys: seq<AnimeField>)
    ensures |keys| == 40
    ensures forall i :: 0 <= i < 40 ==> keys[i] == KeyAt(i)
  {
    seq(40, i requires 0 <= i < 40 => KeyAt(i))
  }

  lemma KeyIndexInverse()
    ensures forall f :: KeyAt(KeyIndex(f)) == f
    ensures forall i :: 0 <= i < 40 ==> KeyIndex(KeyAt(i)) == i
  {
    forall i | 0 <= i < 40 ensures KeyIndex(KeyAt(i)) == i {
      KeyIndexOfKeyAt(i);
    }
  }

  lemma KeyIndexOfKeyAt(i: nat)
    requires i < 40
    ensures KeyIndex(KeyAt(i)) == i
  {
  }

  /** The keys list every field exactly once. */
  lemma KeysInOrder()
    ensures KeyOrder(Keys()) && Mask.NoDuplicates(Keys())
  {
    KeyIndexInverse();
    var keys := Keys();
    forall f ensures f in keys {
      assert keys[KeyIndex(f)] == f;
    }
    forall i, j | 0 <= i < j < |keys| ensures keys[i] != keys[j] {
      assert KeyIndex(keys[i]) == i && KeyIndex(keys[j]) == j;
    }
  }

  /** The field that owns a bit of a byte, if any: no two fields share one. */
  function FieldAt(offset: nat, bit: bv8): Option<AnimeField> {
    if offset == 0 && bit == 128 then Some(Aid)
    else if offset == 0 && bit == 64 then Some(DateFlags)
    else if offset == 0 && bit == 32 then Some(Year)
    else if offset == 0 && bit == 16 then Some(Type)
    else if offset == 0 && bit == 8 then Some(RelatedAidList)
    else if offset == 0 && bit == 4 then Some(RelatedAidType)
    else if offset == 1 && bit == 128 then Some(RomajiName)
    else if offset == 1 && bit == 64 then Some(KanjiName)
    else if offset == 1 && bit == 32 then Some(EnglishName)
    else if offset == 1 && bit == 16 then Some(OtherNames)
    else if offset == 1 && bit == 8 then Some(ShortNames)
    else if offset == 1 && bit == 4 then Some(Synonyms)
    else if offset == 2 && bit == 128 then Some(Episodes)
    else if offset == 2 && bit == 64 then Some(HighestEpisodeNumber)
    else if offset == 2 && bit == 32 then Some(SpecialEpisodeCount)
    else if offset == 2 && bit == 16 then Some(AirDate)
    else if offset == 2 && bit == 8 then Some(EndDate)
    else if offset == 2 && bit == 4 then Some(Url)
    else if offset == 2 && bit == 2 then Some(PicName)
    else if offset == 3 && bit == 128 then Some(Rating)
    else if offset == 3 && bit == 64 then Some(VoteCount)
    else if offset == 3 && bit == 32 then Some(TempRating)
    else if offset == 3 && bit == 16 then Some(TempVoteCount)
    else if offset == 3 && bit == 8 then Some(AverageReviewRating)
    else if offset == 3 && bit == 4 then Some(ReviewCount)
    else if offset == 3 && bit == 2 then Some(AwardList)
    else if offset == 3 && bit == 1 then Some(IsAdultRestricted)
    else if offset == 4 && bit == 64 then Some(AnnId)
    else if offset == 4 && bit == 32 then Some(AllCinemaId)
    else if offset == 4 && bit == 16 then Some(AnimeNfoId)
    else if offset == 4 && bit == 8 then Some(TagNameList)
    else if offset == 4 && bit == 4 then Some(TagIdList)
    else if offset == 4 && bit == 2 then Some(TagWeightList)
    else if offset == 4 && bit == 1 then Some(DateRecordUpdated)
    else if offset == 5 && bit == 128 then Some(CharacterIdList)
    else if offset == 6 && bit == 128 then Some(SpecialsCount)
    else if offset == 6 && bit == 64 then Some(CreditsCount)
    else if offset == 6 && bit == 32 then Some(OtherCount)
    else if offset == 6 && bit == 16 then Some(TrailerCount)
    else if offset == 6 && bit == 8 then Some(ParodyCount)
    else None
  }

  /**
   * The per-field facts of the table: the offset addresses one of the WIDTH
   * bytes, the bit value is zero or a single bit owned by this field alone,
   * and a field carries a Number or String element decoder exactly when it is
   * a list.
   */
  lemma FieldFacts(f: AnimeField)
    ensures AnimeMask(f).offset < WIDTH && IsBitValue(AnimeMask(f).bit)
    ensures FieldAt(AnimeMask(f).offset, AnimeMask(f).bit) == Some(f)
    ensures AnimeMask(f).kind == ArrayCtor <==> AnimeMask(f).element.Some?
    ensures AnimeMask(f).element.Some? ==> AnimeMask(f).element.value in {NumberCtor, StringCtor}
  {
    match f
    case Aid =>
    case DateFlags =>
    case Year =>
    case Type =>
    case RelatedAidList =>
    case RelatedAidType =>
    case RomajiName =>
    case KanjiName =>
    case EnglishName =>
    case OtherNames =>
    case ShortNames =>
    case Synonyms =>
    case Episodes =>
    case HighestEpisodeNumber =>
    case SpecialEpisodeCount =>
    case AirDate =>
    case EndDate =>
    case Url =>
    case PicName =>
    case Rating =>
    case VoteCount =>
    case TempRating =>
    case TempVoteCount =>
    case AverageReviewRating =>
    case ReviewCount =>
    case AwardList =>
    case IsAdultRestricted =>
    case AnnId =>
    case AllCinemaId =>
    case AnimeNfoId =>
    case TagNameList =>
    case TagIdList =>
    case TagWeightList =>
    case DateRecordUpdated =>
    case CharacterIdList =>
    case SpecialsCount =>
    case CreditsCount =>
    case OtherCount =>
    case TrailerCount =>
    case ParodyCount =>
  }

  lemma Distinct(f: AnimeField, g: AnimeField)
    requires f != g && AnimeMask(f).offset == AnimeMask(g).offset
    ensures AnimeMask(f).bit != AnimeMask(g).bit
  {
    FieldFacts(f);
    FieldFacts(g);
  }

  /**
   * Every offset addresses one of the WIDTH bytes, every bit value is zero or a
   * single bit, no two fields of one byte share a bit, and exactly the list
   * fields carry a Number or String element decoder.
   */
  lemma TableWellFormed()
    ensures WellFormed(AnimeMask, WIDTH)
  {
    forall f ensures AnimeMask(f).offset < WIDTH && IsBitValue(AnimeMask(f).bit)
      && (AnimeMask(f).kind == ArrayCtor <==> AnimeMask(f).element.Some?)
      && (AnimeMask(f).element.Some? ==> AnimeMask(f).element.value in {NumberCtor, StringCtor})
    {
      FieldFacts(f);
    }
    forall f, g | f != g && AnimeMask(f).offset == AnimeMask(g).offset
      ensures AnimeMask(f).bit != AnimeMask(g).bit
    {
      Distinct(f, g);
    }
  }

  /**
   * The encoder: a zero-filled buffer of WIDTH bytes, each field's bit added
   * into its byte, rendered as 2 * WIDTH lowercase hexadecimal digits.
   */
  method GenerateMask(fields: seq<AnimeField>) returns (hex: string)
    ensures hex == Mask.Hex(Mask.Bytes(AnimeMask, WIDTH, fields))
    ensures |hex| == 14
    ensures forall i :: 0 <= i < |hex| ==> Mask.IsLowerHex(hex[i])
  {
    hex := Mask.Generate(AnimeMask, WIDTH, fields);
  }

  /**
   * A requested field adds its bit to its own byte only: of a duplicate-free
   * field list, the mask has a field's bit set exactly when the field is listed.
   */
  lemma MaskNamesFields(fields: seq<AnimeField>, f: AnimeField)
    requires Mask.NoDuplicates(fields) && AnimeMask(f).bit != 0
    ensures |Mask.Bytes(AnimeMask, WIDTH, fields)| == WIDTH
    ensures Mask.HasBit(Mask.Bytes(AnimeMask, WIDTH, fields)[AnimeMask(f).offset] as bv8, AnimeMask(f).bit) <==> f in fields
  {
    TableWellFormed();
    Mask.MaskSelects(AnimeMask, WIDTH, fields, f);
  }

  /** For a duplicate-free field list, every byte is the OR of its fields' bits: no carry, no wrap. */
  lemma MaskIsOr(fields: seq<AnimeField>)
    requires Mask.NoDuplicates(fields)
    ensures |Mask.Bytes(AnimeMask, WIDTH, fields)| == WIDTH
    ensures forall j :: 0 <= j < WIDTH ==> Mask.Bytes(AnimeMask, WIDTH, fields)[j] == Mask.BitOr(AnimeMask, fields, j) as int
  {
    TableWellFormed();
    Mask.MaskIsOr(AnimeMask, WIDTH, fields);
  }

  /** The mask depends only on which fields are listed, not on their order. */
  lemma MaskOrderIndependent(xs: seq<AnimeField>, ys: seq<AnimeField>)
    requires multiset(xs) == multiset(ys)
    ensures Mask.Hex(Mask.Bytes(AnimeMask, WIDTH, xs)) == Mask.Hex(Mask.Bytes(AnimeMask, WIDTH, ys))
  {
    Mask.OrderIndependent(AnimeMask, WIDTH, xs, ys);
  }

  /** The empty field list gives the all-zero mask. */
  lemma EmptyMask()
    ensures Mask.Hex(Mask.Bytes(AnimeMask, WIDTH, [])) == "00000000000000"
  {
    HexOfZeros(Mask.Bytes(AnimeMask, WIDTH, []));
  }


  /** One step of the full-mask computation: the next keys of the table added to the buffer `m`, with the literal result. */
  lemma Added0(m: seq<Mask.Byte>)
    requires m == [0, 0, 0, 0, 0, 0, 0]
    ensures Mask.AddBit(Mask.AddBit(m, AnimeMask(Aid)), AnimeMask(DateFlags)) == [192, 0, 0, 0, 0, 0, 0]
  {
  }

  /** The buffer after the first 2 keys have been added. */
  lemma Prefix0(keys: seq<AnimeField>)
    requires keys == Keys()
    ensures Mask.Bytes(AnimeMask, WIDTH, keys[..2]) == [192, 0, 0, 0, 0, 0, 0]
  {
    assert keys[..0] == [];
    Mask.BytesStep(AnimeMask, WIDTH, keys, 0);
    assert keys[0] == Aid;
    Mask.BytesStep(AnimeMask, WIDTH, keys, 1);
    assert keys[1] == DateFlags;
    Added0(Mask.Bytes(AnimeMask, WIDTH, keys[..0]));
  }

  /** One step of the full-mask computation: the next keys of the table added to the buffer `m`, with the literal result. */
  lemma Added1(m: seq<Mask.Byte>)
    requires m == [192, 0, 0, 0, 0, 0, 0]
    ensures Mask.AddBit(Mask.AddBit(m, AnimeMask(Year)), AnimeMask(Type)) == [240, 0, 0, 0, 0, 0, 0]
  {
  }

  /** The buffer after the first 4 keys have been added. */
  lemma Prefix1(keys: seq<AnimeField>)
    requires keys == Keys()
    ensures Mask.Bytes(AnimeMask, WIDTH, keys[..4]) == [240, 0, 0, 0, 0, 0, 0]
  {
    Prefix0(keys);
    Mask.BytesStep(AnimeMask, WIDTH, keys, 2);
    assert keys[2] == Year;
    Mask.BytesStep(AnimeMask, WIDTH, keys, 3);
    assert keys[3] == Type;
    Added1(Mask.Bytes(AnimeMask, WIDTH, keys[..2]));
  }

  /** One step of the full-mask computation: the next keys of the table added to the buffer `m`, with the literal result. */
  lemma Added2(m: seq<Mask.Byte>)
    requires m == [240, 0, 0, 0, 0, 0, 0]
    ensures Mask.AddBit(Mask.AddBit(m, AnimeMask(RelatedAidList)), AnimeMask(RelatedAidType)) == [252, 0, 0, 0, 0, 0, 0]
  {
  }

  /** The buffer after the first 6 keys have been added. */
  lemma Prefix2(keys: seq<AnimeField>)
    requires keys == Keys()
    ensures Mask.Bytes(AnimeMask, WIDTH, keys[..6]) == [252, 0, 0, 0, 0, 0, 0]
  {
    Prefix1(keys);
    Mask.BytesStep(AnimeMask, WIDTH, keys, 4);
    assert keys[4] == RelatedAidList;
    Mask.BytesStep(AnimeMask, WIDTH, keys, 5);
    assert keys[5] == RelatedAidType;
    Added2(Mask.Bytes(AnimeMask, WIDTH, keys[..4]));
  }

  /** One step of the full-mask computation: the next keys of the table added to the buffer `m`, with the literal result. */
  lemma Added3(m: seq<Mask.Byte>)
    requires m == [252, 0, 0, 0, 0, 0, 0]
    ensures Mask.AddBit(Mask.AddBit(m, AnimeMask(RomajiName)), AnimeMask(KanjiName)) == [252, 192, 0, 0, 0, 0, 0]
  {
  }

  /** The buffer after the first 8 keys have been added. */
  lemma Prefix3(keys: seq<AnimeField>)
    requires keys == Keys()
    ensures Mask.Bytes(AnimeMask, WIDTH, keys[..8]) == [252, 192, 0, 0, 0, 0, 0]
  {
    Prefix2(keys);
    Mask.BytesStep(AnimeMask, WIDTH, keys, 6);
    assert keys[6] == RomajiName;
    Mask.BytesStep(AnimeMask, WIDTH, keys, 7);
    assert keys[7] == KanjiName;
    Added3(Mask.Bytes(AnimeMask, WIDTH, keys[..6]));
  }

  /** One step of the full-mask computation: the next keys of the table added to the buffer `m`, with the literal result. */
  lemma Added4(m: seq<Mask.Byte>)
    requires m == [252, 192, 0, 0, 0, 0, 0]
    ensures Mask.AddBit(Mask.AddBit(m, AnimeMask(EnglishName)), AnimeMask(OtherNames)) == [252, 240, 0, 0, 0, 0, 0]
  {
  }

  /** The buffer after the first 10 keys have been added. */
  lemma Prefix4(keys: seq<AnimeField>)
    requires keys == Keys()
    ensures Mask.Bytes(AnimeMask, WIDTH, keys[..10]) == [252, 240, 0, 0, 0, 0, 0]
  {
    Prefix3(keys);
    Mask.BytesStep(AnimeMask, WIDTH, keys, 8);
    assert keys[8] == EnglishName;
    Mask.BytesStep(AnimeMask, WIDTH, keys, 9);
    assert keys[9] == OtherNames;
    Added4(Mask.Bytes(AnimeMask, WIDTH, keys[..8]));
  }

  /** One step of the full-mask computation: the next keys of the table added to the buffer `m`, with the literal result. */
  lemma Added5(m: seq<Mask.Byte>)
    requires m == [252, 240, 0, 0, 0, 0, 0]
    ensures Mask.AddBit(Mask.AddBit(m, AnimeMask(ShortNames)), AnimeMask(Synonyms)) == [252, 252, 0, 0, 0, 0, 0]
  {
  }

  /** The buffer after the first 12 keys have been added. */
  lemma Prefix5(keys: seq<AnimeField>)
    requires keys == Keys()
    ensures Mask.Bytes(AnimeMask, WIDTH, keys[..12]) == [252, 252, 0, 0, 0, 0, 0]
  {
    Prefix4(keys);
    Mask.BytesStep(AnimeMask, WIDTH, keys, 10);
    assert keys[10] == ShortNames;
    Mask.BytesStep(AnimeMask, WIDTH, keys, 11);
    assert keys[11] == Synonyms;
    Added5(Mask.Bytes(AnimeMask, WIDTH, keys[..10]));
  }

  /** One step of the full-mask computation: the next keys of the table added to the buffer `m`, with the literal result. */
  lemma Added6(m: seq<Mask.Byte>)
    requires m == [252, 252, 0, 0, 0, 0, 0]
    ensures Mask.AddBit(Mask.AddBit(m, AnimeMask(Episodes)), AnimeMask(HighestEpisodeNumber)) == [252, 252, 192, 0, 0, 0, 0]
  {
  }

  /** The buffer after the first 14 keys have been added. */
  lemma Prefix6(keys: seq<AnimeField>)
    requires keys == Keys()
    ensures Mask.Bytes(AnimeMask, WIDTH, keys[..14]) == [252, 252, 192, 0, 0, 0, 0]
  {
    Prefix5(keys);
    Mask.BytesStep(AnimeMask, WIDTH, keys, 12);
    assert keys[12] == Episodes;
    Mask.BytesStep(AnimeMask, WIDTH, keys, 13);
    assert keys[13] == HighestEpisodeNumber;
    Added6(Mask.Bytes(AnimeMask, WIDTH, keys[..12]));
  }

  /** One step of the full-mask computation: the next keys of the table added to the buffer `m`, with the literal result. */
  lemma Added7(m: seq<Mask.Byte>)
    requires m == [252, 252, 192, 0, 0, 0, 0]
    ensures Mask.AddBit(Mask.AddBit(m, AnimeMask(SpecialEpisodeCount)), AnimeMask(AirDate)) == [252, 252, 240, 0, 0, 0, 0]
  {
  }

  /** The buffer after the first 16 keys have been added. */
  lemma Prefix7(keys: seq<AnimeField>)
    requires keys == Keys()
    ensures Mask.Bytes(AnimeMask, WIDTH, keys[..16]) == [252, 252, 240, 0, 0, 0, 0]
  {
    Prefix6(keys);
    Mask.BytesStep(AnimeMask, WIDTH, keys, 14);
    assert keys[14] == SpecialEpisodeCount;
    Mask.BytesStep(AnimeMask, WIDTH, keys, 15);
    assert keys[15] == AirDate;
    Added7(Mask.Bytes(AnimeMask, WIDTH, keys[..14]));
  }

  /** One step of the full-mask computation: the next keys of the table added to the buffer `m`, with the literal result. */
  lemma Added8(m: seq<Mask.Byte>)
    requires m == [252, 252, 240, 0, 0, 0, 0]
    ensures Mask.AddBit(Mask.AddBit(m, AnimeMask(EndDate)), AnimeMask(Url)) == [252, 252, 252, 0, 0, 0, 0]
  {
  }

  /** The buffer after the first 18 keys have been added. */
  lemma Prefix8(keys: seq<AnimeField>)
    requires keys == Keys()
    ensures Mask.Bytes(AnimeMask, WIDTH, keys[..18]) == [252, 252, 252, 0, 0, 0, 0]
  {
    Prefix7(keys);
    Mask.BytesStep(AnimeMask, WIDTH, keys, 16);
    assert keys[16] == EndDate;
    Mask.BytesStep(AnimeMask, WIDTH, keys, 17);
    assert keys[17] == Url;
    Added8(Mask.Bytes(AnimeMask, WIDTH, keys[..16]));
  }

  /** One step of the full-mask computation: the next keys of the table added to the buffer `m`, with the literal result. */
  lemma Added9(m: seq<Mask.Byte>)
    requires m == [252, 252, 252, 0, 0, 0, 0]
    ensures Mask.AddBit(Mask.AddBit(m, AnimeMask(PicName)), AnimeMask(Rating)) == [252, 252, 254, 128, 0, 0, 0]
  {
  }

  /** The buffer after the first 20 keys have been added. */
  lemma Prefix9(keys: seq<AnimeField>)
    requires keys == Keys()
    ensures Mask.Bytes(AnimeMask, WIDTH, keys[..20]) == [252, 252, 254, 128, 0, 0, 0]
  {
    Prefix8(keys);
    Mask.BytesStep(AnimeMask, WIDTH, keys, 18);
    assert keys[18] == PicName;
    Mask.BytesStep(AnimeMask, WIDTH, keys, 19);
    assert keys[19] == Rating;
    Added9(Mask.Bytes(AnimeMask, WIDTH, keys[..18]));
  }

  /** One step of the full-mask computation: the next keys of the table added to the buffer `m`, with the literal result. */
  lemma Added10(m: seq<Mask.Byte>)
    requires m == [252, 252, 254, 128, 0, 0, 0]
    ensures Mask.AddBit(Mask.AddBit(m, AnimeMask(VoteCount)), AnimeMask(TempRating)) == [252, 252, 254, 224, 0, 0, 0]
  {
  }

  /** The buffer after the first 22 keys have been added. */
  lemma Prefix10(keys: seq<AnimeField>)
    requires keys == Keys()
    ensures Mask.Bytes(AnimeMask, WIDTH, keys[..22]) == [252, 252, 254, 224, 0, 0, 0]
  {
    Prefix9(keys);
    Mask.BytesStep(AnimeMask, WIDTH, keys, 20);
    assert keys[20] == VoteCount;
    Mask.BytesStep(AnimeMask, WIDTH, keys, 21);
    assert keys[21] == TempRating;
    Added10(Mask.Bytes(AnimeMask, WIDTH, keys[..20]));
  }

  /** One step of the full-mask computation: the next keys of the table added to the buffer `m`, with the literal result. */
  lemma Added11(m: seq<Mask.Byte>)
    requires m == [252, 252, 254, 224, 0, 0, 0]
    ensures Mask.AddBit(Mask.AddBit(m, AnimeMask(TempVoteCount)), AnimeMask(AverageReviewRating)) == [252, 252, 254, 248, 0, 0, 0]
  {
  }

  /** The buffer after the first 24 keys have been added. */
  lemma Prefix11(keys: seq<AnimeField>)
    requires keys == Keys()
    ensures Mask.Bytes(AnimeMask, WIDTH, keys[..24]) == [252, 252, 254, 248, 0, 0, 0]
  {
    Prefix10(keys);
    Mask.BytesStep(AnimeMask, WIDTH, keys, 22);
    assert keys[22] == TempVoteCount;
    Mask.BytesStep(AnimeMask, WIDTH, keys, 23);
    assert keys[23] == AverageReviewRating;
    Added11(Mask.Bytes(AnimeMask, WIDTH, keys[..22]));
  }

  /** One step of the full-mask computation: the next keys of the table added to the buffer `m`, with the literal result. */
  lemma Added12(m: seq<Mask.Byte>)
    requires m == [252, 252, 254, 248, 0, 0, 0]
    ensures Mask.AddBit(Mask.AddBit(m, AnimeMask(ReviewCount)), AnimeMask(AwardList)) == [252, 252, 254, 254, 0, 0, 0]
  {
  }

  /** The buffer after the first 26 keys have been added. */
  lemma Prefix12(keys: seq<AnimeField>)
    requires keys == Keys()
    ensures Mask.Bytes(AnimeMask, WIDTH, keys[..26]) == [252, 252, 254, 254, 0, 0, 0]
  {
    Prefix11(keys);
    Mask.BytesStep(AnimeMask, WIDTH, keys, 24);
    assert keys[24] == ReviewCount;
    Mask.BytesStep(AnimeMask, WIDTH, keys, 25);
    assert keys[25] == AwardList;
    Added12(Mask.Bytes(AnimeMask, WIDTH, keys[..24]));
  }

  /** One step of the full-mask computation: the next keys of the table added to the buffer `m`, with the literal result. */
  lemma Added13(m: seq<Mask.Byte>)
    requires m == [252, 252, 254, 254, 0, 0, 0]
    ensures Mask.AddBit(Mask.AddBit(m, AnimeMask(IsAdultRestricted)), AnimeMask(AnnId)) == [252, 252, 254, 255, 64, 0, 0]
  {
  }

  /** The buffer after the first 28 keys have been added. */
  lemma Prefix13(keys: seq<AnimeField>)
    requires keys == Keys()
    ensures Mask.Bytes(AnimeMask, WIDTH, keys[..28]) == [252, 252, 254, 255, 64, 0, 0]
  {
    Prefix12(keys);
    Mask.BytesStep(AnimeMask, WIDTH, keys, 26);
    assert keys[26] == IsAdultRestricted;
    Mask.BytesStep(AnimeMask, WIDTH, keys, 27);
    assert keys[27] == AnnId;
    Added13(Mask.Bytes(AnimeMask, WIDTH, keys[..26]));
  }

  /** One step of the full-mask computation: the next keys of the table added to the buffer `m`, with the literal result. */
  lemma Added14(m: seq<Mask.Byte>)
    requires m == [252, 252, 254, 255, 64, 0, 0]
    ensures Mask.AddBit(Mask.AddBit(m, AnimeMask(AllCinemaId)), AnimeMask(AnimeNfoId)) == [252, 252, 254, 255, 112, 0, 0]
  {
  }

  /** The buffer after the first 30 keys have been added. */
  lemma Prefix14(keys: seq<AnimeField>)
    requires keys == Keys()
    ensures Mask.Bytes(AnimeMask, WIDTH, keys[..30]) == [252, 252, 254, 255, 112, 0, 0]
  {
    Prefix13(keys);
    Mask.BytesStep(AnimeMask, WIDTH, keys, 28);
    assert keys[28] == AllCinemaId;
    Mask.BytesStep(AnimeMask, WIDTH, keys, 29);
    assert keys[29] == AnimeNfoId;
    Added14(Mask.Bytes(AnimeMask, WIDTH, keys[..28]));
  }

  /** One step of the full-mask computation: the next keys of the table added to the buffer `m`, with the literal result. */
  lemma Added15(m: seq<Mask.Byte>)
    requires m == [252, 252, 254, 255, 112, 0, 0]
    ensures Mask.AddBit(Mask.AddBit(m, AnimeMask(TagNameList)), AnimeMask(TagIdList)) == [252, 252, 254, 255, 124, 0, 0]
  {
  }

  /** The buffer after the first 32 keys have been added. */
  lemma Prefix15(keys: seq<AnimeField>)
    requires keys == Keys()
    ensures Mask.Bytes(AnimeMask, WIDTH, keys[..32]) == [252, 252, 254, 255, 124, 0, 0]
  {
    Prefix14(keys);
    Mask.BytesStep(AnimeMask, WIDTH, keys, 30);
    assert keys[30] == TagNameList;
    Mask.BytesStep(AnimeMask, WIDTH, keys, 31);
    assert keys[31] == TagIdList;
    Added15(Mask.Bytes(AnimeMask, WIDTH, keys[..30]));
  }

  /** One step of the full-mask computation: the next keys of the table added to the buffer `m`, with the literal result. */
  lemma Added16(m: seq<Mask.Byte>)
    requires m == [252, 252, 254, 255, 124, 0, 0]
    ensures Mask.AddBit(Mask.AddBit(m, AnimeMask(TagWeightList)), AnimeMask(DateRecordUpdated)) == [252, 252, 254, 255, 127, 0, 0]
  {
  }

  /** The buffer after the first 34 keys have been added. */
  lemma Prefix16(keys: seq<AnimeField>)
    requires keys == Keys()
    ensures Mask.Bytes(AnimeMask, WIDTH, keys[..34]) == [252, 252, 254, 255, 127, 0, 0]
  {
    Prefix15(keys);
    Mask.BytesStep(AnimeMask, WIDTH, keys, 32);
    assert keys[32] == TagWeightList;
    Mask.BytesStep(AnimeMask, WIDTH, keys, 33);
    assert keys[33] == DateRecordUpdated;
    Added16(Mask.Bytes(AnimeMask, WIDTH, keys[..32]));
  }

  /** One step of the full-mask computation: the next keys of the table added to the buffer `m`, with the literal result. */
  lemma Added17(m: seq<Mask.Byte>)
    requires m == [252, 252, 254, 255, 127, 0, 0]
    ensures Mask.AddBit(Mask.AddBit(m, AnimeMask(CharacterIdList)), AnimeMask(SpecialsCount)) == [252, 252, 254, 255, 127, 128, 128]
  {
  }

  /** The buffer after the first 36 keys have been added. */
  lemma Prefix17(keys: seq<AnimeField>)
    requires keys == Keys()
    ensures Mask.Bytes(AnimeMask, WIDTH, keys[..36]) == [252, 252, 254, 255, 127, 128, 128]
  {
    Prefix16(keys);
    Mask.BytesStep(AnimeMask, WIDTH, keys, 34);
    assert keys[34] == CharacterIdList;
    Mask.BytesStep(AnimeMask, WIDTH, keys, 35);
    assert keys[35] == SpecialsCount;
    Added17(Mask.Bytes(AnimeMask, WIDTH, keys[..34]));
  }

  /** One step of the full-mask computation: the next keys of the table added to the buffer `m`, with the literal result. */
  lemma Added18(m: seq<Mask.Byte>)
    requires m == [252, 252, 254, 255, 127, 128, 128]
    ensures Mask.AddBit(Mask.AddBit(m, AnimeMask(CreditsCount)), AnimeMask(OtherCount)) == [252, 252, 254, 255, 127, 128, 224]
  {
  }

  /** The buffer after the first 38 keys have been added. */
  lemma Prefix18(keys: seq<AnimeField>)
    requires keys == Keys()
    ensures Mask.Bytes(AnimeMask, WIDTH, keys[..38]) == [252, 252, 254, 255, 127, 128, 224]
  {
    Prefix17(keys);
    Mask.BytesStep(AnimeMask, WIDTH, keys, 36);
    assert keys[36] == CreditsCount;
    Mask.BytesStep(AnimeMask, WIDTH, keys, 37);
    assert keys[37] == OtherCount;
    Added18(Mask.Bytes(AnimeMask, WIDTH, keys[..36]));
  }

  /** One step of the full-mask computation: the next keys of the table added to the buffer `m`, with the literal result. */
  lemma Added19(m: seq<Mask.Byte>)
    requires m == [252, 252, 254, 255, 127, 128, 224]
    ensures Mask.AddBit(Mask.AddBit(m, AnimeMask(TrailerCount)), AnimeMask(ParodyCount)) == [252, 252, 254, 255, 127, 128, 248]
  {
  }

  /** The buffer after the first 40 keys have been added. */
  lemma Prefix19(keys: seq<AnimeField>)
    requires keys == Keys()
    ensures Mask.Bytes(AnimeMask, WIDTH, keys[..40]) == [252, 252, 254, 255, 127, 128, 248]
  {
    Prefix18(keys);
    Mask.BytesStep(AnimeMask, WIDTH, keys, 38);
    assert keys[38] == TrailerCount;
    Mask.BytesStep(AnimeMask, WIDTH, keys, 39);
    assert keys[39] == ParodyCount;
    Added19(Mask.Bytes(AnimeMask, WIDTH, keys[..38]));
  }

  /** The bytes of the mask of every key, in schema order. */
  lemma FullBytes()
    ensures Mask.Bytes(AnimeMask, WIDTH, Keys()) == [252, 252, 254, 255, 127, 128, 248]
  {
    Prefix19(Keys());
    assert Keys()[..40] == Keys();
  }

  /** The field list of every key, in schema order, gives the mask "fcfcfeff7f80f8". */
  lemma FullMask()
    ensures Mask.Hex(Mask.Bytes(AnimeMask, WIDTH, Keys())) == "fcfcfeff7f80f8"
  {
    FullBytes();
    HexOfFull(Mask.Bytes(AnimeMask, WIDTH, Keys()));
  }

  lemma HexOfFull(m: seq<Mask.Byte>)
    requires m == [252, 252, 254, 255, 127, 128, 248]
    ensures Mask.Hex(m) == "fcfcfeff7f80f8"
  {
    Mask.HexAt(m, 0);
    Mask.HexAt(m, 1);
    Mask.HexAt(m, 2);
    Mask.HexAt(m, 3);
    Mask.HexAt(m, 4);
    Mask.HexAt(m, 5);
    Mask.HexAt(m, 6);
    assert forall k :: 0 <= k < 14 ==> Mask.Hex(m)[k] == "fcfcfeff7f80f8"[k];
  }

  lemma HexOfZeros(m: seq<Mask.Byte>)
    requires m == [0, 0, 0, 0, 0, 0, 0]
    ensures Mask.Hex(m) == "00000000000000"
  {
    Mask.HexAt(m, 0);
    Mask.HexAt(m, 1);
    Mask.HexAt(m, 2);
    Mask.HexAt(m, 3);
    Mask.HexAt(m, 4);
    Mask.HexAt(m, 5);
    Mask.HexAt(m, 6);
    assert forall k :: 0 <= k < 14 ==> Mask.Hex(m)[k] == "00000000000000"[k];
  }


  /** `isAdultRestricted` is the only Boolean field. */
  lemma OnlyBooleanField()
    ensures forall f :: AnimeMask(f).kind == BooleanCtor <==> f == IsAdultRestricted
  {
  }

}
