/**
 * The file field mask: the `FILE_MASK` table and the `generateFileMask`
 * encoder of src/File.ts. `fid` carries the bit value 0: it occupies byte 0
 * of the table but never sets a bit.
 */
module File {
  import opened Wrappers
  import opened Schema
  import Mask

  /** The field names of the mask table. */
  datatype FileField =
    | Fid
    | Aid
    | Eid
    | Gid
    | MyListId
    | OtherEpisodes
    | IsDeprecated
    | State
    | Size
    | Ed2k
    | Md5
    | Sha1
    | Crc32
    | VideoColorDepth
    | Quality
    | Source
    | AudioCodecList
    | AudioBitrateList
    | VideoCodec
    | VideoBitrate
    | VideoResolution
    | FileType
    | DubLanguage
    | SubLanguage
    | LengthInSeconds
    | Description
    | AiredDate
    | FileName
    | MyListState
    | MyListFileState
    | MyListViewed
    | MyListViewDate
    | MyListStorage
    | MyListSource
    | MyListOther

  /** The mask table: each field's byte offset, bit value, type and element decoder. */
  function FileMask(f: FileField): MaskEntry {
    match f
    case Fid              => MaskEntry(0,   0, NumberCtor, None)
    case Aid              => MaskEntry(0,  64, NumberCtor, None)
    case Eid              => MaskEntry(0,  32, NumberCtor, None)
    case Gid              => MaskEntry(0,  16, NumberCtor, None)
    case MyListId         => MaskEntry(0,   8, NumberCtor, None)
    case OtherEpisodes    => MaskEntry(0,   4, ArrayCtor, Some(NumberCtor))
    case IsDeprecated     => MaskEntry(0,   2, NumberCtor, None)
    case State            => MaskEntry(0,   1, NumberCtor, None)
    case Size             => MaskEntry(1, 128, StringCtor, None)
    case Ed2k             => MaskEntry(1,  64, StringCtor, None)
    case Md5              => MaskEntry(1,  32, StringCtor, None)
    case Sha1             => MaskEntry(1,  16, StringCtor, None)
    case Crc32            => MaskEntry(1,   8, StringCtor, None)
    case VideoColorDepth  => MaskEntry(1,   2, NumberCtor, None)
    case Quality          => MaskEntry(2, 128, StringCtor, None)
    case Source           => MaskEntry(2,  64, StringCtor, None)
    case AudioCodecList   => MaskEntry(2,  32, ArrayCtor, Some(StringCtor))
    case AudioBitrateList => MaskEntry(2,  16, ArrayCtor, Some(NumberCtor))
    case VideoCodec       => MaskEntry(2,   8, StringCtor, None)
    case VideoBitrate     => MaskEntry(2,   4, NumberCtor, None)
    case VideoResolution  => MaskEntry(2,   2, StringCtor, None)
    case FileType         => MaskEntry(2,   1, StringCtor, None)
    case DubLanguage      => MaskEntry(3, 128, StringCtor, None)
    case SubLanguage      => MaskEntry(3,  64, StringCtor, None)
    case LengthInSeconds  => MaskEntry(3,  32, NumberCtor, None)
    case Description      => MaskEntry(3,  16, StringCtor, None)
    case AiredDate        => MaskEntry(3,   8, NumberCtor, None)
    case FileName         => MaskEntry(3,   1, StringCtor, None)
    case MyListState      => MaskEntry(4, 128, NumberCtor, None)
    case MyListFileState  => MaskEntry(4,  64, NumberCtor, None)
    case MyListViewed     => MaskEntry(4,  32, NumberCtor, None)
    case MyListViewDate   => MaskEntry(4,  16, NumberCtor, None)
    case MyListStorage    => MaskEntry(4,   8, StringCtor, None)
    case MyListSource     => MaskEntry(4,   4, StringCtor, None)
    case MyListOther      => MaskEntry(4,   2, StringCtor, None)
  }

  /** The size in bytes of the buffer the mask is built in. */
  const WIDTH := 5

  /** The `i`-th key of `Object.keys` of the table, in declaration order. */
  function KeyAt(i: nat): FileField
    requires i < 35
  {
    match i
    case 0 => Fid
    case 1 => Aid
    case 2 => Eid
    case 3 => Gid
    case 4 => MyListId
    case 5 => OtherEpisodes
    case 6 => IsDeprecated
    case 7 => State
    case 8 => Size
    case 9 => Ed2k
    case 10 => Md5
    case 11 => Sha1
    case 12 => Crc32
    case 13 => VideoColorDepth
    case 14 => Quality
    case 15 => Source
    case 16 => AudioCodecList
    case 17 => AudioBitrateList
    case 18 => VideoCodec
    case 19 => VideoBitrate
    case 20 => VideoResolution
    case 21 => FileType
    case 22 => DubLanguage
    case 23 => SubLanguage
    case 24 => LengthInSeconds
    case 25 => Description
    case 26 => AiredDate
    case 27 => FileName
    case 28 => MyListState
    case 29 => MyListFileState
    case 30 => MyListViewed
    case 31 => MyListViewDate
    case 32 => MyListStorage
    case 33 => MyListSource
    case _ => MyListOther
  }

  /** The position of a field among the keys. */
  function KeyIndex(f: FileField): (i: nat)
    ensures i < 35
  {
    match f
    case Fid              => 0
    case Aid              => 1
    case Eid              => 2
    case Gid              => 3
    case MyListId         => 4
    case OtherEpisodes    => 5
    case IsDeprecated     => 6
    case State            => 7
    case Size             => 8
    case Ed2k             => 9
    case Md5              => 10
    case Sha1             => 11
    case Crc32            => 12
    case VideoColorDepth  => 13
    case Quality          => 14
    case Source           => 15
    case AudioCodecList   => 16
    case AudioBitrateList => 17
    case VideoCodec       => 18
    case VideoBitrate     => 19
    case VideoResolution  => 20
    case FileType         => 21
    case DubLanguage      => 22
    case SubLanguage      => 23
    case LengthInSeconds  => 24
    case Description      => 25
    case AiredDate        => 26
    case FileName         => 27
    case MyListState      => 28
    case MyListFileState  => 29
    case MyListViewed     => 30
    case MyListViewDate   => 31
    case MyListStorage    => 32
    case MyListSource     => 33
    case MyListOther      => 34
  }

  /** `Object.keys` of the table. */
  function Keys(): (keys: seq<FileField>)
    ensures |keys| == 35
    ensures forall i :: 0 <= i < 35 ==> keys[i] == KeyAt(i)
  {
    seq(35, i requires 0 <= i < 35 => KeyAt(i))
  }

  lemma KeyIndexInverse()
    ensures forall f :: KeyAt(KeyIndex(f)) == f
    ensures forall i :: 0 <= i < 35 ==> KeyIndex(KeyAt(i)) == i
  {
    forall i | 0 <= i < 35 ensures KeyIndex(KeyAt(i)) == i {
      KeyIndexOfKeyAt(i);
    }
  }

  lemma KeyIndexOfKeyAt(i: nat)
    requires i < 35
    ensures KeyIndex(KeyAt(i)) == i
  {
  }

  /** The keys list every field exactly once. */
  lemma KeysInOrder()
    ensures KeyOrder(Keys()) && Mask.NoDuplicates(Keys())
  {
    KeyIndexInverse();
    var keys := Keys();
    forall f ensures f in keys {
      assert keys[KeyIndex(f)] == f;
    }
    forall i, j | 0 <= i < j < |keys| ensures keys[i] != keys[j] {
      assert KeyIndex(keys[i]) == i && KeyIndex(keys[j]) == j;
    }
  }

  /** The field that owns a bit of a byte, if any: no two fields share one. */
  function FieldAt(offset: nat, bit: bv8): Option<FileField> {
    if offset == 0 && bit == 0 then Some(Fid)
    else if offset == 0 && bit == 64 then Some(Aid)
    else if offset == 0 && bit == 32 then Some(Eid)
    else if offset == 0 && bit == 16 then Some(Gid)
    else if offset == 0 && bit == 8 then Some(MyListId)
    else if offset == 0 && bit == 4 then Some(OtherEpisodes)
    else if offset == 0 && bit == 2 then Some(IsDeprecated)
    else if offset == 0 && bit == 1 then Some(State)
    else if offset == 1 && bit == 128 then Some(Size)
    else if offset == 1 && bit == 64 then Some(Ed2k)
    else if offset == 1 && bit == 32 then Some(Md5)
    else if offset == 1 && bit == 16 then Some(Sha1)
    else if offset == 1 && bit == 8 then Some(Crc32)
    else if offset == 1 && bit == 2 then Some(VideoColorDepth)
    else if offset == 2 && bit == 128 then Some(Quality)
    else if offset == 2 && bit == 64 then Some(Source)
    else if offset == 2 && bit == 32 then Some(AudioCodecList)
    else if offset == 2 && bit == 16 then Some(AudioBitrateList)
    else if offset == 2 && bit == 8 then Some(VideoCodec)
    else if offset == 2 && bit == 4 then Some(VideoBitrate)
    else if offset == 2 && bit == 2 then Some(VideoResolution)
    else if offset == 2 && bit == 1 then Some(FileType)
    else if offset == 3 && bit == 128 then Some(DubLanguage)
    else if offset == 3 && bit == 64 then Some(SubLanguage)
    else if offset == 3 && bit == 32 then Some(LengthInSeconds)
    else if offset == 3 && bit == 16 then Some(Description)
    else if offset == 3 && bit == 8 then Some(AiredDate)
    else if offset == 3 && bit == 1 then Some(FileName)
    else if offset == 4 && bit == 128 then Some(MyListState)
    else if offset == 4 && bit == 64 then Some(MyListFileState)
    else if offset == 4 && bit == 32 then Some(MyListViewed)
    else if offset == 4 && bit == 16 then Some(MyListViewDate)
    else if offset == 4 && bit == 8 then Some(MyListStorage)
    else if offset == 4 && bit == 4 then Some(MyListSource)
    else if offset == 4 && bit == 2 then Some(MyListOther)
    else None
  }

  /**
   * The per-field facts of the table: the offset addresses one of the WIDTH
   * bytes, the bit value is zero or a single bit owned by this field alone,
   * and a field carries a Number or String element decoder exactly when it is
   * a list.
   */
  lemma FieldFacts(f: FileField)
    ensures FileMask(f).offset < WIDTH && IsBitValue(FileMask(f).bit)
    ensures FieldAt(FileMask(f).offset, FileMask(f).bit) == Some(f)
    ensures FileMask(f).kind == ArrayCtor <==> FileMask(f).element.Some?
    ensures FileMask(f).element.Some? ==> FileMask(f).element.value in {NumberCtor, StringCtor}
  {
    match f
    case Fid =>
    case Aid =>
    case Eid =>
    case Gid =>
    case MyListId =>
    case OtherEpisodes =>
    case IsDeprecated =>
    case State =>
    case Size =>
    case Ed2k =>
    case Md5 =>
    case Sha1 =>
    case Crc32 =>
    case VideoColorDepth =>
    case Quality =>
    case Source =>
    case AudioCodecList =>
    case AudioBitrateList =>
    case VideoCodec =>
    case VideoBitrate =>
    case VideoResolution =>
    case FileType =>
    case DubLanguage =>
    case SubLanguage =>
    case LengthInSeconds =>
    case Description =>
    case AiredDate =>
    case FileName =>
    case MyListState =>
    case MyListFileState =>
    case MyListViewed =>
    case MyListViewDate =>
    case MyListStorage =>
    case MyListSource =>
    case MyListOther =>
  }

  lemma Distinct(f: FileField, g: FileField)
    requires f != g && FileMask(f).offset == FileMask(g).offset
    ensures FileMask(f).bit != FileMask(g).bit
  {
    FieldFacts(f);
    FieldFacts(g);
  }

  /**
   * Every offset addresses one of the WIDTH bytes, every bit value is zero or a
   * single bit, no two fields of one byte share a bit, and exactly the list
   * fields carry a Number or String element decoder.
   */
  lemma TableWellFormed()
    ensures WellFormed(FileMask, WIDTH)
  {
    forall f ensures FileMask(f).offset < WIDTH && IsBitValue(FileMask(f).bit)
      && (FileMask(f).kind == ArrayCtor <==> FileMask(f).element.Some?)
      && (FileMask(f).element.Some? ==> FileMask(f).element.value in {NumberCtor, StringCtor})
    {
      FieldFacts(f);
    }
    forall f, g | f != g && FileMask(f).offset == FileMask(g).offset
      ensures FileMask(f).bit != FileMask(g).bit
    {
      Distinct(f, g);
    }
  }

  /**
   * The encoder: a zero-filled buffer of WIDTH bytes, each field's bit added
   * into its byte, rendered as 2 * WIDTH lowercase hexadecimal digits.
   */
  method GenerateMask(fields: seq<FileField>) returns (hex: string)
    ensures hex == Mask.Hex(Mask.Bytes(FileMask, WIDTH, fields))
    ensures |hex| == 10
    ensures forall i :: 0 <= i < |hex| ==> Mask.IsLowerHex(hex[i])
  {
    hex := Mask.Generate(FileMask, WIDTH, fields);
  }

  /**
   * A requested field adds its bit to its own byte only: of a duplicate-free
   * field list, the mask has a field's bit set exactly when the field is listed.
   */
  lemma MaskNamesFields(fields: seq<FileField>, f: FileField)
    requires Mask.NoDuplicates(fields) && FileMask(f).bit != 0
    ensures |Mask.Bytes(FileMask, WIDTH, fields)| == WIDTH
    ensures Mask.HasBit(Mask.Bytes(FileMask, WIDTH, fields)[FileMask(f).offset] as bv8, FileMask(f).bit) <==> f in fields
  {
    TableWellFormed();
    Mask.MaskSelects(FileMask, WIDTH, fields, f);
  }

  /** For a duplicate-free field list, every byte is the OR of its fields' bits: no carry, no wrap. */
  lemma MaskIsOr(fields: seq<FileField>)
    requires Mask.NoDuplicates(fields)
    ensures |Mask.Bytes(FileMask, WIDTH, fields)| == WIDTH
    ensures forall j :: 0 <= j < WIDTH ==> Mask.Bytes(FileMask, WIDTH, fields)[j] == Mask.BitOr(FileMask, fields, j) as int
  {
    TableWellFormed();
    Mask.MaskIsOr(FileMask, WIDTH, fields);
  }

  /** The mask depends only on which fields are listed, not on their order. */
  lemma MaskOrderIndependent(xs: seq<FileField>, ys: seq<FileField>)
    requires multiset(xs) == multiset(ys)
    ensures Mask.Hex(Mask.Bytes(FileMask, WIDTH, xs)) == Mask.Hex(Mask.Bytes(FileMask, WIDTH, ys))
  {
    Mask.OrderIndependent(FileMask, WIDTH, xs, ys);
  }

  /** The empty field list gives the all-zero mask. */
  lemma EmptyMask()
    ensures Mask.Hex(Mask.Bytes(FileMask, WIDTH, [])) == "0000000000"
  {
    HexOfZeros(Mask.Bytes(FileMask, WIDTH, []));
  }


  /** One step of the full-mask computation: the next keys of the table added to the buffer `m`, with the literal result. */
  lemma Added0(m: seq<Mask.Byte>)
    requires m == [0, 0, 0, 0, 0]
    ensures Mask.AddBit(Mask.AddBit(m, FileMask(Fid)), FileMask(Aid)) == [64, 0, 0, 0, 0]
  {
  }

  /** The buffer after the first 2 keys have been added. */
  lemma Prefix0(keys: seq<FileField>)
    requires keys == Keys()
    ensures Mask.Bytes(FileMask, WIDTH, keys[..2]) == [64, 0, 0, 0, 0]
  {
    assert keys[..0] == [];
    Mask.BytesStep(FileMask, WIDTH, keys, 0);
    assert keys[0] == Fid;
    Mask.BytesStep(FileMask, WIDTH, keys, 1);
    assert keys[1] == Aid;
    Added0(Mask.Bytes(FileMask, WIDTH, keys[..0]));
  }

  /** One step of the full-mask computation: the next keys of the table added to the buffer `m`, with the literal result. */
  lemma Added1(m: seq<Mask.Byte>)
    requires m == [64, 0, 0, 0, 0]
    ensures Mask.AddBit(Mask.AddBit(m, FileMask(Eid)), FileMask(Gid)) == [112, 0, 0, 0, 0]
  {
  }

  /** The buffer after the first 4 keys have been added. */
  lemma Prefix1(keys: seq<FileField>)
    requires keys == Keys()
    ensures Mask.Bytes(FileMask, WIDTH, keys[..4]) == [112, 0, 0, 0, 0]
  {
    Prefix0(keys);
    Mask.BytesStep(FileMask, WIDTH, keys, 2);
    assert keys[2] == Eid;
    Mask.BytesStep(FileMask, WIDTH, keys, 3);
    assert keys[3] == Gid;
    Added1(Mask.Bytes(FileMask, WIDTH, keys[..2]));
  }

  /** One step of the full-mask computation: the next keys of the table added to the buffer `m`, with the literal result. */
  lemma Added2(m: seq<Mask.Byte>)
    requires m == [112, 0, 0, 0, 0]
    ensures Mask.AddBit(Mask.AddBit(m, FileMask(MyListId)), FileMask(OtherEpisodes)) == [124, 0, 0, 0, 0]
  {
  }

  /** The buffer after the first 6 keys have been added. */
  lemma Prefix2(keys: seq<FileField>)
    requires keys == Keys()
    ensures Mask.Bytes(FileMask, WIDTH, keys[..6]) == [124, 0, 0, 0, 0]
  {
    Prefix1(keys);
    Mask.BytesStep(FileMask, WIDTH, keys, 4);
    assert keys[4] == MyListId;
    Mask.BytesStep(FileMask, WIDTH, keys, 5);
    assert keys[5] == OtherEpisodes;
    Added2(Mask.Bytes(FileMask, WIDTH, keys[..4]));
  }

  /** One step of the full-mask computation: the next keys of the table added to the buffer `m`, with the literal result. */
  lemma Added3(m: seq<Mask.Byte>)
    requires m == [124, 0, 0, 0, 0]
    ensures Mask.AddBit(Mask.AddBit(m, FileMask(IsDeprecated)), FileMask(State)) == [127, 0, 0, 0, 0]
  {
  }

  /** The buffer after the first 8 keys have been added. */
  lemma Prefix3(keys: seq<FileField>)
    requires keys == Keys()
    ensures Mask.Bytes(FileMask, WIDTH, keys[..8]) == [127, 0, 0, 0, 0]
  {
    Prefix2(keys);
    Mask.BytesStep(FileMask, WIDTH, keys, 6);
    assert keys[6] == IsDeprecated;
    Mask.BytesStep(FileMask, WIDTH, keys, 7);
    assert keys[7] == State;
    Added3(Mask.Bytes(FileMask, WIDTH, keys[..6]));
  }

  /** One step of the full-mask computation: the next keys of the table added to the buffer `m`, with the literal result. */
  lemma Added4(m: seq<Mask.Byte>)
    requires m == [127, 0, 0, 0, 0]
    ensures Mask.AddBit(Mask.AddBit(m, FileMask(Size)), FileMask(Ed2k)) == [127, 192, 0, 0, 0]
  {
  }

  /** The buffer after the first 10 keys have been added. */
  lemma Prefix4(keys: seq<FileField>)
    requires keys == Keys()
    ensures Mask.Bytes(FileMask, WIDTH, keys[..10]) == [127, 192, 0, 0, 0]
  {
    Prefix3(keys);
    Mask.BytesStep(FileMask, WIDTH, keys, 8);
    assert keys[8] == Size;
    Mask.BytesStep(FileMask, WIDTH, keys, 9);
    assert keys[9] == Ed2k;
    Added4(Mask.Bytes(FileMask, WIDTH, keys[..8]));
  }

  /** One step of the full-mask computation: the next keys of the table added to the buffer `m`, with the literal result. */
  lemma Added5(m: seq<Mask.Byte>)
    requires m == [127, 192, 0, 0, 0]
    ensures Mask.AddBit(Mask.AddBit(m, FileMask(Md5)), FileMask(Sha1)) == [127, 240, 0, 0, 0]
  {
  }

  /** The buffer after the first 12 keys have been added. */
  lemma Prefix5(keys: seq<FileField>)
    requires keys == Keys()
    ensures Mask.Bytes(FileMask, WIDTH, keys[..12]) == [127, 240, 0, 0, 0]
  {
    Prefix4(keys);
    Mask.BytesStep(FileMask, WIDTH, keys, 10);
    assert keys[10] == Md5;
    Mask.BytesStep(FileMask, WIDTH, keys, 11);
    assert keys[11] == Sha1;
    Added5(Mask.Bytes(FileMask, WIDTH, keys[..10]));
  }

  /** One step of the full-mask computation: the next keys of the table added to the buffer `m`, with the literal result. */
  lemma Added6(m: seq<Mask.Byte>)
    requires m == [127, 240, 0, 0, 0]
    ensures Mask.AddBit(Mask.AddBit(m, FileMask(Crc32)), FileMask(VideoColorDepth)) == [127, 250, 0, 0, 0]
  {
  }

  /** The buffer after the first 14 keys have been added. */
  lemma Prefix6(keys: seq<FileField>)
    requires keys == Keys()
    ensures Mask.Bytes(FileMask, WIDTH, keys[..14]) == [127, 250, 0, 0, 0]
  {
    Prefix5(keys);
    Mask.BytesStep(FileMask, WIDTH, keys, 12);
    assert keys[12] == Crc32;
    Mask.BytesStep(FileMask, WIDTH, keys, 13);
    assert keys[13] == VideoColorDepth;
    Added6(Mask.Bytes(FileMask, WIDTH, keys[..12]));
  }

  /** One step of the full-mask computation: the next keys of the table added to the buffer `m`, with the literal result. */
  lemma Added7(m: seq<Mask.Byte>)
    requires m == [127, 250, 0, 0, 0]
    ensures Mask.AddBit(Mask.AddBit(m, FileMask(Quality)), FileMask(Source)) == [127, 250, 192, 0, 0]
  {
  }

  /** The buffer after the first 16 keys have been added. */
  lemma Prefix7(keys: seq<FileField>)
    requires keys == Keys()
    ensures Mask.Bytes(FileMask, WIDTH, keys[..16]) == [127, 250, 192, 0, 0]
  {
    Prefix6(keys);
    Mask.BytesStep(FileMask, WIDTH, keys, 14);
    assert keys[14] == Quality;
    Mask.BytesStep(FileMask, WIDTH, keys, 15);
    assert keys[15] == Source;
    Added7(Mask.Bytes(FileMask, WIDTH, keys[..14]));
  }

  /** One step of the full-mask computation: the next keys of the table added to the buffer `m`, with the literal result. */
  lemma Added8(m: seq<Mask.Byte>)
    requires m == [127, 250, 192, 0, 0]
    ensures Mask.AddBit(Mask.AddBit(m, FileMask(AudioCodecList)), FileMask(AudioBitrateList)) == [127, 250, 240, 0, 0]
  {
  }

  /** The buffer after the first 18 keys have been added. */
  lemma Prefix8(keys: seq<FileField>)
    requires keys == Keys()
    ensures Mask.Bytes(FileMask, WIDTH, keys[..18]) == [127, 250, 240, 0, 0]
  {
    Prefix7(keys);
    Mask.BytesStep(FileMask, WIDTH, keys, 16);
    assert keys[16] == AudioCodecList;
    Mask.BytesStep(FileMask, WIDTH, keys, 17);
    assert keys[17] == AudioBitrateList;
    Added8(Mask.Bytes(FileMask, WIDTH, keys[..16]));
  }

  /** One step of the full-mask computation: the next keys of the table added to the buffer `m`, with the literal result. */
  lemma Added9(m: seq<Mask.Byte>)
    requires m == [127, 250, 240, 0, 0]
    ensures Mask.AddBit(Mask.AddBit(m, FileMask(VideoCodec)), FileMask(VideoBitrate)) == [127, 250, 252, 0, 0]
  {
  }

  /** The buffer after the first 20 keys have been added. */
  lemma Prefix9(keys: seq<FileField>)
    requires keys == Keys()
    ensures Mask.Bytes(FileMask, WIDTH, keys[..20]) == [127, 250, 252, 0, 0]
  {
    Prefix8(keys);
    Mask.BytesStep(FileMask, WIDTH, keys, 18);
    assert keys[18] == VideoCodec;
    Mask.BytesStep(FileMask, WIDTH, keys, 19);
    assert keys[19] == VideoBitrate;
    Added9(Mask.Bytes(FileMask, WIDTH, keys[..18]));
  }

  /** One step of the full-mask computation: the next keys of the table added to the buffer `m`, with the literal result. */
  lemma Added10(m: seq<Mask.Byte>)
    requires m == [127, 250, 252, 0, 0]
    ensures Mask.AddBit(Mask.AddBit(m, FileMask(VideoResolution)), FileMask(FileType)) == [127, 250, 255, 0, 0]
  {
  }

  /** The buffer after the first 22 keys have been added. */
  lemma Prefix10(keys: seq<FileField>)
    requires keys == Keys()
    ensures Mask.Bytes(FileMask, WIDTH, keys[..22]) == [127, 250, 255, 0, 0]
  {
    Prefix9(keys);
    Mask.BytesStep(FileMask, WIDTH, keys, 20);
    assert keys[20] == VideoResolution;
    Mask.BytesStep(FileMask, WIDTH, keys, 21);
    assert keys[21] == FileType;
    Added10(Mask.Bytes(FileMask, WIDTH, keys[..20]));
  }

  /** One step of the full-mask computation: the next keys of the table added to the buffer `m`, with the literal result. */
  lemma Added11(m: seq<Mask.Byte>)
    requires m == [127, 250, 255, 0, 0]
    ensures Mask.AddBit(Mask.AddBit(m, FileMask(DubLanguage)), FileMask(SubLanguage)) == [127, 250, 255, 192, 0]
  {
  }

  /** The buffer after the first 24 keys have been added. */
  lemma Prefix11(keys: seq<FileField>)
    requires keys == Keys()
    ensures Mask.Bytes(FileMask, WIDTH, keys[..24]) == [127, 250, 255, 192, 0]
  {
    Prefix10(keys);
    Mask.BytesStep(FileMask, WIDTH, keys, 22);
    assert keys[22] == DubLanguage;
    Mask.BytesStep(FileMask, WIDTH, keys, 23);
    assert keys[23] == SubLanguage;
    Added11(Mask.Bytes(FileMask, WIDTH, keys[..22]));
  }

  /** One step of the full-mask computation: the next keys of the table added to the buffer `m`, with the literal result. */
  lemma Added12(m: seq<Mask.Byte>)
    requires m == [127, 250, 255, 192, 0]
    ensures Mask.AddBit(Mask.AddBit(m, FileMask(LengthInSeconds)), FileMask(Description)) == [127, 250, 255, 240, 0]
  {
  }

  /** The buffer after the first 26 keys have been added. */
  lemma Prefix12(keys: seq<FileField>)
    requires keys == Keys()
    ensures Mask.Bytes(FileMask, WIDTH, keys[..26]) == [127, 250, 255, 240, 0]
  {
    Prefix11(keys);
    Mask.BytesStep(FileMask, WIDTH, keys, 24);
    assert keys[24] == LengthInSeconds;
    Mask.BytesStep(FileMask, WIDTH, keys, 25);
    assert keys[25] == Description;
    Added12(Mask.Bytes(FileMask, WIDTH, keys[..24]));
  }

  /** One step of the full-mask computation: the next keys of the table added to the buffer `m`, with the literal result. */
  lemma Added13(m: seq<Mask.Byte>)
    requires m == [127, 250, 255, 240, 0]
    ensures Mask.AddBit(Mask.AddBit(m, FileMask(AiredDate)), FileMask(FileName)) == [127, 250, 255, 249, 0]
  {
  }

  /** The buffer after the first 28 keys have been added. */
  lemma Prefix13(keys: seq<FileField>)
    requires keys == Keys()
    ensures Mask.Bytes(FileMask, WIDTH, keys[..28]) == [127, 250, 255, 249, 0]
  {
    Prefix12(keys);
    Mask.BytesStep(FileMask, WIDTH, keys, 26);
    assert keys[26] == AiredDate;
    Mask.BytesStep(FileMask, WIDTH, keys, 27);
    assert keys[27] == FileName;
    Added13(Mask.Bytes(FileMask, WIDTH, keys[..26]));
  }

  /** One step of the full-mask computation: the next keys of the table added to the buffer `m`, with the literal result. */
  lemma Added14(m: seq<Mask.Byte>)
    requires m == [127, 250, 255, 249, 0]
    ensures Mask.AddBit(Mask.AddBit(m, FileMask(MyListState)), FileMask(MyListFileState)) == [127, 250, 255, 249, 192]
  {
  }

  /** The buffer after the first 30 keys have been added. */
  lemma Prefix14(keys: seq<FileField>)
    requires keys == Keys()
    ensures Mask.Bytes(FileMask, WIDTH, keys[..30]) == [127, 250, 255, 249, 192]
  {
    Prefix13(keys);
    Mask.BytesStep(FileMask, WIDTH, keys, 28);
    assert keys[28] == MyListState;
    Mask.BytesStep(FileMask, WIDTH, keys, 29);
    assert keys[29] == MyListFileState;
    Added14(Mask.Bytes(FileMask, WIDTH, keys[..28]));
  }

  /** One step of the full-mask computation: the next keys of the table added to the buffer `m`, with the literal result. */
  lemma Added15(m: seq<Mask.Byte>)
    requires m == [127, 250, 255, 249, 192]
    ensures Mask.AddBit(Mask.AddBit(m, FileMask(MyListViewed)), FileMask(MyListViewDate)) == [127, 250, 255, 249, 240]
  {
  }

  /** The buffer after the first 32 keys have been added. */
  lemma Prefix15(keys: seq<FileField>)
    requires keys == Keys()
    ensures Mask.Bytes(FileMask, WIDTH, keys[..32]) == [127, 250, 255, 249, 240]
  {
    Prefix14(keys);
    Mask.BytesStep(FileMask, WIDTH, keys, 30);
    assert keys[30] == MyListViewed;
    Mask.BytesStep(FileMask, WIDTH, keys, 31);
    assert keys[31] == MyListViewDate;
    Added15(Mask.Bytes(FileMask, WIDTH, keys[..30]));
  }

  /** One step of the full-mask computation: the next keys of the table added to the buffer `m`, with the literal result. */
  lemma Added16(m: seq<Mask.Byte>)
    requires m == [127, 250, 255, 249, 240]
    ensures Mask.AddBit(Mask.AddBit(m, FileMask(MyListStorage)), FileMask(MyListSource)) == [127, 250, 255, 249, 252]
  {
  }

  /** The buffer after the first 34 keys have been added. */
  lemma Prefix16(keys: seq<FileField>)
    requires keys == Keys()
    ensures Mask.Bytes(FileMask, WIDTH, keys[..34]) == [127, 250, 255, 249, 252]
  {
    Prefix15(keys);
    Mask.BytesStep(FileMask, WIDTH, keys, 32);
    assert keys[32] == MyListStorage;
    Mask.BytesStep(FileMask, WIDTH, keys, 33);
    assert keys[33] == MyListSource;
    Added16(Mask.Bytes(FileMask, WIDTH, keys[..32]));
  }

  /** One step of the full-mask computation: the next keys of the table added to the buffer `m`, with the literal result. */
  lemma Added17(m: seq<Mask.Byte>)
    requires m == [127, 250, 255, 249, 252]
    ensures Mask.AddBit(m, FileMask(MyListOther)) == [127, 250, 255, 249, 254]
  {
  }

  /** The buffer after the first 35 keys have been added. */
  lemma Prefix17(keys: seq<FileField>)
    requires keys == Keys()
    ensures Mask.Bytes(FileMask, WIDTH, keys[..35]) == [127, 250, 255, 249, 254]
  {
    Prefix16(keys);
    Mask.BytesStep(FileMask, WIDTH, keys, 34);
    assert keys[34] == MyListOther;
    Added17(Mask.Bytes(FileMask, WIDTH, keys[..34]));
  }

  /** The bytes of the mask of every key, in schema order. */
  lemma FullBytes()
    ensures Mask.Bytes(FileMask, WIDTH, Keys()) == [127, 250, 255, 249, 254]
  {
    Prefix17(Keys());
    assert Keys()[..35] == Keys();
  }

  /** The field list of every key, in schema order, gives the mask "7ffafff9fe". */
  lemma FullMask()
    ensures Mask.Hex(Mask.Bytes(FileMask, WIDTH, Keys())) == "7ffafff9fe"
  {
    FullBytes();
    HexOfFull(Mask.Bytes(FileMask, WIDTH, Keys()));
  }

  lemma HexOfFull(m: seq<Mask.Byte>)
    requires m == [127, 250, 255, 249, 254]
    ensures Mask.Hex(m) == "7ffafff9fe"
  {
    Mask.HexAt(m, 0);
    Mask.HexAt(m, 1);
    Mask.HexAt(m, 2);
    Mask.HexAt(m, 3);
    Mask.HexAt(m, 4);
    assert forall k :: 0 <= k < 10 ==> Mask.Hex(m)[k] == "7ffafff9fe"[k];
  }

  lemma HexOfZeros(m: seq<Mask.Byte>)
    requires m == [0, 0, 0, 0, 0]
    ensures Mask.Hex(m) == "0000000000"
  {
    Mask.HexAt(m, 0);
    Mask.HexAt(m, 1);
    Mask.HexAt(m, 2);
    Mask.HexAt(m, 3);
    Mask.HexAt(m, 4);
    assert forall k :: 0 <= k < 10 ==> Mask.Hex(m)[k] == "0000000000"[k];
  }


  /**
   * The file request always keeps `fid` among the selected keys; its bit value
   * is 0, so forcing it in never changes the mask.
   */
  lemma ForcedFid(fields: Option<seq<FileField>>)
    ensures Mask.Hex(Mask.Bytes(FileMask, WIDTH, Mask.Select(Keys(), fields, {Fid})))
         == Mask.Hex(Mask.Bytes(FileMask, WIDTH, Mask.Select(Keys(), fields, {})))
  {
    Mask.ForcedZeroBits(FileMask, WIDTH, Keys(), fields, {Fid});
  }

  /** `fid` is the only field without a bit of its own. */
  lemma OnlyFidWithoutBit()
    ensures forall f :: FileMask(f).bit == 0 <==> f == Fid
  {
  }

}

/**
 * The anime-part mask of a file request: the `F_ANIME_MASK` table and the
 * `generateFAnimeMask` encoder of src/File.ts.
 */
module FileAnime {
  import opened Wrappers
  import opened Schema
  import Mask

  /** The field names of the mask table. */
  datatype FAnimeField =
    | AnimeTotalEpisodes
    | HighestEpisodeNumber
    | Year
    | Type
    | RelatedAidList
    | RelatedAidType
    | CategoryList
    | RomajiName
    | KanjiName
    | EnglishName
    | OtherNames
    | ShortNames
    | Synonyms
    | EpisodeNumber
    | EpisodeName
    | EpisodeRomajiName
    | EpisodeKanjiname
    | EpisodeRating
    | EpisodeVoteCount
    | GroupName
    | GroupShortName
    | DateAnimeRecordUpdated

  /** The mask table: each field's byte offset, bit value, type and element decoder. */
  function FAnimeMask(f: FAnimeField): MaskEntry {
    match f
    case AnimeTotalEpisodes     => MaskEntry(0, 128, NumberCtor, None)
    case HighestEpisodeNumber   => MaskEntry(0,  64, NumberCtor, None)
    case Year                   => MaskEntry(0,  32, StringCtor, None)
    case Type                   => MaskEntry(0,  16, StringCtor, None)
    case RelatedAidList         => MaskEntry(0,   8, ArrayCtor, Some(StringCtor))
    case RelatedAidType         => MaskEntry(0,   4, ArrayCtor, Some(StringCtor))
    case CategoryList           => MaskEntry(0,   2, ArrayCtor, Some(StringCtor))
    case RomajiName             => MaskEntry(1, 128, StringCtor, None)
    case KanjiName              => MaskEntry(1,  64, StringCtor, None)
    case EnglishName            => MaskEntry(1,  32, StringCtor, None)
    case OtherNames             => MaskEntry(1,  16, ArrayCtor, Some(StringCtor))
    case ShortNames             => MaskEntry(1,   8, ArrayCtor, Some(StringCtor))
    case Synonyms               => MaskEntry(1,   4, ArrayCtor, Some(StringCtor))
    case EpisodeNumber          => MaskEntry(2, 128, NumberCtor, None)
    case EpisodeName            => MaskEntry(2,  64, NumberCtor, None)
    case EpisodeRomajiName      => MaskEntry(2,  32, StringCtor, None)
    case EpisodeKanjiname       => MaskEntry(2,  16, StringCtor, None)
    case EpisodeRating          => MaskEntry(2,   8, NumberCtor, None)
    case EpisodeVoteCount       => MaskEntry(2,   4, NumberCtor, None)
    case GroupName              => MaskEntry(3, 128, StringCtor, None)
    case GroupShortName         => MaskEntry(3,  64, StringCtor, None)
    case DateAnimeRecordUpdated => MaskEntry(3,   1, NumberCtor, None)
  }

  /** The size in bytes of the buffer the mask is built in. */
  const WIDTH := 4

  /** The `i`-th key of `Object.keys` of the table, in declaration order. */
  function KeyAt(i: nat): FAnimeField
    requires i < 22
  {
    match i
    case 0 => AnimeTotalEpisodes
    case 1 => HighestEpisodeNumber
    case 2 => Year
    case 3 => Type
    case 4 => RelatedAidList
    case 5 => RelatedAidType
    case 6 => CategoryList
    case 7 => RomajiName
    case 8 => KanjiName
    case 9 => EnglishName
    case 10 => OtherNames
    case 11 => ShortNames
    case 12 => Synonyms
    case 13 => EpisodeNumber
    case 14 => EpisodeName
    case 15 => EpisodeRomajiName
    case 16 => EpisodeKanjiname
    case 17 => EpisodeRating
    case 18 => EpisodeVoteCount
    case 19 => GroupName
    case 20 => GroupShortName
    case _ => DateAnimeRecordUpdated
  }

  /** The position of a field among the keys. */
  function KeyIndex(f: FAnimeField): (i: nat)
    ensures i < 22
  {
    match f
    case AnimeTotalEpisodes     => 0
    case HighestEpisodeNumber   => 1
    case Year                   => 2
    case Type                   => 3
    case RelatedAidList         => 4
    case RelatedAidType         => 5
    case CategoryList           => 6
    case RomajiName             => 7
    case KanjiName              => 8
    case EnglishName            => 9
    case OtherNames             => 10
    case ShortNames             => 11
    case Synonyms               => 12
    case EpisodeNumber          => 13
    case EpisodeName            => 14
    case EpisodeRomajiName      => 15
    case EpisodeKanjiname       => 16
    case EpisodeRating          => 17
    case EpisodeVoteCount       => 18
    case GroupName              => 19
    case GroupShortName         => 20
    case DateAnimeRecordUpdated => 21
  }

  /** `Object.keys` of the table. */
  function Keys(): (keys: seq<FAnimeField>)
    ensures |keys| == 22
    ensures forall i :: 0 <= i < 22 ==> keys[i] == KeyAt(i)
  {
    seq(22, i requires 0 <= i < 22 => KeyAt(i))
  }

  lemma KeyIndexInverse()
    ensures forall f :: KeyAt(KeyIndex(f)) == f
    ensures forall i :: 0 <= i < 22 ==> KeyIndex(KeyAt(i)) == i
  {
    forall i | 0 <= i < 22 ensures KeyIndex(KeyAt(i)) == i {
      KeyIndexOfKeyAt(i);
    }
  }

  lemma KeyIndexOfKeyAt(i: nat)
    requires i < 22
    ensures KeyIndex(KeyAt(i)) == i
  {
  }

  /** The keys list every field exactly once. */
  lemma KeysInOrder()
    ensures KeyOrder(Keys()) && Mask.NoDuplicates(Keys())
  {
    KeyIndexInverse();
    var keys := Keys();
    forall f ensures f in keys {
      assert keys[KeyIndex(f)] == f;
    }
    forall i, j | 0 <= i < j < |keys| ensures keys[i] != keys[j] {
      assert KeyIndex(keys[i]) == i && KeyIndex(keys[j]) == j;
    }
  }

  /** The field that owns a bit of a byte, if any: no two fields share one. */
  function FieldAt(offset: nat, bit: bv8): Option<FAnimeField> {
    if offset == 0 && bit == 128 then Some(AnimeTotalEpisodes)
    else if offset == 0 && bit == 64 then Some(HighestEpisodeNumber)
    else if offset == 0 && bit == 32 then Some(Year)
    else if offset == 0 && bit == 16 then Some(Type)
    else if offset == 0 && bit == 8 then Some(RelatedAidList)
    else if offset == 0 && bit == 4 then Some(RelatedAidType)
    else if offset == 0 && bit == 2 then Some(CategoryList)
    else if offset == 1 && bit == 128 then Some(RomajiName)
    else if offset == 1 && bit == 64 then Some(KanjiName)
    else if offset == 1 && bit == 32 then Some(EnglishName)
    else if offset == 1 && bit == 16 then Some(OtherNames)
    else if offset == 1 && bit == 8 then Some(ShortNames)
    else if offset == 1 && bit == 4 then Some(Synonyms)
    else if offset == 2 && bit == 128 then Some(EpisodeNumber)
    else if offset == 2 && bit == 64 then Some(EpisodeName)
    else if offset == 2 && bit == 32 then Some(EpisodeRomajiName)
    else if offset == 2 && bit == 16 then Some(EpisodeKanjiname)
    else if offset == 2 && bit == 8 then Some(EpisodeRating)
    else if offset == 2 && bit == 4 then Some(EpisodeVoteCount)
    else if offset == 3 && bit == 128 then Some(GroupName)
    else if offset == 3 && bit == 64 then Some(GroupShortName)
    else if offset == 3 && bit == 1 then Some(DateAnimeRecordUpdated)
    else None
  }

  /**
   * The per-field facts of the table: the offset addresses one of the WIDTH
   * bytes, the bit value is zero or a single bit owned by this field alone,
   * and a field carries a Number or String element decoder exactly when it is
   * a list.
   */
  lemma FieldFacts(f: FAnimeField)
    ensures FAnimeMask(f).offset < WIDTH && IsBitValue(FAnimeMask(f).bit)
    ensures FieldAt(FAnimeMask(f).offset, FAnimeMask(f).bit) == Some(f)
    ensures FAnimeMask(f).kind == ArrayCtor <==> FAnimeMask(f).element.Some?
    ensures FAnimeMask(f).element.Some? ==> FAnimeMask(f).element.value in {NumberCtor, StringCtor}
  {
    match f
    case AnimeTotalEpisodes =>
    case HighestEpisodeNumber =>
    case Year =>
    case Type =>
    case RelatedAidList =>
    case RelatedAidType =>
    case CategoryList =>
    case RomajiName =>
    case KanjiName =>
    case EnglishName =>
    case OtherNames =>
    case ShortNames =>
    case Synonyms =>
    case EpisodeNumber =>
    case EpisodeName =>
    case EpisodeRomajiName =>
    case EpisodeKanjiname =>
    case EpisodeRating =>
    case EpisodeVoteCount =>
    case GroupName =>
    case GroupShortName =>
    case DateAnimeRecordUpdated =>
  }

  lemma Distinct(f: FAnimeField, g: FAnimeField)
    requires f != g && FAnimeMask(f).offset == FAnimeMask(g).offset
    ensures FAnimeMask(f).bit != FAnimeMask(g).bit
  {
    FieldFacts(f);
    FieldFacts(g);
  }

  /**
   * Every offset addresses one of the WIDTH bytes, every bit value is zero or a
   * single bit, no two fields of one byte share a bit, and exactly the list
   * fields carry a Number or String element decoder.
   */
  lemma TableWellFormed()
    ensures WellFormed(FAnimeMask, WIDTH)
  {
    forall f ensures FAnimeMask(f).offset < WIDTH && IsBitValue(FAnimeMask(f).bit)
      && (FAnimeMask(f).kind == ArrayCtor <==> FAnimeMask(f).element.Some?)
      && (FAnimeMask(f).element.Some? ==> FAnimeMask(f).element.value in {NumberCtor, StringCtor})
    {
      FieldFacts(f);
    }
    forall f, g | f != g && FAnimeMask(f).offset == FAnimeMask(g).offset
      ensures FAnimeMask(f).bit != FAnimeMask(g).bit
    {
      Distinct(f, g);
    }
  }

  /**
   * The encoder: a zero-filled buffer of WIDTH bytes, each field's bit added
   * into its byte, rendered as 2 * WIDTH lowercase hexadecimal digits.
   */
  method GenerateMask(fields: seq<FAnimeField>) returns (hex: string)
    ensures hex == Mask.Hex(Mask.Bytes(FAnimeMask, WIDTH, fields))
    ensures |hex| == 8
    ensures forall i :: 0 <= i < |hex| ==> Mask.IsLowerHex(hex[i])
  {
    hex := Mask.Generate(FAnimeMask, WIDTH, fields);
  }

  /**
   * A requested field adds its bit to its own byte only: of a duplicate-free
   * field list, the mask has a field's bit set exactly when the field is listed.
   */
  lemma MaskNamesFields(fields: seq<FAnimeField>, f: FAnimeField)
    requires Mask.NoDuplicates(fields) && FAnimeMask(f).bit != 0
    ensures |Mask.Bytes(FAnimeMask, WIDTH, fields)| == WIDTH
    ensures Mask.HasBit(Mask.Bytes(FAnimeMask, WIDTH, fields)[FAnimeMask(f).offset] as bv8, FAnimeMask(f).bit) <==> f in fields
  {
    TableWellFormed();
    Mask.MaskSelects(FAnimeMask, WIDTH, fields, f);
  }

  /** For a duplicate-free field list, every byte is the OR of its fields' bits: no carry, no wrap. */
  lemma MaskIsOr(fields: seq<FAnimeField>)
    requires Mask.NoDuplicates(fields)
    ensures |Mask.Bytes(FAnimeMask, WIDTH, fields)| == WIDTH
    ensures forall j :: 0 <= j < WIDTH ==> Mask.Bytes(FAnimeMask, WIDTH, fields)[j] == Mask.BitOr(FAnimeMask, fields, j) as int
  {
    TableWellFormed();
    Mask.MaskIsOr(FAnimeMask, WIDTH, fields);
  }

  /** The mask depends only on which fields are listed, not on their order. */
  lemma MaskOrderIndependent(xs: seq<FAnimeField>, ys: seq<FAnimeField>)
    requires multiset(xs) == multiset(ys)
    ensures Mask.Hex(Mask.Bytes(FAnimeMask, WIDTH, xs)) == Mask.Hex(Mask.Bytes(FAnimeMask, WIDTH, ys))
  {
    Mask.OrderIndependent(FAnimeMask, WIDTH, xs, ys);
  }

  /** The empty field list gives the all-zero mask. */
  lemma EmptyMask()
    ensures Mask.Hex(Mask.Bytes(FAnimeMask, WIDTH, [])) == "00000000"
  {
    HexOfZeros(Mask.Bytes(FAnimeMask, WIDTH, []));
  }


  /** One step of the full-mask computation: the next keys of the table added to the buffer `m`, with the literal result. */
  lemma Added0(m: seq<Mask.Byte>)
    requires m == [0, 0, 0, 0]
    ensures Mask.AddBit(Mask.AddBit(m, FAnimeMask(AnimeTotalEpisodes)), FAnimeMask(HighestEpisodeNumber)) == [192, 0, 0, 0]
  {
  }

  /** The buffer after the first 2 keys have been added. */
  lemma Prefix0(keys: seq<FAnimeField>)
    requires keys == Keys()
    ensures Mask.Bytes(FAnimeMask, WIDTH, keys[..2]) == [192, 0, 0, 0]
  {
    assert keys[..0] == [];
    Mask.BytesStep(FAnimeMask, WIDTH, keys, 0);
    assert keys[0] == AnimeTotalEpisodes;
    Mask.BytesStep(FAnimeMask, WIDTH, keys, 1);
    assert keys[1] == HighestEpisodeNumber;
    Added0(Mask.Bytes(FAnimeMask, WIDTH, keys[..0]));
  }

  /** One step of the full-mask computation: the next keys of the table added to the buffer `m`, with the literal result. */
  lemma Added1(m: seq<Mask.Byte>)
    requires m == [192, 0, 0, 0]
    ensures Mask.AddBit(Mask.AddBit(m, FAnimeMask(Year)), FAnimeMask(Type)) == [240, 0, 0, 0]
  {
  }

  /** The buffer after the first 4 keys have been added. */
  lemma Prefix1(keys: seq<FAnimeField>)
    requires keys == Keys()
    ensures Mask.Bytes(FAnimeMask, WIDTH, keys[..4]) == [240, 0, 0, 0]
  {
    Prefix0(keys);
    Mask.BytesStep(FAnimeMask, WIDTH, keys, 2);
    assert keys[2] == Year;
    Mask.BytesStep(FAnimeMask, WIDTH, keys, 3);
    assert keys[3] == Type;
    Added1(Mask.Bytes(FAnimeMask, WIDTH, keys[..2]));
  }

  /** One step of the full-mask computation: the next keys of the table added to the buffer `m`, with the literal result. */
  lemma Added2(m: seq<Mask.Byte>)
    requires m == [240, 0, 0, 0]
    ensures Mask.AddBit(Mask.AddBit(m, FAnimeMask(RelatedAidList)), FAnimeMask(RelatedAidType)) == [252, 0, 0, 0]
  {
  }

  /** The buffer after the first 6 keys have been added. */
  lemma Prefix2(keys: seq<FAnimeField>)
    requires keys == Keys()
    ensures Mask.Bytes(FAnimeMask, WIDTH, keys[..6]) == [252, 0, 0, 0]
  {
    Prefix1(keys);
    Mask.BytesStep(FAnimeMask, WIDTH, keys, 4);
    assert keys[4] == RelatedAidList;
    Mask.BytesStep(FAnimeMask, WIDTH, keys, 5);
    assert keys[5] == RelatedAidType;
    Added2(Mask.Bytes(FAnimeMask, WIDTH, keys[..4]));
  }

  /** One step of the full-mask computation: the next keys of the table added to the buffer `m`, with the literal result. */
  lemma Added3(m: seq<Mask.Byte>)
    requires m == [252, 0, 0, 0]
    ensures Mask.AddBit(Mask.AddBit(m, FAnimeMask(CategoryList)), FAnimeMask(RomajiName)) == [254, 128, 0, 0]
  {
  }

  /** The buffer after the first 8 keys have been added. */
  lemma Prefix3(keys: seq<FAnimeField>)
    requires keys == Keys()
    ensures Mask.Bytes(FAnimeMask, WIDTH, keys[..8]) == [254, 128, 0, 0]
  {
    Prefix2(keys);
    Mask.BytesStep(FAnimeMask, WIDTH, keys, 6);
    assert keys[6] == CategoryList;
    Mask.BytesStep(FAnimeMask, WIDTH, keys, 7);
    assert keys[7] == RomajiName;
    Added3(Mask.Bytes(FAnimeMask, WIDTH, keys[..6]));
  }

  /** One step of the full-mask computation: the next keys of the table added to the buffer `m`, with the literal result. */
  lemma Added4(m: seq<Mask.Byte>)
    requires m == [254, 128, 0, 0]
    ensures Mask.AddBit(Mask.AddBit(m, FAnimeMask(KanjiName)), FAnimeMask(EnglishName)) == [254, 224, 0, 0]
  {
  }

  /** The buffer after the first 10 keys have been added. */
  lemma Prefix4(keys: seq<FAnimeField>)
    requires keys == Keys()
    ensures Mask.Bytes(FAnimeMask, WIDTH, keys[..10]) == [254, 224, 0, 0]
  {
    Prefix3(keys);
    Mask.BytesStep(FAnimeMask, WIDTH, keys, 8);
    assert keys[8] == KanjiName;
    Mask.BytesStep(FAnimeMask, WIDTH, keys, 9);
    assert keys[9] == EnglishName;
    Added4(Mask.Bytes(FAnimeMask, WIDTH, keys[..8]));
  }

  /** One step of the full-mask computation: the next keys of the table added to the buffer `m`, with the literal result. */
  lemma Added5(m: seq<Mask.Byte>)
    requires m == [254, 224, 0, 0]
    ensures Mask.AddBit(Mask.AddBit(m, FAnimeMask(OtherNames)), FAnimeMask(ShortNames)) == [254, 248, 0, 0]
  {
  }

  /** The buffer after the first 12 keys have been added. */
  lemma Prefix5(keys: seq<FAnimeField>)
    requires keys == Keys()
    ensures Mask.Bytes(FAnimeMask, WIDTH, keys[..12]) == [254, 248, 0, 0]
  {
    Prefix4(keys);
    Mask.BytesStep(FAnimeMask, WIDTH, keys, 10);
    assert keys[10] == OtherNames;
    Mask.BytesStep(FAnimeMask, WIDTH, keys, 11);
    assert keys[11] == ShortNames;
    Added5(Mask.Bytes(FAnimeMask, WIDTH, keys[..10]));
  }

  /** One step of the full-mask computation: the next keys of the table added to the buffer `m`, with the literal result. */
  lemma Added6(m: seq<Mask.Byte>)
    requires m == [254, 248, 0, 0]
    ensures Mask.AddBit(Mask.AddBit(m, FAnimeMask(Synonyms)), FAnimeMask(EpisodeNumber)) == [254, 252, 128, 0]
  {
  }

  /** The buffer after the first 14 keys have been added. */
  lemma Prefix6(keys: seq<FAnimeField>)
    requires keys == Keys()
    ensures Mask.Bytes(FAnimeMask, WIDTH, keys[..14]) == [254, 252, 128, 0]
  {
    Prefix5(keys);
    Mask.BytesStep(FAnimeMask, WIDTH, keys, 12);
    assert keys[12] == Synonyms;
    Mask.BytesStep(FAnimeMask, WIDTH, keys, 13);
    assert keys[13] == EpisodeNumber;
    Added6(Mask.Bytes(FAnimeMask, WIDTH, keys[..12]));
  }

  /** One step of the full-mask computation: the next keys of the table added to the buffer `m`, with the literal result. */
  lemma Added7(m: seq<Mask.Byte>)
    requires m == [254, 252, 128, 0]
    ensures Mask.AddBit(Mask.AddBit(m, FAnimeMask(EpisodeName)), FAnimeMask(EpisodeRomajiName)) == [254, 252, 224, 0]
  {
  }

  /** The buffer after the first 16 keys have been added. */
  lemma Prefix7(keys: seq<FAnimeField>)
    requires keys == Keys()
    ensures Mask.Bytes(FAnimeMask, WIDTH, keys[..16]) == [254, 252, 224, 0]
  {
    Prefix6(keys);
    Mask.BytesStep(FAnimeMask, WIDTH, keys, 14);
    assert keys[14] == EpisodeName;
    Mask.BytesStep(FAnimeMask, WIDTH, keys, 15);
    assert keys[15] == EpisodeRomajiName;
    Added7(Mask.Bytes(FAnimeMask, WIDTH, keys[..14]));
  }

  /** One step of the full-mask computation: the next keys of the table added to the buffer `m`, with the literal result. */
  lemma Added8(m: seq<Mask.Byte>)
    requires m == [254, 252, 224, 0]
    ensures Mask.AddBit(Mask.AddBit(m, FAnimeMask(EpisodeKanjiname)), FAnimeMask(EpisodeRating)) == [254, 252, 248, 0]
  {
  }

  /** The buffer after the first 18 keys have been added. */
  lemma Prefix8(keys: seq<FAnimeField>)
    requires keys == Keys()
    ensures Mask.Bytes(FAnimeMask, WIDTH, keys[..18]) == [254, 252, 248, 0]
  {
    Prefix7(keys);
    Mask.BytesStep(FAnimeMask, WIDTH, keys, 16);
    assert keys[16] == EpisodeKanjiname;
    Mask.BytesStep(FAnimeMask, WIDTH, keys, 17);
    assert keys[17] == EpisodeRating;
    Added8(Mask.Bytes(FAnimeMask, WIDTH, keys[..16]));
  }

  /** One step of the full-mask computation: the next keys of the table added to the buffer `m`, with the literal result. */
  lemma Added9(m: seq<Mask.Byte>)
    requires m == [254, 252, 248, 0]
    ensures Mask.AddBit(Mask.AddBit(m, FAnimeMask(EpisodeVoteCount)), FAnimeMask(GroupName)) == [254, 252, 252, 128]
  {
  }

  /** The buffer after the first 20 keys have been added. */
  lemma Prefix9(keys: seq<FAnimeField>)
    requires keys == Keys()
    ensures Mask.Bytes(FAnimeMask, WIDTH, keys[..20]) == [254, 252, 252, 128]
  {
    Prefix8(keys);
    Mask.BytesStep(FAnimeMask, WIDTH, keys, 18);
    assert keys[18] == EpisodeVoteCount;
    Mask.BytesStep(FAnimeMask, WIDTH, keys, 19);
    assert keys[19] == GroupName;
    Added9(Mask.Bytes(FAnimeMask, WIDTH, keys[..18]));
  }

  /** One step of the full-mask computation: the next keys of the table added to the buffer `m`, with the literal result. */
  lemma Added10(m: seq<Mask.Byte>)
    requires m == [254, 252, 252, 128]
    ensures Mask.AddBit(Mask.AddBit(m, FAnimeMask(GroupShortName)), FAnimeMask(DateAnimeRecordUpdated)) == [254, 252, 252, 193]
  {
  }

  /** The buffer after the first 22 keys have been added. */
  lemma Prefix10(keys: seq<FAnimeField>)
    requires keys == Keys()
    ensures Mask.Bytes(FAnimeMask, WIDTH, keys[..22]) == [254, 252, 252, 193]
  {
    Prefix9(keys);
    Mask.BytesStep(FAnimeMask, WIDTH, keys, 20);
    assert keys[20] == GroupShortName;
    Mask.BytesStep(FAnimeMask, WIDTH, keys, 21);
    assert keys[21] == DateAnimeRecordUpdated;
    Added10(Mask.Bytes(FAnimeMask, WIDTH, keys[..20]));
  }

  /** The bytes of the mask of every key, in schema order. */
  lemma FullBytes()
    ensures Mask.Bytes(FAnimeMask, WIDTH, Keys()) == [254, 252, 252, 193]
  {
    Prefix10(Keys());
    assert Keys()[..22] == Keys();
  }

  /** The field list of every key, in schema order, gives the mask "fefcfcc1". */
  lemma FullMask()
    ensures Mask.Hex(Mask.Bytes(FAnimeMask, WIDTH, Keys())) == "fefcfcc1"
  {
    FullBytes();
    HexOfFull(Mask.Bytes(FAnimeMask, WIDTH, Keys()));
  }

  lemma HexOfFull(m: seq<Mask.Byte>)
    requires m == [254, 252, 252, 193]
    ensures Mask.Hex(m) == "fefcfcc1"
  {
    Mask.HexAt(m, 0);
    Mask.HexAt(m, 1);
    Mask.HexAt(m, 2);
    Mask.HexAt(m, 3);
    assert forall k :: 0 <= k < 8 ==> Mask.Hex(m)[k] == "fefcfcc1"[k];
  }

  lemma HexOfZeros(m: seq<Mask.Byte>)
    requires m == [0, 0, 0, 0]
    ensures Mask.Hex(m) == "00000000"
  {
    Mask.HexAt(m, 0);
    Mask.HexAt(m, 1);
    Mask.HexAt(m, 2);
    Mask.HexAt(m, 3);
    assert forall k :: 0 <= k < 8 ==> Mask.Hex(m)[k] == "00000000"[k];
  }


}
