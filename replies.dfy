/**
 * The reply side of every operation of src/AniDBClient.ts: the status-code
 * `switch` and, for the operation's own code, the decoding of the payload
 * into the records the promise resolves with. The code strings are the
 * parameters `codes`; the key lists of the anime and file requests are the
 * selected keys the request was built from.
 */
module Replies {
  import opened Wrappers
  import opened Strings
  import opened Schema
  import opened Decode
  import opened Status
  import Anime
  import File
  import FileAnime
  import AnimeBlock
  import Character
  import GroupRelation
  import Group
  import GroupStatus
  import Episode
  import Creator
  import AnimeDescription

  // ---------------------------------------------------------------------------
  // Anime
  // ---------------------------------------------------------------------------

  /**
   * `anime`: slot `i` decodes the `i`-th selected key. A list slot past the
   * end of the payload throws; a scalar slot past it converts "".
   */
  function AnimeReply(codes: Codes, keys: seq<Anime.AnimeField>, data: string): (o: Outcome<Record<Anime.AnimeField>>)
    ensures ReturnCode(data) == codes.anime ==>
      (o.Thrown? <==> exists i :: 0 <= i < |keys| && Anime.AnimeMask(keys[i]).element.Some? && i >= |Slots(data)|)
    ensures o.Found? ==> |o.value| == |keys| && forall i :: 0 <= i < |keys| ==>
      o.value[i].0 == keys[i] && Success(o.value[i].1) == MaskedSlot(Anime.AnimeMask(keys[i]), Slots(data), i)
    ensures o == Absent <==> ReturnCode(data) != codes.anime && ReturnCode(data) == codes.noSuchAnime
    ensures o == Thrown(UnexpectedResult) <==> ReturnCode(data) != codes.anime && ReturnCode(data) != codes.noSuchAnime
  {
    Dispatch(ReturnCode(data), codes.anime, {codes.noSuchAnime}, DecodeMasked(Anime.AnimeMask, keys, Slots(data), 0))
  }

  /** An ANIME reply carrying the rendering of a fitting record resolves with that record. */
  lemma AnimeRoundTrip(codes: Codes, keys: seq<Anime.AnimeField>, tag: string, rest: string, r: Record<Anime.AnimeField>)
    requires StatusLine(tag, codes.anime, rest) && FitsAll(Anime.AnimeMask, keys, r)
    ensures AnimeReply(codes, keys, ReplyText(tag, codes.anime, rest, Join(RenderAll(r), [SLOT_SEPARATOR]))) == Found(r)
  {
    ReplyTextParts(tag, codes.anime, rest, Join(RenderAll(r), [SLOT_SEPARATOR]));
    DecodeMaskedJoined(Anime.AnimeMask, keys, r);
  }

  // ---------------------------------------------------------------------------
  // File
  // ---------------------------------------------------------------------------

  /** The `fileEntries.concat(animeEntries)` of a file reply, as its two parts. */
  type FileRecord = (Record<File.FileField>, Record<FileAnime.FAnimeField>)

  /**
   * `file`: the file keys read slots `0 ..`, the anime keys continue at slot
   * `fileKeys.length`; MULTIPLE_FILES_FOUND resolves with the payload split on `|`.
   */
  function FileReply(codes: Codes, fileKeys: seq<File.FileField>, animeKeys: seq<FileAnime.FAnimeField>, data: string): (o: Outcome<FileRecord>)
    ensures ReturnCode(data) == codes.file ==> (o.Found? || o == Thrown(TypeError))
    ensures ReturnCode(data) == codes.file ==>
      (o.Thrown? <==>
        (exists i :: 0 <= i < |fileKeys| && File.FileMask(fileKeys[i]).element.Some? && i >= |Slots(data)|)
        || (exists j :: 0 <= j < |animeKeys| && FileAnime.FAnimeMask(animeKeys[j]).element.Some? && |fileKeys| + j >= |Slots(data)|))
    ensures o.Found? ==> |o.value.0| == |fileKeys| && forall i :: 0 <= i < |fileKeys| ==>
      o.value.0[i].0 == fileKeys[i] && Success(o.value.0[i].1) == MaskedSlot(File.FileMask(fileKeys[i]), Slots(data), i)
    ensures o.Found? ==> |o.value.1| == |animeKeys| && forall j :: 0 <= j < |animeKeys| ==>
      o.value.1[j].0 == animeKeys[j] && Success(o.value.1[j].1) == MaskedSlot(FileAnime.FAnimeMask(animeKeys[j]), Slots(data), |fileKeys| + j)
    ensures o.Candidates? <==> ReturnCode(data) != codes.file && ReturnCode(data) == codes.multipleFilesFound
    ensures o.Candidates? ==> o.ids == Slots(data)
    ensures o == Absent <==> ReturnCode(data) !in {codes.file, codes.multipleFilesFound} && ReturnCode(data) == codes.noSuchFile
    ensures o == Thrown(UnexpectedResult) <==> ReturnCode(data) !in {codes.file, codes.multipleFilesFound, codes.noSuchFile}
  {
    var code := ReturnCode(data);
    if code == codes.file then
      var raw := Slots(data);
      var f := DecodeMasked(File.FileMask, fileKeys, raw, 0);
      var a := DecodeMasked(FileAnime.FAnimeMask, animeKeys, raw, |fileKeys|);
      if f.Failure? then Thrown(f.error)
      else if a.Failure? then Thrown(a.error)
      else Found((f.value, a.value))
    else if code == codes.multipleFilesFound then Candidates(Slots(data))
    else if code == codes.noSuchFile then Absent
    else Thrown(UnexpectedResult)
  }

  /**
   * A FILE reply carrying the file values followed by the anime values
   * resolves with both records: the anime part is read from where the file
   * part ends.
   */
  lemma FileRoundTrip(codes: Codes, fileKeys: seq<File.FileField>, animeKeys: seq<FileAnime.FAnimeField>,
                      tag: string, rest: string, rf: Record<File.FileField>, ra: Record<FileAnime.FAnimeField>)
    requires StatusLine(tag, codes.file, rest)
    requires FitsAll(File.FileMask, fileKeys, rf) && FitsAll(FileAnime.FAnimeMask, animeKeys, ra)
    ensures FileReply(codes, fileKeys, animeKeys,
      ReplyText(tag, codes.file, rest, Join(RenderAll(rf) + RenderAll(ra), [SLOT_SEPARATOR]))) == Found((rf, ra))
  {
    var body := Join(RenderAll(rf) + RenderAll(ra), [SLOT_SEPARATOR]);
    ReplyTextParts(tag, codes.file, rest, body);
    PairClean(File.FileMask, fileKeys, rf, FileAnime.FAnimeMask, animeKeys, ra);
    JoinedSlots(RenderAll(rf) + RenderAll(ra));
    DecodeMaskedPair(File.FileMask, fileKeys, rf, FileAnime.FAnimeMask, animeKeys, ra, Split(body, {SLOT_SEPARATOR}));
  }

  /** A MULTIPLE_FILES_FOUND reply resolves with the file ids it lists. */
  lemma CandidatesRoundTrip(codes: Codes, fileKeys: seq<File.FileField>, animeKeys: seq<FileAnime.FAnimeField>,
                            tag: string, rest: string, ids: seq<string>)
    requires StatusLine(tag, codes.multipleFilesFound, rest) && codes.multipleFilesFound != codes.file
    requires |ids| >= 1 && forall k :: 0 <= k < |ids| ==> Clean(ids[k], {SLOT_SEPARATOR})
    ensures FileReply(codes, fileKeys, animeKeys,
      ReplyText(tag, codes.multipleFilesFound, rest, Join(ids, [SLOT_SEPARATOR]))) == Candidates(ids)
  {
    ReplyTextParts(tag, codes.multipleFilesFound, rest, Join(ids, [SLOT_SEPARATOR]));
    SplitJoin(ids, SLOT_SEPARATOR);
  }

  // ---------------------------------------------------------------------------
  // Records decoded by position: episode, creator, anime description
  // ---------------------------------------------------------------------------

  /**
   * `split('|').map((val, i) => [keys[i], TABLE[keys[i]](val)])` under the
   * operation's own code: a payload with more slots than keys throws, one with
   * fewer gives a record without the trailing keys.
   */
  function PositionalReply<K>(code: string, found: string, absent: set<string>, keys: seq<K>, ctor: K -> Ctor, data: string): (o: Outcome<Record<K>>)
    ensures code == found ==> (o.Thrown? <==> |Slots(data)| > |keys|)
    ensures o.Found? ==> |o.value| == |Slots(data)| <= |keys| && KeysOf(o.value) == keys[..|o.value|]
    ensures o.Found? ==> forall i :: 0 <= i < |o.value| ==> o.value[i].1 == Convert(ctor(keys[i]), Slots(data)[i])
    ensures o == Absent <==> code != found && code in absent
    ensures o == Thrown(UnexpectedResult) <==> code != found && code !in absent
  {
    Dispatch(code, found, absent, DecodePositional(keys, ctor, Slots(data)))
  }

  /** A reply carrying a fitting record, joined by `|`, resolves with that record. */
  lemma PositionalRoundTrip<K>(found: string, absent: set<string>, keys: seq<K>, ctor: K -> Ctor, tag: string, rest: string, r: Record<K>)
    requires StatusLine(tag, found, rest) && |r| >= 1 && FitsPrefix(keys, ctor, r, {SLOT_SEPARATOR})
    ensures PositionalReply(found, found, absent, keys, ctor, ReplyText(tag, found, rest, RenderJoined(r, SLOT_SEPARATOR))) == Found(r)
  {
    ReplyTextParts(tag, found, rest, RenderJoined(r, SLOT_SEPARATOR));
    DecodePositionalRender(keys, ctor, r, SLOT_SEPARATOR, {SLOT_SEPARATOR});
  }

  /** `episode`: eleven slots by position; NO_SUCH_EPISODE resolves with `undefined`. */
  function EpisodeReply(codes: Codes, data: string): (o: Outcome<Record<Episode.EpisodeField>>)
    ensures ReturnCode(data) == codes.episode ==> (o.Thrown? <==> |Slots(data)| > Episode.SIZE)
    ensures o.Found? ==> |o.value| == |Slots(data)| <= Episode.SIZE && KeysOf(o.value) == Episode.Keys()[..|o.value|]
    ensures o.Found? ==> forall i :: 0 <= i < |o.value| ==> o.value[i].1 == Convert(Episode.Constructor(Episode.Keys()[i]), Slots(data)[i])
    ensures o == Absent <==> ReturnCode(data) != codes.episode && ReturnCode(data) == codes.noSuchEpisode
    ensures o == Thrown(UnexpectedResult) <==> ReturnCode(data) != codes.episode && ReturnCode(data) !in {codes.noSuchEpisode}
  {
    PositionalReply(ReturnCode(data), codes.episode, {codes.noSuchEpisode}, Episode.Keys(), Episode.Constructor, data)
  }

  /** An EPISODE reply carrying a fitting record resolves with it. */
  lemma EpisodeRoundTrip(codes: Codes, tag: string, rest: string, r: Record<Episode.EpisodeField>)
    requires StatusLine(tag, codes.episode, rest) && |r| >= 1 && FitsPrefix(Episode.Keys(), Episode.Constructor, r, {SLOT_SEPARATOR})
    ensures EpisodeReply(codes, ReplyText(tag, codes.episode, rest, RenderJoined(r, SLOT_SEPARATOR))) == Found(r)
  {
    PositionalRoundTrip(codes.episode, {codes.noSuchEpisode}, Episode.Keys(), Episode.Constructor, tag, rest, r);
    ReplyTextParts(tag, codes.episode, rest, RenderJoined(r, SLOT_SEPARATOR));
  }

  /** `creator`: ten slots by position; NO_SUCH_CREATOR resolves with `undefined`. */
  function CreatorReply(codes: Codes, data: string): (o: Outcome<Record<Creator.CreatorField>>)
    ensures ReturnCode(data) == codes.creator ==> (o.Thrown? <==> |Slots(data)| > Creator.SIZE)
    ensures o.Found? ==> |o.value| == |Slots(data)| <= Creator.SIZE && KeysOf(o.value) == Creator.Keys()[..|o.value|]
    ensures o.Found? ==> forall i :: 0 <= i < |o.value| ==> o.value[i].1 == Convert(Creator.Constructor(Creator.Keys()[i]), Slots(data)[i])
    ensures o == Absent <==> ReturnCode(data) != codes.creator && ReturnCode(data) == codes.noSuchCreator
    ensures o == Thrown(UnexpectedResult) <==> ReturnCode(data) != codes.creator && ReturnCode(data) !in {codes.noSuchCreator}
  {
    PositionalReply(ReturnCode(data), codes.creator, {codes.noSuchCreator}, Creator.Keys(), Creator.Constructor, data)
  }

  /** A CREATOR reply carrying a fitting record resolves with it. */
  lemma CreatorRoundTrip(codes: Codes, tag: string, rest: string, r: Record<Creator.CreatorField>)
    requires StatusLine(tag, codes.creator, rest) && |r| >= 1 && FitsPrefix(Creator.Keys(), Creator.Constructor, r, {SLOT_SEPARATOR})
    ensures CreatorReply(codes, ReplyText(tag, codes.creator, rest, RenderJoined(r, SLOT_SEPARATOR))) == Found(r)
  {
    PositionalRoundTrip(codes.creator, {codes.noSuchCreator}, Creator.Keys(), Creator.Constructor, tag, rest, r);
    ReplyTextParts(tag, codes.creator, rest, RenderJoined(r, SLOT_SEPARATOR));
  }

  /**
   * `animeDescription`: one page, three slots by position; NO_SUCH_ANIME and
   * NO_SUCH_DESCRIPTION both resolve with `undefined`.
   */
  function DescriptionReply(codes: Codes, data: string): (o: Outcome<Record<AnimeDescription.DescriptionField>>)
    ensures ReturnCode(data) == codes.animeDescription ==> (o.Thrown? <==> |Slots(data)| > AnimeDescription.SIZE)
    ensures o.Found? ==> |o.value| == |Slots(data)| <= AnimeDescription.SIZE && KeysOf(o.value) == AnimeDescription.Keys()[..|o.value|]
    ensures o.Found? ==> forall i :: 0 <= i < |o.value| ==>
      o.value[i].1 == Convert(AnimeDescription.Constructor(AnimeDescription.Keys()[i]), Slots(data)[i])
    ensures o == Absent <==>
      ReturnCode(data) != codes.animeDescription && (ReturnCode(data) == codes.noSuchAnime || ReturnCode(data) == codes.noSuchDescription)
    ensures o == Thrown(UnexpectedResult) <==>
      ReturnCode(data) != codes.animeDescription && ReturnCode(data) !in {codes.noSuchAnime, codes.noSuchDescription}
  {
    PositionalReply(ReturnCode(data), codes.animeDescription, {codes.noSuchAnime, codes.noSuchDescription},
      AnimeDescription.Keys(), AnimeDescription.Constructor, data)
  }

  /** An ANIME_DESCRIPTION reply carrying a fitting page resolves with it. */
  lemma DescriptionRoundTrip(codes: Codes, tag: string, rest: string, r: Record<AnimeDescription.DescriptionField>)
    requires StatusLine(tag, codes.animeDescription, rest) && |r| >= 1
    requires FitsPrefix(AnimeDescription.Keys(), AnimeDescription.Constructor, r, {SLOT_SEPARATOR})
    ensures DescriptionReply(codes, ReplyText(tag, codes.animeDescription, rest, RenderJoined(r, SLOT_SEPARATOR))) == Found(r)
  {
    PositionalRoundTrip(codes.animeDescription, {codes.noSuchAnime, codes.noSuchDescription},
      AnimeDescription.Keys(), AnimeDescription.Constructor, tag, rest, r);
    ReplyTextParts(tag, codes.animeDescription, rest, RenderJoined(r, SLOT_SEPARATOR));
  }

  /**
   * The page walk after a page `currentPart` of `maxParts`: it stops with the
   * page's text exactly when this was the last part, and otherwise asks for
   * the next part.
   */
  function NextPart(currentPart: int, maxParts: int): (next: Option<int>)
    ensures next.None? <==> currentPart + 1 == maxParts
    ensures next.Some? ==> next.value == currentPart + 1
  {
    if currentPart + 1 == maxParts then None else Some(currentPart + 1)
  }

  /**
   * The parts the walk requests from `part` on, when the server answers part
   * `k` with `currentPart` equal to `k` and the same `maxParts`.
   */
  function PartsRequested(part: int, maxParts: int): (parts: seq<int>)
    requires part < maxParts
    decreases maxParts - part
  {
    match NextPart(part, maxParts)
    case None => [part]
    case Some(next) => [part] + PartsRequested(next, maxParts)
  }

  /** The walk requests every part from `part` to `maxParts - 1`, each once, in order, and then stops. */
  lemma {:induction false} WalkRequestsEachPart(part: int, maxParts: int)
    requires part < maxParts
    ensures |PartsRequested(part, maxParts)| == maxParts - part
    ensures forall i :: 0 <= i < maxParts - part ==> PartsRequested(part, maxParts)[i] == part + i
    decreases maxParts - part
  {
    if part + 1 != maxParts {
      WalkRequestsEachPart(part + 1, maxParts);
    }
  }

  // ---------------------------------------------------------------------------
  // Group status: one record per payload line
  // ---------------------------------------------------------------------------

  /**
   * `groupStatus`: the payload split on line feeds, each line split on `|`
   * and decoded by position; NO_SUCH_GROUP and NO_SUCH_ANIME both resolve with
   * `undefined`.
   */
  function GroupStatusReply(codes: Codes, data: string): (o: Outcome<seq<Record<GroupStatus.GroupStatusField>>>)
    ensures ReturnCode(data) == codes.groupStatus ==>
      (o.Thrown? <==> SomeBlockTooLong(Payload(data), LF, SLOT_SEPARATOR, GroupStatus.SIZE))
    ensures o.Found? ==> |o.value| == |Split(Payload(data), {LF})|
    ensures o.Found? ==> forall b :: 0 <= b < |o.value| ==>
      |o.value[b]| == |Split(Split(Payload(data), {LF})[b], {SLOT_SEPARATOR})| <= GroupStatus.SIZE
      && KeysOf(o.value[b]) == GroupStatus.Keys()[..|o.value[b]|]
    ensures o.Found? ==> forall b, i :: 0 <= b < |o.value| && 0 <= i < |o.value[b]| ==>
      o.value[b][i].1 == Convert(GroupStatus.Constructor(GroupStatus.Keys()[i]), Split(Split(Payload(data), {LF})[b], {SLOT_SEPARATOR})[i])
    ensures o == Absent <==>
      ReturnCode(data) != codes.groupStatus && (ReturnCode(data) == codes.noSuchGroup || ReturnCode(data) == codes.noSuchAnime)
    ensures o == Thrown(UnexpectedResult) <==>
      ReturnCode(data) != codes.groupStatus && ReturnCode(data) !in {codes.noSuchGroup, codes.noSuchAnime}
  {
    var lines := DecodeBlocks(GroupStatus.Keys(), GroupStatus.Constructor, Payload(data), LF, SLOT_SEPARATOR);
    assert |GroupStatus.Keys()| == GroupStatus.SIZE;
    Dispatch(ReturnCode(data), codes.groupStatus, {codes.noSuchGroup, codes.noSuchAnime}, lines)
  }

  /** A GROUP_STATUS reply carrying one rendered line per record resolves with those records. */
  lemma GroupStatusRoundTrip(codes: Codes, tag: string, rest: string, lines: seq<Record<GroupStatus.GroupStatusField>>)
    requires StatusLine(tag, codes.groupStatus, rest)
    requires BlocksFit(GroupStatus.Keys(), GroupStatus.Constructor, lines, {LF, SLOT_SEPARATOR})
    ensures GroupStatusReply(codes, ReplyText(tag, codes.groupStatus, rest, RenderBlocks(lines, LF, SLOT_SEPARATOR))) == Found(lines)
  {
    var body := RenderBlocks(lines, LF, SLOT_SEPARATOR);
    ReplyTextParts(tag, codes.groupStatus, rest, body);
    DecodeBlocksRender(GroupStatus.Keys(), GroupStatus.Constructor, lines, LF, SLOT_SEPARATOR, {LF, SLOT_SEPARATOR});
  }

  // ---------------------------------------------------------------------------
  // Character: records with a nested slot
  // ---------------------------------------------------------------------------

  /** A decoded character reply: its slots, in order. */
  type CharacterRecord = seq<(Character.CharacterField, Slot<AnimeBlock.AnimeBlockField>)>

  /**
   * One slot of a character reply, `None` when decoding it throws:
   * `animeBlocks` is split into `'`-separated blocks of `,`-separated values
   * decoded against `ANIME_BLOCK`, `episodeList` keeps its raw text, any other
   * slot goes through its constructor.
   */
  function CharacterSlot(k: Character.CharacterField, text: string): Option<Slot<AnimeBlock.AnimeBlockField>> {
    if k == Character.AnimeBlocks then
      match DecodeBlocks(AnimeBlock.Keys(), AnimeBlock.Constructor, text, BLOCK_SEPARATOR, VALUE_SEPARATOR)
      case Success(blocks) => Some(Nested(blocks))
      case Failure(_) => None
    else if k == Character.EpisodeList then Some(Scalar(Text(text)))
    else Some(Scalar(Convert(Character.Constructor(k), text)))
  }

  /**
   * The `animeBlocks` slot: a block with more values than the sub-schema has keys throws; otherwise
   * every `'`-separated block is a record of its `,`-separated values, in key order.
   */
  lemma CharacterBlocks(text: string)
    ensures CharacterSlot(Character.AnimeBlocks, text).None? <==>
      SomeBlockTooLong(text, BLOCK_SEPARATOR, VALUE_SEPARATOR, AnimeBlock.SIZE)
    ensures CharacterSlot(Character.AnimeBlocks, text).Some? ==>
      CharacterSlot(Character.AnimeBlocks, text).value.Nested? &&
      |CharacterSlot(Character.AnimeBlocks, text).value.blocks| == |Split(text, {BLOCK_SEPARATOR})| &&
      forall b :: 0 <= b < |Split(text, {BLOCK_SEPARATOR})| ==>
        DecodePositional(AnimeBlock.Keys(), AnimeBlock.Constructor, Split(Split(text, {BLOCK_SEPARATOR})[b], {VALUE_SEPARATOR}))
          == Success(CharacterSlot(Character.AnimeBlocks, text).value.blocks[b])
  {
    assert |AnimeBlock.Keys()| == AnimeBlock.SIZE;
  }

  /** An empty `animeBlocks` slot is one block holding only `aid`, converted from "" (that is, 0): not an empty list. */
  lemma EmptyAnimeBlocks()
    ensures CharacterSlot(Character.AnimeBlocks, "") == Some(Nested([[(AnimeBlock.Aid, Number(""))]]))
  {
    EmptyBlocks(AnimeBlock.Keys(), AnimeBlock.Constructor, BLOCK_SEPARATOR, VALUE_SEPARATOR);
  }

  /** `character`: slot `i` decodes key `i`; NO_SUCH_CHARACTER resolves with `undefined`. */
  function CharacterReply(codes: Codes, data: string): (o: Outcome<CharacterRecord>)
    ensures ReturnCode(data) == codes.character ==> (o.Thrown? <==>
      |Slots(data)| > Character.SIZE || exists i :: 0 <= i < |Slots(data)| && i < Character.SIZE && CharacterSlot(Character.Keys()[i], Slots(data)[i]).None?)
    ensures o.Found? ==> |o.value| == |Slots(data)| <= Character.SIZE && forall i :: 0 <= i < |o.value| ==>
      o.value[i].0 == Character.Keys()[i] && CharacterSlot(Character.Keys()[i], Slots(data)[i]) == Some(o.value[i].1)
    ensures o == Absent <==> ReturnCode(data) != codes.character && ReturnCode(data) == codes.noSuchCharacter
    ensures o == Thrown(UnexpectedResult) <==> ReturnCode(data) != codes.character && ReturnCode(data) != codes.noSuchCharacter
  {
    assert |Character.Keys()| == Character.SIZE;
    Dispatch(ReturnCode(data), codes.character, {codes.noSuchCharacter}, DecodeSlots(Character.Keys(), CharacterSlot, Slots(data)))
  }

  /** A slot value the key can be decoded into from one slot of text. */
  predicate CharacterSlotFits(k: Character.CharacterField, s: Slot<AnimeBlock.AnimeBlockField>) {
    if k == Character.AnimeBlocks then
      s.Nested? && BlocksFit(AnimeBlock.Keys(), AnimeBlock.Constructor, s.blocks, {SLOT_SEPARATOR, BLOCK_SEPARATOR, VALUE_SEPARATOR})
    else if k == Character.EpisodeList then
      s.Scalar? && s.value.Text? && Clean(s.value.text, {SLOT_SEPARATOR})
    else
      s.Scalar? && !s.value.List? && s.value == Convert(Character.Constructor(k), s.value.text) && Clean(s.value.text, {SLOT_SEPARATOR})
  }

  /** A non-empty record, the full one or one missing trailing keys, whose slots all fit. */
  predicate CharacterFits(r: CharacterRecord) {
    1 <= |r| <= Character.SIZE && forall i :: 0 <= i < |r| ==> r[i].0 == Character.Keys()[i] && CharacterSlotFits(r[i].0, r[i].1)
  }

  /** The payload a server sends for a record: its rendered slots joined by `|`. */
  function RenderCharacter(r: CharacterRecord): string {
    Join(seq(|r|, i requires 0 <= i < |r| => RenderSlot(r[i].1)), [SLOT_SEPARATOR])
  }

  /** A fitting slot renders without `|` and decodes back to itself. */
  lemma CharacterSlotRender(k: Character.CharacterField, s: Slot<AnimeBlock.AnimeBlockField>)
    requires CharacterSlotFits(k, s)
    ensures Clean(RenderSlot(s), {SLOT_SEPARATOR})
    ensures CharacterSlot(k, RenderSlot(s)) == Some(s)
  {
    if k == Character.AnimeBlocks {
      var seps := {SLOT_SEPARATOR, BLOCK_SEPARATOR, VALUE_SEPARATOR};
      DecodeBlocksRender(AnimeBlock.Keys(), AnimeBlock.Constructor, s.blocks, BLOCK_SEPARATOR, VALUE_SEPARATOR, seps);
      RenderBlocksClean(AnimeBlock.Keys(), AnimeBlock.Constructor, s.blocks, BLOCK_SEPARATOR, VALUE_SEPARATOR, seps, {SLOT_SEPARATOR});
    }
  }

  /** A CHARACTER reply carrying the rendering of a fitting record resolves with that record. */
  lemma CharacterRoundTrip(codes: Codes, tag: string, rest: string, r: CharacterRecord)
    requires StatusLine(tag, codes.character, rest) && CharacterFits(r)
    ensures CharacterReply(codes, ReplyText(tag, codes.character, rest, RenderCharacter(r))) == Found(r)
  {
    var texts := seq(|r|, i requires 0 <= i < |r| => RenderSlot(r[i].1));
    forall i | 0 <= i < |r|
      ensures Clean(texts[i], {SLOT_SEPARATOR}) && CharacterSlot(Character.Keys()[i], texts[i]) == Some(r[i].1)
    {
      CharacterSlotRender(r[i].0, r[i].1);
    }
    SplitJoin(texts, SLOT_SEPARATOR);
    ReplyTextParts(tag, codes.character, rest, RenderCharacter(r));
    DecodeSlotsRender(Character.Keys(), CharacterSlot, r, texts);
  }

  // ---------------------------------------------------------------------------
  // Group: records with a nested slot
  // ---------------------------------------------------------------------------

  /** A decoded group reply: its slots, in order. */
  type GroupRecord = seq<(Group.GroupField, Slot<GroupRelation.GroupRelationField>)>

  /**
   * One slot of a group reply, `None` when decoding it throws:
   * `groupRelations` is split into `'`-separated blocks of `,`-separated values
   * decoded against `GROUP_RELATION`, any other slot goes through its constructor.
   */
  function GroupSlot(k: Group.GroupField, text: string): Option<Slot<GroupRelation.GroupRelationField>> {
    if k == Group.GroupRelations then
      match DecodeBlocks(GroupRelation.Keys(), GroupRelation.Constructor, text, BLOCK_SEPARATOR, VALUE_SEPARATOR)
      case Success(blocks) => Some(Nested(blocks))
      case Failure(_) => None
    else Some(Scalar(Convert(Group.Constructor(k), text)))
  }

  /**
   * The `groupRelations` slot: a block with more values than the sub-schema has keys throws; otherwise
   * every `'`-separated block is a record of its `,`-separated values, in key order.
   */
  lemma GroupBlocks(text: string)
    ensures GroupSlot(Group.GroupRelations, text).None? <==>
      SomeBlockTooLong(text, BLOCK_SEPARATOR, VALUE_SEPARATOR, GroupRelation.SIZE)
    ensures GroupSlot(Group.GroupRelations, text).Some? ==>
      GroupSlot(Group.GroupRelations, text).value.Nested? &&
      |GroupSlot(Group.GroupRelations, text).value.blocks| == |Split(text, {BLOCK_SEPARATOR})| &&
      forall b :: 0 <= b < |Split(text, {BLOCK_SEPARATOR})| ==>
        DecodePositional(GroupRelation.Keys(), GroupRelation.Constructor, Split(Split(text, {BLOCK_SEPARATOR})[b], {VALUE_SEPARATOR}))
          == Success(GroupSlot(Group.GroupRelations, text).value.blocks[b])
  {
    assert |GroupRelation.Keys()| == GroupRelation.SIZE;
  }

  /** An empty `groupRelations` slot is one block holding only `otherGid`, converted from "" (that is, 0): not an empty list. */
  lemma EmptyGroupRelations()
    ensures GroupSlot(Group.GroupRelations, "") == Some(Nested([[(GroupRelation.OtherGid, Number(""))]]))
  {
    EmptyBlocks(GroupRelation.Keys(), GroupRelation.Constructor, BLOCK_SEPARATOR, VALUE_SEPARATOR);
  }

  /** `group`: slot `i` decodes key `i`; NO_SUCH_GROUP resolves with `undefined`. */
  function GroupReply(codes: Codes, data: string): (o: Outcome<GroupRecord>)
    ensures ReturnCode(data) == codes.group ==> (o.Thrown? <==>
      |Slots(data)| > Group.SIZE || exists i :: 0 <= i < |Slots(data)| && i < Group.SIZE && GroupSlot(Group.Keys()[i], Slots(data)[i]).None?)
    ensures o.Found? ==> |o.value| == |Slots(data)| <= Group.SIZE && forall i :: 0 <= i < |o.value| ==>
      o.value[i].0 == Group.Keys()[i] && GroupSlot(Group.Keys()[i], Slots(data)[i]) == Some(o.value[i].1)
    ensures o == Absent <==> ReturnCode(data) != codes.group && ReturnCode(data) == codes.noSuchGroup
    ensures o == Thrown(UnexpectedResult) <==> ReturnCode(data) != codes.group && ReturnCode(data) != codes.noSuchGroup
  {
    assert |Group.Keys()| == Group.SIZE;
    Dispatch(ReturnCode(data), codes.group, {codes.noSuchGroup}, DecodeSlots(Group.Keys(), GroupSlot, Slots(data)))
  }

  /** A slot value the key can be decoded into from one slot of text. */
  predicate GroupSlotFits(k: Group.GroupField, s: Slot<GroupRelation.GroupRelationField>) {
    if k == Group.GroupRelations then
      s.Nested? && BlocksFit(GroupRelation.Keys(), GroupRelation.Constructor, s.blocks, {SLOT_SEPARATOR, BLOCK_SEPARATOR, VALUE_SEPARATOR})
    else
      s.Scalar? && !s.value.List? && s.value == Convert(Group.Constructor(k), s.value.text) && Clean(s.value.text, {SLOT_SEPARATOR})
  }

  /** A non-empty record, the full one or one missing trailing keys, whose slots all fit. */
  predicate GroupFits(r: GroupRecord) {
    1 <= |r| <= Group.SIZE && forall i :: 0 <= i < |r| ==> r[i].0 == Group.Keys()[i] && GroupSlotFits(r[i].0, r[i].1)
  }

  /** The payload a server sends for a record: its rendered slots joined by `|`. */
  function RenderGroup(r: GroupRecord): string {
    Join(seq(|r|, i requires 0 <= i < |r| => RenderSlot(r[i].1)), [SLOT_SEPARATOR])
  }

  /** A fitting slot renders without `|` and decodes back to itself. */
  lemma GroupSlotRender(k: Group.GroupField, s: Slot<GroupRelation.GroupRelationField>)
    requires GroupSlotFits(k, s)
    ensures Clean(RenderSlot(s), {SLOT_SEPARATOR})
    ensures GroupSlot(k, RenderSlot(s)) == Some(s)
  {
    if k == Group.GroupRelations {
      var seps := {SLOT_SEPARATOR, BLOCK_SEPARATOR, VALUE_SEPARATOR};
      DecodeBlocksRender(GroupRelation.Keys(), GroupRelation.Constructor, s.blocks, BLOCK_SEPARATOR, VALUE_SEPARATOR, seps);
      RenderBlocksClean(GroupRelation.Keys(), GroupRelation.Constructor, s.blocks, BLOCK_SEPARATOR, VALUE_SEPARATOR, seps, {SLOT_SEPARATOR});
    }
  }

  /** A GROUP reply carrying the rendering of a fitting record resolves with that record. */
  lemma GroupRoundTrip(codes: Codes, tag: string, rest: string, r: GroupRecord)
    requires StatusLine(tag, codes.group, rest) && GroupFits(r)
    ensures GroupReply(codes, ReplyText(tag, codes.group, rest, RenderGroup(r))) == Found(r)
  {
    var texts := seq(|r|, i requires 0 <= i < |r| => RenderSlot(r[i].1));
    forall i | 0 <= i < |r|
      ensures Clean(texts[i], {SLOT_SEPARATOR}) && GroupSlot(Group.Keys()[i], texts[i]) == Some(r[i].1)
    {
      GroupSlotRender(r[i].0, r[i].1);
    }
    SplitJoin(texts, SLOT_SEPARATOR);
    ReplyTextParts(tag, codes.group, rest, RenderGroup(r));
    DecodeSlotsRender(Group.Keys(), GroupSlot, r, texts);
  }
}
