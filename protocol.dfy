/**
 * The request side of src/AniDBClient.ts as values: `convertParams`, the
 * insertion order of the `rawParams` objects the operations fill, the tag
 * parameter `sendCommand` appends, the session key `authenticate` cuts out of
 * a LOGIN_ACCEPTED reply, and the parameter lists each operation sends.
 */
module Protocol {
  import opened Wrappers
  import opened Strings
  import Mask
  import Anime
  import File
  import FileAnime

  /** The entries of a `Record<string, string>`, in insertion order. */
  type Params = seq<(string, string)>

  /** The keys of a parameter list, in order. */
  function Names(params: Params): (names: seq<string>)
    ensures |names| == |params| && forall i :: 0 <= i < |params| ==> names[i] == params[i].0
  {
    seq(|params|, i requires 0 <= i < |params| => params[i].0)
  }

  /** The value stored under `key`, as `params[key]` reads it. */
  function Lookup(params: Params, key: string): Option<string> {
    if |params| == 0 then None
    else if params[0].0 == key then Some(params[0].1)
    else Lookup(params[1..], key)
  }

  /** A parameter list of an object literal or of assignments: every key once. */
  predicate DistinctNames(params: Params) {
    forall i, j :: 0 <= i < j < |params| ==> params[i].0 != params[j].0
  }

  /** The `key=value` text of one entry. */
  function Pair(entry: (string, string)): string {
    entry.0 + "=" + entry.1
  }

  /** `convertParams`: `Object.entries(params).map(([k, v]) => `${k}=${v}`).join('&')`. */
  function ConvertParams(params: Params): string {
    Join(seq(|params|, i requires 0 <= i < |params| => Pair(params[i])), "&")
  }

  /** The characters that delimit the text of a parameter list. */
  const DELIMITERS: set<char> := {'&', '='}

  /** A parameter list whose keys and values hold neither delimiter. */
  predicate Plain(params: Params) {
    forall i :: 0 <= i < |params| ==> Clean(params[i].0, DELIMITERS) && Clean(params[i].1, DELIMITERS)
  }

  /** A reference reading of a parameter text: entries split on `&`, each split once on `=`. */
  function ParseParams(s: string): Params {
    var pieces := Split(s, {'&'});
    seq(|pieces|, k requires 0 <= k < |pieces| =>
      var kv := Split(pieces[k], {'='});
      (kv[0], if |kv| > 1 then kv[1] else ""))
  }

  /** Without entries there is nothing but the empty string. */
  lemma ConvertNoParams()
    ensures ConvertParams([]) == ""
  {
  }

  /**
   * `convertParams` writes `k1=v1&k2=v2&...`: one `&`-separated piece per
   * entry, in insertion order, none empty (so no `&` leads, trails or doubles),
   * and reading the text back gives the entries.
   */
  lemma ConvertParamsRoundTrip(params: Params)
    requires |params| >= 1 && Plain(params)
    ensures |Split(ConvertParams(params), {'&'})| == |params|
    ensures forall k :: 0 <= k < |params| ==>
      Split(ConvertParams(params), {'&'})[k] == Pair(params[k]) && Split(ConvertParams(params), {'&'})[k] != ""
    ensures ParseParams(ConvertParams(params)) == params
  {
    var pairs := seq(|params|, i requires 0 <= i < |params| => Pair(params[i]));
    forall k | 0 <= k < |pairs| ensures Clean(pairs[k], {'&'}) && Split(pairs[k], {'='}) == [params[k].0, params[k].1] {
      var key, value := params[k].0, params[k].1;
      assert Clean(key, {'='}) && Clean(value, {'='});
      assert Join([key, value], "=") == pairs[k];
      SplitJoin([key, value], '=');
      JoinClean([key, value], "=", {'&'});
    }
    SplitJoin(pairs, '&');
    assert Split(ConvertParams(params), {'&'}) == pairs;
    assert forall k :: 0 <= k < |params| ==> |pairs[k]| > 0 by {
      forall k | 0 <= k < |params| ensures |pairs[k]| > 0 {
        assert |pairs[k]| == |params[k].0| + 1 + |params[k].1|;
      }
    }
  }

  /**
   * `rawParams[key] = value` on a JavaScript object: an existing key keeps its
   * place and takes the new value, a new key goes last.
   */
  function Put(params: Params, key: string, value: string): (r: Params)
    ensures |r| == |params| + (if key in Names(params) then 0 else 1)
    ensures key in Names(params) ==> Names(r) == Names(params)
    ensures key !in Names(params) ==> r == params + [(key, value)]
  {
    if |params| == 0 then [(key, value)]
    else if params[0].0 == key then [(key, value)] + params[1..]
    else
      var r := [params[0]] + Put(params[1..], key, value);
      assert Names(params) == [params[0].0] + Names(params[1..]);
      assert Names(r) == [params[0].0] + Names(Put(params[1..], key, value));
      r
  }

  /** After `rawParams[key] = value` the key reads `value` and every other key reads what it did. */
  lemma {:induction false} PutLookup(params: Params, key: string, value: string, other: string)
    ensures Lookup(Put(params, key, value), key) == Some(value)
    ensures other != key ==> Lookup(Put(params, key, value), other) == Lookup(params, other)
    decreases |params|
  {
    if |params| > 0 && params[0].0 != key {
      PutLookup(params[1..], key, value, other);
      assert Put(params, key, value)[1..] == Put(params[1..], key, value);
    }
  }

  // ---------------------------------------------------------------------------
  // The tag parameter
  // ---------------------------------------------------------------------------

  const CRLF := "\r\n"

  /** The text of a command: its name, and `convertParams` of its parameters after a space. */
  function CommandText(name: string, params: Params): string {
    if |params| == 0 then name else name + " " + ConvertParams(params)
  }

  /** The line `sendCommand` queues, as src/AniDBClient.ts:88-98 writes it. */
  function TaggedAsWritten(command: string, tag: string): string {
    command + (if Contains(command, '=') then "&tag=" else "tag=") + tag + CRLF
  }

  /**
   * The line `sendCommand` queues once the tag parameter is separated from a
   * bare command name by a space: a command that already has parameters gets
   * `&tag=...`, one without gets ` tag=...`, so either way the tag is the last
   * parameter of the command.
   */
  function Tagged(command: string, tag: string): string {
    command + (if Contains(command, '=') then "&tag=" else " tag=") + tag + CRLF
  }

  /** A command's parameter text contains `=` exactly when it has parameters. */
  lemma CommandHasEquals(name: string, params: Params)
    requires !Contains(name, '=')
    ensures Contains(CommandText(name, params), '=') <==> |params| > 0
  {
    var text := CommandText(name, params);
    if |params| > 0 {
      var pairs := seq(|params|, i requires 0 <= i < |params| => Pair(params[i]));
      assert pairs[0] == params[0].0 + "=" + params[0].1;
      JoinStarts(pairs, "&");
      assert text[|name| + 1 + |params[0].0|] == '=';
    } else {
      assert text == name;
    }
  }

  /** A join of at least one piece starts with its first piece. */
  lemma JoinStarts(pieces: seq<string>, sep: string)
    requires |pieces| >= 1
    ensures |pieces[0]| <= |Join(pieces, sep)| && Join(pieces, sep)[..|pieces[0]|] == pieces[0]
  {
    if |pieces| > 1 {
      assert Join(pieces, sep) == pieces[0] + (sep + Join(pieces[1..], sep));
    }
  }

  /** A join of at least two pieces is the join of all but the last, the separator and the last. */
  lemma {:induction false} JoinSnoc(pieces: seq<string>, sep: string)
    requires |pieces| >= 2
    ensures Join(pieces, sep) == Join(pieces[..|pieces| - 1], sep) + sep + pieces[|pieces| - 1]
    decreases |pieces|
  {
    if |pieces| > 2 {
      JoinSnoc(pieces[1..], sep);
      assert pieces[1..][..|pieces| - 2] == pieces[..|pieces| - 1][1..];
    } else {
      assert pieces[..1] == [pieces[0]];
    }
  }

  /** Appending an entry to a non-empty parameter list appends `&k=v` to its text. */
  lemma ConvertParamsSnoc(params: Params, key: string, value: string)
    requires |params| >= 1
    ensures ConvertParams(params + [(key, value)]) == ConvertParams(params) + "&" + key + "=" + value
  {
    var all := params + [(key, value)];
    var pairs := seq(|all|, i requires 0 <= i < |all| => Pair(all[i]));
    JoinSnoc(pairs, "&");
    assert pairs[..|pairs| - 1] == seq(|params|, i requires 0 <= i < |params| => Pair(params[i]));
  }

  /**
   * Tagging appends the tag as the last parameter of the command, whether the
   * command has parameters or is a bare name.
   */
  lemma TaggedAppendsParam(name: string, params: Params, tag: string)
    requires !Contains(name, '=')
    ensures Tagged(CommandText(name, params), tag) == CommandText(name, params + [("tag", tag)]) + CRLF
  {
    CommandHasEquals(name, params);
    if |params| > 0 {
      ConvertParamsSnoc(params, "tag", tag);
    } else {
      assert ConvertParams([("tag", tag)]) == "tag=" + tag;
    }
  }

  /** For a command with parameters, which is every command the client builds itself, both taggings agree. */
  lemma TaggingAgrees(command: string, tag: string)
    requires Contains(command, '=')
    ensures TaggedAsWritten(command, tag) == Tagged(command, tag)
  {
  }

  /**
   * Every command the client builds itself has parameters, so the tagging as
   * written makes the tag its last parameter.
   */
  lemma TaggedAsWrittenAppendsParam(name: string, params: Params, tag: string)
    requires !Contains(name, '=') && |params| > 0
    ensures TaggedAsWritten(CommandText(name, params), tag) == CommandText(name, params + [("tag", tag)]) + CRLF
  {
    CommandHasEquals(name, params);
    TaggingAgrees(CommandText(name, params), tag);
    TaggedAppendsParam(name, params, tag);
  }

  /**
   * The tagging as written fuses the tag parameter into a bare command name:
   * `PING` is sent as `PINGtag=...`, which no longer names the PING command.
   */
  lemma BareCommandFused()
    ensures TaggedAsWritten("PING", "abcde") == "PINGtag=abcde\r\n"
    ensures TaggedAsWritten("PING", "abcde") != CommandText("PING", [("tag", "abcde")]) + CRLF
    ensures Tagged("PING", "abcde") == CommandText("PING", [("tag", "abcde")]) + CRLF
  {
    assert !Contains("PING", '=');
    TaggedAppendsParam("PING", [], "abcde");
    assert ("PINGtag=abcde\r\n")[4] != (CommandText("PING", [("tag", "abcde")]) + CRLF)[4];
  }

  // ---------------------------------------------------------------------------
  // The session key
  // ---------------------------------------------------------------------------

  /** `data.subarray(10, data.indexOf(32, 10))`: the text after the code up to the next space. */
  function SessionOf(data: string): string {
    Subarray(data, 10, IndexOf(data, ' ', 10))
  }

  /**
   * For a reply `tag code key rest` with a five-character tag, a three-character
   * code and a key without spaces, the session is the key.
   */
  lemma SessionOfReply(tag: string, code: string, key: string, rest: string)
    requires |tag| == 5 && |code| == 3 && !Contains(key, ' ')
    ensures SessionOf(tag + " " + code + " " + key + " " + rest) == key
  {
    var data := tag + " " + code + " " + key + " " + rest;
    assert forall i :: 10 <= i < 10 + |key| ==> data[i] == key[i - 10];
    assert data[10 + |key|] == ' ';
    assert IndexOf(data, ' ', 10) == 10 + |key|;
    assert data[10..10 + |key|] == key;
  }

  /**
   * Without a space after the code the index is -1, and `subarray(10, -1)`
   * drops the last character: the session is everything from byte 10 but the last.
   */
  lemma SessionWithoutSpace(data: string)
    requires |data| >= 11 && forall i :: 10 <= i < |data| ==> data[i] != ' '
    ensures SessionOf(data) == data[10..|data| - 1]
  {
  }

  // ---------------------------------------------------------------------------
  // Request parameters
  // ---------------------------------------------------------------------------

  /** A JavaScript argument that is a number or a string, as the overloads allow. */
  datatype Arg = Num(n: int) | Str(s: string)

  /** `${a}`. */
  function ArgText(a: Arg): string {
    match a
    case Num(n) => IntToString(n)
    case Str(s) => s
  }

  /** `if (a)`: zero and the empty string are falsy. */
  predicate Truthy(a: Arg) {
    match a
    case Num(n) => n != 0
    case Str(s) => s != ""
  }

  /** The parameters of `authenticate`, in the order of its object literal. */
  function AuthParams(user: string, pass: string, protover: int, clientId: string, version: int): Params {
    [("user", user), ("pass", pass), ("protover", IntToString(protover)), ("client", clientId),
     ("clientver", IntToString(version)), ("enc", "UTF-8")]
  }

  /**
   * The fields `anime` asks for: the anime table's keys that were requested,
   * in table order, and every key when no list is given.
   */
  function AnimeKeys(fields: Option<seq<Anime.AnimeField>>): (keys: seq<Anime.AnimeField>)
    ensures forall f :: f in keys <==> Mask.Requested(fields, f)
    ensures Mask.Subsequence(keys, Anime.Keys())
    ensures fields.None? ==> keys == Anime.Keys()
  {
    Anime.KeysInOrder();
    Mask.SelectFromSchema(Anime.Keys(), fields, {});
    Mask.Select(Anime.Keys(), fields, {})
  }

  /** The file fields `file` asks for: the requested ones and always `fid`, in table order. */
  function FileKeys(fields: Option<seq<File.FileField>>): (keys: seq<File.FileField>)
    ensures forall f :: f in keys <==> Mask.Requested(fields, f) || f == File.Fid
    ensures Mask.Subsequence(keys, File.Keys())
    ensures fields.None? ==> keys == File.Keys()
  {
    File.KeysInOrder();
    Mask.SelectFromSchema(File.Keys(), fields, {File.Fid});
    Mask.Select(File.Keys(), fields, {File.Fid})
  }

  /** The anime fields `file` asks for: the requested ones, in table order. */
  function FileAnimeKeys(fields: Option<seq<FileAnime.FAnimeField>>): (keys: seq<FileAnime.FAnimeField>)
    ensures forall f :: f in keys <==> Mask.Requested(fields, f)
    ensures Mask.Subsequence(keys, FileAnime.Keys())
    ensures fields.None? ==> keys == FileAnime.Keys()
  {
    FileAnime.KeysInOrder();
    Mask.SelectFromSchema(FileAnime.Keys(), fields, {});
    Mask.Select(FileAnime.Keys(), fields, {})
  }

  /** The parameters of `anime`: the mask, the session, then `aid` for a number or `aname` for a string. */
  function AnimeParams(session: string, a: Arg, keys: seq<Anime.AnimeField>): Params {
    [("amask", Mask.Hex(Mask.Bytes(Anime.AnimeMask, Anime.WIDTH, keys))), ("s", session),
     (if a.Num? then "aid" else "aname", ArgText(a))]
  }

  /** `anime` sends the mask of the selected keys, the session, and the anime under its key. */
  lemma AnimeParamsShape(session: string, a: Arg, keys: seq<Anime.AnimeField>)
    ensures Names(AnimeParams(session, a, keys)) == ["amask", "s", if a.Num? then "aid" else "aname"]
    ensures Lookup(AnimeParams(session, a, keys), "amask") == Some(Mask.Hex(Mask.Bytes(Anime.AnimeMask, Anime.WIDTH, keys)))
    ensures Lookup(AnimeParams(session, a, keys), "s") == Some(session)
    ensures Lookup(AnimeParams(session, a, keys), if a.Num? then "aid" else "aname") == Some(ArgText(a))
  {
    var p := AnimeParams(session, a, keys);
    var key := if a.Num? then "aid" else "aname";
    assert key[0] == 'a' && |key| >= 3 && key[1] != 'm';
    assert p[1..][1..] == [(key, ArgText(a))];
    assert p[0].0 != key && p[1].0 != key;
    assert Lookup(p, key) == Lookup(p[1..], key) == Lookup(p[1..][1..], key);
  }

  /** The parameters of `animeDescription`: the first request asks for part 0. */
  function DescriptionParams(session: string, aid: int, partNum: Option<int>): Params {
    [("aid", IntToString(aid)), ("part", IntToString(if partNum.Some? then partNum.value else 0)), ("s", session)]
  }

  /** `animeDescription` asks for the given part, and part 0 when none is given. */
  lemma DescriptionParamsShape(session: string, aid: int, partNum: Option<int>)
    ensures Names(DescriptionParams(session, aid, partNum)) == ["aid", "part", "s"]
    ensures partNum.None? ==> Lookup(DescriptionParams(session, aid, partNum), "part") == Some("0")
    ensures partNum.Some? ==> Lookup(DescriptionParams(session, aid, partNum), "part") == Some(IntToString(partNum.value))
  {
  }

  /** The key `episode` sends its first argument under. */
  function EpisodeKey(a: Arg, episodeNumber: Option<Arg>): string {
    if a.Num? then (if episodeNumber.None? then "eid" else "aid") else "aname"
  }

  /**
   * The parameters of `episode`: the session, the first argument under its key,
   * and `epno` only when an episode number is given and truthy.
   */
  function EpisodeParams(session: string, a: Arg, episodeNumber: Option<Arg>): Params {
    var base := [("s", session), (EpisodeKey(a, episodeNumber), ArgText(a))];
    if episodeNumber.Some? && Truthy(episodeNumber.value) then base + [("epno", ArgText(episodeNumber.value))]
    else base
  }

  /**
   * A number is sent as `eid` without an episode number and as `aid` with
   * one, a string as `aname`; `epno` is sent exactly when the episode number
   * is truthy.
   */
  lemma EpisodeParamsShape(session: string, a: Arg, episodeNumber: Option<Arg>)
    ensures a.Num? && episodeNumber.None? ==>
      Lookup(EpisodeParams(session, a, episodeNumber), "eid") == Some(ArgText(a)) && "aid" !in Names(EpisodeParams(session, a, episodeNumber))
    ensures a.Num? && episodeNumber.Some? ==>
      Lookup(EpisodeParams(session, a, episodeNumber), "aid") == Some(ArgText(a)) && "eid" !in Names(EpisodeParams(session, a, episodeNumber))
    ensures a.Str? ==>
      Lookup(EpisodeParams(session, a, episodeNumber), "aname") == Some(ArgText(a))
      && "eid" !in Names(EpisodeParams(session, a, episodeNumber)) && "aid" !in Names(EpisodeParams(session, a, episodeNumber))
    ensures "epno" in Names(EpisodeParams(session, a, episodeNumber)) <==> episodeNumber.Some? && Truthy(episodeNumber.value)
    ensures episodeNumber.Some? && Truthy(episodeNumber.value) ==>
      Lookup(EpisodeParams(session, a, episodeNumber), "epno") == Some(ArgText(episodeNumber.value))
    ensures Lookup(EpisodeParams(session, a, episodeNumber), "s") == Some(session)
  {
    var p := EpisodeParams(session, a, episodeNumber);
    if episodeNumber.Some? && Truthy(episodeNumber.value) {
      assert p[1..][1..] == [("epno", ArgText(episodeNumber.value))];
      assert Names(p)[2] == "epno";
      assert p[1].0 != "epno";
      assert Lookup(p, "epno") == Lookup(p[1..], "epno") == Lookup(p[1..][1..], "epno");
    }
  }

  /** The parameters of `groupStatus`, `character`, `creator` and `group`: the id, then the session. */
  function IdParams(name: string, id: int, session: string): Params {
    [(name, IntToString(id)), ("s", session)]
  }

  /** How a `file` request names the file: by anime, group and episode, by size and ed2k hash, or by id. */
  datatype FileQuery =
    | ByEpisode(anime: Arg, group: Arg, episodeNumber: Arg)
    | ByHash(size: int, ed2k: string)
    | ById(fid: int)

  /** The query part of the `file` parameters, after the session. */
  function QueryParams(q: FileQuery): Params {
    match q
    case ByEpisode(a, g, e) =>
      [(if a.Num? then "aid" else "aname", ArgText(a)), (if g.Num? then "gid" else "gname", ArgText(g)), ("epno", ArgText(e))]
    case ByHash(size, ed2k) => [("size", IntToString(size)), ("ed2k", ed2k)]
    case ById(fid) => [("fid", IntToString(fid))]
  }

  /** Assigning a key the list does not have appends it. */
  lemma PutNew(params: Params, key: string, value: string)
    requires forall i :: 0 <= i < |params| ==> params[i].0 != key
    ensures Put(params, key, value) == params + [(key, value)]
  {
    assert key !in Names(params);
  }

  /** The query keys are neither the session key nor a mask key. */
  lemma QueryKeys(q: FileQuery)
    ensures forall i :: 0 <= i < |QueryParams(q)| ==> QueryParams(q)[i].0 !in {"s", "fmask", "amask"}
  {
  }

  /** Assigning two different keys the list does not have appends them in that order. */
  lemma PutTwo(base: Params, k1: string, v1: string, k2: string, v2: string)
    requires k1 != k2 && forall i :: 0 <= i < |base| ==> base[i].0 != k1 && base[i].0 != k2
    ensures Put(Put(base, k1, v1), k2, v2) == base + [(k1, v1), (k2, v2)]
  {
    PutNew(base, k1, v1);
    PutNew(base + [(k1, v1)], k2, v2);
  }

  /** Assigning three different keys the list does not have appends them in that order. */
  lemma PutThree(base: Params, k1: string, v1: string, k2: string, v2: string, k3: string, v3: string)
    requires k1 != k2 && k1 != k3 && k2 != k3
    requires forall i :: 0 <= i < |base| ==> base[i].0 != k1 && base[i].0 != k2 && base[i].0 != k3
    ensures Put(Put(Put(base, k1, v1), k2, v2), k3, v3) == base + [(k1, v1), (k2, v2), (k3, v3)]
  {
    PutNew(base, k1, v1);
    PutTwo(base + [(k1, v1)], k2, v2, k3, v3);
  }

  /** The parameters of `file`: the session, the query, then both masks. */
  function FileParams(session: string, q: FileQuery, fileKeys: seq<File.FileField>, animeKeys: seq<FileAnime.FAnimeField>): (p: Params)
  {
    [("s", session)] + QueryParams(q)
      + [("fmask", Mask.Hex(Mask.Bytes(File.FileMask, File.WIDTH, fileKeys))),
         ("amask", Mask.Hex(Mask.Bytes(FileAnime.FAnimeMask, FileAnime.WIDTH, animeKeys)))]
  }
}
