/**
 * The stateful part of the client, `AniDBClient`: the session key, the queue
 * of tagged commands that the four-second timer sends one at a time, the
 * history that maps a tag to its command, and the promises the socket's
 * message handler resolves.
 *
 * Sockets, timers and promises are not modelled as such. Each `await
 * this.sendCommand(...)` is split in two: the method that queues the command
 * returns the number of the promise it made, and the reply that later settles
 * that promise is decoded by the functions of module Replies (or, for
 * `authenticate`, by `CompleteAuthenticate`). One timer tick is `Tick`; one
 * datagram arriving is `Receive`. The random tag is a parameter.
 */
module Client {
  import opened Wrappers
  import opened Strings
  import opened Decode
  import opened Status
  import opened Protocol
  import AnimeTable = Anime
  import FileTable = File
  import FileAnimeTable = FileAnime

  /**
   * A queued command: its full tagged text and the promise it settles.
   * Promises are numbered in the order commands were submitted.
   */
  datatype Command = Command(text: string, promise: nat)

  /** The texts of a list of commands, in order. */
  function Texts(q: seq<Command>): (texts: seq<string>)
    ensures |texts| == |q| && forall i :: 0 <= i < |q| ==> texts[i] == q[i].text
  {
    seq(|q|, i requires 0 <= i < |q| => q[i].text)
  }

  /**
   * The query part of the parameter object `file` builds: the session, then
   * the query under the keys its overload implies, each assignment adding a
   * key the object does not have yet.
   */
  method QueryRequest(session: string, query: FileQuery) returns (rawParams: Params)
    ensures rawParams == [("s", session)] + QueryParams(query)
  {
    rawParams := [("s", session)];
    match query {
      case ByEpisode(a, g, e) =>
        var animeKey, groupKey := if a.Num? then "aid" else "aname", if g.Num? then "gid" else "gname";
        assert animeKey[0] == 'a' && groupKey[0] == 'g';
        PutThree(rawParams, animeKey, ArgText(a), groupKey, ArgText(g), "epno", ArgText(e));
        rawParams := Put(rawParams, animeKey, ArgText(a));
        rawParams := Put(rawParams, groupKey, ArgText(g));
        rawParams := Put(rawParams, "epno", ArgText(e));
      case ByHash(size, ed2k) =>
        PutTwo(rawParams, "size", IntToString(size), "ed2k", ed2k);
        rawParams := Put(rawParams, "size", IntToString(size));
        rawParams := Put(rawParams, "ed2k", ed2k);
      case ById(fid) =>
        PutNew(rawParams, "fid", IntToString(fid));
        rawParams := Put(rawParams, "fid", IntToString(fid));
    }
  }

  /**
   * The parameter object `file` builds: the query part, then `fmask` for the
   * file fields and `amask` for the anime fields, both new keys.
   */
  method FileRequest(session: string, query: FileQuery, fileKeys: seq<FileTable.FileField>, animeKeys: seq<FileAnimeTable.FAnimeField>)
    returns (rawParams: Params)
    ensures rawParams == FileParams(session, query, fileKeys, animeKeys)
  {
    rawParams := QueryRequest(session, query);
    QueryKeys(query);
    var fmask := FileTable.GenerateMask(fileKeys);
    var amask := FileAnimeTable.GenerateMask(animeKeys);
    PutTwo(rawParams, "fmask", fmask, "amask", amask);
    rawParams := Put(rawParams, "fmask", fmask);
    rawParams := Put(rawParams, "amask", amask);
  }

  /**
   * The parameter object `anime` builds: the mask of the requested fields,
   * the session, then the anime under `aid` or `aname`, a new key.
   */
  method AnimeRequest(session: string, a: Arg, keys: seq<AnimeTable.AnimeField>) returns (rawParams: Params)
    ensures rawParams == AnimeParams(session, a, keys)
  {
    var amask := AnimeTable.GenerateMask(keys);
    rawParams := [("amask", amask), ("s", session)];
    var key := if a.Num? then "aid" else "aname";
    assert key[0] == 'a' && key[1] != 'm';
    PutNew(rawParams, key, ArgText(a));
    rawParams := Put(rawParams, key, ArgText(a));
  }

  /**
   * The parameter object `episode` builds: the session, the first argument
   * under its key, then `epno` when the episode number is truthy.
   */
  method EpisodeRequest(session: string, a: Arg, episodeNumber: Option<Arg>) returns (rawParams: Params)
    ensures rawParams == EpisodeParams(session, a, episodeNumber)
  {
    rawParams := [("s", session)];
    var key := EpisodeKey(a, episodeNumber);
    assert key[0] != 's' && key[1] != 'p';
    PutNew(rawParams, key, ArgText(a));
    rawParams := Put(rawParams, key, ArgText(a));
    if episodeNumber.Some? && Truthy(episodeNumber.value) {
      PutNew(rawParams, "epno", ArgText(episodeNumber.value));
      rawParams := Put(rawParams, "epno", ArgText(episodeNumber.value));
    }
  }

  class AniDBClient {
    const clientId: string
    const version: int
    /** The protocol version sent at login. */
    const protover: int
    /** The reply codes the client recognises. */
    const codes: Codes
    /** The length of a tag and the characters it is drawn from. */
    const tagLength: nat
    const tagCharacters: string

    /** The session key; `None` before login (`undefined`). */
    var session: Option<string>
    var commandQueue: seq<Command>
    var commandHistory: map<string, Command>
    /** The texts the timer has handed to the socket, in order. */
    var sent: seq<string>
    /** The reply that settled each promise; a promise settles once. */
    var settled: map<nat, string>
    /** How many commands have been submitted; the next promise's number. */
    var submitted: nat
    /** Whether the timer is still running; `disconnect` clears it. */
    var running: bool
    /** Every command text submitted so far, in order. */
    ghost var submissions: seq<string>

    /**
     * The queue holds exactly the submitted commands the timer has not sent
     * yet, in submission order, so commands go out in the order they were
     * submitted; the history and the settled promises refer to submitted
     * commands only.
     */
    ghost predicate Valid()
      reads this
    {
      |submissions| == submitted
      && sent + Texts(commandQueue) == submissions
      && (forall i :: 0 <= i < |commandQueue| ==> commandQueue[i].promise == |sent| + i)
      && (forall t :: t in commandHistory ==>
            commandHistory[t].promise < submitted && submissions[commandHistory[t].promise] == commandHistory[t].text)
      && (forall p :: p in settled ==> p < submitted)
    }

    /** `!this.session` is false: a session key is set and is not empty. */
    predicate LoggedIn()
      reads this
    {
      session.Some? && session.value != ""
    }

    /** A tag `generateTag` can produce: `tagLength` characters from `tagCharacters`. */
    predicate ValidTag(tag: string)
      reads this
    {
      |tag| == tagLength && forall i :: 0 <= i < |tag| ==> tag[i] in tagCharacters
    }

    /**
     * The state after one command with text `text` and tag `tag` was submitted
     * to the queue `q0` and the history `h0` when `n0` commands had been
     * submitted: it is queued last under promise `n0` and recorded under its tag.
     */
    ghost predicate Queued(q0: seq<Command>, h0: map<string, Command>, n0: nat, text: string, tag: string, promise: nat)
      reads this
    {
      promise == n0 && submitted == n0 + 1
      && commandQueue == q0 + [Command(text, promise)]
      && commandHistory == h0[tag := Command(text, promise)]
    }

    /** The connection-side state is as it was. */
    ghost predicate Unsent(s0: seq<string>, session0: Option<string>, settled0: map<nat, string>, running0: bool)
      reads this
    {
      sent == s0 && session == session0 && settled == settled0 && running == running0
    }

    /** A new client: no session, nothing queued, nothing submitted, the timer running. */
    constructor (clientId: string, version: int, protover: int, codes: Codes, tagLength: nat, tagCharacters: string)
      ensures Valid()
      ensures this.clientId == clientId && this.version == version && this.protover == protover
      ensures this.codes == codes && this.tagLength == tagLength && this.tagCharacters == tagCharacters
      ensures session == None && commandQueue == [] && commandHistory == map[] && sent == []
      ensures settled == map[] && submitted == 0 && running
    {
      this.clientId := clientId;
      this.version := version;
      this.protover := protover;
      this.codes := codes;
      this.tagLength := tagLength;
      this.tagCharacters := tagCharacters;
      session := None;
      commandQueue := [];
      commandHistory := map[];
      sent := [];
      settled := map[];
      submitted := 0;
      running := true;
      submissions := [];
    }

    /**
     * `sendCommand`: the command, tagged as the source writes it (`&tag=` after
     * a command with parameters, `tag=` glued on otherwise), is queued last and
     * recorded under its tag (replacing an older command with the same tag),
     * and the number of the promise its reply will settle is returned.
     */
    method SendCommand(command: string, tag: string) returns (promise: nat)
      requires Valid() && ValidTag(tag)
      modifies this
      ensures Valid() && Unsent(old(sent), old(session), old(settled), old(running))
      ensures Queued(old(commandQueue), old(commandHistory), old(submitted), TaggedAsWritten(command, tag), tag, promise)
      ensures submissions == old(submissions) + [TaggedAsWritten(command, tag)]
    {
      var block := Command(TaggedAsWritten(command, tag), submitted);
      commandHistory := commandHistory[tag := block];
      commandQueue := commandQueue + [block];
      promise := submitted;
      submitted := submitted + 1;
      submissions := submissions + [block.text];
    }

    /**
     * One tick of the four-second timer: the oldest queued command, if any, is
     * taken off the queue and handed to the socket. Everything handed to the
     * socket so far is a prefix of what was submitted, in the same order.
     */
    method Tick() returns (transmitted: Option<string>)
      requires Valid()
      modifies this
      ensures Valid()
      ensures !old(running) || old(commandQueue) == [] ==> transmitted == None && unchanged(this)
      ensures old(running) && old(commandQueue) != [] ==>
        transmitted == Some(old(commandQueue)[0].text)
        && commandQueue == old(commandQueue)[1..] && sent == old(sent) + [old(commandQueue)[0].text]
      ensures commandHistory == old(commandHistory) && session == old(session) && settled == old(settled)
      ensures submitted == old(submitted) && submissions == old(submissions) && running == old(running)
      ensures sent == submissions[..|sent|]
    {
      if !running || commandQueue == [] {
        return None;
      }
      var block := commandQueue[0];
      assert Texts(commandQueue) == [block.text] + Texts(commandQueue[1..]);
      assert (sent + [block.text]) + Texts(commandQueue[1..]) == sent + Texts(commandQueue);
      commandQueue := commandQueue[1..];
      sent := sent + [block.text];
      transmitted := Some(block.text);
      assert submissions == sent + Texts(commandQueue);
    }

    /**
     * The socket's message handler: the first five characters of the datagram
     * are its tag, and the command recorded under that tag has its promise
     * resolved with the datagram. A promise that is already settled stays as
     * it is. A tag with no recorded command makes the handler read a property
     * of `undefined`, which throws.
     */
    method Receive(msg: string) returns (r: Result<nat, Error>)
      requires Valid()
      modifies this
      ensures Valid()
      ensures r.Failure? <==> Subarray(msg, 0, 5) !in old(commandHistory)
      ensures r.Failure? ==> r.error == TypeError && unchanged(this)
      ensures r.Success? ==> r.value == old(commandHistory)[Subarray(msg, 0, 5)].promise
      ensures r.Success? && r.value in old(settled) ==> settled == old(settled)
      ensures r.Success? && r.value !in old(settled) ==> settled == old(settled)[r.value := msg]
      ensures commandQueue == old(commandQueue) && commandHistory == old(commandHistory) && sent == old(sent)
      ensures session == old(session) && submitted == old(submitted) && running == old(running)
      ensures submissions == old(submissions)
    {
      var tag := Subarray(msg, 0, 5);
      if tag !in commandHistory {
        return Failure(TypeError);
      }
      var promise := commandHistory[tag].promise;
      if promise !in settled {
        settled := settled[promise := msg];
      }
      r := Success(promise);
    }

    /**
     * The request half of `authenticate`: `AUTH` with the user name, the
     * password, the protocol version, the client name and version, and UTF-8
     * encoding. It is sent whether or not a session exists.
     */
    method Authenticate(user: string, pass: string, tag: string) returns (promise: nat)
      requires Valid() && ValidTag(tag)
      modifies this
      ensures Valid() && Unsent(old(sent), old(session), old(settled), old(running))
      ensures Queued(old(commandQueue), old(commandHistory), old(submitted),
        TaggedAsWritten(CommandText("AUTH", AuthParams(user, pass, protover, clientId, version)), tag), tag, promise)
    {
      promise := SendCommand(CommandText("AUTH", AuthParams(user, pass, protover, clientId, version)), tag);
    }

    /**
     * The reply half of `authenticate`: when the reply's code is the login
     * code, the session becomes the text from position 10 up to the next space
     * and is returned; any other code leaves the session as it was and
     * returns nothing.
     */
    method CompleteAuthenticate(data: string) returns (s: Option<string>)
      requires Valid()
      modifies this
      ensures Valid()
      ensures ReturnCode(data) == codes.loginAccepted ==> session == Some(SessionOf(data)) && s == session
      ensures ReturnCode(data) != codes.loginAccepted ==> session == old(session) && s == None
      ensures commandQueue == old(commandQueue) && commandHistory == old(commandHistory) && sent == old(sent)
      ensures settled == old(settled) && submitted == old(submitted) && running == old(running)
      ensures submissions == old(submissions)
    {
      if ReturnCode(data) == codes.loginAccepted {
        session := Some(SessionOf(data));
        return session;
      }
      return None;
    }

    /**
     * `logout`: without a session nothing is sent; otherwise `LOGOUT` with the
     * session key is queued.
     */
    method Logout(tag: string) returns (promise: Option<nat>)
      requires Valid() && ValidTag(tag)
      modifies this
      ensures Valid() && Unsent(old(sent), old(session), old(settled), old(running))
      ensures !old(LoggedIn()) ==> promise == None && unchanged(this)
      ensures old(LoggedIn()) ==>
        promise.Some? && Queued(old(commandQueue), old(commandHistory), old(submitted),
          TaggedAsWritten(CommandText("LOGOUT", [("s", old(session).value)]), tag), tag, promise.value)
    {
      if !LoggedIn() {
        return None;
      }
      var p := SendCommand(CommandText("LOGOUT", [("s", session.value)]), tag);
      return Some(p);
    }

    /**
     * The last step of `disconnect`, after its logout: the timer is cleared,
     * so nothing queued afterwards is sent.
     */
    method StopTimer()
      requires Valid()
      modifies this
      ensures Valid() && !running
      ensures commandQueue == old(commandQueue) && commandHistory == old(commandHistory) && sent == old(sent)
      ensures session == old(session) && settled == old(settled) && submitted == old(submitted)
      ensures submissions == old(submissions)
    {
      running := false;
    }

    /**
     * The request half of `anime`: without a session it throws `Not
     * authenticated` and sends nothing; otherwise it queues `ANIME` with the
     * mask of the requested fields, the session, and `aid` or `aname`.
     */
    method Anime(a: Arg, fields: Option<seq<AnimeTable.AnimeField>>, tag: string) returns (r: Result<nat, Error>)
      requires Valid() && ValidTag(tag)
      modifies this
      ensures Valid() && Unsent(old(sent), old(session), old(settled), old(running))
      ensures !old(LoggedIn()) ==> r == Failure(NotAuthenticated) && unchanged(this)
      ensures old(LoggedIn()) ==>
        r.Success? && Queued(old(commandQueue), old(commandHistory), old(submitted),
          TaggedAsWritten(CommandText("ANIME", AnimeParams(old(session).value, a, AnimeKeys(fields))), tag), tag, r.value)
    {
      if !LoggedIn() {
        return Failure(NotAuthenticated);
      }
      var rawParams := AnimeRequest(session.value, a, AnimeKeys(fields));
      var promise := SendCommand(CommandText("ANIME", rawParams), tag);
      return Success(promise);
    }

    /**
     * The request half of `animeDescription`: `ANIMEDESC` with the anime id,
     * the part (0 when none is given) and the session.
     */
    method AnimeDescription(aid: int, partNum: Option<int>, tag: string) returns (r: Result<nat, Error>)
      requires Valid() && ValidTag(tag)
      modifies this
      ensures Valid() && Unsent(old(sent), old(session), old(settled), old(running))
      ensures !old(LoggedIn()) ==> r == Failure(NotAuthenticated) && unchanged(this)
      ensures old(LoggedIn()) ==>
        r.Success? && Queued(old(commandQueue), old(commandHistory), old(submitted),
          TaggedAsWritten(CommandText("ANIMEDESC", DescriptionParams(old(session).value, aid, partNum)), tag), tag, r.value)
    {
      if !LoggedIn() {
        return Failure(NotAuthenticated);
      }
      var promise := SendCommand(CommandText("ANIMEDESC", DescriptionParams(session.value, aid, partNum)), tag);
      return Success(promise);
    }

    /**
     * The request half of `episode`: `EPISODE` with the session, the first
     * argument as `eid`, `aid` or `aname`, and `epno` when a truthy episode
     * number is given.
     */
    method Episode(a: Arg, episodeNumber: Option<Arg>, tag: string) returns (r: Result<nat, Error>)
      requires Valid() && ValidTag(tag)
      modifies this
      ensures Valid() && Unsent(old(sent), old(session), old(settled), old(running))
      ensures !old(LoggedIn()) ==> r == Failure(NotAuthenticated) && unchanged(this)
      ensures old(LoggedIn()) ==>
        r.Success? && Queued(old(commandQueue), old(commandHistory), old(submitted),
          TaggedAsWritten(CommandText("EPISODE", EpisodeParams(old(session).value, a, episodeNumber)), tag), tag, r.value)
    {
      if !LoggedIn() {
        return Failure(NotAuthenticated);
      }
      var rawParams := EpisodeRequest(session.value, a, episodeNumber);
      var promise := SendCommand(CommandText("EPISODE", rawParams), tag);
      return Success(promise);
    }

    /** The request half of `groupStatus`: `GROUPSTATUS` with the anime id and the session. */
    method GroupStatus(aid: int, tag: string) returns (r: Result<nat, Error>)
      requires Valid() && ValidTag(tag)
      modifies this
      ensures Valid() && Unsent(old(sent), old(session), old(settled), old(running))
      ensures !old(LoggedIn()) ==> r == Failure(NotAuthenticated) && unchanged(this)
      ensures old(LoggedIn()) ==>
        r.Success? && Queued(old(commandQueue), old(commandHistory), old(submitted),
          TaggedAsWritten(CommandText("GROUPSTATUS", IdParams("aid", aid, old(session).value)), tag), tag, r.value)
    {
      if !LoggedIn() {
        return Failure(NotAuthenticated);
      }
      var promise := SendCommand(CommandText("GROUPSTATUS", IdParams("aid", aid, session.value)), tag);
      return Success(promise);
    }

    /**
     * The request half of `file`: `FILE` with the session, the query (anime,
     * group and episode; size and ed2k hash; or file id), then the file mask
     * of the requested file fields with `fid` always included, then the anime
     * mask of the requested anime fields.
     */
    method File(query: FileQuery, fileFields: Option<seq<FileTable.FileField>>, animeFields: Option<seq<FileAnimeTable.FAnimeField>>, tag: string)
      returns (r: Result<nat, Error>)
      requires Valid() && ValidTag(tag)
      modifies this
      ensures Valid() && Unsent(old(sent), old(session), old(settled), old(running))
      ensures !old(LoggedIn()) ==> r == Failure(NotAuthenticated) && unchanged(this)
      ensures old(LoggedIn()) ==>
        r.Success? && Queued(old(commandQueue), old(commandHistory), old(submitted),
          TaggedAsWritten(CommandText("FILE", FileParams(old(session).value, query, FileKeys(fileFields), FileAnimeKeys(animeFields))), tag),
          tag, r.value)
    {
      if !LoggedIn() {
        return Failure(NotAuthenticated);
      }
      var rawParams := FileRequest(session.value, query, FileKeys(fileFields), FileAnimeKeys(animeFields));
      var promise := SendCommand(CommandText("FILE", rawParams), tag);
      return Success(promise);
    }

    /** The request half of `character`: `CHARACTER` with the character id and the session. */
    method Character(charid: int, tag: string) returns (r: Result<nat, Error>)
      requires Valid() && ValidTag(tag)
      modifies this
      ensures Valid() && Unsent(old(sent), old(session), old(settled), old(running))
      ensures !old(LoggedIn()) ==> r == Failure(NotAuthenticated) && unchanged(this)
      ensures old(LoggedIn()) ==>
        r.Success? && Queued(old(commandQueue), old(commandHistory), old(submitted),
          TaggedAsWritten(CommandText("CHARACTER", IdParams("charid", charid, old(session).value)), tag), tag, r.value)
    {
      if !LoggedIn() {
        return Failure(NotAuthenticated);
      }
      var promise := SendCommand(CommandText("CHARACTER", IdParams("charid", charid, session.value)), tag);
      return Success(promise);
    }

    /** The request half of `creator`: `CREATOR` with the creator id and the session. */
    method Creator(creatorid: int, tag: string) returns (r: Result<nat, Error>)
      requires Valid() && ValidTag(tag)
      modifies this
      ensures Valid() && Unsent(old(sent), old(session), old(settled), old(running))
      ensures !old(LoggedIn()) ==> r == Failure(NotAuthenticated) && unchanged(this)
      ensures old(LoggedIn()) ==>
        r.Success? && Queued(old(commandQueue), old(commandHistory), old(submitted),
          TaggedAsWritten(CommandText("CREATOR", IdParams("creatorid", creatorid, old(session).value)), tag), tag, r.value)
    {
      if !LoggedIn() {
        return Failure(NotAuthenticated);
      }
      var promise := SendCommand(CommandText("CREATOR", IdParams("creatorid", creatorid, session.value)), tag);
      return Success(promise);
    }

    /** The request half of `group`: `GROUP` with the group id and the session. */
    method Group(gid: int, tag: string) returns (r: Result<nat, Error>)
      requires Valid() && ValidTag(tag)
      modifies this
      ensures Valid() && Unsent(old(sent), old(session), old(settled), old(running))
      ensures !old(LoggedIn()) ==> r == Failure(NotAuthenticated) && unchanged(this)
      ensures old(LoggedIn()) ==>
        r.Success? && Queued(old(commandQueue), old(commandHistory), old(submitted),
          TaggedAsWritten(CommandText("GROUP", IdParams("gid", gid, old(session).value)), tag), tag, r.value)
    {
      if !LoggedIn() {
        return Failure(NotAuthenticated);
      }
      var promise := SendCommand(CommandText("GROUP", IdParams("gid", gid, session.value)), tag);
      return Success(promise);
    }
  }
}
