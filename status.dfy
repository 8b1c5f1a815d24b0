/**
 * The status-code dispatch every operation of the client ends with: the code
 * in bytes 6..9 of the reply selects decoding (the operation's own code),
 * `undefined` (its NO_SUCH_* codes), the candidate list (MULTIPLE_FILES_FOUND
 * of a file request) or `throw new Error('Unexpected result')`. The code
 * strings of `ReturnCode` are not part of this model: they are parameters.
 */
module Status {
  import opened Wrappers
  import opened Strings
  import opened Decode

  /** The `ReturnCode` members the client compares against. */
  datatype Codes = Codes(
    loginAccepted: string,
    anime: string, noSuchAnime: string,
    animeDescription: string, noSuchDescription: string,
    episode: string, noSuchEpisode: string,
    groupStatus: string, noSuchGroup: string,
    file: string, multipleFilesFound: string, noSuchFile: string,
    character: string, noSuchCharacter: string,
    creator: string, noSuchCreator: string,
    group: string)

  /** What an operation's promise settles with. */
  datatype Outcome<T> =
    | Found(value: T)           // the decoded record(s)
    | Absent                    // `return;`, i.e. `undefined`
    | Candidates(ids: seq<string>)  // the split payload of MULTIPLE_FILES_FOUND
    | Thrown(error: Error)      // the promise rejects

  /** A decode that succeeded settles with its value; one that threw rejects with its error. */
  function Lift<T>(r: Result<T, Error>): (o: Outcome<T>)
    ensures r.Success? <==> o.Found?
    ensures r.Success? ==> o.value == r.value
    ensures r.Failure? ==> o == Thrown(r.error)
  {
    match r
    case Success(v) => Found(v)
    case Failure(e) => Thrown(e)
  }

  /**
   * `switch (returnCode) { case found: return decoded; case absent...: return; default: throw }`.
   * The cases are tried in order, so the operation's own code wins over any
   * NO_SUCH_* code equal to it.
   */
  function Dispatch<T>(code: string, found: string, absent: set<string>, decoded: Result<T, Error>): (o: Outcome<T>)
    ensures code == found ==> o == Lift(decoded)
    ensures code != found ==> (o == Absent <==> code in absent)
    ensures code != found && code !in absent ==> o == Thrown(UnexpectedResult)
    ensures !o.Candidates?
  {
    if code == found then Lift(decoded)
    else if code in absent then Absent
    else Thrown(UnexpectedResult)
  }

  /**
   * The shape of every reply: the five-character tag, a space, the three-digit
   * code, the rest of the status line, a line feed, the body and a final line feed.
   */
  function ReplyText(tag: string, code: string, rest: string, body: string): string {
    tag + " " + code + rest + [LF] + body + [LF]
  }

  /** A status line that can be put in front of a body: a five-character tag, a three-character code, no line feed. */
  predicate StatusLine(tag: string, code: string, rest: string) {
    |tag| == 5 && |code| == 3 && Clean(tag, {LF}) && Clean(code, {LF}) && Clean(rest, {LF})
  }

  /** The client reads back the code and the body a reply was assembled from. */
  lemma ReplyTextParts(tag: string, code: string, rest: string, body: string)
    requires StatusLine(tag, code, rest)
    ensures ReturnCode(ReplyText(tag, code, rest, body)) == code
    ensures Payload(ReplyText(tag, code, rest, body)) == body
  {
    var status := tag + " " + code + rest;
    var data := ReplyText(tag, code, rest, body);
    assert data == status + [LF] + body + [LF];
    assert data[6..9] == code by {
      assert forall i :: 0 <= i < 3 ==> data[6 + i] == status[6 + i] == code[i];
    }
    assert Clean(status, {LF}) by {
      forall i | 0 <= i < |status| ensures status[i] != LF {
        if i < 5 { assert status[i] == tag[i]; }
        else if i == 5 { assert status[i] == ' '; }
        else if i < 9 { assert status[i] == code[i - 6]; }
        else { assert status[i] == rest[i - 9]; }
      }
    }
    PayloadOfReply(status, body);
  }
}
