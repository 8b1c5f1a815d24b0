/**
 * The JavaScript string and Buffer built-ins the client relies on, with the
 * semantics the client actually gets from them: `String.prototype.split` with a
 * one-character separator (or a character class), `Array.prototype.join`,
 * `Buffer.prototype.subarray` (negative indices count from the end, indices are
 * clamped), `indexOf`/`lastIndexOf` on a byte, `includes`, and the decimal
 * rendering of an integer inside a template literal. Replies are treated as
 * character sequences: UTF-8 decoding is not modelled.
 */
module Strings {

  /** True iff `c` occurs in `s`: `s.includes(c)`. */
  predicate Contains(s: string, c: char) {
    exists i :: 0 <= i < |s| && s[i] == c
  }

  /** Number of characters of `s` that belong to `seps`. */
  function Count(s: string, seps: set<char>): nat {
    if |s| == 0 then 0 else (if s[0] in seps then 1 else 0) + Count(s[1..], seps)
  }

  /** True iff no character of `s` belongs to `seps`. */
  predicate Clean(s: string, seps: set<char>) {
    forall i :: 0 <= i < |s| ==> s[i] !in seps
  }

  /**
   * `s.split(sep)` where every character of `seps` separates pieces (a single
   * character, or the character class of a regular expression like /'|,/).
   * As in JavaScript, the empty string splits into one empty piece, and a
   * separator at either end yields an empty piece there.
   */
  function Split(s: string, seps: set<char>): (pieces: seq<string>)
    ensures |pieces| >= 1
    decreases |s|
  {
    if |s| == 0 then [""]
    else
      var rest := Split(s[1..], seps);
      if s[0] in seps then [""] + rest
      else [[s[0]] + rest[0]] + rest[1..]
  }

  /** `pieces.join(sep)`: the empty list joins to the empty string. */
  function Join(pieces: seq<string>, sep: string): (s: string)
    ensures |pieces| == 1 ==> s == pieces[0]
  {
    if |pieces| == 0 then ""
    else if |pieces| == 1 then pieces[0]
    else pieces[0] + sep + Join(pieces[1..], sep)
  }

  /** Splitting yields one more piece than there are separators. */
  lemma {:induction false} SplitCount(s: string, seps: set<char>)
    ensures |Split(s, seps)| == Count(s, seps) + 1
    decreases |s|
  {
    if |s| > 0 {
      SplitCount(s[1..], seps);
    }
  }

  /** No piece of a split contains a separator. */
  lemma {:induction false} SplitClean(s: string, seps: set<char>)
    ensures forall k :: 0 <= k < |Split(s, seps)| ==> Clean(Split(s, seps)[k], seps)
    decreases |s|
  {
    if |s| > 0 {
      SplitClean(s[1..], seps);
      var rest := Split(s[1..], seps);
      if s[0] !in seps {
        var first := [s[0]] + rest[0];
        assert Clean(rest[0], seps);
        assert forall i :: 0 <= i < |first| ==> first[i] !in seps by {
          forall i | 0 <= i < |first| ensures first[i] !in seps {
            if i > 0 { assert first[i] == rest[0][i - 1]; }
          }
        }
      }
    }
  }

  /** Joining the pieces of a split with the separator restores the string. */
  lemma {:induction false} JoinSplit(s: string, c: char)
    ensures Join(Split(s, {c}), [c]) == s
    decreases |s|
  {
    if |s| > 0 {
      JoinSplit(s[1..], c);
      var rest := Split(s[1..], {c});
      if s[0] == c {
        assert Split(s, {c}) == [""] + rest;
        assert ([""] + rest)[1..] == rest;
      } else {
        var pieces := Split(s, {c});
        assert pieces == [[s[0]] + rest[0]] + rest[1..];
        if |rest| == 1 {
          assert s == [s[0]] + s[1..];
        } else {
          assert pieces[1..] == rest[1..];
          assert Join(rest, [c]) == rest[0] + [c] + Join(rest[1..], [c]);
          assert s == [s[0]] + s[1..];
        }
      }
    }
  }

  /** Splitting a clean prefix glued to the front of `s`. */
  lemma {:induction false} SplitCleanPrefix(p: string, s: string, seps: set<char>)
    requires Clean(p, seps)
    ensures Split(p + s, seps) == [p + Split(s, seps)[0]] + Split(s, seps)[1..]
    decreases |p|
  {
    if |p| > 0 {
      assert (p + s)[1..] == p[1..] + s;
      assert Clean(p[1..], seps) by {
        forall i | 0 <= i < |p[1..]| ensures p[1..][i] !in seps { assert p[1..][i] == p[i + 1]; }
      }
      SplitCleanPrefix(p[1..], s, seps);
      var rest := Split(p[1..] + s, seps);
      assert (p + s)[0] == p[0] && p[0] !in seps;
      assert Split(p + s, seps) == [[p[0]] + rest[0]] + rest[1..];
      assert rest[1..] == Split(s, seps)[1..];
      assert [p[0]] + rest[0] == p + Split(s, seps)[0] by {
        assert p == [p[0]] + p[1..];
      }
    } else {
      assert p + s == s && p + Split(s, seps)[0] == Split(s, seps)[0];
      assert Split(s, seps) == [Split(s, seps)[0]] + Split(s, seps)[1..];
    }
  }

  /**
   * Splitting undoes joining: when no piece contains the separator, the pieces
   * come back exactly, one per slot.
   */
  lemma {:induction false} SplitJoin(pieces: seq<string>, c: char)
    requires |pieces| >= 1
    requires forall k :: 0 <= k < |pieces| ==> Clean(pieces[k], {c})
    ensures Split(Join(pieces, [c]), {c}) == pieces
    decreases |pieces|
  {
    if |pieces| == 1 {
      SplitCleanPrefix(pieces[0], "", {c});
      assert pieces[0] + "" == pieces[0];
    } else {
      var tail := Join(pieces[1..], [c]);
      SplitJoin(pieces[1..], c);
      assert Join(pieces, [c]) == pieces[0] + ([c] + tail);
      SplitCleanPrefix(pieces[0], [c] + tail, {c});
      assert ([c] + tail)[1..] == tail;
      assert Split([c] + tail, {c}) == [""] + pieces[1..];
      assert pieces[0] + "" == pieces[0];
      assert pieces == [pieces[0]] + pieces[1..];
    }
  }

  /** A join of pieces free of `seps` with a separator free of `seps` is free of `seps`. */
  lemma {:induction false} JoinClean(pieces: seq<string>, sep: string, seps: set<char>)
    requires Clean(sep, seps)
    requires forall k :: 0 <= k < |pieces| ==> Clean(pieces[k], seps)
    ensures Clean(Join(pieces, sep), seps)
    decreases |pieces|
  {
    if |pieces| > 1 {
      JoinClean(pieces[1..], sep, seps);
      var tail := Join(pieces[1..], sep);
      var s := pieces[0] + sep + tail;
      forall i | 0 <= i < |s| ensures s[i] !in seps {
        if i < |pieces[0]| {
          assert s[i] == pieces[0][i];
        } else if i < |pieces[0]| + |sep| {
          assert s[i] == sep[i - |pieces[0]|];
        } else {
          assert s[i] == tail[i - |pieces[0]| - |sep|];
        }
      }
    }
  }

  /** `Buffer.prototype.subarray` normalisation of one index against `len`. */
  function Clamp(i: int, len: nat): (r: nat)
    ensures r <= len
  {
    if i < 0 then (if len + i < 0 then 0 else len + i)
    else if i > len then len
    else i
  }

  /**
   * `buf.subarray(start, end)`: negative indices count back from the end,
   * indices past the end are clamped, and an empty range yields nothing.
   */
  function Subarray<T>(s: seq<T>, start: int, end: int): (r: seq<T>)
    ensures 0 <= start <= end <= |s| ==> r == s[start..end]
    ensures end < 0 && 0 <= start <= |s| + end ==> r == s[start..|s| + end]
    ensures |r| <= |s|
  {
    var a, b := Clamp(start, |s|), Clamp(end, |s|);
    if a < b then s[a..b] else []
  }

  /** `s.indexOf(c, from)`: the first position at or after `from` holding `c`, or -1. */
  function IndexOf(s: string, c: char, from: nat): (r: int)
    ensures r == -1 || (from <= r < |s| && s[r] == c)
    ensures r == -1 ==> forall i :: from <= i < |s| ==> s[i] != c
    ensures r != -1 ==> forall i :: from <= i < r ==> s[i] != c
    decreases |s| - from
  {
    if from >= |s| then -1
    else if s[from] == c then from
    else IndexOf(s, c, from + 1)
  }

  /** `s.lastIndexOf(c)`, looking only below `upto`: the last position holding `c`, or -1. */
  function LastIndexOfBelow(s: string, c: char, upto: nat): (r: int)
    requires upto <= |s|
    ensures r == -1 || (0 <= r < upto && s[r] == c)
    ensures r == -1 ==> forall i :: 0 <= i < upto ==> s[i] != c
    ensures r != -1 ==> forall i :: r < i < upto ==> s[i] != c
  {
    if upto == 0 then -1
    else if s[upto - 1] == c then upto - 1
    else LastIndexOfBelow(s, c, upto - 1)
  }

  /** `s.lastIndexOf(c)`. */
  function LastIndexOf(s: string, c: char): int {
    LastIndexOfBelow(s, c, |s|)
  }

  /** The decimal digit for `d`. */
  function Digit(d: nat): char
    requires d < 10
  {
    "0123456789"[d]
  }

  /** The decimal rendering of a natural number, as in `${n}`. */
  function NatToString(n: nat): (s: string)
    ensures |s| >= 1
    ensures forall i :: 0 <= i < |s| ==> '0' <= s[i] <= '9'
  {
    if n < 10 then [Digit(n)] else NatToString(n / 10) + [Digit(n % 10)]
  }

  /** The decimal rendering of an integer, as in `${i}`. */
  function IntToString(i: int): string {
    if i < 0 then "-" + NatToString(-i) else NatToString(i)
  }

  /** The value of a string of decimal digits read most significant first. */
  function DigitsValue(s: string): nat
    requires forall i :: 0 <= i < |s| ==> '0' <= s[i] <= '9'
  {
    if |s| == 0 then 0 else DigitsValue(s[..|s| - 1]) * 10 + (s[|s| - 1] as int - '0' as int)
  }

  /** Reading back the rendering of a natural number gives the number. */
  lemma {:induction false} NatToStringValue(n: nat)
    ensures DigitsValue(NatToString(n)) == n
  {
    if n >= 10 {
      NatToStringValue(n / 10);
      var s := NatToString(n);
      assert s[..|s| - 1] == NatToString(n / 10);
    }
  }
}
