/**
 * String helpers the timetable parser relies on: the first position of a
 * character, splitting on a separator (as Go's `strings.Split` does for a
 * one-character separator), joining back, and ASCII lower-casing.
 */
module Text {

  datatype Option<+T> = None | Some(value: T)

  /** The position of the first `c` in `s`, if there is one. */
  function IndexOf(s: string, c: char): (r: Option<nat>)
    ensures r.Some? ==> r.value < |s| && s[r.value] == c && c !in s[..r.value]
    ensures r.None? ==> c !in s
  {
    if |s| == 0 then None
    else if s[0] == c then Some(0)
    else match IndexOf(s[1..], c)
      case None => None
      case Some(i) =>
        assert s[..i + 1] == [s[0]] + s[1..][..i];
        Some(i + 1)
  }

  /**
   * The pieces of `s` between occurrences of `c`: one more piece than there
   * are occurrences, none of them containing `c`.
   */
  function Split(s: string, c: char): (r: seq<string>)
    ensures |r| >= 1
    ensures forall i :: 0 <= i < |r| ==> c !in r[i]
    decreases |s|
  {
    match IndexOf(s, c)
    case None => [s]
    case Some(i) => [s[..i]] + Split(s[i + 1..], c)
  }

  /** The pieces laid end to end with `c` between consecutive pieces. */
  function Join(parts: seq<string>, c: char): string
    requires |parts| >= 1
  {
    if |parts| == 1 then parts[0] else parts[0] + [c] + Join(parts[1..], c)
  }

  /** Joining a first piece before at least one more puts one separator after it. */
  lemma JoinCons(first: string, rest: seq<string>, c: char)
    requires |rest| >= 1
    ensures Join([first] + rest, c) == first + [c] + Join(rest, c)
  {
    assert ([first] + rest)[1..] == rest;
  }

  /** Joining the pieces of a split gives back the original string. */
  lemma {:induction false} JoinSplit(s: string, c: char)
    ensures Join(Split(s, c), c) == s
    decreases |s|
  {
    match IndexOf(s, c)
    case None =>
    case Some(i) =>
      var parts := Split(s, c);
      assert parts == [s[..i]] + Split(s[i + 1..], c);
      assert parts[1..] == Split(s[i + 1..], c);
      JoinSplit(s[i + 1..], c);
      assert Join(parts, c) == s[..i] + [c] + s[i + 1..];
      assert s == s[..i] + [c] + s[i + 1..];
  }

  /** The first `c` in `p + [c] + rest` is the one just after `p` when `p` has none. */
  lemma IndexOfAfter(p: string, c: char, rest: string)
    requires c !in p
    ensures IndexOf(p + [c] + rest, c) == Some(|p|)
  {
    assert (p + [c] + rest)[|p|] == c;
  }

  /** Splitting pieces that hold no `c`, once joined with `c`, gives back those pieces. */
  lemma {:induction false} SplitJoin(parts: seq<string>, c: char)
    requires |parts| >= 1
    requires forall i :: 0 <= i < |parts| ==> c !in parts[i]
    ensures Split(Join(parts, c), c) == parts
  {
    if |parts| == 1 {
      assert IndexOf(parts[0], c) == None;
    } else {
      var rest := Join(parts[1..], c);
      IndexOfAfter(parts[0], c, rest);
      var s := parts[0] + [c] + rest;
      assert Join(parts, c) == s;
      assert s[..|parts[0]|] == parts[0];
      assert s[|parts[0]| + 1..] == rest;
      assert Split(s, c) == [parts[0]] + Split(rest, c);
      SplitJoin(parts[1..], c);
      assert parts == [parts[0]] + parts[1..];
    }
  }

  /** `a` and `b` are the same character, or the same ASCII letter in different cases. */
  predicate SameLetter(a: char, b: char)
  {
    || a == b
    || ('A' <= a <= 'Z' && b as int == a as int + 32)
    || ('A' <= b <= 'Z' && a as int == b as int + 32)
  }

  /** `s` and `t` differ at most in the case of their ASCII letters. */
  predicate EqualIgnoringCase(s: string, t: string)
  {
    |s| == |t| && forall i :: 0 <= i < |s| ==> SameLetter(s[i], t[i])
  }

  /** The ASCII lower-case form of one character; every other character is kept. */
  function LowerChar(ch: char): char
  {
    if 'A' <= ch <= 'Z' then (ch as int + 32) as char else ch
  }

  /** The ASCII upper-case form of one character; every other character is kept. */
  function UpperChar(ch: char): char
  {
    if 'a' <= ch <= 'z' then (ch as int - 32) as char else ch
  }

  /** Lower-cases the ASCII letters of `s`. */
  function ToLower(s: string): string
  {
    seq(|s|, i requires 0 <= i < |s| => LowerChar(s[i]))
  }

  /** Upper-cases the ASCII letters of `s`. */
  function ToUpper(s: string): string
  {
    seq(|s|, i requires 0 <= i < |s| => UpperChar(s[i]))
  }

  /**
   * The lower-case form spells `s` ignoring case and holds no capital
   * letter; these two facts fix it uniquely.
   */
  lemma LowerCase(s: string)
    ensures EqualIgnoringCase(ToLower(s), s)
    ensures forall i :: 0 <= i < |ToLower(s)| ==> !('A' <= ToLower(s)[i] <= 'Z')
  {
  }

  /** The upper-case form spells `s` ignoring case and holds no small letter. */
  lemma UpperCase(s: string)
    ensures EqualIgnoringCase(ToUpper(s), s)
    ensures forall i :: 0 <= i < |ToUpper(s)| ==> !('a' <= ToUpper(s)[i] <= 'z')
  {
  }

  /**
   * Two strings lower-case to the same string exactly when they differ at
   * most in the case of their letters: a lookup by lower-cased key ignores
   * case and nothing else.
   */
  lemma CaseInsensitive(s: string, t: string)
    ensures ToLower(s) == ToLower(t) <==> EqualIgnoringCase(s, t)
  {
    assert |ToLower(s)| == |s| && |ToLower(t)| == |t|;
    if EqualIgnoringCase(s, t) {
      assert forall i :: 0 <= i < |s| ==> ToLower(s)[i] == LowerChar(s[i]) == LowerChar(t[i]) == ToLower(t)[i];
    }
    if ToLower(s) == ToLower(t) {
      assert forall i :: 0 <= i < |s| ==> LowerChar(s[i]) == ToLower(s)[i] == ToLower(t)[i] == LowerChar(t[i]);
    }
  }
}
