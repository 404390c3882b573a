/** The string operations the application relies on: trimming, splitting, searching. */
module Strings {
  import opened Prelude

  /** `str.isspace` for one character. */
  predicate IsSpace(c: char) {
    || '\t' <= c <= '\r' || '\U{001C}' <= c <= ' ' || c == '\U{0085}' || c == '\U{00A0}' || c == '\U{1680}'
    || '\U{2000}' <= c <= '\U{200A}' || c == '\U{2028}' || c == '\U{2029}' || c == '\U{202F}' || c == '\U{205F}'
    || c == '\U{3000}'
  }

  /** A character at which `str.splitlines` ends a line. */
  predicate IsLineBreak(c: char) {
    || '\n' <= c <= '\r' || '\U{001C}' <= c <= '\U{001E}' || c == '\U{0085}' || c == '\U{2028}' || c == '\U{2029}'
  }

  function StripLeft(s: string): (r: string)
    ensures |r| <= |s|
    ensures r != "" ==> !IsSpace(r[0])
  {
    if s != "" && IsSpace(s[0]) then StripLeft(s[1..]) else s
  }

  function StripRight(s: string): (r: string)
    ensures r <= s
    ensures r != "" ==> !IsSpace(r[|r| - 1])
  {
    if s != "" && IsSpace(s[|s| - 1]) then StripRight(s[..|s| - 1]) else s
  }

  /** `s.strip()` */
  function Strip(s: string): (r: string)
    ensures |r| <= |s|
    ensures r != "" ==> !IsSpace(r[0]) && !IsSpace(r[|r| - 1])
  {
    StripRight(StripLeft(s))
  }

  /** The string begins and ends with something other than white space. */
  predicate Trimmed(s: string) {
    s != "" ==> !IsSpace(s[0]) && !IsSpace(s[|s| - 1])
  }

  lemma TrimmedStrips(s: string)
    requires Trimmed(s)
    ensures Strip(s) == s
  {}

  /** The position of the first `sep` in `s`. */
  function IndexOf(s: string, sep: string): (r: Option<nat>)
    ensures r.Some? ==> r.value + |sep| <= |s| && s[r.value..r.value + |sep|] == sep
    decreases |s|
  {
    if sep <= s then Some(0)
    else if s == "" then None
    else match IndexOf(s[1..], sep)
      case None => None
      case Some(i) => Some(i + 1)
  }

  /** `s.split(sep)` for a one-character separator: always at least one piece. */
  function Split(s: string, sep: char): (r: seq<string>)
    ensures r != []
  {
    if s == "" then [""]
    else
      var rest := Split(s[1..], sep);
      if s[0] == sep then [""] + rest else [[s[0]] + rest[0]] + rest[1..]
  }

  lemma {:induction false} SplitJoin(pieces: seq<string>, sep: char)
    requires pieces != [] && forall p <- pieces :: sep !in p
    ensures Split(Join(pieces, [sep]), sep) == pieces
  {
    SplitJoinFrom(pieces[0], pieces, sep);
  }

  lemma {:induction false} SplitJoinFrom(head: string, pieces: seq<string>, sep: char)
    requires pieces != [] && sep !in head && forall p <- pieces[1..] :: sep !in p
    ensures Split(Join([head] + pieces[1..], [sep]), sep) == [head] + pieces[1..]
    decreases |pieces|, |head|
  {
    var all := [head] + pieces[1..];
    var text := Join(all, [sep]);
    if head != "" {
      SplitJoinFrom(head[1..], pieces, sep);
      assert text[0] == head[0];
      assert ([head[1..]] + pieces[1..])[1..] == pieces[1..] && all[1..] == pieces[1..];
      assert text[1..] == Join([head[1..]] + pieces[1..], [sep]);
      assert head == [head[0]] + head[1..];
    } else if |pieces| > 1 {
      assert all[1..] == pieces[1..];
      assert text == [sep] + Join(pieces[1..], [sep]);
      assert text[1..] == Join(pieces[1..], [sep]);
      assert pieces[1..][1..] == pieces[2..];
      SplitJoinFrom(pieces[1], pieces[1..], sep);
      assert [pieces[1]] + pieces[1..][1..] == pieces[1..];
    }
  }

  /** Joining the pieces of a split gives the string back. */
  lemma {:induction false} JoinSplit(s: string, sep: char)
    ensures Join(Split(s, sep), [sep]) == s
  {
    if s != "" {
      JoinSplit(s[1..], sep);
      var rest := Split(s[1..], sep);
      assert s == [s[0]] + s[1..];
      if s[0] != sep {
        assert ([[s[0]] + rest[0]] + rest[1..])[1..] == rest[1..];
      }
    }
  }
}
