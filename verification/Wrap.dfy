/** Word wrap with a hard break for oversized words, over any width function. */
module Wrap {
  import opened Prelude
  import opened Strings

  type Width = string -> real

  // ---------------------------------------------------------------- the algorithm

  /** Characters of one oversized word: the finished chunks and the open one. */
  function BreakWord(word: string, chunk: string, w: Width, max: real): (seq<string>, string)
    decreases |word|
  {
    if word == "" then ([], chunk)
    else if w(chunk + [word[0]]) <= max then BreakWord(word[1..], chunk + [word[0]], w, max)
    else
      var rest := BreakWord(word[1..], [word[0]], w, max);
      (Line(chunk) + rest.0, rest.1)
  }

  /** A line is only emitted when it is not empty. */
  function Line(s: string): seq<string> { if s == "" then [] else [s] }

  /** The lines for the remaining words when `current` is the open line. */
  function WrapWords(words: seq<string>, current: string, w: Width, max: real): seq<string>
    decreases |words|
  {
    if words == [] then Line(current)
    else
      var word, rest := words[0], words[1..];
      var candidate := Strip(current + " " + word);
      if w(candidate) <= max then WrapWords(rest, candidate, w, max)
      else if w(word) <= max then Line(current) + WrapWords(rest, word, w, max)
      else
        var broken := BreakWord(word, "", w, max);
        Line(current) + broken.0 + WrapWords(rest, broken.1, w, max)
  }

  function Wrapped(text: string, w: Width, max: real): seq<string> {
    var t := Strip(text);
    if t == "" then []
    else if w(t) <= max then [t]
    else WrapWords(Split(t, ' '), "", w, max)
  }

  lemma BreakStep(word: string, chunk: string, w: Width, max: real)
    requires word != ""
    ensures BreakWord(word, chunk, w, max) ==
            if w(chunk + [word[0]]) <= max then BreakWord(word[1..], chunk + [word[0]], w, max)
            else
              var rest := BreakWord(word[1..], [word[0]], w, max);
              (Line(chunk) + rest.0, rest.1)
  {}

  lemma BreakEnds(chunk: string, w: Width, max: real)
    ensures BreakWord("", chunk, w, max) == ([], chunk)
  {}

  method HardBreak(word: string, w: Width, max: real) returns (done: seq<string>, chunk: string)
    ensures done == BreakWord(word, "", w, max).0 && chunk == BreakWord(word, "", w, max).1
  {
    hide BreakWord;
    done, chunk := [], "";
    assert word[0..] == word;
    for i := 0 to |word|
      invariant BreakWord(word, "", w, max).0 == done + BreakWord(word[i..], chunk, w, max).0
      invariant BreakWord(word, "", w, max).1 == BreakWord(word[i..], chunk, w, max).1
    {
      var ch := word[i];
      assert word[i..][0] == ch && word[i..][1..] == word[i + 1..];
      BreakStep(word[i..], chunk, w, max);
      if w(chunk + [ch]) <= max {
        chunk := chunk + [ch];
      } else {
        ConcatAssoc(done, Line(chunk), BreakWord(word[i + 1..], [ch], w, max).0);
        if chunk != "" {
          done := done + [chunk];
        }
        chunk := [ch];
      }
    }
    assert word[|word|..] == "";
    BreakEnds(chunk, w, max);
  }

  /** `wrap_line` */
  method WrapLine(text: string, w: Width, max: real) returns (out: seq<string>)
    ensures out == Wrapped(text, w, max)
  {
    var t := Strip(text);
    if t == "" {
      return [];
    }
    if w(t) <= max {
      return [t];
    }
    var words := Split(t, ' ');
    out := [];
    var current := "";
    for i := 0 to |words|
      invariant out + WrapWords(words[i..], current, w, max) == WrapWords(words, "", w, max)
    {
      var word := words[i];
      assert words[i..][0] == word && words[i..][1..] == words[i + 1..];
      var candidate := Strip(current + " " + word);
      if w(candidate) <= max {
        current := candidate;
        continue;
      }
      ghost var out0, line := out, Line(current);
      if current != "" {
        out := out + [current];
        current := "";
      }
      assert out == out0 + line;
      if w(word) <= max {
        ConcatAssoc(out0, line, WrapWords(words[i + 1..], word, w, max));
        current := word;
        continue;
      }
      var done, chunk := HardBreak(word, w, max);
      ConcatAssoc(line, done, WrapWords(words[i + 1..], chunk, w, max));
      ConcatAssoc(out0, line, done + WrapWords(words[i + 1..], chunk, w, max));
      ConcatAssoc(out, done, WrapWords(words[i + 1..], chunk, w, max));
      out := out + done;
      current := chunk;
    }
    if current != "" {
      out := out + [current];
    }
  }

  // ---------------------------------------------------------------- lines

  /** A line that is not empty and fits, or is a single character that cannot be broken further. */
  predicate GoodLine(line: string, w: Width, max: real) {
    line != "" && (w(line) <= max || |line| == 1)
  }

  lemma {:induction false} BreakWordLines(word: string, chunk: string, w: Width, max: real)
    requires chunk == "" || GoodLine(chunk, w, max)
    ensures var b := BreakWord(word, chunk, w, max);
            (forall l <- b.0 :: GoodLine(l, w, max)) && (b.1 == "" || GoodLine(b.1, w, max))
    decreases |word|
  {
    if word != "" {
      if w(chunk + [word[0]]) <= max {
        BreakWordLines(word[1..], chunk + [word[0]], w, max);
      } else {
        BreakWordLines(word[1..], [word[0]], w, max);
      }
    }
  }

  lemma {:induction false} WrapWordsLines(words: seq<string>, current: string, w: Width, max: real)
    requires current == "" || GoodLine(current, w, max)
    ensures forall l <- WrapWords(words, current, w, max) :: GoodLine(l, w, max)
    decreases |words|
  {
    if words != [] {
      var word, rest := words[0], words[1..];
      var candidate := Strip(current + " " + word);
      if w(candidate) <= max {
        WrapWordsLines(rest, candidate, w, max);
      } else if w(word) <= max {
        WrapWordsLines(rest, word, w, max);
      } else {
        BreakWordLines(word, "", w, max);
        WrapWordsLines(rest, BreakWord(word, "", w, max).1, w, max);
      }
    }
  }

  /** No line is empty, and every line fits unless it is a single character. */
  lemma WrappedLines(text: string, w: Width, max: real)
    ensures forall l <- Wrapped(text, w, max) :: GoodLine(l, w, max)
  {
    WrapWordsLines(Split(Strip(text), ' '), "", w, max);
  }

  // ---------------------------------------------------------------- content

  /** The characters that leave ink: everything but white space. */
  function Ink(s: string): string {
    if s == "" then "" else (if IsSpace(s[0]) then "" else [s[0]]) + Ink(s[1..])
  }

  lemma {:induction false} InkConcat(a: string, b: string)
    ensures Ink(a + b) == Ink(a) + Ink(b)
  {
    if a == "" {
      assert a + b == b;
    } else {
      assert (a + b)[0] == a[0] && (a + b)[1..] == a[1..] + b;
      InkConcat(a[1..], b);
    }
  }

  lemma {:induction false} InkStripLeft(s: string)
    ensures Ink(StripLeft(s)) == Ink(s)
  {
    if s != "" && IsSpace(s[0]) {
      InkStripLeft(s[1..]);
    }
  }

  lemma {:induction false} InkStripRight(s: string)
    ensures Ink(StripRight(s)) == Ink(s)
  {
    if s != "" && IsSpace(s[|s| - 1]) {
      InkStripRight(s[..|s| - 1]);
      assert s == s[..|s| - 1] + [s[|s| - 1]];
      InkConcat(s[..|s| - 1], [s[|s| - 1]]);
      assert Ink([s[|s| - 1]]) == "";
    }
  }

  lemma InkStrip(s: string)
    ensures Ink(Strip(s)) == Ink(s)
  {
    InkStripLeft(s);
    InkStripRight(StripLeft(s));
  }

  function InkOf(lines: seq<string>): string { Ink(Flatten(lines)) }

  lemma InkOfConcat(a: seq<string>, b: seq<string>)
    ensures InkOf(a + b) == InkOf(a) + InkOf(b)
  {
    FlattenConcat(a, b);
    InkConcat(Flatten(a), Flatten(b));
  }

  lemma InkOfLine(s: string)
    ensures InkOf(Line(s)) == Ink(s)
  {
    if s != "" {
      assert Flatten([s]) == s + Flatten([]);
      assert s + "" == s;
    }
  }

  lemma {:induction false} InkBreakWord(word: string, chunk: string, w: Width, max: real)
    ensures var b := BreakWord(word, chunk, w, max);
            InkOf(b.0) + Ink(b.1) == Ink(chunk) + Ink(word)
    decreases |word|
  {
    if word == "" {
      assert InkOf([]) == "";
    } else {
      var c := [word[0]];
      assert word == c + word[1..];
      InkConcat(c, word[1..]);
      if w(chunk + c) <= max {
        InkBreakWord(word[1..], chunk + c, w, max);
        InkConcat(chunk, c);
        ConcatAssoc(Ink(chunk), Ink(c), Ink(word[1..]));
      } else {
        InkBreakWord(word[1..], c, w, max);
        var b := BreakWord(word[1..], c, w, max);
        InkOfConcat(Line(chunk), b.0);
        InkOfLine(chunk);
        ConcatAssoc(Ink(chunk), InkOf(b.0), Ink(b.1));
      }
    }
  }

  lemma InkBlank()
    ensures Ink(" ") == ""
  {
    assert IsSpace(' ') && " "[1..] == "";
  }

  lemma InkCandidate(current: string, word: string)
    ensures Ink(Strip(current + " " + word)) == Ink(current) + Ink(word)
  {
    hide Ink, Strip;
    InkStrip(current + " " + word);
    InkConcat(current + " ", word);
    InkConcat(current, " ");
    InkBlank();
  }

  lemma InkOfCons(words: seq<string>)
    requires words != []
    ensures InkOf(words) == Ink(words[0]) + InkOf(words[1..])
  {
    InkConcat(words[0], Flatten(words[1..]));
  }

  lemma {:induction false} InkWrapWords(words: seq<string>, current: string, w: Width, max: real)
    ensures InkOf(WrapWords(words, current, w, max)) == Ink(current) + InkOf(words)
    decreases |words|
  {
    if words == [] {
      InkOfLine(current);
      assert InkOf(words) == "";
    } else {
      var word, rest := words[0], words[1..];
      InkOfCons(words);
      var candidate := Strip(current + " " + word);
      if w(candidate) <= max {
        InkWrapWords(rest, candidate, w, max);
        InkCandidate(current, word);
        ConcatAssoc(Ink(current), Ink(word), InkOf(rest));
      } else {
        var b := if w(word) <= max then ([], word) else BreakWord(word, "", w, max);
        InkBreakWord(word, "", w, max);
        InkWrapWords(rest, b.1, w, max);
        assert Line(current) + [] == Line(current) && InkOf([]) == "";
        InkBroken(current, b, WrapWords(rest, b.1, w, max), word, InkOf(rest));
      }
    }
  }

  lemma InkBroken(current: string, b: (seq<string>, string), later: seq<string>, word: string, rest: string)
    requires InkOf(b.0) + Ink(b.1) == Ink(word)
    requires InkOf(later) == Ink(b.1) + rest
    ensures InkOf(Line(current) + b.0 + later) == Ink(current) + (Ink(word) + rest)
  {
    InkOfConcat(Line(current) + b.0, later);
    InkOfConcat(Line(current), b.0);
    InkOfLine(current);
    ConcatAssoc(Ink(current), InkOf(b.0), InkOf(later));
    ConcatAssoc(InkOf(b.0), Ink(b.1), rest);
  }

  lemma {:induction false} InkSplit(s: string, sep: char)
    requires IsSpace(sep)
    ensures InkOf(Split(s, sep)) == Ink(s)
  {
    if s == "" {
      assert Flatten([""]) == "" + Flatten([]);
    } else {
      var rest := Split(s[1..], sep);
      InkSplit(s[1..], sep);
      if s[0] == sep {
        assert ([""] + rest)[1..] == rest;
        assert Flatten([""] + rest) == "" + Flatten(rest) == Flatten(rest);
      } else {
        var head := [s[0]] + rest[0];
        assert ([head] + rest[1..])[1..] == rest[1..];
        ConcatAssoc([s[0]], rest[0], Flatten(rest[1..]));
        assert Flatten([head] + rest[1..]) == [s[0]] + Flatten(rest);
      }
    }
  }

  /** Wrapping keeps every character that is not white space, in order. */
  lemma WrappedContent(text: string, w: Width, max: real)
    ensures InkOf(Wrapped(text, w, max)) == Ink(text)
  {
    var t := Strip(text);
    InkStrip(text);
    if t == "" {
      assert InkOf([]) == "";
    } else if w(t) <= max {
      InkOfLine(t);
    } else {
      InkWrapWords(Split(t, ' '), "", w, max);
      InkSplit(t, ' ');
    }
  }
}
