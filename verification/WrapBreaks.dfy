/** Where the wrapper breaks a word that is wider than a line. */
module WrapBreaks {
  import opened Prelude
  import opened Strings
  import opened Wrap

  // ---------------------------------------------------------------- cuts

  /** Every beginning of the piece fits, except that a single character may be too wide. */
  predicate IsPiece(p: string, w: Width, max: real) {
    p != "" && forall k :: 1 < k <= |p| ==> w(p[..k]) <= max
  }

  /** The first of two neighbouring pieces could not take the first character of the second. */
  predicate CannotTake(p: string, next: string, w: Width, max: real) { next != "" && w(p + next[..1]) > max }

  /** The word in consecutive pieces, each as long as it can be. */
  predicate IsCut(pieces: seq<string>, word: string, w: Width, max: real) {
    && pieces != [] && Flatten(pieces) == word && (forall p <- pieces :: IsPiece(p, w, max))
    && forall i :: 0 < i < |pieces| ==> CannotTake(pieces[i - 1], pieces[i], w, max)
  }

  function PiecesOf(word: string, chunk: string, w: Width, max: real): seq<string> {
    var broken := BreakWord(word, chunk, w, max);
    broken.0 + [broken.1]
  }

  lemma PiecesStep(word: string, chunk: string, w: Width, max: real)
    requires word != ""
    ensures PiecesOf(word, chunk, w, max) ==
            if w(chunk + [word[0]]) <= max then PiecesOf(word[1..], chunk + [word[0]], w, max)
            else Line(chunk) + PiecesOf(word[1..], [word[0]], w, max)
  {
    BreakStep(word, chunk, w, max);
    hide BreakWord;
  }

  lemma ConsIsCut(chunk: string, pieces: seq<string>, word: string, w: Width, max: real)
    requires IsCut(pieces, word, w, max) && IsPiece(chunk, w, max) && CannotTake(chunk, pieces[0], w, max)
    ensures IsCut([chunk] + pieces, chunk + word, w, max)
  {
    var all := [chunk] + pieces;
    assert all[1..] == pieces;
    hide IsPiece, CannotTake;
    forall i | 0 < i < |all| ensures CannotTake(all[i - 1], all[i], w, max) {
      if i > 1 {
        assert all[i] == pieces[i - 1] && all[i - 1] == pieces[(i - 1) - 1];
      }
    }
  }

  lemma PieceIsSome(p: string, w: Width, max: real)
    requires IsPiece(p, w, max)
    ensures p != ""
  {}

  lemma PieceGrows(chunk: string, c: char, w: Width, max: real)
    requires (chunk == "" || IsPiece(chunk, w, max)) && (chunk == "" || w(chunk + [c]) <= max)
    ensures IsPiece(chunk + [c], w, max)
  {
    forall k | 1 < k <= |chunk + [c]| ensures w((chunk + [c])[..k]) <= max {
      if k <= |chunk| {
        assert (chunk + [c])[..k] == chunk[..k];
      } else {
        assert (chunk + [c])[..k] == chunk + [c];
      }
    }
  }

  /** The character loop cuts the word, the open chunk being the beginning of the first piece. */
  lemma {:induction false} LoopCuts(word: string, chunk: string, w: Width, max: real)
    requires IsPiece(chunk, w, max)
    ensures IsCut(PiecesOf(word, chunk, w, max), chunk + word, w, max) && chunk <= PiecesOf(word, chunk, w, max)[0]
    decreases |word|
  {
    hide IsPiece, IsCut;
    if word == "" {
      OnePiece(chunk, w, max);
    } else {
      var c := [word[0]];
      PiecesStep(word, chunk, w, max);
      hide PiecesOf;
      assert chunk + c + word[1..] == chunk + word;
      if w(chunk + c) <= max {
        PieceGrows(chunk, word[0], w, max);
        LoopCuts(word[1..], chunk + c, w, max);
      } else {
        PieceGrows("", word[0], w, max);
        assert "" + c == c;
        LoopCuts(word[1..], c, w, max);
        var rest := PiecesOf(word[1..], c, w, max);
        assert c + word[1..] == word;
        assert rest[0][..1] == c;
        ConsIsCut(chunk, rest, word, w, max);
        PieceIsSome(chunk, w, max);
      }
    }
  }

  lemma OnePiece(chunk: string, w: Width, max: real)
    requires IsPiece(chunk, w, max)
    ensures PiecesOf("", chunk, w, max) == [chunk] && IsCut([chunk], chunk + "", w, max)
  {
    assert Flatten([chunk]) == chunk + Flatten([]);
  }

  /** The pieces of a broken word are a cut of it. */
  lemma BreakingCuts(word: string, w: Width, max: real)
    requires word != ""
    ensures IsCut(PiecesOf(word, "", w, max), word, w, max)
  {
    var c := [word[0]];
    PiecesStep(word, "", w, max);
    assert "" + c == c && c + word[1..] == word;
    PieceGrows("", word[0], w, max);
    LoopCuts(word[1..], c, w, max);
    hide PiecesOf;
    assert [] + PiecesOf(word[1..], c, w, max) == PiecesOf(word[1..], c, w, max);
  }

  lemma FlattenCons(pieces: seq<string>)
    requires pieces != []
    ensures Flatten(pieces) == pieces[0] + Flatten(pieces[1..])
  {}

  lemma FlattenEmpty(pieces: seq<string>)
    requires "" !in pieces
    ensures pieces == [] || Flatten(pieces) != ""
  {
    if pieces != [] {
      assert pieces[0] in pieces;
      FlattenCons(pieces);
    }
  }

  lemma BeginningFits(p: string, word: string, k: nat, w: Width, max: real)
    requires IsPiece(p, w, max) && p <= word
    ensures 1 < k <= |p| ==> w(word[..k]) <= max
  {
    if 1 < k <= |p| {
      assert word[..k] == p[..k];
    }
  }

  /** The first piece of a cut cannot be shorter than that of another cut of the same word. */
  lemma FirstPieceIsLongest(a: seq<string>, b: seq<string>, word: string, w: Width, max: real)
    requires IsCut(a, word, w, max) && IsCut(b, word, w, max)
    ensures |a[0]| >= |b[0]|
  {
    FlattenCons(a);
    FlattenCons(b);
    assert b[0] in b && b[0] <= word;
    if |a| == 1 {
      assert a[1..] == [] && |word| == |a[0]|;
    } else {
      FlattenCons(a[1..]);
      assert CannotTake(a[0], a[1], w, max);
      var k := |a[0]| + 1;
      assert word[..k] == a[0] + a[1][..1];
      BeginningFits(b[0], word, k, w, max);
      PieceIsSome(a[0], w, max) by { assert a[0] in a; }
    }
  }

  lemma TailIsCut(a: seq<string>, word: string, w: Width, max: real)
    requires IsCut(a, word, w, max) && |a| > 1
    ensures IsCut(a[1..], word[|a[0]|..], w, max)
  {
    FlattenCons(a);
    var tail := a[1..];
    assert word == a[0] + Flatten(tail);
    hide CannotTake, IsPiece;
    forall i | 0 < i < |tail| ensures CannotTake(tail[i - 1], tail[i], w, max) {
      assert tail[i] == a[i + 1] && tail[i - 1] == a[(i + 1) - 1];
    }
    assert forall p <- tail :: p in a;
  }

  /** There is only one way to cut a word into maximal pieces. */
  lemma {:induction false} CutIsUnique(a: seq<string>, b: seq<string>, word: string, w: Width, max: real)
    requires IsCut(a, word, w, max) && IsCut(b, word, w, max)
    ensures a == b
    decreases |a|
  {
    FirstPieceIsLongest(a, b, word, w, max);
    FirstPieceIsLongest(b, a, word, w, max);
    FlattenCons(a);
    FlattenCons(b);
    assert a[0] == word[..|a[0]|] == b[0];
    assert Flatten(a[1..]) == word[|a[0]|..] == Flatten(b[1..]);
    assert "" !in a[1..] && "" !in b[1..] by {
      assert forall p :: p in a[1..] ==> p in a;
      assert forall p :: p in b[1..] ==> p in b;
    }
    FlattenEmpty(a[1..]);
    FlattenEmpty(b[1..]);
    if |a| > 1 && |b| > 1 {
      TailIsCut(a, word, w, max);
      TailIsCut(b, word, w, max);
      CutIsUnique(a[1..], b[1..], word[|a[0]|..], w, max);
    }
    assert a == [a[0]] + a[1..] && b == [b[0]] + b[1..];
  }

  // ---------------------------------------------------------------- one oversized word

  predicate IsWord(s: string) { s != "" && forall i :: 0 <= i < |s| ==> !IsSpace(s[i]) }

  lemma {:induction false} SplitWord(s: string)
    requires forall i :: 0 <= i < |s| ==> !IsSpace(s[i])
    ensures Split(s, ' ') == [s]
  {
    if s != "" {
      SplitWord(s[1..]);
      assert s == [s[0]] + s[1..];
    }
  }

  lemma StripAfterSpace(word: string)
    requires IsWord(word)
    ensures Strip("" + " " + word) == word
  {
    var s := "" + " " + word;
    assert s[0] == ' ' && s[1..] == word;
    assert StripLeft(s) == StripLeft(word) == word;
  }

  /** A text of one word that is too wide is cut into pieces none of which could take one more character. */
  lemma OversizedWordIsCut(word: string, w: Width, max: real)
    requires IsWord(word) && w(word) > max
    ensures IsCut(Wrapped(word, w, max), word, w, max)
  {
    assert Strip(word) == word by {
      TrimmedStrips(word);
    }
    SplitWord(word);
    StripAfterSpace(word);
    BreakingCuts(word, w, max);
    LastPieceIsSome(word, w, max);
    hide Strip, BreakWord, IsCut, Split, IsWord;
    var b := BreakWord(word, "", w, max);
    assert [word][1..] == [];
    assert WrapWords([word], "", w, max) == Line("") + b.0 + WrapWords([], b.1, w, max);
    assert [] + b.0 == b.0;
  }

  lemma LastPieceIsSome(word: string, w: Width, max: real)
    requires word != ""
    ensures BreakWord(word, "", w, max).1 != ""
  {
    BreakingCuts(word, w, max);
    var pieces := PiecesOf(word, "", w, max);
    assert pieces[|pieces| - 1] in pieces;
  }

  // ---------------------------------------------------------------- oversized words in a text

  /** Putting text in front of the word does not make it narrower. */
  ghost predicate NeverNarrower(w: Width, word: string) {
    forall before: string :: w(word) <= w(Strip(before + " " + word))
  }

  lemma {:induction false} StripRightKeeps(head: string, tail: string)
    requires head != "" && !IsSpace(head[|head| - 1])
    ensures head <= StripRight(head + tail)
    decreases |tail|
  {
    var s := head + tail;
    if tail != "" && IsSpace(s[|s| - 1]) {
      assert s[..|s| - 1] == head + tail[..|tail| - 1];
      StripRightKeeps(head, tail[..|tail| - 1]);
    }
  }

  lemma StripKeeps(head: string, tail: string)
    requires head != "" && Trimmed(head)
    ensures head <= Strip(head + tail)
  {
    assert (head + tail)[0] == head[0];
    assert StripLeft(head + tail) == head + tail;
    StripRightKeeps(head, tail);
  }

  /** What is on the open line stays at its beginning. */
  lemma {:induction false} OpenLineStarts(words: seq<string>, current: string, w: Width, max: real)
    requires current != "" && Trimmed(current)
    ensures WrapWords(words, current, w, max) != [] && current <= WrapWords(words, current, w, max)[0]
    decreases |words|
  {
    if words != [] {
      var candidate := Strip(current + " " + words[0]);
      assert current + " " + words[0] == current + (" " + words[0]);
      StripKeeps(current, " " + words[0]);
      hide Strip, BreakWord;
      if w(candidate) <= max {
        OpenLineStarts(words[1..], candidate, w, max);
      }
    }
  }

  /** The pieces are lines of their own, except that the last one begins a line. */
  predicate LiesAt(lines: seq<string>, p: nat, pieces: seq<string>) {
    && 0 < |pieces| && p + |pieces| <= |lines|
    && (forall i :: 0 <= i < |pieces| - 1 ==> lines[p + i] == pieces[i])
    && pieces[|pieces| - 1] <= lines[p + |pieces| - 1]
  }

  lemma PieceIsTrimmed(pieces: seq<string>, word: string, w: Width, max: real)
    requires IsWord(word) && IsCut(pieces, word, w, max)
    ensures Trimmed(pieces[|pieces| - 1]) && pieces[|pieces| - 1] != ""
  {
    var n := |pieces| - 1;
    assert pieces[n] in pieces;
    assert pieces == pieces[..n] + [pieces[n]];
    FlattenConcat(pieces[..n], [pieces[n]]);
    assert Flatten([pieces[n]]) == pieces[n] + Flatten([]);
    var before := |Flatten(pieces[..n])|;
    assert forall i :: 0 <= i < |pieces[n]| ==> pieces[n][i] == word[before + i];
  }

  lemma Shifted(lines: seq<string>, before: seq<string>, p: nat, pieces: seq<string>)
    requires LiesAt(lines, p, pieces)
    ensures LiesAt(before + lines, |before| + p, pieces)
  {
    var all := before + lines;
    forall i | 0 <= i < |pieces| - 1 ensures all[|before| + p + i] == pieces[i] {
      assert all[|before| + (p + i)] == lines[p + i];
    }
  }

  lemma BrokenHere(words: seq<string>, current: string, w: Width, max: real) returns (p: nat, pieces: seq<string>)
    requires words != [] && IsWord(words[0]) && w(words[0]) > max && NeverNarrower(w, words[0])
    ensures IsCut(pieces, words[0], w, max) && LiesAt(WrapWords(words, current, w, max), p, pieces)
  {
    var word, rest := words[0], words[1..];
    assert w(word) <= w(Strip(current + " " + word));
    BreakingCuts(word, w, max);
    pieces := PiecesOf(word, "", w, max);
    PieceIsTrimmed(pieces, word, w, max);
    var b := BreakWord(word, "", w, max);
    assert pieces == b.0 + [b.1];
    hide Strip, BreakWord, IsCut;
    OpenLineStarts(rest, b.1, w, max);
    var later := WrapWords(rest, b.1, w, max);
    assert WrapWords(words, current, w, max) == Line(current) + b.0 + later;
    assert LiesAt(b.0 + later, 0, pieces);
    Shifted(b.0 + later, Line(current), 0, pieces);
    ConcatAssoc(Line(current), b.0, later);
    p := |Line(current)|;
  }

  lemma {:induction false} BrokenLater(words: seq<string>, current: string, k: nat, w: Width, max: real)
    returns (p: nat, pieces: seq<string>)
    requires k < |words| && IsWord(words[k]) && w(words[k]) > max && NeverNarrower(w, words[k])
    ensures IsCut(pieces, words[k], w, max) && LiesAt(WrapWords(words, current, w, max), p, pieces)
    decreases |words|
  {
    hide Strip, BreakWord, IsCut, IsWord, NeverNarrower, LiesAt;
    if k == 0 {
      p, pieces := BrokenHere(words, current, w, max);
    } else {
      var word, rest := words[0], words[1..];
      assert rest[k - 1] == words[k];
      var candidate := Strip(current + " " + word);
      if w(candidate) <= max {
        p, pieces := BrokenLater(rest, candidate, k - 1, w, max);
      } else {
        var b := if w(word) <= max then ([], word) else BreakWord(word, "", w, max);
        p, pieces := BrokenLater(rest, b.1, k - 1, w, max);
        var later := WrapWords(rest, b.1, w, max);
        assert Line(current) + [] == Line(current);
        assert WrapWords(words, current, w, max) == Line(current) + b.0 + later;
        Shifted(later, Line(current) + b.0, p, pieces);
        p := |Line(current) + b.0| + p;
      }
    }
  }

  /** Every word of a text that is too wide is cut into maximal pieces: lines of their own, and the beginning of a line. */
  lemma OversizedWordsAreCut(text: string, k: nat, w: Width, max: real) returns (p: nat, pieces: seq<string>)
    requires w(Strip(text)) > max && Strip(text) != ""
    requires var words := Split(Strip(text), ' ');
             k < |words| && IsWord(words[k]) && w(words[k]) > max && NeverNarrower(w, words[k])
    ensures IsCut(pieces, Split(Strip(text), ' ')[k], w, max) && LiesAt(Wrapped(text, w, max), p, pieces)
  {
    hide Strip, IsCut, LiesAt, IsWord, NeverNarrower, WrapWords;
    p, pieces := BrokenLater(Split(Strip(text), ' '), "", k, w, max);
  }

  // ---------------------------------------------------------------- the whole layout

  /** How a word is laid on fresh lines: in one piece when it fits, otherwise cut. */
  predicate IsSpread(pieces: seq<string>, word: string, w: Width, max: real) {
    if word == "" || w(word) <= max then pieces == [word] else IsCut(pieces, word, w, max)
  }

  /**
   The rule of the wrapper, as a relation: a word joins the open line when both together fit; otherwise the open line is
   closed and the word is spread over fresh lines, the last of which is open.
   */
  ghost predicate IsLaid(lines: seq<string>, words: seq<string>, current: string, w: Width, max: real)
    decreases |words|
  {
    if words == [] then lines == Line(current)
    else if w(Strip(current + " " + words[0])) <= max then IsLaid(lines, words[1..], Strip(current + " " + words[0]), w, max)
    else exists pieces: seq<string>, later: seq<string> ::
      && Closes(lines, current, pieces, later) && IsSpread(pieces, words[0], w, max)
      && IsLaid(later, words[1..], pieces[|pieces| - 1], w, max)
  }

  /** The open line is closed, all the pieces but the last are lines, and the other lines follow. */
  predicate Closes(lines: seq<string>, current: string, pieces: seq<string>, later: seq<string>) {
    pieces != [] && lines == Line(current) + pieces[..|pieces| - 1] + later
  }

  lemma Spreads(word: string, w: Width, max: real) returns (pieces: seq<string>)
    ensures pieces != [] && IsSpread(pieces, word, w, max)
    ensures pieces == if w(word) <= max then [word] else PiecesOf(word, "", w, max)
  {
    pieces := if w(word) <= max then [word] else PiecesOf(word, "", w, max);
    if word != "" {
      BreakingCuts(word, w, max);
    }
  }

  lemma SpreadIsUnique(a: seq<string>, b: seq<string>, word: string, w: Width, max: real)
    requires IsSpread(a, word, w, max) && IsSpread(b, word, w, max)
    ensures a == b
  {
    if word != "" && w(word) > max {
      CutIsUnique(a, b, word, w, max);
    }
  }

  /** The wrapper's lines are the only ones that follow the rule. */
  lemma {:induction false} WrapFollowsRule(lines: seq<string>, words: seq<string>, current: string, w: Width, max: real)
    ensures IsLaid(lines, words, current, w, max) <==> lines == WrapWords(words, current, w, max)
    decreases |words|
  {
    hide Strip, BreakWord, IsSpread;
    if words != [] {
      var word, rest := words[0], words[1..];
      var candidate := Strip(current + " " + word);
      if w(candidate) <= max {
        WrapFollowsRule(lines, rest, candidate, w, max);
      } else {
        var pieces := Spreads(word, w, max);
        var last := pieces[|pieces| - 1];
        var later := WrapWords(rest, last, w, max);
        WrapFollowsRule(later, rest, last, w, max);
        assert Line(current) + [] == Line(current);
        assert Closes(WrapWords(words, current, w, max), current, pieces, later);
        if IsLaid(lines, words, current, w, max) {
          var others: seq<string>, after: seq<string> :| Closes(lines, current, others, after)
            && IsSpread(others, word, w, max) && IsLaid(after, rest, others[|others| - 1], w, max);
          SpreadIsUnique(pieces, others, word, w, max);
          WrapFollowsRule(after, rest, last, w, max);
        }
      }
    }
  }

  /** Which lines a text gets: none when it is blank, one when it fits, otherwise those that follow the rule. */
  lemma WrappedFollowsRule(text: string, lines: seq<string>, w: Width, max: real)
    ensures lines == Wrapped(text, w, max) <==>
            if Strip(text) == "" then lines == []
            else if w(Strip(text)) <= max then lines == [Strip(text)]
            else IsLaid(lines, Split(Strip(text), ' '), "", w, max)
  {
    hide Strip, IsLaid, WrapWords;
    WrapFollowsRule(lines, Split(Strip(text), ' '), "", w, max);
  }
}
