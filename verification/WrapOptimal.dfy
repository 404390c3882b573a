/** Greedy wrapping uses as few lines as possible. */
module WrapOptimal {
  import opened Prelude
  import opened Strings
  import opened Wrap

  /** The words of a split that hold something. */
  function Tokens(words: seq<string>): seq<string> {
    if words == [] then [] else (if Strip(words[0]) == "" then [] else [words[0]]) + Tokens(words[1..])
  }

  function Phrase(tokens: seq<string>): string { Join(tokens, " ") }

  /** Some way of breaking `tokens` into consecutive lines that all fit. */
  predicate IsBreaking(groups: seq<seq<string>>, tokens: seq<string>, w: Width, max: real) {
    Flatten(groups) == tokens && forall g <- groups :: g != [] && w(Phrase(g)) <= max
  }

  /** A phrase is at least as wide as every phrase inside it. */
  predicate Monotone(tokens: seq<string>, w: Width) {
    forall a, b, c, d :: 0 <= a <= b < c <= d <= |tokens| ==> NoWider(tokens, w, a, b, c, d)
  }

  predicate NoWider(tokens: seq<string>, w: Width, a: int, b: int, c: int, d: int)
    requires 0 <= a <= b < c <= d <= |tokens|
  {
    w(Phrase(tokens[b..c])) <= w(Phrase(tokens[a..d]))
  }

  predicate FittingWords(words: seq<string>, w: Width, max: real) {
    forall i :: 0 <= i < |words| ==> w(words[i]) <= max
  }

  // ---------------------------------------------------------------- white space inside words

  /** No word starts or ends with white space other than the separating blanks. */
  predicate AllTrimmed(words: seq<string>) {
    forall i :: 0 <= i < |words| ==> Trimmed(words[i])
  }

  /** `x` is `y` without some of its white space. */
  predicate Slimmer(x: string, y: string) {
    if y == "" then x == ""
    else (x != "" && x[0] == y[0] && Slimmer(x[1..], y[1..])) || (IsSpace(y[0]) && Slimmer(x, y[1..]))
  }

  /** Leaving out white space never makes a text wider. */
  ghost predicate BlanksAddWidth(w: Width) {
    forall x, y :: Slimmer(x, y) ==> w(x) <= w(y)
  }

  /** Either the words carry no further white space, or leaving it out does not widen a line. */
  ghost predicate Tidy(words: seq<string>, w: Width) { AllTrimmed(words) || BlanksAddWidth(w) }

  lemma {:induction false} SlimmerSelf(x: string)
    ensures Slimmer(x, x)
  {
    if x != "" {
      SlimmerSelf(x[1..]);
    }
  }

  lemma {:induction false} SlimmerTransitive(x: string, y: string, z: string)
    requires Slimmer(x, y) && Slimmer(y, z)
    ensures Slimmer(x, z)
    decreases |z|
  {
    if z != "" {
      if y != "" && y[0] == z[0] && Slimmer(y[1..], z[1..]) {
        if x != "" && x[0] == y[0] && Slimmer(x[1..], y[1..]) {
          SlimmerTransitive(x[1..], y[1..], z[1..]);
        } else {
          SlimmerTransitive(x, y[1..], z[1..]);
        }
      } else {
        SlimmerTransitive(x, y, z[1..]);
      }
    }
  }

  lemma {:induction false} SlimmerConcat(a: string, b: string, c: string, d: string)
    requires Slimmer(a, b) && Slimmer(c, d)
    ensures Slimmer(a + c, b + d)
    decreases |b|
  {
    if b == "" {
      assert a + c == c && b + d == d;
    } else if a != "" && a[0] == b[0] && Slimmer(a[1..], b[1..]) {
      SlimmerConcat(a[1..], b[1..], c, d);
      assert (a + c)[1..] == a[1..] + c && (b + d)[1..] == b[1..] + d;
    } else {
      SlimmerConcat(a, b[1..], c, d);
      assert (b + d)[1..] == b[1..] + d;
    }
  }

  lemma {:induction false} StripLeftSlims(s: string)
    ensures Slimmer(StripLeft(s), s)
  {
    if s != "" && IsSpace(s[0]) {
      StripLeftSlims(s[1..]);
    } else {
      SlimmerSelf(s);
    }
  }

  lemma {:induction false} StripRightSlims(s: string)
    ensures Slimmer(StripRight(s), s)
  {
    if s != "" && IsSpace(s[|s| - 1]) {
      var init, last := s[..|s| - 1], [s[|s| - 1]];
      StripRightSlims(init);
      assert Slimmer("", last) by { assert last[1..] == ""; }
      SlimmerConcat(StripRight(init), init, "", last);
      assert StripRight(init) + "" == StripRight(init) && init + last == s;
    } else {
      SlimmerSelf(s);
    }
  }

  lemma StripSlims(s: string)
    ensures Slimmer(Strip(s), s)
  {
    StripLeftSlims(s);
    StripRightSlims(StripLeft(s));
    SlimmerTransitive(Strip(s), StripLeft(s), s);
  }

  // ---------------------------------------------------------------- the open line

  lemma {:induction false} PhraseTrimmed(tokens: seq<string>)
    requires AllTrimmed(tokens) && "" !in tokens
    ensures Trimmed(Phrase(tokens)) && (tokens != [] ==> Phrase(tokens) != "")
  {
    if |tokens| == 1 {
      assert tokens[0] in tokens;
    }
    if |tokens| > 1 {
      assert tokens[0] in tokens && forall t <- tokens[1..] :: t in tokens;
      PhraseTrimmed(tokens[1..]);
      var text := Phrase(tokens);
      assert text[0] == tokens[0][0];
      assert text[|text| - 1] == Phrase(tokens[1..])[|Phrase(tokens[1..])| - 1];
    }
  }

  /** What the loop's candidate line is when the open line is a phrase of trimmed words. */
  lemma CandidatePhrase(line: seq<string>, word: string)
    requires Trimmed(word) && AllTrimmed(line) && "" !in line
    ensures Strip(Phrase(line) + " " + word) == if word == "" then Phrase(line) else Phrase(line + [word])
  {
    PhraseTrimmed(line);
    var raw := Phrase(line) + " " + word;
    if word == "" {
      StripTrailingBlank(Phrase(line));
      assert raw == Phrase(line) + " ";
    } else if line == [] {
      assert raw == " " + word;
      assert raw[1..] == word;
      assert StripLeft(raw) == word;
      assert line + [word] == [word];
    } else {
      JoinAppend(line, word, " ");
      assert raw[|raw| - 1] == word[|word| - 1];
      TrimmedStrips(raw);
    }
  }

  lemma StripTrailingBlank(s: string)
    requires Trimmed(s)
    ensures Strip(s + " ") == s
  {
    if s == "" {
      assert (s + " ")[1..] == "";
    } else {
      assert StripLeft(s + " ") == s + " ";
      assert (s + " ")[..|s|] == s && (s + " ")[|s|] == ' ';
      assert StripRight(s) == s;
    }
  }

  lemma PhraseOne(word: string)
    ensures Phrase([]) == "" && Phrase([word]) == word
  {}

  /** In general the candidate is the phrase without some of its white space. */
  lemma CandidateSlims(current: string, line: seq<string>, word: string)
    requires Slimmer(current, Phrase(line))
    ensures Slimmer(Strip(current + " " + word), Phrase(line + [word]))
    ensures Strip(word) == "" ==> Slimmer(Strip(current + " " + word), Phrase(line))
    ensures Strip(word) == "" ==> Slimmer(Strip(current + " " + word), current)
  {
    hide Slimmer, Strip;
    var raw := current + " " + word;
    StripSlims(raw);
    SlimmerSelf(" " + word);
    SlimmerConcat(current, Phrase(line), " " + word, " " + word);
    assert raw == current + (" " + word);
    if line == [] {
      PhraseOne(word);
      assert line + [word] == [word];
      BlankPrefix(word);
      assert Phrase(line) + (" " + word) == " " + word;
      StripsToSlimmer(raw, word, current);
    } else {
      JoinAppend(line, word, " ");
      assert Phrase(line) + (" " + word) == Phrase(line + [word]);
      SlimmerTransitive(Strip(raw), raw, Phrase(line + [word]));
    }
    if Strip(word) == "" {
      BlankTail(current, word);
      SlimmerTransitive(Strip(raw), current, Phrase(line));
    }
  }

  lemma BlankPrefix(word: string)
    ensures Slimmer(word, " " + word)
  {
    SlimmerSelf(word);
    assert IsSpace(' ') && (" " + word)[1..] == word;
  }

  /** With nothing on the open line the candidate is the trimmed word. */
  lemma StripsToSlimmer(raw: string, word: string, current: string)
    requires raw == current + " " + word && Slimmer(current, "")
    ensures Slimmer(Strip(raw), word)
  {
    assert current == "";
    assert raw == " " + word && raw[1..] == word;
    assert StripLeft(raw) == StripLeft(word);
    StripSlims(word);
  }

  lemma BlankTail(current: string, word: string)
    requires Strip(word) == ""
    ensures Slimmer(Strip(current + " " + word), current)
  {
    InkStrip(word);
    InkNone(word);
    StripIgnoresTail(current, " " + word);
    assert current + " " + word == current + (" " + word);
    StripSlims(current);
  }

  lemma {:induction false} InkNone(s: string)
    requires Ink(s) == ""
    ensures forall i :: 0 <= i < |s| ==> IsSpace(s[i])
  {
    if s != "" {
      InkNone(s[1..]);
      assert forall i :: 1 <= i < |s| ==> s[i] == s[1..][i - 1];
    }
  }

  predicate Blank(s: string) { forall i :: 0 <= i < |s| ==> IsSpace(s[i]) }

  lemma StripIgnoresTail(s: string, blank: string)
    requires Blank(blank)
    ensures Strip(s + blank) == Strip(s)
  {
    StripLeftTail(s, blank);
    StripRightBlank(StripLeft(s), blank);
  }

  lemma {:induction false} StripLeftTail(s: string, blank: string)
    requires Blank(blank)
    ensures StripLeft(s + blank) == if StripLeft(s) == "" then "" else StripLeft(s) + blank
  {
    if s == "" {
      assert s + blank == blank;
      if blank != "" {
        StripLeftTail("", blank[1..]);
        assert "" + blank[1..] == blank[1..];
      }
    } else if IsSpace(s[0]) {
      assert (s + blank)[1..] == s[1..] + blank;
      StripLeftTail(s[1..], blank);
    }
  }

  lemma {:induction false} StripRightBlank(s: string, blank: string)
    requires Blank(blank)
    ensures StripRight(s + blank) == StripRight(s)
  {
    if blank == "" {
      assert s + blank == s;
    } else {
      var whole := s + blank;
      assert whole[|whole| - 1] == blank[|blank| - 1] && whole[..|whole| - 1] == s + blank[..|blank| - 1];
      StripRightBlank(s, blank[..|blank| - 1]);
    }
  }

  /** The open line is the phrase of the words on it, exactly or up to white space. */
  ghost predicate IsOpen(current: string, line: seq<string>, exact: bool) {
    Slimmer(current, Phrase(line)) && (exact ==> current == Phrase(line))
  }

  lemma CandidateIsOpen(current: string, line: seq<string>, word: string, exact: bool, w: Width)
    requires IsOpen(current, line, exact)
    requires if exact then Trimmed(word) && AllTrimmed(line) && "" !in line else BlanksAddWidth(w)
    ensures var candidate := Strip(current + " " + word);
            if Strip(word) == "" then
              IsOpen(candidate, line, exact) && w(candidate) <= w(current) && (line == [] ==> w(candidate) <= w(word))
            else IsOpen(candidate, line + [word], exact) && w(candidate) <= w(Phrase(line + [word]))
  {
    CandidateSlims(current, line, word);
    if exact {
      CandidatePhrase(line, word);
      TrimmedStrips(word);
    } else if Strip(word) == "" {
      StripSlims(word);
      if line == [] {
        assert current == "" && Strip(current + " " + word) == "";
      }
    }
  }

  // ---------------------------------------------------------------- the bound

  lemma WrapEnds(current: string, w: Width, max: real)
    ensures WrapWords([], current, w, max) == Line(current)
  {}

  /** One turn of the loop for a word that fits on a line of its own. */
  lemma WrapStep(words: seq<string>, current: string, w: Width, max: real)
    requires words != [] && w(words[0]) <= max
    ensures var candidate := Strip(current + " " + words[0]);
            WrapWords(words, current, w, max) ==
            if w(candidate) <= max then WrapWords(words[1..], candidate, w, max)
            else Line(current) + WrapWords(words[1..], words[0], w, max)
  {}

  lemma OpenWord(word: string)
    ensures IsOpen(word, [word], true) && IsOpen(word, [word], false)
  {
    SlimmerSelf(word);
    PhraseOne(word);
  }

  /** What the next word does to the open line `current`, which holds `tokens[from..to]`. */
  lemma NextWord(
    words: seq<string>, tokens: seq<string>, from: nat, to: nat, current: string, exact: bool, w: Width, max: real)
    requires words != [] && from <= to <= |tokens| && Tokens(words) == tokens[to..] && FittingWords(words, w, max)
    requires if exact then AllTrimmed(words) && AllTrimmed(tokens) && "" !in tokens else BlanksAddWidth(w)
    requires IsOpen(current, tokens[from..to], exact) && (from < to ==> w(current) <= max)
    ensures FittingWords(words[1..], w, max) && w(words[0]) <= max && (exact ==> AllTrimmed(words[1..]))
    ensures var candidate := Strip(current + " " + words[0]);
            if Strip(words[0]) == "" then
              Tokens(words[1..]) == tokens[to..] && IsOpen(candidate, tokens[from..to], exact) && w(candidate) <= max
            else
              && to < |tokens| && Tokens(words[1..]) == tokens[to + 1..]
              && IsOpen(candidate, tokens[from..to + 1], exact) && IsOpen(words[0], tokens[to..to + 1], exact)
              && w(candidate) <= w(Phrase(tokens[from..to + 1])) && (from == to ==> w(candidate) <= max)
  {
    hide Strip, Phrase, AllTrimmed, BlanksAddWidth, IsOpen, FittingWords, Tokens;
    var line, word := tokens[from..to], words[0];
    TrimmedPart(words, 1, |words|);
    assert words[1..|words|] == words[1..];
    WordsFit(words, w, max);
    TokensStep(words, tokens, from, to);
    TrimmedPart(tokens, from, to);
    CandidateIsOpen(current, line, word, exact, w);
    PhraseOne(word);
    OpenWord(word);
    assert from == to ==> line == [] && line + [word] == [word];
  }

  /**
   Greedy stays ahead. The open line holds `tokens[from..to]`; the rival breaking covers everything from
   `rival <= from` on and therefore still needs at least as many lines.
   */
  lemma {:induction false} GreedyStaysAhead(
    words: seq<string>, tokens: seq<string>, rival: nat, from: nat, to: nat, current: string, exact: bool,
    groups: seq<seq<string>>, w: Width, max: real)
    requires rival <= from <= to <= |tokens| && Tokens(words) == tokens[to..]
    requires FittingWords(words, w, max) && Monotone(tokens, w)
    requires if exact then AllTrimmed(words) && AllTrimmed(tokens) && "" !in tokens else BlanksAddWidth(w)
    requires IsOpen(current, tokens[from..to], exact)
    requires from == to ==> to == 0
    requires from < to ==> w(current) <= max
    requires IsBreaking(groups, tokens[rival..], w, max)
    ensures |WrapWords(words, current, w, max)| <= |groups|
    decreases |words|
  {
    hide Strip, Phrase, AllTrimmed, WrapWords, BlanksAddWidth, IsOpen, Monotone, IsBreaking, FittingWords, Tokens;
    if words == [] {
      WrapEnds(current, w, max);
      NoTokens();
      NoGroups(tokens[rival..], w, max);
      NothingOpen(current, exact);
    } else {
      var word, rest, candidate := words[0], words[1..], Strip(current + " " + words[0]);
      NextWord(words, tokens, from, to, current, exact, w, max);
      WrapStep(words, current, w, max);
      if Strip(word) == "" {
        GreedyStaysAhead(rest, tokens, rival, from, to, candidate, exact, groups, w, max);
      } else if w(candidate) <= max {
        GreedyStaysAhead(rest, tokens, rival, from, to + 1, candidate, exact, groups, w, max);
      } else {
        var end := RivalBreaksEarlier(tokens, rival, from, to, groups, w, max);
        GreedyStaysAhead(rest, tokens, end, to, to + 1, word, exact, groups[1..], w, max);
      }
    }
  }

  lemma NothingOpen(x: string, exact: bool)
    ensures IsOpen(x, [], exact) ==> x == ""
  {}

  lemma NoTokens()
    ensures Tokens([]) == []
  {}

  lemma SuffixHead<T>(s: seq<T>, from: nat, to: nat, x: T, rest: seq<T>)
    requires from <= to <= |s| && s[to..] == [x] + rest
    ensures to < |s| && s[to] == x && rest == s[to + 1..]
    ensures s[from..to] + [x] == s[from..to + 1] && s[to..to + 1] == [x]
  {
    assert |s[to..]| == 1 + |rest|;
    assert s[to..][0] == x && s[to..][1..] == rest;
  }

  lemma TokensOpen(words: seq<string>)
    requires words != []
    ensures Tokens(words) == (if Strip(words[0]) == "" then [] else [words[0]]) + Tokens(words[1..])
  {
    hide Strip;
  }

  /** The next word of the split is the next token, unless it is blank. */
  lemma TokensStep(words: seq<string>, tokens: seq<string>, from: nat, to: nat)
    requires words != [] && from <= to <= |tokens| && Tokens(words) == tokens[to..]
    ensures Strip(words[0]) == "" ==> Tokens(words[1..]) == tokens[to..]
    ensures Strip(words[0]) != "" ==>
              && to < |tokens| && tokens[to] == words[0] && Tokens(words[1..]) == tokens[to + 1..]
              && tokens[from..to] + [words[0]] == tokens[from..to + 1] && tokens[to..to + 1] == [words[0]]
  {
    hide Strip, Tokens;
    TokensOpen(words);
    if Strip(words[0]) != "" {
      SuffixHead(tokens, from, to, words[0], Tokens(words[1..]));
    }
  }

  lemma NoGroups(tokens: seq<string>, w: Width, max: real)
    ensures IsBreaking([], tokens, w, max) ==> tokens == []
  {}

  lemma WordsFit(words: seq<string>, w: Width, max: real)
    requires FittingWords(words, w, max) && words != []
    ensures w(words[0]) <= max && FittingWords(words[1..], w, max)
  {}

  lemma TrimmedPart(words: seq<string>, from: nat, to: nat)
    requires from <= to <= |words|
    ensures AllTrimmed(words) ==> AllTrimmed(words[from..to])
    ensures "" !in words ==> "" !in words[from..to]
    ensures AllTrimmed(words) && words != [] ==> Trimmed(words[0])
  {}

  /** The rival's first line cannot reach beyond the word that no longer fits on the greedy line. */
  lemma RivalBreaksEarlier(
    tokens: seq<string>, rival: nat, from: nat, to: nat, groups: seq<seq<string>>, w: Width, max: real)
    returns (end: nat)
    requires rival <= from <= to < |tokens| && Monotone(tokens, w)
    requires w(Phrase(tokens[from..to + 1])) > max
    requires IsBreaking(groups, tokens[rival..], w, max)
    ensures groups != [] && end <= to && IsBreaking(groups[1..], tokens[end..], w, max)
  {
    assert |Flatten(groups)| > 0;
    var first := groups[0];
    assert first in groups;
    end := rival + |first|;
    assert first + Flatten(groups[1..]) == tokens[rival..];
    assert first == tokens[rival..][..|first|] == tokens[rival..end];
    assert Flatten(groups[1..]) == tokens[rival..][|first|..] == tokens[end..];
    InsideIsNoWider(tokens, w, rival, from, to + 1, end);
  }

  lemma InsideIsNoWider(tokens: seq<string>, w: Width, a: int, b: int, c: int, d: int)
    requires 0 <= a <= b < c && Monotone(tokens, w)
    ensures c <= d <= |tokens| ==> w(Phrase(tokens[b..c])) <= w(Phrase(tokens[a..d]))
  {
    if c <= d <= |tokens| {
      assert NoWider(tokens, w, a, b, c, d);
    }
  }

  lemma {:induction false} TokensFacts(words: seq<string>)
    ensures "" !in Tokens(words) && (AllTrimmed(words) ==> AllTrimmed(Tokens(words)))
  {
    if words != [] {
      TokensFacts(words[1..]);
      assert AllTrimmed(words) ==> AllTrimmed(words[1..]) && Trimmed(words[0]);
    }
  }

  lemma {:induction false} SplitHasToken(s: string)
    requires s != "" && !IsSpace(s[0])
    ensures Tokens(Split(s, ' ')) != []
  {
    var first := Split(s, ' ')[0];
    assert s[0] != ' ' && first != "" && first[0] == s[0];
    FirstStays(first);
  }

  lemma FirstStays(s: string)
    requires s != "" && !IsSpace(s[0])
    ensures Strip(s) != ""
  {
    InkStrip(s);
  }

  /**
   When width grows with the phrase and every word fits, no way of breaking the text at blanks into fitting lines
   uses fewer lines than the wrapper. Words may carry further white space if leaving it out does not widen a line.
   */
  lemma GreedyIsOptimal(text: string, groups: seq<seq<string>>, w: Width, max: real)
    requires var words := Split(Strip(text), ' ');
             && FittingWords(words, w, max) && Tidy(words, w) && Monotone(Tokens(words), w)
             && IsBreaking(groups, Tokens(words), w, max)
    ensures |Wrapped(text, w, max)| <= |groups|
  {
    var t := Strip(text);
    var words := Split(t, ' ');
    var tokens := Tokens(words);
    TokensFacts(words);
    if t != "" {
      SplitHasToken(t);
      assert groups != [];
      assert tokens[0..] == tokens && tokens[0..0] == [];
      PhraseOne("");
      hide WrapWords, Strip, Split, Monotone, BlanksAddWidth, Trimmed;
      GreedyStaysAhead(words, tokens, 0, 0, 0, "", AllTrimmed(words), groups, w, max);
    }
  }

  /** A width that a tab narrows: the text fits on two lines when the tab is kept, and the wrapper drops it. */
  function TabWidth(s: string): real {
    if |s| <= 2 then 1.0 else if s == "a\t b" then 2.0 else 3.0
  }

  /** Without tidiness the bound fails: three words with a tab after the first one, wrapped to three lines, fit on two. */
  lemma UntidyExample()
    ensures var text, groups := "a\t b c", [["a\t", "b"], ["c"]];
            var words := Split(Strip(text), ' ');
            && FittingWords(words, TabWidth, 2.0) && Monotone(Tokens(words), TabWidth)
            && IsBreaking(groups, Tokens(words), TabWidth, 2.0)
            && |Wrapped(text, TabWidth, 2.0)| == 3 > |groups|
  {
    hide Strip, Split, Tokens, WrapWords, Join, Monotone;
    UntidySplit();
    UntidyTokens();
    UntidyWidths();
    UntidyLines();
    UntidyGroups();
    assert TabWidth("a\t b c") == 3.0;
  }

  lemma UntidySplit()
    ensures Strip("a\t b c") == "a\t b c" && Split("a\t b c", ' ') == ["a\t", "b", "c"]
  {
    var words := ["a\t", "b", "c"];
    TrimmedStrips("a\t b c");
    assert words[1..] == ["b", "c"] && words[1..][1..] == ["c"];
    assert Join(["b", "c"], " ") == "b c" && Join(words, " ") == "a\t b c";
    SplitJoin(words, ' ');
  }

  lemma UntidyGroups()
    ensures Flatten([["a\t", "b"], ["c"]]) == ["a\t", "b", "c"] && Phrase(["c"]) == "c"
  {
    assert [["a\t", "b"], ["c"]][1..] == [["c"]] && [["c"]][1..] == [];
    assert Flatten([["c"]]) == ["c"] + Flatten([]);
    PhraseOne("c");
  }

  lemma UntidyTokens()
    ensures Tokens(["a\t", "b", "c"]) == ["a\t", "b", "c"]
  {
    var words := ["a\t", "b", "c"];
    FirstStays("a\t");
    FirstStays("b");
    FirstStays("c");
    assert words[1..] == ["b", "c"] && words[1..][1..] == ["c"] && words[1..][1..][1..] == [];
    assert Tokens(["c"]) == ["c"] + Tokens([]) == ["c"];
    assert Tokens(["b", "c"]) == ["b"] + Tokens(["c"]);
  }

  lemma UntidyWidths()
    ensures Monotone(["a\t", "b", "c"], TabWidth)
    ensures Phrase(["a\t", "b"]) == "a\t b"
  {
    var tokens := ["a\t", "b", "c"];
    assert ["a\t", "b"][1..] == ["b"] && tokens[1..] == ["b", "c"] && tokens[1..][1..] == ["c"];
    forall a, b, c, d | 0 <= a <= b < c <= d <= |tokens| ensures NoWider(tokens, TabWidth, a, b, c, d) {
      if c == b + 1 {
        assert tokens[b..c] == [tokens[b]];
        PhraseOne(tokens[b]);
      } else if b == a && c == d {
      } else {
        assert a == 0 && d == 3;
        assert tokens[0..3] == tokens && |Phrase(tokens)| == 6;
        assert TabWidth(Phrase(tokens[a..d])) == 3.0;
      }
    }
  }

  lemma TabStrips(raw: string)
    requires StripLeft(raw) == "a\t"
    ensures Strip(raw) == "a"
  {
    var s := "a\t";
    assert s[..|s| - 1] == "a" && IsSpace(s[1]) && !IsSpace('a');
    assert StripRight("a") == "a";
    assert StripRight(s) == StripRight(s[..|s| - 1]);
  }

  lemma UntidyLines()
    ensures WrapWords(["a\t", "b", "c"], "", TabWidth, 2.0) == ["a", "b", "c"]
  {
    var words := ["a\t", "b", "c"];
    assert words[1..] == ["b", "c"] && words[1..][1..] == ["c"] && words[1..][1..][1..] == [];
    var raw := "" + " " + "a\t";
    assert raw[1..] == "a\t" && StripLeft(raw) == "a\t";
    assert "a\t"[..1] == "a";
    TabStrips(raw);
    TrimmedStrips("a" + " " + "b");
    TrimmedStrips("b" + " " + "c");
    hide Strip, WrapWords;
    WrapStep(words, "", TabWidth, 2.0);
    WrapStep(["b", "c"], "a", TabWidth, 2.0);
    WrapStep(["c"], "b", TabWidth, 2.0);
    WrapEnds("c", TabWidth, 2.0);
    assert ["b"] + ["c"] == ["b", "c"] && ["a"] + ["b", "c"] == ["a", "b", "c"];
  }

  // ---------------------------------------------------------------- the bound is reached

  /** Each line fits and shows the words of its group, up to white space and exactly for trimmed words. */
  ghost predicate Shows(lines: seq<string>, groups: seq<seq<string>>, exact: bool, w: Width, max: real) {
    |lines| == |groups| && forall i :: 0 <= i < |lines| ==>
      groups[i] != [] && w(lines[i]) <= max && IsOpen(lines[i], groups[i], exact)
  }

  lemma InkyWord(current: string, word: string)
    ensures Strip(word) != "" ==> Ink(word) != ""
    ensures Ink(current) != "" || Strip(word) != "" ==> Ink(Strip(current + " " + word)) != ""
  {
    hide Ink;
    InkCandidate(current, word);
    InkStrip(word);
    InkOfFirst(Strip(word));
  }

  lemma InkOfFirst(s: string)
    ensures s != "" && !IsSpace(s[0]) ==> Ink(s) != ""
    ensures Ink("") == ""
  {}

  lemma ShowsCons(line: seq<string>, current: string, lines: seq<string>, more: seq<seq<string>>, exact: bool, w: Width, max: real)
    requires line != [] && w(current) <= max && IsOpen(current, line, exact) && Shows(lines, more, exact, w, max)
    ensures Shows([current] + lines, [line] + more, exact, w, max)
    ensures Flatten([line] + more) == line + Flatten(more)
  {
    assert ([line] + more)[1..] == more;
  }

  /** The greedy lines take the words in order, so for trimmed words they are themselves such a breaking. */
  lemma {:induction false} GreedyIsBreaking(
    words: seq<string>, line: seq<string>, current: string, exact: bool, w: Width, max: real)
    returns (groups: seq<seq<string>>)
    requires FittingWords(words, w, max) && IsOpen(current, line, exact)
    requires if exact then AllTrimmed(words) && AllTrimmed(line) && "" !in line else BlanksAddWidth(w)
    requires if line == [] then current == "" else w(current) <= max && Ink(current) != ""
    ensures Shows(WrapWords(words, current, w, max), groups, exact, w, max)
    ensures Flatten(groups) == line + Tokens(words)
    decreases |words|
  {
    hide Strip, Join, Trimmed, WrapWords, BlanksAddWidth, Slimmer, Ink;
    if words == [] {
      WrapEnds(current, w, max);
      InkOfFirst(current);
      groups := if line == [] then [] else [line];
      assert line + Tokens(words) == line == line + Flatten([]);
      assert line != [] ==> [line][1..] == [];
    } else {
      var word, rest := words[0], words[1..];
      var candidate := Strip(current + " " + word);
      CandidateIsOpen(current, line, word, exact, w);
      WrapStep(words, current, w, max);
      InkyWord(current, word);
      PhraseOne(word);
      InkOfFirst("");
      if Strip(word) == "" {
        BlankOnNothing(word);
        groups := GreedyIsBreaking(rest, line, candidate, exact, w, max);
        assert Tokens(words) == [] + Tokens(rest) == Tokens(rest);
      } else if w(candidate) <= max {
        WordIsNotEmpty(word);
        groups := GreedyIsBreaking(rest, line + [word], candidate, exact, w, max);
        ConcatAssoc(line, [word], Tokens(rest));
      } else {
        assert line == [] ==> line + [word] == [word];
        OpenWord(word);
        WordIsNotEmpty(word);
        var more := GreedyIsBreaking(rest, [word], word, exact, w, max);
        groups := [line] + more;
        ShowsCons(line, current, WrapWords(rest, word, w, max), more, exact, w, max);
      }
    }
  }

  lemma WordIsNotEmpty(word: string)
    ensures Strip(word) != "" ==> word != ""
  {}

  lemma BlankOnNothing(word: string)
    requires Strip(word) == ""
    ensures Strip("" + " " + word) == ""
  {
    BlankTail("", word);
  }

  /** For trimmed words the greedy lines are the phrases of a breaking, with as many groups as lines. */
  lemma GreedyLinesAreBreaking(text: string, w: Width, max: real) returns (groups: seq<seq<string>>)
    requires var words := Split(Strip(text), ' '); FittingWords(words, w, max) && AllTrimmed(words)
    requires w(Strip(text)) > max && Strip(text) != ""
    ensures IsBreaking(groups, Tokens(Split(Strip(text), ' ')), w, max)
    ensures |groups| == |Wrapped(text, w, max)|
    ensures forall i :: 0 <= i < |groups| ==> Phrase(groups[i]) == Wrapped(text, w, max)[i]
  {
    hide Strip, Split, Join, WrapWords;
    var words := Split(Strip(text), ' ');
    PhraseOne("");
    SlimmerSelf("");
    groups := GreedyIsBreaking(words, [], "", true, w, max);
    assert [] + Tokens(words) == Tokens(words);
    forall g | g in groups ensures g != [] && w(Phrase(g)) <= max {
      var i :| 0 <= i < |groups| && groups[i] == g;
      assert WrapWords(words, "", w, max)[i] == Phrase(groups[i]);
    }
  }
}
