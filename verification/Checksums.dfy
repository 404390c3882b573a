/** The checksum manifest: how it is printed, how it is parsed, and on which member names the two agree. */
module Checksums {
  import opened Prelude
  import opened Strings

  const DIGEST_LENGTH := 64

  predicate IsHexDigit(c: char) { '0' <= c <= '9' || 'a' <= c <= 'f' }

  /** A sha256 in lower-case hexadecimal. */
  predicate IsDigest(d: string) {
    |d| == DIGEST_LENGTH && forall i :: 0 <= i < |d| ==> IsHexDigit(d[i])
  }

  /** Every line ends with a newline. */
  function Unlines(lines: seq<string>): string {
    if lines == [] then "" else lines[0] + "\n" + Unlines(lines[1..])
  }

  /** `text.splitlines()` */
  function Lines(text: string): seq<string>
    decreases |text|
  {
    if text == "" then []
    else
      var n := LineLength(text);
      if n == |text| then [text]
      else
        var next := if text[n] == '\r' && n + 1 < |text| && text[n + 1] == '\n' then n + 2 else n + 1;
        [text[..n]] + Lines(text[next..])
  }

  function LineLength(text: string): (n: nat)
    ensures n <= |text|
  {
    if text == "" || IsLineBreak(text[0]) then 0 else 1 + LineLength(text[1..])
  }

  /** `name.lstrip("*")` */
  function DropStars(name: string): string {
    if name != "" && name[0] == '*' then DropStars(name[1..]) else name
  }

  function LowerChar(c: char): char {
    if 'A' <= c <= 'Z' then c - 'A' + 'a' else c
  }

  function Lower(s: string): string { seq(|s|, i requires 0 <= i < |s| => LowerChar(s[i])) }

  /** `line.partition(sep)`, without the separator. */
  function Partition(line: string, sep: string): (string, string) {
    match IndexOf(line, sep)
    case None => (line, "")
    case Some(i) => (line[..i], line[i + |sep|..])
  }

  /** The member and the digest a line records, if any. */
  function ParseLine(raw: string): Option<(string, string)> {
    var line := Strip(raw);
    if line == "" || line[0] == '#' then None
    else
      var wide := Partition(line, "  ");
      var pair := if wide.1 == "" then Partition(line, " ") else wide;
      if pair.0 == "" || pair.1 == "" then None
      else Some((DropStars(Strip(pair.1)), Lower(Strip(pair.0))))
  }

  function ParseLines(lines: seq<string>, found: map<string, string>): map<string, string>
    decreases |lines|
  {
    if lines == [] then found
    else match ParseLine(lines[0])
      case None => ParseLines(lines[1..], found)
      case Some((name, digest)) => ParseLines(lines[1..], found[name := digest])
  }

  /** `_parse_checksums`: later lines win. */
  method ParseChecksums(text: string) returns (found: map<string, string>)
    ensures found == ParseLines(Lines(text), map[])
  {
    found := map[];
    var lines := Lines(text);
    for i := 0 to |lines|
      invariant ParseLines(lines, map[]) == ParseLines(lines[i..], found)
    {
      match ParseLine(lines[i]) {
        case None =>
        case Some((name, digest)) => found := found[name := digest];
      }
    }
  }

  function EntryLine(entry: (string, string)): string { entry.1 + "  " + entry.0 }

  function EntryLines(entries: seq<(string, string)>): seq<string> {
    seq(|entries|, i requires 0 <= i < |entries| => EntryLine(entries[i]))
  }

  /** The manifest: comment lines, then `entries`, pairs of a member name and its digest, in that order. */
  function PrintChecksums(comments: seq<string>, entries: seq<(string, string)>): string {
    Unlines(comments + EntryLines(entries))
  }

  // ---------------------------------------------------------------- one line

  predicate OneLine(s: string) { forall i :: 0 <= i < |s| ==> !IsLineBreak(s[i]) }

  /** A member name that survives the manifest. */
  predicate SafeName(name: string) { name != "" && Trimmed(name) && name[0] != '*' }

  lemma {:induction false} IndexAfter(head: string, sep: string, tail: string)
    requires sep != "" && forall i :: 0 <= i < |head| ==> head[i] != sep[0]
    ensures IndexOf(head + (sep + tail), sep) == Some(|head|)
  {
    var s := head + (sep + tail);
    if head == "" {
      assert s == sep + tail;
    } else {
      assert s[0] == head[0];
      assert s[1..] == head[1..] + (sep + tail);
      IndexAfter(head[1..], sep, tail);
    }
  }

  lemma PrefixStarts(prefix: string, s: string)
    requires prefix != ""
    ensures prefix <= s ==> s != "" && s[0] == prefix[0]
  {}

  lemma {:induction false} NoSeparator(s: string, sep: string)
    requires sep != "" && forall i :: 0 <= i < |s| ==> s[i] != sep[0]
    ensures IndexOf(s, sep) == None
  {
    PrefixStarts(sep, s);
    if s != "" {
      NoSeparator(s[1..], sep);
    }
  }

  lemma DigestFacts(digest: string)
    requires IsDigest(digest)
    ensures Trimmed(digest) && Lower(digest) == digest
    ensures forall i :: 0 <= i < |digest| ==> digest[i] != ' ' && !IsSpace(digest[i]) && digest[i] != '#'
  {}

  lemma {:induction false} StripRightTail(head: string, tail: string)
    requires head != "" && !IsSpace(head[|head| - 1])
    ensures StripRight(head + tail) == head + StripRight(tail)
    decreases |tail|
  {
    if tail == "" {
      assert head + tail == head;
    } else if IsSpace(tail[|tail| - 1]) {
      assert (head + tail)[..|head + tail| - 1] == head + tail[..|tail| - 1];
      StripRightTail(head, tail[..|tail| - 1]);
    }
  }

  lemma {:induction false} DropStarsShortens(name: string)
    ensures |DropStars(name)| <= |name| && (name != "" && name[0] == '*' ==> |DropStars(name)| < |name|)
  {
    if name != "" && name[0] == '*' {
      DropStarsShortens(name[1..]);
    }
  }

  /** What a printed line is parsed to, given what is left of the name once the line is trimmed. */
  lemma LineSplits(name: string, digest: string)
    requires IsDigest(digest)
    ensures var left := StripRight("  " + name);
            ParseLine(EntryLine((name, digest))) ==
            if |left| <= 2 then None else Some((DropStars(Strip(left[2..])), digest))
  {
    DigestFacts(digest);
    var raw := EntryLine((name, digest));
    var left := StripRight("  " + name);
    assert raw == digest + ("  " + name);
    StripRightTail(digest, "  " + name);
    assert Strip(raw) == digest + left;
    if |left| <= 2 {
      assert left == "";
      assert digest + left == digest;
      NoSeparator(digest, "  ");
      NoSeparator(digest, " ");
    } else {
      assert left == "  " + left[2..];
      IndexAfter(digest, "  ", left[2..]);
      assert (digest + left)[DIGEST_LENGTH + 2..] == left[2..] && (digest + left)[..DIGEST_LENGTH] == digest;
      TrimmedStrips(digest);
    }
  }

  /** The digest in capital or small letters, mixed at will. */
  predicate SameButCase(written: string, digest: string) {
    && |written| == |digest|
    && forall i :: 0 <= i < |digest| ==>
         written[i] == digest[i] || ('A' <= written[i] <= 'Z' && digest[i] as int == written[i] as int + 32)
  }

  /** The case of the letters of a digest does not matter. */
  lemma CaseDoesNotMatter(written: string, digest: string)
    requires IsDigest(digest) && SameButCase(written, digest)
    ensures Lower(written) == digest
  {
    DigestFacts(digest);
    assert forall i :: 0 <= i < |digest| ==> Lower(digest)[i] == LowerChar(digest[i]) == digest[i];
  }

  /** A printed line is parsed back to its entry exactly when the member name is safe. */
  lemma LineParses(name: string, digest: string)
    requires IsDigest(digest)
    ensures ParseLine(EntryLine((name, digest))) == Some((name, digest)) <==> SafeName(name)
  {
    if SafeName(name) {
      SafeLineParses(name, digest);
    } else {
      UnsafeLineDiffers(name, digest);
    }
  }

  lemma SafeLineParses(name: string, digest: string)
    requires IsDigest(digest) && SafeName(name)
    ensures ParseLine(EntryLine((name, digest))) == Some((name, digest))
  {
    LineSplits(name, digest);
    hide IsDigest, EntryLine, ParseLine;
    var left := StripRight("  " + name);
    assert ("  " + name)[|name| + 1] == name[|name| - 1];
    assert left == "  " + name && left[2..] == name;
    TrimmedStrips(name);
  }

  lemma UnsafeLineDiffers(name: string, digest: string)
    requires IsDigest(digest) && !SafeName(name)
    ensures ParseLine(EntryLine((name, digest))) != Some((name, digest))
  {
    LineSplits(name, digest);
    hide IsDigest, EntryLine, ParseLine, StripRight, Strip, SafeName, DropStars, IsSpace;
    var left := StripRight("  " + name);
    if |left| > 2 {
      PrefixTail("  ", name, left);
      UnsafeNameShrinks(left[2..], name);
    }
  }

  lemma PrefixTail(head: string, tail: string, part: string)
    requires part <= head + tail && |part| > |head|
    ensures part[|head|..] <= tail && tail != ""
  {}

  /** A name that is not safe cannot be what is read from a part of it. */
  lemma UnsafeNameShrinks(kept: string, name: string)
    requires kept <= name && name != "" && !SafeName(name)
    ensures DropStars(Strip(kept)) != name
  {
    var core := Strip(kept);
    hide Strip, IsSpace;
    DropStarsShortens(core);
    if |core| == |name| && core != "" && core[0] != '*' {
      assert Trimmed(core) && DropStars(core) == core;
    }
  }

  // ---------------------------------------------------------------- the whole manifest

  lemma {:induction false} LineLengthOf(line: string, rest: string)
    requires OneLine(line)
    ensures LineLength(line + ("\n" + rest)) == |line|
  {
    var text := line + ("\n" + rest);
    if line != "" {
      assert text[0] == line[0] && text[1..] == line[1..] + ("\n" + rest);
      LineLengthOf(line[1..], rest);
    }
  }

  lemma LineOpens(line: string, rest: string)
    requires OneLine(line)
    ensures Lines(line + ("\n" + rest)) == [line] + Lines(rest)
  {
    var text := line + ("\n" + rest);
    LineLengthOf(line, rest);
    hide OneLine, LineLength;
    assert text[..|line|] == line && text[|line| + 1..] == rest;
  }

  lemma {:induction false} LinesOfUnlines(lines: seq<string>)
    requires forall i :: 0 <= i < |lines| ==> OneLine(lines[i])
    ensures Lines(Unlines(lines)) == lines
  {
    hide LineLength, OneLine;
    if lines != [] {
      hide Lines;
      var rest := Unlines(lines[1..]);
      var text := Unlines(lines);
      LineOpens(lines[0], rest);
      assert text == lines[0] + ("\n" + rest) by {
        ConcatAssoc(lines[0], "\n", rest);
      }
      LinesOfUnlines(lines[1..]);
      assert lines == [lines[0]] + lines[1..];
    }
  }

  /** The entries as a map; a later entry for the same member wins. */
  function Recorded(entries: seq<(string, string)>, found: map<string, string>): map<string, string>
    decreases |entries|
  {
    if entries == [] then found else Recorded(entries[1..], found[entries[0].0 := entries[0].1])
  }

  predicate SafeEntries(entries: seq<(string, string)>) {
    forall e <- entries :: SafeName(e.0) && OneLine(e.0) && IsDigest(e.1)
  }

  lemma {:induction false} EntriesParse(entries: seq<(string, string)>, found: map<string, string>)
    requires SafeEntries(entries)
    ensures ParseLines(EntryLines(entries), found) == Recorded(entries, found)
    decreases |entries|
  {
    hide ParseLine, EntryLine, SafeName, OneLine, IsDigest;
    if entries != [] {
      var e := entries[0];
      assert e in entries;
      LineParses(e.0, e.1);
      assert EntryLines(entries)[1..] == EntryLines(entries[1..]);
      assert EntryLines(entries)[0] == EntryLine((e.0, e.1));
      EntriesParse(entries[1..], found[e.0 := e.1]);
    }
  }

  predicate AreComments(lines: seq<string>) {
    forall i :: 0 <= i < |lines| ==> lines[i] != "" && lines[i][0] == '#' && OneLine(lines[i])
  }

  lemma {:induction false} StripKeepsFirst(s: string)
    requires s != "" && !IsSpace(s[0])
    ensures Strip(s) != "" && Strip(s)[0] == s[0]
  {
    StripRightTail(s[..1], s[1..]);
    assert s == s[..1] + s[1..];
  }

  lemma {:induction false} CommentsParse(comments: seq<string>, lines: seq<string>, found: map<string, string>)
    requires AreComments(comments)
    ensures ParseLines(comments + lines, found) == ParseLines(lines, found)
    decreases |comments|
  {
    if comments == [] {
      assert comments + lines == lines;
    } else {
      StripKeepsFirst(comments[0]);
      assert ParseLine(comments[0]) == None;
      assert (comments + lines)[0] == comments[0] && (comments + lines)[1..] == comments[1..] + lines;
      CommentsParse(comments[1..], lines, found);
    }
  }

  lemma EntryLinesOneLine(entries: seq<(string, string)>)
    requires SafeEntries(entries)
    ensures forall i :: 0 <= i < |entries| ==> OneLine(EntryLines(entries)[i])
  {
    forall i | 0 <= i < |entries| ensures OneLine(EntryLines(entries)[i]) {
      var e := entries[i];
      assert e in entries;
      DigestFacts(e.1);
      assert OneLine(e.1) && OneLine("  ");
    }
  }

  /** Printing and parsing the manifest are inverse. */
  lemma ManifestRoundTrip(comments: seq<string>, entries: seq<(string, string)>)
    requires AreComments(comments) && SafeEntries(entries)
    ensures ParseLines(Lines(PrintChecksums(comments, entries)), map[]) == Recorded(entries, map[])
  {
    EntryLinesOneLine(entries);
    LinesOfUnlines(comments + EntryLines(entries));
    CommentsParse(comments, EntryLines(entries), map[]);
    EntriesParse(entries, map[]);
  }
}
