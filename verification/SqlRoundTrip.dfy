/** Reading back what the dumper prints: literals, rows, statements and whole data sections. */
module SqlRoundTrip {
  import opened Prelude
  import opened SqlText

  // ---------------------------------------------------------------- scanning

  lemma {:induction false} SpanStops(word: string, rest: string, p: char -> bool)
    requires forall i :: 0 <= i < |word| ==> p(word[i])
    requires rest == "" || !p(rest[0])
    ensures Span(word + rest, p) == |word|
    ensures (word + rest)[..|word|] == word && (word + rest)[|word|..] == rest
  {
    if word == "" {
      assert word + rest == rest;
    } else {
      assert (word + rest)[1..] == word[1..] + rest;
      SpanStops(word[1..], rest, p);
    }
  }

  /** `rest` starts with the comma or parenthesis that follows a constant or an identifier. */
  predicate Delimited(rest: string) {
    rest != "" && (rest[0] == ',' || rest[0] == ')')
  }

  // ---------------------------------------------------------------- numbers

  lemma {:induction false} DecimalReads(n: nat)
    ensures Decimal(n) != "" && forall i :: 0 <= i < |Decimal(n)| ==> IsDigit(Decimal(n)[i])
    ensures NatOf(Decimal(n)) == n
  {
    if n < 10 {
      assert Decimal(n)[..0] == "";
    } else {
      DecimalReads(n / 10);
      assert Decimal(n)[..|Decimal(n)| - 1] == Decimal(n / 10);
    }
  }

  lemma NumberReads(n: nat, rest: string)
    requires Delimited(rest)
    ensures ReadNumber(Decimal(n) + rest) == Got(n, rest)
  {
    DecimalReads(n);
    SpanStops(Decimal(n), rest, IsDigit);
  }

  // ---------------------------------------------------------------- strings

  lemma Assoc(a: string, b: string, c: string)
    ensures (a + b) + c == a + (b + c)
  {}

  lemma PlainStep(c: char, text: string)
    ensures c != '\'' && c != NUL ==> ReadPlain([c] + text) == Prepend(c, ReadPlain(text))
    ensures ReadPlain("''" + text) == Prepend('\'', ReadPlain(text))
    ensures ReadPlain([NUL] + text) == Fail
  {
    assert ([c] + text)[1..] == text;
    assert ("''" + text)[2..] == text;
  }

  lemma PlainEnds(rest: string)
    requires Delimited(rest)
    ensures ReadPlain("'" + rest) == Got("", rest) && ReadEscaped("'" + rest) == Got("", rest)
  {
    assert ("'" + rest)[1..] == rest;
  }

  /** A plain constant is read back exactly when it holds no NUL. */
  lemma {:induction false} PlainReads(s: string, rest: string)
    requires Delimited(rest)
    ensures ReadPlain(ReplaceChar(s, '\'', "''") + ("'" + rest)) == if NulFree(s) then Got(s, rest) else Fail
  {
    var tail := "'" + rest;
    if s == "" {
      assert ReplaceChar(s, '\'', "''") + tail == tail;
      PlainEnds(rest);
    } else {
      PlainReads(s[1..], rest);
      var more := ReplaceChar(s[1..], '\'', "''");
      assert s == [s[0]] + s[1..];
      Assoc(if s[0] == '\'' then "''" else [s[0]], more, tail);
      PlainStep(s[0], more + tail);
    }
  }

  /** What the replacement chain makes of one character. */
  function EscapeOf(c: char): string {
    if c == '\\' then "\\\\"
    else if c == '\'' then "''"
    else if c == '\n' then "\\n"
    else if c == '\r' then "\\r"
    else if c == '\t' then "\\t"
    else [c]
  }

  function EscapeEach(s: string): string {
    if s == "" then "" else EscapeOf(s[0]) + EscapeEach(s[1..])
  }

  lemma {:induction false} ReplaceConcat(a: string, b: string, c: char, sub: string)
    ensures ReplaceChar(a + b, c, sub) == ReplaceChar(a, c, sub) + ReplaceChar(b, c, sub)
  {
    if a == "" {
      assert a + b == b;
    } else {
      assert (a + b)[1..] == a[1..] + b;
      ReplaceConcat(a[1..], b, c, sub);
    }
  }

  lemma ReplaceOne(b: char, c: char, sub: string)
    ensures ReplaceChar([b], c, sub) == if b == c then sub else [b]
  {
    assert [b][1..] == "";
    assert ReplaceChar("", c, sub) == "";
  }

  lemma {:induction false} Untouched(s: string, c: char, sub: string)
    requires c !in s
    ensures ReplaceChar(s, c, sub) == s
  {
    if s != "" {
      Untouched(s[1..], c, sub);
    }
  }

  /** One replacement of the chain, applied to what the earlier ones made of a character. */
  lemma ChainStep(c: char, made: string, d: char, sub: string)
    requires if c == d then made == [c] else d !in made
    ensures ReplaceChar(made, d, sub) == if c == d then sub else made
  {
    if c == d {
      ReplaceOne(c, d, sub);
    } else {
      Untouched(made, d, sub);
    }
  }

  lemma EscapeChainOne(c: char)
    ensures EscapeChain([c]) == EscapeOf(c)
  {
    hide ReplaceChar;
    ChainStep(c, [c], '\\', "\\\\");
    var a := if c == '\\' then "\\\\" else [c];
    ChainStep(c, a, '\'', "''");
    var b := if c == '\'' then "''" else a;
    ChainStep(c, b, '\n', "\\n");
    var d := if c == '\n' then "\\n" else b;
    ChainStep(c, d, '\r', "\\r");
    var e := if c == '\r' then "\\r" else d;
    ChainStep(c, e, '\t', "\\t");
  }

  /** The five replacements, in their order, never touch each other's output. */
  lemma {:induction false} EscapeChainIsCharwise(s: string)
    ensures EscapeChain(s) == EscapeEach(s)
  {
    if s != "" {
      var head, tail := [s[0]], s[1..];
      assert s == head + tail;
      EscapeChainIsCharwise(tail);
      EscapeChainOne(s[0]);
      var h1, t1 := ReplaceChar(head, '\\', "\\\\"), ReplaceChar(tail, '\\', "\\\\");
      ReplaceConcat(head, tail, '\\', "\\\\");
      var h2, t2 := ReplaceChar(h1, '\'', "''"), ReplaceChar(t1, '\'', "''");
      ReplaceConcat(h1, t1, '\'', "''");
      var h3, t3 := ReplaceChar(h2, '\n', "\\n"), ReplaceChar(t2, '\n', "\\n");
      ReplaceConcat(h2, t2, '\n', "\\n");
      ReplaceConcat(h3, t3, '\r', "\\r");
      ReplaceConcat(ReplaceChar(h3, '\r', "\\r"), ReplaceChar(t3, '\r', "\\r"), '\t', "\\t");
    }
  }

  lemma EscapedStep(c: char, text: string)
    ensures ReadEscaped(EscapeOf(c) + text) == if c == NUL then Fail else Prepend(c, ReadEscaped(text))
  {
    var whole := EscapeOf(c) + text;
    if EscapeOf(c) == [c] {
      assert whole[0] == c && whole[1..] == text;
    } else {
      assert whole[0] == EscapeOf(c)[0] && whole[1] == EscapeOf(c)[1] && whole[2..] == text;
    }
  }

  lemma {:induction false} EscapedReads(s: string, rest: string)
    requires Delimited(rest)
    ensures ReadEscaped(EscapeEach(s) + ("'" + rest)) == if NulFree(s) then Got(s, rest) else Fail
  {
    var tail := "'" + rest;
    if s == "" {
      assert EscapeEach(s) + tail == tail;
      PlainEnds(rest);
    } else {
      EscapedReads(s[1..], rest);
      var more := EscapeEach(s[1..]);
      assert s == [s[0]] + s[1..];
      Assoc(EscapeOf(s[0]), more, tail);
      EscapedStep(s[0], more + tail);
    }
  }

  function StringRead(r: Parsed<string>): Parsed<Constant> {
    match r case Fail => Fail case Got(s, rest) => Got(StringConst(s), rest)
  }

  lemma ConstantOpens(text: string)
    ensures ReadConstant("'" + text) == StringRead(ReadPlain(text))
    ensures ReadConstant("E'" + text) == StringRead(ReadEscaped(text))
  {
    assert ("'" + text)[1..] == text;
    assert ("E'" + text)[2..] == text;
  }

  /** A string constant is read back, whatever it holds, exactly when it holds no NUL. */
  lemma TextLiteralReads(s: string, rest: string)
    requires Delimited(rest)
    ensures ReadConstant(SqlLiteral(Text(s)) + rest) == if NulFree(s) then Got(StringConst(s), rest) else Fail
  {
    hide ReadConstant, ReadPlain, ReadEscaped, ReplaceChar, EscapeChain, EscapeEach;
    if exists i :: 0 <= i < |s| && NeedsEscape(s[i]) {
      var body := EscapeChain(s);
      Assoc("E'" + body, "'", rest);
      Assoc("E'", body, "'" + rest);
      EscapeChainIsCharwise(s);
      EscapedReads(s, rest);
      ConstantOpens(body + ("'" + rest));
    } else {
      var body := ReplaceChar(s, '\'', "''");
      Assoc("'" + body, "'", rest);
      Assoc("'", body, "'" + rest);
      PlainReads(s, rest);
      ConstantOpens(body + ("'" + rest));
    }
  }

  lemma HexStep(b: byte, more: string)
    ensures HexBytes([HexChar(b / 16), HexChar(b % 16)] + more) ==
            match HexBytes(more) case None => None case Some(data) => Some([b] + data)
  {
    assert ([HexChar(b / 16), HexChar(b % 16)] + more)[2..] == more;
  }

  lemma {:induction false} HexReads(data: seq<byte>)
    ensures HexBytes(Hex(data)) == Some(data)
    ensures '\'' !in Hex(data) && NUL !in Hex(data)
  {
    if data != [] {
      HexReads(data[1..]);
      HexStep(data[0], Hex(data[1..]));
      assert data == [data[0]] + data[1..];
    }
  }

  lemma BytesLiteralReads(data: seq<byte>, rest: string)
    requires Delimited(rest)
    ensures ReadConstant(SqlLiteral(Bytes(data)) + rest) == Got(StringConst("\\x" + Hex(data)), rest)
    ensures Coerce(BytesColumn, StringConst("\\x" + Hex(data))) == Some(Bytes(data))
  {
    hide ReadConstant, ReadPlain, ReplaceChar, Hex, HexBytes;
    HexReads(data);
    var s := "\\x" + Hex(data);
    assert s[2..] == Hex(data);
    Untouched(s, '\'', "''");
    PlainReads(s, rest);
    Assoc("'\\x" + Hex(data), "'", rest);
    assert "'\\x" + Hex(data) == "'" + s;
    Assoc("'", s, "'" + rest);
    ConstantOpens(s + ("'" + rest));
  }

  // ---------------------------------------------------------------- literals

  /** The constant a literal is read back as. */
  function ConstantOf(v: Value): Constant {
    match v
    case Null => NullConst
    case Bool(b) => BoolConst(b)
    case Int(i) => NumberConst(i)
    case Text(s) => StringConst(s)
    case Bytes(data) => StringConst("\\x" + Hex(data))
  }

  function ConstantsOf(row: seq<Value>): seq<Constant> {
    seq(|row|, i requires 0 <= i < |row| => ConstantOf(row[i]))
  }

  lemma WordReads(word: string, rest: string)
    requires word == "NULL" || word == "TRUE" || word == "FALSE"
    requires Delimited(rest)
    ensures ReadConstant(word + rest) ==
            Got(if word == "NULL" then NullConst else BoolConst(word == "TRUE"), rest)
  {
    SpanStops(word, rest, IsWordChar);
  }

  function NumberRead(sign: int, r: Parsed<int>): Parsed<Constant> {
    match r case Fail => Fail case Got(n, rest) => Got(NumberConst(sign * n), rest)
  }

  lemma NumberOpens(text: string)
    requires text != "" && IsDigit(text[0])
    ensures ReadConstant(text) == NumberRead(1, ReadNumber(text))
  {}

  lemma MinusOpens(text: string)
    ensures ReadConstant("-" + text) == NumberRead(-1, ReadNumber(text))
  {
    assert ("-" + text)[1..] == text;
  }

  lemma IntText(i: int)
    ensures SqlLiteral(Int(i)) == if i < 0 then "-" + Decimal(-i) else Decimal(i)
  {}

  lemma IntLiteralReads(i: int, rest: string)
    requires Delimited(rest)
    ensures ReadConstant(SqlLiteral(Int(i)) + rest) == Got(NumberConst(i), rest)
  {
    var n := if i < 0 then -i else i;
    NumberReads(n, rest);
    DecimalReads(n);
    hide Decimal, ReadConstant, ReadNumber, Delimited, SqlLiteral;
    IntText(i);
    if i < 0 {
      Assoc("-", Decimal(n), rest);
      MinusOpens(Decimal(n) + rest);
    } else {
      assert IsDigit(Decimal(n)[0]);
      NumberOpens(Decimal(n) + rest);
    }
  }

  lemma LiteralReads(ty: ColumnType, v: Value, rest: string)
    requires Storable(ty, v) && Delimited(rest)
    ensures ReadConstant(SqlLiteral(v) + rest) == Got(ConstantOf(v), rest)
    ensures Coerce(ty, ConstantOf(v)) == Some(v)
  {
    match v {
      case Null => WordReads("NULL", rest);
      case Bool(b) => WordReads(if b then "TRUE" else "FALSE", rest);
      case Int(i) => IntLiteralReads(i, rest);
      case Text(s) => TextLiteralReads(s, rest);
      case Bytes(data) => BytesLiteralReads(data, rest);
    }
  }

  /** Skipping stops at `text`: it starts with neither white space nor a comment. */
  predicate Solid(text: string) {
    text != "" && !IsBlank(text[0]) && !BeginWith2(text, '-', '-')
  }

  lemma LiteralIsSolid(v: Value, rest: string)
    ensures Solid(SqlLiteral(v) + rest)
  {
    hide ReplaceChar, EscapeChain, Hex, Decimal;
    match v {
      case Int(i) =>
        DecimalReads(if i < 0 then -i else i);
        assert IsDigit(Decimal(if i < 0 then -i else i)[0]);
      case _ =>
    }
  }

  lemma SolidSkips(text: string)
    requires Solid(text)
    ensures Skip(text) == text
  {}

  lemma BlankSkips(c: char, text: string)
    requires IsBlank(c)
    ensures Skip([c] + text) == Skip(text)
  {
    assert ([c] + text)[1..] == text;
  }

  // ---------------------------------------------------------------- rows

  predicate RowStorable(types: seq<ColumnType>, row: seq<Value>) {
    |types| == |row| && forall i :: 0 <= i < |row| ==> Storable(types[i], row[i])
  }

  /** `head + sep + tail + end`, regrouped so that `head` stands alone in front. */
  lemma JoinStep(parts: seq<string>, sep: string, end: string)
    requires |parts| >= 2
    ensures Join(parts, sep) + end == parts[0] + (sep + (Join(parts[1..], sep) + end))
  {
    Assoc(parts[0] + sep, Join(parts[1..], sep), end);
    Assoc(parts[0], sep, Join(parts[1..], sep) + end);
  }

  lemma CommaStep(c: char, text: string)
    requires IsBlank(c)
    ensures var after := [',', c] + text;
            Delimited(after) && Skip(after) == after && BeginWith(after, ',') && Skip(after[1..]) == Skip(text)
  {
    assert ([',', c] + text)[1..] == [c] + text;
    BlankSkips(c, text);
  }

  lemma {:induction false} ConstantsRead(types: seq<ColumnType>, row: seq<Value>, rest: string)
    requires row != [] && RowStorable(types, row)
    ensures ReadConstants(Join(Literals(row), ", ") + (")" + rest)) == Got(ConstantsOf(row), rest)
  {
    hide ReadConstant, SqlLiteral, Coerce, Skip;
    var end := ")" + rest;
    assert end[1..] == rest;
    if |row| == 1 {
      LiteralReads(types[0], row[0], end);
      LiteralIsSolid(row[0], end);
      SolidSkips(SqlLiteral(row[0]) + end);
      SolidSkips(end);
      assert ConstantsOf(row) == [ConstantOf(row[0])];
    } else {
      var more := Join(Literals(row[1..]), ", ") + end;
      assert Literals(row)[1..] == Literals(row[1..]);
      JoinStep(Literals(row), ", ", end);
      CommaStep(' ', more);
      LiteralReads(types[0], row[0], ", " + more);
      LiteralIsSolid(row[0], ", " + more);
      SolidSkips(SqlLiteral(row[0]) + (", " + more));
      ConstantsRead(types[1..], row[1..], rest);
      assert ConstantsOf(row) == [ConstantOf(row[0])] + ConstantsOf(row[1..]);
    }
  }

  lemma {:induction false} RowCoerces(types: seq<ColumnType>, row: seq<Value>)
    requires RowStorable(types, row)
    ensures CoerceRow(types, ConstantsOf(row)) == Some(row)
  {
    hide ReadConstant, SqlLiteral, Coerce, Storable, ConstantOf;
    if row != [] {
      LiteralReads(types[0], row[0], ")");
      assert ConstantsOf(row)[1..] == ConstantsOf(row[1..]);
      RowCoerces(types[1..], row[1..]);
      assert row == [row[0]] + row[1..];
    }
  }

  function AllConstants(rows: seq<seq<Value>>): seq<seq<Constant>> {
    seq(|rows|, i requires 0 <= i < |rows| => ConstantsOf(rows[i]))
  }

  predicate RowsStorable(types: seq<ColumnType>, rows: seq<seq<Value>>) {
    types != [] && forall i :: 0 <= i < |rows| ==> RowStorable(types, rows[i])
  }

  lemma RowReads(types: seq<ColumnType>, row: seq<Value>, rest: string)
    requires row != [] && RowStorable(types, row)
    ensures ReadRow(RowText(row) + rest) == Got(ConstantsOf(row), rest)
    ensures Solid(RowText(row) + rest)
  {
    var body := Join(Literals(row), ", ");
    Assoc("(" + body, ")", rest);
    Assoc("(", body, ")" + rest);
    assert ("(" + (body + (")" + rest)))[1..] == body + (")" + rest);
    ConstantsRead(types, row, rest);
  }

  lemma {:induction false} RowsRead(types: seq<ColumnType>, rows: seq<seq<Value>>, rest: string)
    requires rows != [] && RowsStorable(types, rows)
    ensures ReadRows(Join(RowTexts(rows), ",\n") + (";" + rest)) == Got(AllConstants(rows), rest)
  {
    hide ReadRow, RowText, Skip;
    var end := ";" + rest;
    assert end[1..] == rest;
    if |rows| == 1 {
      RowReads(types, rows[0], end);
      SolidSkips(RowText(rows[0]) + end);
      SolidSkips(end);
      assert AllConstants(rows) == [ConstantsOf(rows[0])];
    } else {
      var more := Join(RowTexts(rows[1..]), ",\n") + end;
      assert RowTexts(rows)[1..] == RowTexts(rows[1..]);
      JoinStep(RowTexts(rows), ",\n", end);
      CommaStep('\n', more);
      RowReads(types, rows[0], ",\n" + more);
      SolidSkips(RowText(rows[0]) + (",\n" + more));
      RowsRead(types, rows[1..], rest);
      assert AllConstants(rows) == [ConstantsOf(rows[0])] + AllConstants(rows[1..]);
    }
  }

  lemma {:induction false} RowsCoerce(types: seq<ColumnType>, rows: seq<seq<Value>>)
    requires RowsStorable(types, rows)
    ensures CoerceRows(types, AllConstants(rows)) == Some(rows)
  {
    if rows != [] {
      RowCoerces(types, rows[0]);
      assert AllConstants(rows)[1..] == AllConstants(rows[1..]);
      RowsCoerce(types, rows[1..]);
      assert rows == [rows[0]] + rows[1..];
    }
  }

  // ---------------------------------------------------------------- identifiers

  /** A name PostgreSQL accepts: not empty and without NUL. */
  predicate GoodName(name: string) {
    name != "" && NulFree(name)
  }

  lemma QuotedStep(c: char, text: string)
    ensures c != '"' && c != NUL ==> ReadQuoted([c] + text) == Prepend(c, ReadQuoted(text))
    ensures ReadQuoted("\"\"" + text) == Prepend('"', ReadQuoted(text))
  {
    assert ([c] + text)[1..] == text;
    assert ("\"\"" + text)[2..] == text;
  }

  lemma {:induction false} QuotedReads(name: string, rest: string)
    requires NulFree(name) && rest != "" && rest[0] != '"'
    ensures ReadQuoted(ReplaceChar(name, '"', "\"\"") + ("\"" + rest)) == Got(name, rest)
  {
    var tail := "\"" + rest;
    if name == "" {
      assert ReplaceChar(name, '"', "\"\"") + tail == tail;
      assert tail[1..] == rest;
    } else {
      QuotedReads(name[1..], rest);
      var more := ReplaceChar(name[1..], '"', "\"\"");
      assert name == [name[0]] + name[1..];
      Assoc(if name[0] == '"' then "\"\"" else [name[0]], more, tail);
      QuotedStep(name[0], more + tail);
    }
  }

  lemma IdentReads(reserved: set<string>, name: string, rest: string)
    requires GoodName(name) && rest != "" && rest[0] != '"' && !IsWordChar(rest[0])
    ensures ReadIdent(reserved, QuoteIdent(reserved, name) + rest) == Got(name, rest)
    ensures Solid(QuoteIdent(reserved, name) + rest)
  {
    if Plain(name) && name !in reserved {
      SpanStops(name, rest, IsWordChar);
    } else {
      var body := ReplaceChar(name, '"', "\"\"");
      Assoc("\"" + body, "\"", rest);
      Assoc("\"", body, "\"" + rest);
      assert ("\"" + (body + ("\"" + rest)))[1..] == body + ("\"" + rest);
      QuotedReads(name, rest);
    }
  }

  lemma {:induction false} IdentsRead(reserved: set<string>, names: seq<string>, rest: string)
    requires names != [] && forall i :: 0 <= i < |names| ==> GoodName(names[i])
    ensures ReadIdents(reserved, Join(QuoteIdents(reserved, names), ", ") + (")" + rest)) == Got(names, rest)
  {
    hide ReadIdent, QuoteIdent, Skip;
    var end := ")" + rest;
    assert end[1..] == rest;
    if |names| == 1 {
      IdentReads(reserved, names[0], end);
      SolidSkips(QuoteIdent(reserved, names[0]) + end);
      SolidSkips(end);
      assert names == [names[0]];
    } else {
      var more := Join(QuoteIdents(reserved, names[1..]), ", ") + end;
      assert QuoteIdents(reserved, names)[1..] == QuoteIdents(reserved, names[1..]);
      JoinStep(QuoteIdents(reserved, names), ", ", end);
      CommaStep(' ', more);
      IdentReads(reserved, names[0], ", " + more);
      SolidSkips(QuoteIdent(reserved, names[0]) + (", " + more));
      IdentsRead(reserved, names[1..], rest);
      assert names == [names[0]] + names[1..];
    }
  }

  // ---------------------------------------------------------------- statements

  lemma KeywordReads(word: string, rest: string)
    requires word != "" && IsWordStart(word[0])
    requires forall i :: 0 <= i < |word| ==> IsWordChar(word[i])
    requires rest != "" && !IsWordChar(rest[0])
    ensures ReadKeyword(word + rest, word) == Got((), rest)
  {
    SolidSkips(word + rest);
    SpanStops(word, rest, IsWordChar);
  }

  lemma KeywordSkips(c: char, text: string, word: string)
    requires IsBlank(c) && word != ""
    ensures ReadKeyword([c] + text, word) == ReadKeyword(text, word)
  {
    BlankSkips(c, text);
  }

  lemma TargetReads(reserved: set<string>, table: string, columns: seq<string>, rest: string)
    requires GoodName(table) && columns != [] && forall i :: 0 <= i < |columns| ==> GoodName(columns[i])
    ensures ReadTarget(reserved, " " + (QuoteIdent(reserved, table) +
              (" " + ("(" + (Join(QuoteIdents(reserved, columns), ", ") + (")" + rest)))))) == Got((table, columns), rest)
  {
    var name := QuoteIdent(reserved, table);
    var body := Join(QuoteIdents(reserved, columns), ", ") + (")" + rest);
    var list := "(" + body;
    BlankSkips(' ', name + (" " + list));
    IdentReads(reserved, table, " " + list);
    SolidSkips(name + (" " + list));
    BlankSkips(' ', list);
    SolidSkips(list);
    assert list[1..] == body;
    IdentsRead(reserved, columns, rest);
  }

  lemma HeadSteps(reserved: set<string>, text: string, t1: string, t2: string, t3: string, target: (string, seq<string>), rest: string)
    requires ReadKeyword(text, "INSERT") == Got((), t1)
    requires ReadKeyword(t1, "INTO") == Got((), t2)
    requires ReadTarget(reserved, t2) == Got(target, t3)
    requires ReadKeyword(t3, "VALUES") == Got((), rest)
    ensures ReadHead(reserved, text) == Got(target, rest)
  {}

  lemma HeadReads(reserved: set<string>, table: string, columns: seq<string>, rest: string)
    requires GoodName(table) && columns != [] && forall i :: 0 <= i < |columns| ==> GoodName(columns[i])
    ensures ReadHead(reserved, StatementHead(reserved, table, columns) + rest) == Got((table, columns), "\n" + rest)
    ensures Solid(StatementHead(reserved, table, columns) + rest)
  {
    hide ReadKeyword, ReadTarget, ReadHead, QuoteIdent, QuoteIdents, Join;
    var q, cols := QuoteIdent(reserved, table), Join(QuoteIdents(reserved, columns), ", ");
    var values := " " + ("VALUES" + ("\n" + rest));
    var target := " " + (q + (" " + ("(" + (cols + (")" + values)))));
    var text := "INSERT" + (" " + ("INTO" + target));
    assert StatementHead(reserved, table, columns) + rest == text by { HeadShape(q, cols, rest); }
    KeywordReads("INSERT", " " + ("INTO" + target));
    KeywordSkips(' ', "INTO" + target, "INTO");
    KeywordReads("INTO", target);
    TargetReads(reserved, table, columns, values);
    KeywordSkips(' ', "VALUES" + ("\n" + rest), "VALUES");
    KeywordReads("VALUES", "\n" + rest);
    HeadSteps(reserved, text, " " + ("INTO" + target), target, values, (table, columns), "\n" + rest);
  }

  lemma HeadShape(q: string, cols: string, rest: string)
    ensures "INSERT INTO " + q + " (" + cols + ") VALUES\n" + rest ==
            "INSERT" + (" " + ("INTO" + (" " + (q + (" " + ("(" + (cols + (")" + (" " + ("VALUES" + ("\n" + rest)))))))))))
  {}

  predicate GoodPart(types: seq<ColumnType>, part: Part) {
    && GoodName(part.table)
    && part.columns != [] && (forall i :: 0 <= i < |part.columns| ==> GoodName(part.columns[i]))
    && part.rows != [] && RowsStorable(types, part.rows)
  }

  /** What a part is read back as. */
  function InsertOf(part: Part): Insert {
    Insert(part.table, part.columns, AllConstants(part.rows))
  }

  function InsertsOf(parts: seq<Part>): seq<Insert> {
    seq(|parts|, i requires 0 <= i < |parts| => InsertOf(parts[i]))
  }

  lemma InsertReads(reserved: set<string>, types: seq<ColumnType>, part: Part, rest: string)
    requires GoodPart(types, part)
    ensures ReadInsert(reserved, PartText(reserved, part) + rest) == Got(InsertOf(part), rest)
    ensures Solid(PartText(reserved, part) + rest)
  {
    var head := StatementHead(reserved, part.table, part.columns);
    var body := Join(RowTexts(part.rows), ",\n");
    Assoc(head + body, ";", rest);
    Assoc(head, body, ";" + rest);
    HeadReads(reserved, part.table, part.columns, body + (";" + rest));
    RowsRead(types, part.rows, rest);
    RowsSkip('\n', body + (";" + rest));
  }

  lemma RowsSkip(c: char, text: string)
    requires IsBlank(c)
    ensures ReadRows([c] + text) == ReadRows(text)
  {
    BlankSkips(c, text);
  }

  lemma ScriptSkips(reserved: set<string>, text: string)
    ensures ReadScript(reserved, "\n\n" + text) == ReadScript(reserved, text)
  {
    BlankSkips('\n', text);
    BlankSkips('\n', "\n" + text);
    Assoc("\n", "\n", text);
    assert Skip("\n\n" + text) == Skip(text);
  }

  lemma PartsStep(reserved: set<string>, parts: seq<Part>)
    requires |parts| >= 2
    ensures Join(PartTexts(reserved, parts), "\n\n") ==
            PartText(reserved, parts[0]) + ("\n\n" + Join(PartTexts(reserved, parts[1..]), "\n\n"))
    ensures InsertsOf(parts) == [InsertOf(parts[0])] + InsertsOf(parts[1..])
  {
    hide PartText, InsertOf;
    assert PartTexts(reserved, parts)[1..] == PartTexts(reserved, parts[1..]);
    Assoc(PartText(reserved, parts[0]), "\n\n", Join(PartTexts(reserved, parts[1..]), "\n\n"));
  }

  /** The statements after the first one. */
  function Continued(first: Insert, more: Option<seq<Insert>>): Option<seq<Insert>> {
    match more case None => None case Some(rest) => Some([first] + rest)
  }

  lemma ScriptStep(reserved: set<string>, types: seq<ColumnType>, part: Part, rest: string)
    requires GoodPart(types, part)
    ensures ReadScript(reserved, PartText(reserved, part) + rest) ==
            Continued(InsertOf(part), ReadScript(reserved, rest))
  {
    InsertReads(reserved, types, part, rest);
    SolidSkips(PartText(reserved, part) + rest);
  }

  lemma EmptyScript(reserved: set<string>, text: string)
    requires Skip(text) == ""
    ensures ReadScript(reserved, text) == Some([])
  {}

  /** A text that is one line comment holds nothing. */
  lemma CommentSkips(note: string)
    requires BeginWith2(note, '-', '-') && '\n' !in note
    ensures Skip(note) == ""
  {
    assert note + "" == note;
    SpanStops(note, "", InComment);
    assert note[|note|..] == "" && Skip("") == "";
  }

  lemma LastPart(reserved: set<string>, types: seq<ColumnType>, parts: seq<Part>)
    requires |parts| == 1 && GoodPart(types, parts[0])
    ensures ReadScript(reserved, Join(PartTexts(reserved, parts), "\n\n")) == Some(InsertsOf(parts))
  {
    var text := PartText(reserved, parts[0]);
    assert Join(PartTexts(reserved, parts), "\n\n") == text;
    assert text + "" == text;
    ScriptStep(reserved, types, parts[0], "");
    assert InsertsOf(parts) == [InsertOf(parts[0])];
    EmptyScript(reserved, "");
    assert [InsertOf(parts[0])] + [] == InsertsOf(parts);
  }

  /** Reading the statements of a data section gives back exactly the parts that were printed, in order. */
  lemma {:induction false} ScriptReads(reserved: set<string>, types: seq<seq<ColumnType>>, parts: seq<Part>)
    requires |types| == |parts| && forall i :: 0 <= i < |parts| ==> GoodPart(types[i], parts[i])
    ensures ReadScript(reserved, Join(PartTexts(reserved, parts), "\n\n")) == Some(InsertsOf(parts))
  {
    if parts == [] {
      assert Join(PartTexts(reserved, parts), "\n\n") == "" && InsertsOf(parts) == [];
    } else if |parts| == 1 {
      LastPart(reserved, types[0], parts);
    } else {
      var more := Join(PartTexts(reserved, parts[1..]), "\n\n");
      PartsStep(reserved, parts);
      ScriptStep(reserved, types[0], parts[0], "\n\n" + more);
      ScriptSkips(reserved, more);
      ScriptReads(reserved, types[1..], parts[1..]);
      assert ReadScript(reserved, "\n\n" + more) == Some(InsertsOf(parts[1..]));
    }
  }

  lemma DataSectionReads(reserved: set<string>, types: seq<seq<ColumnType>>, parts: seq<Part>)
    requires |types| == |parts| && forall i :: 0 <= i < |parts| ==> GoodPart(types[i], parts[i])
    ensures ReadScript(reserved, DataSql(reserved, parts)) == Some(InsertsOf(parts))
  {
    if parts == [] {
      CommentSkips(DataSql(reserved, parts));
      EmptyScript(reserved, DataSql(reserved, parts));
      assert InsertsOf(parts) == [];
    } else {
      ScriptReads(reserved, types, parts);
    }
  }
}
