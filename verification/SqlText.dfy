/**
 The text of a dump's data section, and a reader for it.

 Printing follows `sql_literal`, the INSERT batching loop and the statement head of the pure-Python
 dumper. Reading follows PostgreSQL: identifiers and keywords (section 4.1.1 of the PostgreSQL documentation),
 plain and escape string constants (sections 4.1.2.1 and 4.1.2.2), line comments (section 4.1.5) and hex bytea input
 (section 8.4.1). The reader covers the part of the grammar that INSERT statements of constants need and
 fails on everything else, so whatever it accepts PostgreSQL reads the same way.
 */
module SqlText {
  import opened Prelude

  type byte = x: int | 0 <= x < 256

  datatype Value = Null | Bool(b: bool) | Int(i: int) | Text(s: string) | Bytes(data: seq<byte>)

  datatype ColumnType = BoolColumn | IntColumn | TextColumn | BytesColumn

  const NUL: char := '\0'
  const FORM_FEED: char := '\U{000C}'

  predicate NulFree(s: string) {
    NUL !in s
  }

  /** `v` can be stored in a column of type `ty`; PostgreSQL text never holds a NUL. */
  predicate Storable(ty: ColumnType, v: Value) {
    match v
    case Null => true
    case Bool(_) => ty == BoolColumn
    case Int(_) => ty == IntColumn
    case Text(s) => ty == TextColumn && NulFree(s)
    case Bytes(_) => ty == BytesColumn
  }

  // ---------------------------------------------------------------- printing

  function DigitChar(d: int): (c: char)
    requires 0 <= d < 10
    ensures IsDigit(c) && DigitValue(c) == d
  {
    "0123456789"[d]
  }

  predicate IsDigit(c: char) { '0' <= c <= '9' }

  function DigitValue(c: char): int { c as int - '0' as int }

  /** `str(n)` */
  function Decimal(n: nat): string {
    if n < 10 then [DigitChar(n)] else Decimal(n / 10) + [DigitChar(n % 10)]
  }

  function HexChar(d: int): (c: char)
    requires 0 <= d < 16
    ensures HexValue(c) == Some(d)
    ensures c != '\'' && c != NUL
  {
    "0123456789abcdef"[d]
  }

  function HexValue(c: char): Option<int> {
    if '0' <= c <= '9' then Some(c as int - '0' as int)
    else if 'a' <= c <= 'f' then Some(c as int - 'a' as int + 10)
    else if 'A' <= c <= 'F' then Some(c as int - 'A' as int + 10)
    else None
  }

  /** `bytes.hex()` */
  function Hex(data: seq<byte>): string {
    if data == [] then "" else [HexChar(data[0] / 16), HexChar(data[0] % 16)] + Hex(data[1..])
  }

  /** `s.replace(c, sub)` */
  function ReplaceChar(s: string, c: char, sub: string): string {
    if s == "" then ""
    else (if s[0] == c then sub else [s[0]]) + ReplaceChar(s[1..], c, sub)
  }

  /** The replacement chain of an escape string: backslashes first, then quotes, then control characters. */
  function EscapeChain(s: string): string {
    ReplaceChar(
      ReplaceChar(
        ReplaceChar(
          ReplaceChar(ReplaceChar(s, '\\', "\\\\"), '\'', "''"), '\n', "\\n"), '\r', "\\r"), '\t', "\\t")
  }

  predicate NeedsEscape(c: char) {
    c == '\\' || c == '\n' || c == '\r' || c == '\t'
  }

  function SqlLiteral(v: Value): string {
    match v
    case Null => "NULL"
    case Bool(b) => if b then "TRUE" else "FALSE"
    case Int(i) => if i < 0 then "-" + Decimal(-i) else Decimal(i)
    case Bytes(data) => "'\\x" + Hex(data) + "'"
    case Text(s) =>
      if exists i :: 0 <= i < |s| && NeedsEscape(s[i]) then "E'" + EscapeChain(s) + "'"
      else "'" + ReplaceChar(s, '\'', "''") + "'"
  }

  function Literals(row: seq<Value>): seq<string> {
    seq(|row|, i requires 0 <= i < |row| => SqlLiteral(row[i]))
  }

  function RowText(row: seq<Value>): string {
    "(" + Join(Literals(row), ", ") + ")"
  }

  function RowTexts(rows: seq<seq<Value>>): seq<string> {
    seq(|rows|, i requires 0 <= i < |rows| => RowText(rows[i]))
  }

  predicate IsWordStart(c: char) { 'a' <= c <= 'z' || 'A' <= c <= 'Z' || c == '_' }

  predicate IsWordChar(c: char) { IsWordStart(c) || IsDigit(c) || c == '$' }

  predicate IsPlainChar(c: char) { 'a' <= c <= 'z' || c == '_' || IsDigit(c) || c == '$' }

  /** A lower-case identifier that may stand unquoted unless it is reserved. */
  predicate Plain(name: string) {
    name != "" && IsWordStart(name[0]) && forall i :: 0 <= i < |name| ==> IsPlainChar(name[i])
  }

  /** `identifier_preparer.quote(name)` */
  function QuoteIdent(reserved: set<string>, name: string): string {
    if Plain(name) && name !in reserved then name
    else "\"" + ReplaceChar(name, '"', "\"\"") + "\""
  }

  function QuoteIdents(reserved: set<string>, names: seq<string>): seq<string> {
    seq(|names|, i requires 0 <= i < |names| => QuoteIdent(reserved, names[i]))
  }

  function StatementHead(reserved: set<string>, table: string, columns: seq<string>): string {
    "INSERT INTO " + QuoteIdent(reserved, table) + " (" + Join(QuoteIdents(reserved, columns), ", ") + ") VALUES\n"
  }

  function StatementText(head: string, chunk: seq<string>): string {
    head + Join(chunk, ",\n") + ";"
  }

  /** One INSERT statement of the data section, before it is printed. */
  datatype Part = Part(table: string, columns: seq<string>, rows: seq<seq<Value>>)

  function PartText(reserved: set<string>, part: Part): string {
    StatementText(StatementHead(reserved, part.table, part.columns), RowTexts(part.rows))
  }

  function PartTexts(reserved: set<string>, parts: seq<Part>): seq<string> {
    seq(|parts|, i requires 0 <= i < |parts| => PartText(reserved, parts[i]))
  }

  /** The data section of a dump. */
  function DataSql(reserved: set<string>, parts: seq<Part>): string {
    if parts == [] then "-- no data" else Join(PartTexts(reserved, parts), "\n\n")
  }

  // ---------------------------------------------------------------- reading

  datatype Constant = NullConst | BoolConst(b: bool) | NumberConst(n: int) | StringConst(s: string)

  datatype Parsed<+T> = Fail | Got(value: T, rest: string)

  predicate BeginWith(text: string, c: char) { |text| >= 1 && text[0] == c }

  predicate BeginWith2(text: string, c: char, d: char) { |text| >= 2 && text[0] == c && text[1] == d }

  /** Length of the longest prefix of `text` whose characters all satisfy `p`. */
  function Span(text: string, p: char -> bool): (n: nat)
    ensures n <= |text|
  {
    if text != "" && p(text[0]) then 1 + Span(text[1..], p) else 0
  }

  predicate IsBlank(c: char) { c == ' ' || c == '\n' || c == '\t' || c == '\r' || c == FORM_FEED }

  predicate InComment(c: char) { c != '\n' }

  /** Drops white space and line comments. */
  function Skip(text: string): (rest: string)
    ensures |rest| <= |text|
    decreases |text|
  {
    if text == "" then ""
    else if IsBlank(text[0]) then Skip(text[1..])
    else if BeginWith2(text, '-', '-') then Skip(text[Span(text, InComment)..])
    else text
  }

  /**
   A closing quote followed by white space that contains a newline and then by another quote continues the
   constant; the reader does not join such constants and refuses them.
   */
  predicate Continues(rest: string) {
    var n := Span(rest, IsBlank);
    '\n' in rest[..n] && n < |rest| && rest[n] == '\''
  }

  function Prepend(c: char, tail: Parsed<string>): Parsed<string> {
    match tail
    case Fail => Fail
    case Got(s, rest) => Got([c] + s, rest)
  }

  /** The rest of a plain string constant, after its opening quote. */
  function ReadPlain(text: string): (r: Parsed<string>)
    ensures r.Got? ==> |r.rest| < |text|
    decreases |text|
  {
    if text == "" || text[0] == NUL then Fail
    else if text[0] != '\'' then Prepend(text[0], ReadPlain(text[1..]))
    else if BeginWith2(text, '\'', '\'') then Prepend('\'', ReadPlain(text[2..]))
    else if Continues(text[1..]) then Fail
    else Got("", text[1..])
  }

  /** The character that backslash and `c` stand for; numeric and Unicode escapes are refused. */
  function Unescape(c: char): Option<char> {
    if c == 'n' then Some('\n')
    else if c == 'r' then Some('\r')
    else if c == 't' then Some('\t')
    else if c == 'b' then Some('\U{0008}')
    else if c == 'f' then Some(FORM_FEED)
    else if c == 'x' || c == 'u' || c == 'U' || '0' <= c <= '7' || c == NUL then None
    else Some(c)
  }

  /** The rest of an escape string constant, after `E` and its opening quote. */
  function ReadEscaped(text: string): (r: Parsed<string>)
    ensures r.Got? ==> |r.rest| < |text|
    decreases |text|
  {
    if text == "" || text[0] == NUL then Fail
    else if text[0] == '\\' then
      if |text| < 2 || Unescape(text[1]).None? then Fail
      else Prepend(Unescape(text[1]).value, ReadEscaped(text[2..]))
    else if text[0] != '\'' then Prepend(text[0], ReadEscaped(text[1..]))
    else if BeginWith2(text, '\'', '\'') then Prepend('\'', ReadEscaped(text[2..]))
    else if Continues(text[1..]) then Fail
    else Got("", text[1..])
  }

  function NatOf(digits: string): nat
    requires forall i :: 0 <= i < |digits| ==> IsDigit(digits[i])
  {
    if digits == "" then 0
    else
      assert IsDigit(digits[|digits| - 1]);
      10 * NatOf(digits[..|digits| - 1]) + DigitValue(digits[|digits| - 1])
  }

  lemma SpanSatisfies(text: string, p: char -> bool)
    ensures forall i :: 0 <= i < Span(text, p) ==> p(text[i])
  {
    if text != "" && p(text[0]) {
      SpanSatisfies(text[1..], p);
      assert forall i :: 1 <= i < Span(text, p) ==> text[i] == text[1..][i - 1];
    }
  }

  function ReadNumber(text: string): (r: Parsed<int>)
    ensures r.Got? ==> |r.rest| < |text|
  {
    var n := Span(text, IsDigit);
    SpanSatisfies(text, IsDigit);
    if n == 0 || (n < |text| && IsWordStart(text[n])) then Fail else Got(NatOf(text[..n]), text[n..])
  }

  /** One constant of a VALUES list; `text` starts at its first character. */
  function ReadConstant(text: string): (r: Parsed<Constant>)
    ensures r.Got? ==> |r.rest| < |text|
  {
    if BeginWith(text, '\'') then
      match ReadPlain(text[1..]) case Fail => Fail case Got(s, rest) => Got(StringConst(s), rest)
    else if BeginWith2(text, 'E', '\'') then
      match ReadEscaped(text[2..]) case Fail => Fail case Got(s, rest) => Got(StringConst(s), rest)
    else if BeginWith(text, '-') then
      match ReadNumber(text[1..]) case Fail => Fail case Got(n, rest) => Got(NumberConst(-n), rest)
    else if text != "" && IsDigit(text[0]) then
      match ReadNumber(text) case Fail => Fail case Got(n, rest) => Got(NumberConst(n), rest)
    else
      var n := Span(text, IsWordChar);
      if text[..n] == "NULL" then Got(NullConst, text[n..])
      else if text[..n] == "TRUE" then Got(BoolConst(true), text[n..])
      else if text[..n] == "FALSE" then Got(BoolConst(false), text[n..])
      else Fail
  }

  /** Constants separated by commas, up to and including the closing parenthesis. */
  function ReadConstants(text: string): (r: Parsed<seq<Constant>>)
    ensures r.Got? ==> |r.rest| < |text|
    decreases |text|
  {
    match ReadConstant(Skip(text))
    case Fail => Fail
    case Got(c, rest) =>
      var after := Skip(rest);
      if BeginWith(after, ')') then Got([c], after[1..])
      else if BeginWith(after, ',') then
        match ReadConstants(after[1..]) case Fail => Fail case Got(cs, end) => Got([c] + cs, end)
      else Fail
  }

  function ReadRow(text: string): (r: Parsed<seq<Constant>>)
    ensures r.Got? ==> |r.rest| < |text|
  {
    if BeginWith(text, '(') then ReadConstants(text[1..]) else Fail
  }

  /** Rows separated by commas, up to and including the semicolon. */
  function ReadRows(text: string): (r: Parsed<seq<seq<Constant>>>)
    ensures r.Got? ==> |r.rest| < |text|
    decreases |text|
  {
    match ReadRow(Skip(text))
    case Fail => Fail
    case Got(row, rest) =>
      var after := Skip(rest);
      if BeginWith(after, ';') then Got([row], after[1..])
      else if BeginWith(after, ',') then
        match ReadRows(after[1..]) case Fail => Fail case Got(rows, end) => Got([row] + rows, end)
      else Fail
  }

  /** The rest of a quoted identifier, after its opening quote. */
  function ReadQuoted(text: string): (r: Parsed<string>)
    ensures r.Got? ==> |r.rest| < |text|
    decreases |text|
  {
    if text == "" || text[0] == NUL then Fail
    else if text[0] != '"' then Prepend(text[0], ReadQuoted(text[1..]))
    else if BeginWith2(text, '"', '"') then Prepend('"', ReadQuoted(text[2..]))
    else Got("", text[1..])
  }

  function ReadIdent(reserved: set<string>, text: string): (r: Parsed<string>)
    ensures r.Got? ==> |r.rest| < |text|
  {
    if BeginWith(text, '"') then
      var q := ReadQuoted(text[1..]);
      if q.Got? && q.value == "" then Fail else q
    else
      var n := Span(text, IsWordChar);
      if Plain(text[..n]) && text[..n] !in reserved then Got(text[..n], text[n..]) else Fail
  }

  function ReadIdents(reserved: set<string>, text: string): (r: Parsed<seq<string>>)
    ensures r.Got? ==> |r.rest| < |text|
    decreases |text|
  {
    match ReadIdent(reserved, Skip(text))
    case Fail => Fail
    case Got(name, rest) =>
      var after := Skip(rest);
      if BeginWith(after, ')') then Got([name], after[1..])
      else if BeginWith(after, ',') then
        match ReadIdents(reserved, after[1..]) case Fail => Fail case Got(names, end) => Got([name] + names, end)
      else Fail
  }

  /** The text after keyword `word`, which must be a whole word. */
  function ReadKeyword(text: string, word: string): (r: Parsed<()>)
    requires word != ""
    ensures r.Got? ==> |r.rest| < |text|
  {
    var start := Skip(text);
    var n := Span(start, IsWordChar);
    if start[..n] == word then Got((), start[n..]) else Fail
  }

  datatype Insert = Insert(table: string, columns: seq<string>, rows: seq<seq<Constant>>)

  /** `table (column, column, ...)` */
  function ReadTarget(reserved: set<string>, text: string): (r: Parsed<(string, seq<string>)>)
    ensures r.Got? ==> |r.rest| < |text|
  {
    match ReadIdent(reserved, Skip(text)) case Fail => Fail case Got(table, afterTable) =>
    var list := Skip(afterTable);
    if !BeginWith(list, '(') then Fail else
    match ReadIdents(reserved, list[1..]) case Fail => Fail case Got(columns, rest) => Got((table, columns), rest)
  }

  function ReadHead(reserved: set<string>, text: string): (r: Parsed<(string, seq<string>)>)
    ensures r.Got? ==> |r.rest| < |text|
  {
    match ReadKeyword(text, "INSERT") case Fail => Fail case Got(_, afterInsert) =>
    match ReadKeyword(afterInsert, "INTO") case Fail => Fail case Got(_, afterInto) =>
    match ReadTarget(reserved, afterInto) case Fail => Fail case Got(target, afterTarget) =>
    match ReadKeyword(afterTarget, "VALUES") case Fail => Fail case Got(_, rest) => Got(target, rest)
  }

  function ReadInsert(reserved: set<string>, text: string): (r: Parsed<Insert>)
    ensures r.Got? ==> |r.rest| < |text|
  {
    match ReadHead(reserved, text) case Fail => Fail case Got(head, rest) =>
    match ReadRows(rest) case Fail => Fail case Got(rows, end) => Got(Insert(head.0, head.1, rows), end)
  }

  /** All the statements of a data section. */
  function ReadScript(reserved: set<string>, text: string): Option<seq<Insert>>
    decreases |text|
  {
    if Skip(text) == "" then Some([])
    else match ReadInsert(reserved, text) {
      case Fail => None
      case Got(first, rest) =>
        match ReadScript(reserved, rest) case None => None case Some(more) => Some([first] + more)
    }
  }

  function HexBytes(s: string): Option<seq<byte>> {
    if s == "" then Some([])
    else if |s| == 1 || HexValue(s[0]).None? || HexValue(s[1]).None? then None
    else match HexBytes(s[2..])
      case None => None
      case Some(more) => Some([16 * HexValue(s[0]).value + HexValue(s[1]).value] + more)
  }

  /** What a constant becomes in a column of type `ty`. */
  function Coerce(ty: ColumnType, c: Constant): Option<Value> {
    match (ty, c)
    case (_, NullConst) => Some(Null)
    case (BoolColumn, BoolConst(b)) => Some(Bool(b))
    case (IntColumn, NumberConst(n)) => Some(Int(n))
    case (TextColumn, StringConst(s)) => Some(Text(s))
    case (BytesColumn, StringConst(s)) =>
      if !(BeginWith2(s, '\\', 'x')) then None
      else (match HexBytes(s[2..]) case None => None case Some(data) => Some(Bytes(data)))
    case _ => None
  }

  function CoerceRow(types: seq<ColumnType>, row: seq<Constant>): (r: Option<seq<Value>>)
    ensures r.Some? ==> |r.value| == |row|
  {
    if |types| != |row| then None
    else if row == [] then Some([])
    else match (Coerce(types[0], row[0]), CoerceRow(types[1..], row[1..]))
      case (Some(v), Some(more)) => Some([v] + more)
      case _ => None
  }

  function CoerceRows(types: seq<ColumnType>, rows: seq<seq<Constant>>): Option<seq<seq<Value>>> {
    if rows == [] then Some([])
    else match (CoerceRow(types, rows[0]), CoerceRows(types, rows[1..]))
      case (Some(v), Some(more)) => Some([v] + more)
      case _ => None
  }
}
