/** The spreadsheet export of frontend/src/lib/csv.ts, with the reader that section 2 of RFC 4180
    describes as its inverse. A cell is the text that String(value ?? "") yields. */
module Csv {

  import opened Basics

  // ---------- the printer ----------

  predicate IsTrigger(c: char) {
    c == '=' || c == '+' || c == '-' || c == '@'
  }

  /** FORMULA_PREFIX: a leading tab, CR or LF, or any run of characters up to U+0020 and then a trigger. */
  predicate TriggersFormula(s: string) {
    || (s != "" && (s[0] == '\t' || s[0] == '\r' || s[0] == '\n'))
    || exists k :: 0 <= k < |s| && IsTrigger(s[k]) && forall j :: 0 <= j < k ==> s[j] as int <= 0x20
  }

  function Neutralize(raw: string): (text: string)
    ensures !TriggersFormula(text)
  {
    if TriggersFormula(raw) then
      assert ("'" + raw)[0] == '\'';
      "'" + raw
    else raw
  }

  /** A cell gets an apostrophe in front exactly when a spreadsheet would take it for a formula: it begins with a tab,
      CR or LF, or with an equals, plus, minus or at sign after nothing but blanks and control characters. */
  lemma NeutralizedExactly(raw: string)
    ensures Neutralize(raw)
            == if (raw != "" && raw[0] in "\t\r\n")
                  || exists k :: 0 <= k < |raw| && raw[k] in "=+-@" && forall j :: 0 <= j < k ==> raw[j] <= ' '
               then ['\''] + raw else raw
  {
    if k :| 0 <= k < |raw| && IsTrigger(raw[k]) && forall j :: 0 <= j < k ==> raw[j] as int <= 0x20 {
      assert raw[k] in "=+-@" && forall j :: 0 <= j < k ==> raw[j] <= ' ';
    }
    if k :| 0 <= k < |raw| && raw[k] in "=+-@" && forall j :: 0 <= j < k ==> raw[j] <= ' ' {
      assert IsTrigger(raw[k]) && forall j :: 0 <= j < k ==> raw[j] as int <= 0x20;
    }
  }

  function DoubleQuotes(s: string): string {
    if s == "" then ""
    else (if s[0] == '"' then "\"\"" else [s[0]]) + DoubleQuotes(s[1..])
  }

  function EscapeCell(raw: string): string {
    "\"" + DoubleQuotes(Neutralize(raw)) + "\""
  }

  function SerializeRow(row: seq<string>): string {
    if row == [] then ""
    else if |row| == 1 then EscapeCell(row[0])
    else EscapeCell(row[0]) + "," + SerializeRow(row[1..])
  }

  function Serialize(rows: seq<seq<string>>): string {
    if rows == [] then ""
    else if |rows| == 1 then SerializeRow(rows[0])
    else SerializeRow(rows[0]) + "\r\n" + Serialize(rows[1..])
  }

  // ---------- the reader of RFC 4180, section 2 ----------

  /** Reads the inside of a quoted field up to its closing quote; rule 7 undoes doubled quotes. */
  function ReadQuoted(s: string): (r: Option<(string, string)>)
    ensures r.Some? ==> |r.value.1| < |s|
  {
    if s == "" then None
    else if s[0] == '"' then
      if |s| > 1 && s[1] == '"' then
        match ReadQuoted(s[2..])
        case None => None
        case Some((text, rest)) => Some(("\"" + text, rest))
      else Some(("", s[1..]))
    else
      match ReadQuoted(s[1..])
      case None => None
      case Some((text, rest)) => Some(([s[0]] + text, rest))
  }

  /** Reads an unquoted field: it ends at a comma, a line break, a quote or the end of the text (rules 4 and 5). */
  function ReadPlain(s: string): (r: (string, string))
    ensures |r.1| <= |s|
  {
    if s == "" || s[0] == ',' || s[0] == '\r' || s[0] == '\n' || s[0] == '"' then ("", s)
    else var (text, rest) := ReadPlain(s[1..]); ([s[0]] + text, rest)
  }

  function ReadField(s: string): (r: Option<(string, string)>)
    ensures r.Some? ==> |r.value.1| <= |s|
  {
    if s != "" && s[0] == '"' then ReadQuoted(s[1..]) else Some(ReadPlain(s))
  }

  function ReadRecord(s: string): (r: Option<(seq<string>, string)>)
    ensures r.Some? ==> |r.value.0| > 0 && |r.value.1| <= |s|
    decreases |s|
  {
    match ReadField(s)
    case None => None
    case Some((field, rest)) =>
      if rest != "" && rest[0] == ',' then
        match ReadRecord(rest[1..])
        case None => None
        case Some((fields, rest')) => Some(([field] + fields, rest'))
      else Some(([field], rest))
  }

  /** Records end at CRLF; the last one may or may not have its own line break (rules 1 and 2). */
  function ReadFile(s: string): (r: Option<seq<seq<string>>>)
    ensures r.Some? ==> r.value != [] && forall i :: 0 <= i < |r.value| ==> r.value[i] != []
    decreases |s|
  {
    match ReadRecord(s)
    case None => None
    case Some((record, rest)) =>
      if rest == "" || rest == "\r\n" then Some([record])
      else if |rest| > 2 && rest[0] == '\r' && rest[1] == '\n' then
        match ReadFile(rest[2..])
        case None => None
        case Some(records) => Some([record] + records)
      else None
  }

  // ---------- the round trip ----------

  function NeutralizeRow(row: seq<string>): (r: seq<string>)
    ensures |r| == |row| && forall i :: 0 <= i < |r| ==> r[i] == Neutralize(row[i])
  {
    if row == [] then [] else [Neutralize(row[0])] + NeutralizeRow(row[1..])
  }

  function NeutralizeGrid(rows: seq<seq<string>>): (r: seq<seq<string>>)
    ensures |r| == |rows| && forall i :: 0 <= i < |r| ==> r[i] == NeutralizeRow(rows[i])
  {
    if rows == [] then [] else [NeutralizeRow(rows[0])] + NeutralizeGrid(rows[1..])
  }

  /** What may follow a field inside a serialized grid: nothing, a comma or a line break. */
  predicate EndsField(rest: string) {
    rest == "" || rest[0] != '"'
  }

  predicate EndsRecord(rest: string) {
    rest == "" || (|rest| > 2 && rest[..2] == "\r\n")
  }

  lemma {:induction false} QuotedRoundTrip(text: string, rest: string)
    requires EndsField(rest)
    ensures ReadQuoted(DoubleQuotes(text) + "\"" + rest) == Some((text, rest))
  {
    var s := DoubleQuotes(text) + "\"" + rest;
    if text == "" {
      assert s == "\"" + rest;
      assert s[1..] == rest;
    } else {
      QuotedRoundTrip(text[1..], rest);
      var tail := DoubleQuotes(text[1..]) + "\"" + rest;
      if text[0] == '"' {
        assert s == "\"\"" + tail;
        assert s[2..] == tail;
      } else {
        assert s == [text[0]] + tail;
        assert s[1..] == tail;
      }
      assert [text[0]] + text[1..] == text;
    }
  }

  lemma OpenQuote(inside: string, rest: string)
    ensures var s := "\"" + inside + "\"" + rest; s[0] == '"' && s[1..] == inside + "\"" + rest
  {
  }

  lemma CellRoundTrip(raw: string, rest: string)
    requires EndsField(rest)
    ensures ReadField(EscapeCell(raw) + rest) == Some((Neutralize(raw), rest))
  {
    var text := Neutralize(raw);
    QuotedRoundTrip(text, rest);
    OpenQuote(DoubleQuotes(text), rest);
  }

  lemma LastCellRoundTrip(raw: string, rest: string)
    requires EndsRecord(rest)
    ensures ReadRecord(EscapeCell(raw) + rest) == Some(([Neutralize(raw)], rest))
  {
    assert rest != "" ==> rest[0] == rest[..2][0] == '\r';
    CellRoundTrip(raw, rest);
  }

  lemma NextCellRoundTrip(raw: string, tail: string, fields: seq<string>, rest: string)
    requires ReadRecord(tail) == Some((fields, rest))
    ensures ReadRecord(EscapeCell(raw) + ("," + tail)) == Some(([Neutralize(raw)] + fields, rest))
  {
    CellRoundTrip(raw, "," + tail);
    assert ("," + tail)[1..] == tail;
  }

  lemma Regroup(a: string, b: string, c: string, d: string)
    ensures (a + b + c) + d == a + (b + (c + d))
  {
  }

  lemma {:induction false} RowRoundTrip(row: seq<string>, rest: string)
    requires row != [] && EndsRecord(rest)
    ensures ReadRecord(SerializeRow(row) + rest) == Some((NeutralizeRow(row), rest))
    decreases |row|
  {
    if |row| == 1 {
      LastCellRoundTrip(row[0], rest);
      assert NeutralizeRow(row) == [Neutralize(row[0])];
    } else {
      var cells := SerializeRow(row[1..]);
      RowRoundTrip(row[1..], rest);
      NextCellRoundTrip(row[0], cells + rest, NeutralizeRow(row[1..]), rest);
      Regroup(EscapeCell(row[0]), ",", cells, rest);
    }
  }

  lemma SerializedIsLong(rows: seq<seq<string>>)
    requires rows != [] && rows[0] != []
    ensures |Serialize(rows)| > 0
  {
  }

  lemma {:induction false} LastRowRoundTrip(row: seq<string>)
    requires row != []
    ensures ReadFile(SerializeRow(row)) == Some([NeutralizeRow(row)])
  {
    RowRoundTrip(row, "");
    assert SerializeRow(row) + "" == SerializeRow(row);
  }

  lemma {:induction false} NextRowRoundTrip(row: seq<string>, tail: string, records: seq<seq<string>>)
    requires row != [] && tail != "" && ReadFile(tail) == Some(records)
    ensures ReadFile(SerializeRow(row) + ("\r\n" + tail)) == Some([NeutralizeRow(row)] + records)
  {
    var rest := "\r\n" + tail;
    assert rest[..2] == "\r\n" && rest[2..] == tail;
    RowRoundTrip(row, rest);
  }

  /** A conforming reader recovers exactly the neutralized grid. */
  lemma {:induction false} SerializeRoundTrip(rows: seq<seq<string>>)
    requires rows != [] && forall i :: 0 <= i < |rows| ==> rows[i] != []
    ensures ReadFile(Serialize(rows)) == Some(NeutralizeGrid(rows))
    decreases |rows|
  {
    if |rows| == 1 {
      LastRowRoundTrip(rows[0]);
      assert NeutralizeGrid(rows) == [NeutralizeRow(rows[0])];
    } else {
      var tail := Serialize(rows[1..]);
      SerializeRoundTrip(rows[1..]);
      SerializedIsLong(rows[1..]);
      NextRowRoundTrip(rows[0], tail, NeutralizeGrid(rows[1..]));
      JoinRows(SerializeRow(rows[0]), tail);
    }
  }

  lemma JoinRows(a: string, b: string)
    ensures a + "\r\n" + b == a + ("\r\n" + b)
  {
  }

  /** The round trip holds exactly for a non-empty list of non-empty rows: the printer writes an empty
      list and a list holding one empty row alike, and every record a reader returns has a field. */
  lemma RoundTripExactly(rows: seq<seq<string>>)
    ensures ReadFile(Serialize(rows)) == Some(NeutralizeGrid(rows))
            <==> rows != [] && forall i :: 0 <= i < |rows| ==> rows[i] != []
  {
    var read := ReadFile(Serialize(rows));
    if rows != [] && forall i :: 0 <= i < |rows| ==> rows[i] != [] {
      SerializeRoundTrip(rows);
    } else if rows != [] {
      var i :| 0 <= i < |rows| && rows[i] == [];
      assert NeutralizeGrid(rows)[i] == [];
    }
  }

  /** No cell a reader gets back can start a formula. */
  lemma NoFormulaSurvives(rows: seq<seq<string>>, i: nat, j: nat)
    requires rows != [] && forall k :: 0 <= k < |rows| ==> rows[k] != []
    requires i < |rows| && j < |rows[i]|
    ensures var read := ReadFile(Serialize(rows));
            read.Some? && i < |read.value| && j < |read.value[i]| && !TriggersFormula(read.value[i][j])
            && read.value[i][j] == (if TriggersFormula(rows[i][j]) then "'" + rows[i][j] else rows[i][j])
  {
    SerializeRoundTrip(rows);
  }
}
