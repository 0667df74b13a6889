/**
 * CSV files for French spreadsheets: quoted cells, doubled quotes, a semicolon between cells and CRLF
 * between lines. They are read back with a reader for section 2 of RFC 4180, semicolon as separator.
 */
module Csv {
  import opened Basics

  // ---------------------------------------------------------------- writing

  /** The class `\s` of JavaScript regular expressions. */
  predicate IsSpace(c: char) {
    || c in "\t\n\r " || c == '\U{0B}' || c == '\U{0C}' || c == '\U{A0}' || c == '\U{1680}'
    || '\U{2000}' <= c <= '\U{200A}' || c == '\U{2028}' || c == '\U{2029}' || c == '\U{202F}'
    || c == '\U{205F}' || c == '\U{3000}' || c == '\U{FEFF}'
  }

  /** `[\d\s]+` over the whole text. */
  predicate IsNumberText(s: string) {
    s != "" && forall i | 0 <= i < |s| :: IsDigit(s[i]) || IsSpace(s[i])
  }

  /** `/^[=@\t\r]|^[+-](?![\d\s]+$)/` */
  predicate DebutDeFormule(texte: string) {
    texte != "" && (texte[0] in "=@\t\r" || (texte[0] in "+-" && !IsNumberText(texte[1..])))
  }

  /** The white space and line terminators of ECMAScript, by code point. */
  lemma SpaceCodes(c: char)
    ensures IsSpace(c) <==>
            c as int in {9, 10, 11, 12, 13, 32, 160, 5760, 8232, 8233, 8239, 8287, 12288, 65279} || 8192 <= c as int <= 8202
  {
  }

  /**
   * A text starts a formula when its first character is an equals sign, an at sign, a tabulation or a carriage
   * return, or a sign that is not followed by digits and white space to the end, and by one of them at least.
   */
  lemma FormulaIff(texte: string)
    ensures DebutDeFormule(texte) <==>
            |texte| > 0 &&
            (texte[0] == '=' || texte[0] == '@' || texte[0] == '\t' || texte[0] == '\r' ||
             ((texte[0] == '+' || texte[0] == '-') &&
              (|texte| == 1 || exists i :: 1 <= i < |texte| && !('0' <= texte[i] <= '9') && !IsSpace(texte[i]))))
  {
    hide IsSpace;
    if |texte| > 1 {
      var rest := texte[1..];
      assert forall i | 0 <= i < |rest| :: rest[i] == texte[i + 1];
      if !IsNumberText(rest) {
        var i :| 0 <= i < |rest| && !(IsDigit(rest[i]) || IsSpace(rest[i]));
        assert texte[i + 1] == rest[i];
      } else {
        assert forall i | 1 <= i < |texte| :: texte[i] == rest[i - 1];
      }
    }
  }

  function Neutralise(texte: string): string {
    if DebutDeFormule(texte) then "'" + texte else texte
  }

  function DoubleQuotes(s: string): string {
    if s == "" then "" else (if s[0] == '"' then "\"\"" else [s[0]]) + DoubleQuotes(s[1..])
  }

  function CelluleCsv(valeur: Option<string>): string {
    "\"" + DoubleQuotes(Neutralise(valeur.GetOr(""))) + "\""
  }

  function Cells(row: seq<string>): seq<string> {
    if row == [] then [] else [CelluleCsv(Some(row[0]))] + Cells(row[1..])
  }

  function Lines(table: seq<seq<string>>): seq<string> {
    if table == [] then [] else [Join(Cells(table[0]), ";")] + Lines(table[1..])
  }

  const BOM_UTF8 := "\U{FEFF}"
  const CRLF := "\r\n"

  /** A whole file: heading first, then one line an entry. */
  function Document(table: seq<seq<string>>): string {
    BOM_UTF8 + Join(Lines(table), CRLF)
  }

  // ---------------------------------------------------------------- reading

  /** The rest of a quoted field, after its opening quote, and what follows the closing one. */
  function ReadQuoted(s: string): (r: Option<(string, string)>)
    ensures r.Some? ==> |r.value.1| < |s|
  {
    if s == "" then None
    else if s[0] == '"' then
      if |s| > 1 && s[1] == '"' then
        match ReadQuoted(s[2..])
        case Some((text, rest)) => Some(("\"" + text, rest))
        case None => None
      else Some(("", s[1..]))
    else
      match ReadQuoted(s[1..])
      case Some((text, rest)) => Some(([s[0]] + text, rest))
      case None => None
  }

  /** An unquoted field extends to the next separator or line break. */
  function ReadPlain(s: string): (r: (string, string))
    ensures |r.1| <= |s|
  {
    if s == "" || s[0] == ';' || CRLF <= s then ("", s)
    else var (text, rest) := ReadPlain(s[1..]); ([s[0]] + text, rest)
  }

  function ReadField(s: string): (r: Option<(string, string)>)
    ensures r.Some? ==> |r.value.1| <= |s|
  {
    if s != "" && s[0] == '"' then ReadQuoted(s[1..]) else Some(ReadPlain(s))
  }

  function ReadRecord(s: string): (r: Option<(seq<string>, string)>)
    ensures r.Some? ==> |r.value.1| <= |s|
    decreases |s|
  {
    match ReadField(s)
    case None => None
    case Some((field, rest)) =>
      if rest != "" && rest[0] == ';' then
        match ReadRecord(rest[1..])
        case Some((fields, end)) => Some(([field] + fields, end))
        case None => None
      else Some(([field], rest))
  }

  function ReadTable(s: string): Option<seq<seq<string>>>
    decreases |s|
  {
    match ReadRecord(s)
    case None => None
    case Some((record, rest)) =>
      if rest == "" || rest == CRLF then Some([record])
      else if CRLF <= rest then
        match ReadTable(rest[2..])
        case Some(records) => Some([record] + records)
        case None => None
      else None
  }

  function ReadDocument(s: string): Option<seq<seq<string>>> {
    if BOM_UTF8 <= s then ReadTable(s[1..]) else ReadTable(s)
  }

  // ---------------------------------------------------------------- round trip

  lemma {:induction false} ReadDoubled(text: string, rest: string)
    requires rest == "" || rest[0] != '"'
    ensures ReadQuoted(DoubleQuotes(text) + "\"" + rest) == Some((text, rest))
  {
    var s := DoubleQuotes(text) + "\"" + rest;
    if text == "" {
      assert s[0] == '"' && s[1..] == rest;
    } else {
      ReadDoubled(text[1..], rest);
      var tail := DoubleQuotes(text[1..]) + "\"" + rest;
      assert text == [text[0]] + text[1..];
      if text[0] == '"' {
        assert s == "\"\"" + tail;
        assert s[2..] == tail;
      } else {
        assert s == [text[0]] + tail;
        assert s[1..] == tail;
      }
    }
  }

  lemma ReadCell(text: string, rest: string)
    requires rest == "" || rest[0] != '"'
    ensures ReadField(CelluleCsv(Some(text)) + rest) == Some((Neutralise(text), rest))
  {
    var s := CelluleCsv(Some(text)) + rest;
    assert s[0] == '"';
    assert s[1..] == DoubleQuotes(Neutralise(text)) + "\"" + rest;
    ReadDoubled(Neutralise(text), rest);
  }

  function NeutralRow(row: seq<string>): seq<string> {
    if row == [] then [] else [Neutralise(row[0])] + NeutralRow(row[1..])
  }

  function NeutralTable(table: seq<seq<string>>): seq<seq<string>> {
    if table == [] then [] else [NeutralRow(table[0])] + NeutralTable(table[1..])
  }

  lemma {:induction false} ReadRow(row: seq<string>, rest: string)
    requires row != [] && (rest == "" || CRLF <= rest)
    ensures ReadRecord(Join(Cells(row), ";") + rest) == Some((NeutralRow(row), rest))
  {
    hide CelluleCsv, ReadField, Neutralise;
    var s := Join(Cells(row), ";") + rest;
    assert rest != "" ==> rest[0] == CRLF[0];
    if |row| == 1 {
      assert Cells(row[1..]) == [];
      assert s == CelluleCsv(Some(row[0])) + rest;
      ReadCell(row[0], rest);
      assert NeutralRow(row) == [Neutralise(row[0])];
      assert rest != "" ==> rest[0] == '\r';
    } else {
      var tail := Join(Cells(row[1..]), ";") + rest;
      assert Cells(row)[1..] == Cells(row[1..]) && |Cells(row[1..])| >= 1;
      assert s == CelluleCsv(Some(row[0])) + (";" + tail);
      ReadCell(row[0], ";" + tail);
      ReadRow(row[1..], rest);
      assert (";" + tail)[1..] == tail;
    }
  }

  lemma {:induction false} ReadLines(table: seq<seq<string>>)
    requires table != [] && forall row | row in table :: row != []
    ensures ReadTable(Join(Lines(table), CRLF)) == Some(NeutralTable(table))
  {
    hide ReadRecord, Cells, NeutralRow;
    var line := Join(Cells(table[0]), ";");
    if |table| == 1 {
      assert Lines(table[1..]) == [];
      assert Join(Lines(table), CRLF) == line + "";
      assert table[0] in table;
      ReadRow(table[0], "");
      assert NeutralTable(table) == [NeutralRow(table[0])];
    } else {
      var tail := Join(Lines(table[1..]), CRLF);
      assert Lines(table)[1..] == Lines(table[1..]) && |Lines(table[1..])| >= 1;
      assert Join(Lines(table), CRLF) == line + (CRLF + tail);
      assert table[0] in table && (CRLF + tail)[..2] == CRLF;
      forall row | row in table[1..] ensures row != [] {
        assert row in table;
      }
      ReadRow(table[0], CRLF + tail);
      assert (CRLF + tail)[2..] == tail;
      assert table[1..][0] in table[1..];
      NotEmpty(table[1..]);
      ReadLines(table[1..]);
    }
  }

  lemma NotEmpty(table: seq<seq<string>>)
    requires table != [] && table[0] != []
    ensures Join(Lines(table), CRLF) != ""
  {
    var cells := Cells(table[0]);
    assert cells[0] == CelluleCsv(Some(table[0][0]));
    assert |Join(cells, ";")| >= |cells[0]|;
  }

  /** A file with at least one line, of at least one cell each, reads back as exactly its neutralised texts. */
  lemma DocumentRoundTrip(table: seq<seq<string>>)
    requires table != [] && forall row | row in table :: row != []
    ensures ReadDocument(Document(table)) == Some(NeutralTable(table))
  {
    ReadLines(table);
    assert Document(table)[1..] == Join(Lines(table), CRLF);
  }

  // ---------------------------------------------------------------- formulas

  /** No text a reader gets back starts a formula. */
  lemma NeverAFormula(texte: string)
    ensures !DebutDeFormule(Neutralise(texte))
    ensures Neutralise(texte) == texte <==> !DebutDeFormule(texte)
  {
    if DebutDeFormule(texte) {
      assert Neutralise(texte)[0] == '\'';
      assert |Neutralise(texte)| == |texte| + 1;
    }
  }

  /** Two texts give the same cell only when one is a formula and the other the same text already quoted. */
  lemma CellsCollideOnlyOnQuotedFormulas(a: string, b: string)
    ensures CelluleCsv(Some(a)) == CelluleCsv(Some(b)) <==>
            a == b || (DebutDeFormule(a) && b == "'" + a) || (DebutDeFormule(b) && a == "'" + b)
  {
    assert a == [] + a && b == [] + b;
    ReadCell(a, "");
    ReadCell(b, "");
    assert CelluleCsv(Some(a)) + "" == CelluleCsv(Some(a));
    assert CelluleCsv(Some(b)) + "" == CelluleCsv(Some(b));
    assert Neutralise(a) == Neutralise(b) <==>
           a == b || (DebutDeFormule(a) && b == "'" + a) || (DebutDeFormule(b) && a == "'" + b) by {
      if DebutDeFormule(a) && DebutDeFormule(b) {
        assert ("'" + a)[1..] == a && ("'" + b)[1..] == b;
      }
      assert !DebutDeFormule("'" + a) && !DebutDeFormule("'" + b);
    }
  }
}
