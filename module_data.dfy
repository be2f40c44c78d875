/**
 * The header-keyed catalog parser of static/assets/modelData.js (the part of
 * fetchModuleData after the fetch): the trimmed text's first line names the
 * columns, and every later line becomes one row mapping each column name to
 * a cell.
 */
module ModuleData {
  import opened Wrappers
  import opened JsString
  import opened JsNumber

  /**
   * A row's value under one column name: the parseFloat of the raw field
   * (None standing for NaN), the trimmed field text, or undefined when the
   * line has no field at that position.
   */
  datatype Cell = Number(parsed: Option<real>) | Text(text: string) | Undefined

  type Row = map<string, Cell>

  /**
   * `isNaN(cols[i]) ? cols[i]?.trim() : parseFloat(cols[i])`: undefined
   * coerces to NaN, so a missing field takes the text branch and stays undefined.
   */
  function CellAt(cols: seq<string>, i: nat, isNumeric: NumericTest, parseFloat: FloatParser): (c: Cell)
    ensures c.Undefined? <==> i >= |cols|
    ensures c.Number? <==> i < |cols| && isNumeric(cols[i])
    ensures c.Number? ==> c.parsed == parseFloat(cols[i])
    ensures c.Text? ==> c.text == Trim(cols[i]) && IsTrimmed(c.text)
  {
    if i >= |cols| then Undefined
    else if isNumeric(cols[i]) then Number(parseFloat(cols[i]))
    else Text(Trim(cols[i]))
  }

  /** The first n header names, as a set. */
  function HeaderSet(headers: seq<string>, n: nat): (names: set<string>)
    requires n <= |headers|
  {
    if n == 0 then {} else HeaderSet(headers, n - 1) + {headers[n - 1]}
  }

  lemma {:induction false} HeaderSetIsNames(headers: seq<string>, n: nat)
    requires n <= |headers|
    ensures HeaderSet(headers, n) == set h | h in headers[..n]
  {
    if n > 0 {
      HeaderSetIsNames(headers, n - 1);
      assert headers[..n] == headers[..n - 1] + [headers[n - 1]];
    }
  }

  /** The row after the first n steps of `headers.forEach`: each step sets row[headers[i]]. */
  function RowUpTo(headers: seq<string>, cols: seq<string>, n: nat, isNumeric: NumericTest, parseFloat: FloatParser): (row: Row)
    requires n <= |headers|
    ensures row.Keys == HeaderSet(headers, n)
  {
    if n == 0 then map[]
    else RowUpTo(headers, cols, n - 1, isNumeric, parseFloat)[headers[n - 1] := CellAt(cols, n - 1, isNumeric, parseFloat)]
  }

  /** The row that one line's fields produce once every header has been assigned. */
  function RowOf(headers: seq<string>, cols: seq<string>, isNumeric: NumericTest, parseFloat: FloatParser): (row: Row)
  {
    RowUpTo(headers, cols, |headers|, isNumeric, parseFloat)
  }

  /** Position k holds the last occurrence of its header name. */
  predicate LastOccurrence(headers: seq<string>, k: nat)
    requires k < |headers|
  {
    forall j :: k < j < |headers| ==> headers[j] != headers[k]
  }

  /** Under a repeated header name, the later column's cell is the one kept. */
  lemma {:induction false} RowUpToLastWins(headers: seq<string>, cols: seq<string>, n: nat, k: nat, isNumeric: NumericTest, parseFloat: FloatParser)
    requires k < n <= |headers|
    requires forall j :: k < j < n ==> headers[j] != headers[k]
    ensures headers[k] in RowUpTo(headers, cols, n, isNumeric, parseFloat)
    ensures RowUpTo(headers, cols, n, isNumeric, parseFloat)[headers[k]] == CellAt(cols, k, isNumeric, parseFloat)
  {
    if k < n - 1 {
      RowUpToLastWins(headers, cols, n - 1, k, isNumeric, parseFloat);
    }
  }

  /**
   * The `headers.forEach` loop that fills `row = {}` in place. Its keys are
   * exactly the header names, and each name maps to the cell of the last
   * column that carries it.
   */
  method BuildRow(headers: seq<string>, cols: seq<string>, isNumeric: NumericTest, parseFloat: FloatParser) returns (row: Row)
    ensures row == RowOf(headers, cols, isNumeric, parseFloat)
    ensures row.Keys == set h | h in headers
    ensures forall k :: 0 <= k < |headers| && LastOccurrence(headers, k) ==>
      row[headers[k]] == CellAt(cols, k, isNumeric, parseFloat)
  {
    row := map[];
    for i := 0 to |headers|
      invariant row == RowUpTo(headers, cols, i, isNumeric, parseFloat)
    {
      row := row[headers[i] := CellAt(cols, i, isNumeric, parseFloat)];
    }
    HeaderSetIsNames(headers, |headers|);
    assert headers[..|headers|] == headers;
    forall k | 0 <= k < |headers| && LastOccurrence(headers, k)
      ensures row[headers[k]] == CellAt(cols, k, isNumeric, parseFloat)
    {
      RowUpToLastWins(headers, cols, |headers|, k, isNumeric, parseFloat);
    }
  }

  /** Fields past the last header are never read. */
  lemma {:induction false} RowUpToIgnoresExtraFields(headers: seq<string>, cols: seq<string>, n: nat, isNumeric: NumericTest, parseFloat: FloatParser)
    requires n <= |headers| <= |cols|
    ensures RowUpTo(headers, cols, n, isNumeric, parseFloat) == RowUpTo(headers, cols[..|headers|], n, isNumeric, parseFloat)
  {
    if n > 0 {
      RowUpToIgnoresExtraFields(headers, cols, n - 1, isNumeric, parseFloat);
    }
  }

  /** `headerLine.split(",").map(h => h.trim())`. */
  function HeaderNames(headerLine: string): (names: seq<string>)
    ensures |names| == |Split(headerLine, ',')|
  {
    var fields := Split(headerLine, ',');
    seq(|fields|, k requires 0 <= k < |fields| => Trim(fields[k]))
  }

  /** Header names are the trimmed fields of the header line: no surrounding whitespace, no comma. */
  lemma HeaderNamesTrimmed(headerLine: string)
    ensures forall k :: 0 <= k < |HeaderNames(headerLine)| ==>
      && HeaderNames(headerLine)[k] == Trim(Split(headerLine, ',')[k])
      && IsTrimmed(HeaderNames(headerLine)[k])
      && ',' !in HeaderNames(headerLine)[k]
  {
    var fields := Split(headerLine, ',');
    forall k | 0 <= k < |fields| ensures ',' !in Trim(fields[k]) {
      TrimKeepsAbsent(fields[k], ',');
    }
  }

  /** `text.trim().split("\n")`: the header line followed by the data lines. */
  function TextLines(text: string): (lines: seq<string>)
    ensures |lines| >= 1
  {
    Split(Trim(text), '\n')
  }

  /** `lines.map(...)`: one row per data line, each keyed by the header names. */
  function RowsOf(headers: seq<string>, lines: seq<string>, isNumeric: NumericTest, parseFloat: FloatParser): (rows: seq<Row>)
    ensures |rows| == |lines|
    ensures forall k :: 0 <= k < |rows| ==> rows[k].Keys == set h | h in headers
    ensures forall k :: 0 <= k < |rows| ==> rows[k] == RowOf(headers, Split(lines[k], ','), isNumeric, parseFloat)
  {
    HeaderSetIsNames(headers, |headers|);
    assert headers[..|headers|] == headers;
    seq(|lines|, k requires 0 <= k < |lines| => RowOf(headers, Split(lines[k], ','), isNumeric, parseFloat))
  }

  /** The rows fetchModuleData returns for the catalog text. */
  function ParseModuleData(text: string, isNumeric: NumericTest, parseFloat: FloatParser): (rows: seq<Row>)
    ensures |rows| == |TextLines(text)| - 1
    ensures forall k :: 0 <= k < |rows| ==> rows[k].Keys == set h | h in HeaderNames(TextLines(text)[0])
  {
    var lines := TextLines(text);
    RowsOf(HeaderNames(lines[0]), lines[1..], isNumeric, parseFloat)
  }

  /** Trimmed text joined from lines splits back into exactly those lines. */
  lemma TextLinesOfJoin(all: seq<string>)
    requires |all| >= 1
    requires forall k :: 0 <= k < |all| ==> '\n' !in all[k]
    requires IsTrimmed(Join(all, '\n'))
    ensures TextLines(Join(all, '\n')) == all
  {
    TrimOfTrimmed(Join(all, '\n'));
    SplitJoin(all, '\n');
  }

  /**
   * For trimmed text made of a header line and data lines, there is exactly
   * one row per data line, in order, none dropped, keyed by the header names.
   */
  lemma OneRowPerLine(header: string, lines: seq<string>, isNumeric: NumericTest, parseFloat: FloatParser)
    requires '\n' !in header
    requires forall k :: 0 <= k < |lines| ==> '\n' !in lines[k]
    requires IsTrimmed(Join([header] + lines, '\n'))
    ensures var rows := ParseModuleData(Join([header] + lines, '\n'), isNumeric, parseFloat);
      && |rows| == |lines|
      && forall k :: 0 <= k < |lines| ==>
           rows[k] == RowOf(HeaderNames(header), Split(lines[k], ','), isNumeric, parseFloat)
  {
    var all := [header] + lines;
    assert forall k :: 0 <= k < |all| ==> '\n' !in all[k] by {
      forall k | 0 <= k < |all| ensures '\n' !in all[k] {
        if k > 0 { assert all[k] == lines[k - 1]; }
      }
    }
    TextLinesOfJoin(all);
    assert all[1..] == lines;
  }

  /** Text whose trimmed form is a single line (including empty or blank text) has no rows. */
  lemma HeaderOnlyNoRows(text: string, isNumeric: NumericTest, parseFloat: FloatParser)
    requires '\n' !in Trim(text)
    ensures ParseModuleData(text, isNumeric, parseFloat) == []
  {
    SplitWithoutSeparator(Trim(text), '\n');
    assert |TextLines(text)| == 1;
  }

  lemma BlankTextNoRows(text: string, isNumeric: NumericTest, parseFloat: FloatParser)
    requires AllWhitespace(text)
    ensures ParseModuleData(text, isNumeric, parseFloat) == []
  {
    TrimAllWhitespace(text);
    HeaderOnlyNoRows(text, isNumeric, parseFloat);
  }

  /**
   * Whitespace around the whole text, a trailing newline included, changes
   * nothing: it is trimmed away before the split into lines.
   */
  lemma SurroundingWhitespaceIgnored(before: string, text: string, after: string, isNumeric: NumericTest, parseFloat: FloatParser)
    requires AllWhitespace(before) && AllWhitespace(after)
    ensures ParseModuleData(before + text + after, isNumeric, parseFloat) == ParseModuleData(text, isNumeric, parseFloat)
  {
    assert before + text + after == before + (text + after);
    TrimPrependWhitespace(before, text + after);
    TrimAppendWhitespace(text, after);
    assert TextLines(before + text + after) == TextLines(text);
  }
}
