/**
 * The viewer's CSV reader: split the text into lines, drop blank lines,
 * take the first line as the header and turn every other line into a
 * record keyed by the trimmed header names.
 */
module Csv {

  import opened Wrappers
  import opened Text

  /** A parsed row: column name to trimmed cell text. */
  type Record = map<string, string>

  /** The text has no non-blank line, so there is no header to read (a TypeError in the viewer). */
  datatype CsvError = NoHeader

  /** The lines satisfying keep, in order. */
  function Keep(lines: seq<string>, keep: string -> bool): (r: seq<string>)
    ensures |r| <= |lines|
    decreases |lines|
  {
    if lines == [] then []
    else if keep(lines[0]) then [lines[0]] + Keep(lines[1..], keep)
    else Keep(lines[1..], keep)
  }

  /** Exactly the lines satisfying keep are kept. */
  lemma {:induction false} KeepMembers(lines: seq<string>, keep: string -> bool)
    ensures forall l :: l in Keep(lines, keep) <==> l in lines && keep(l)
    decreases |lines|
  {
    if lines != [] {
      KeepMembers(lines[1..], keep);
      assert forall l :: l in lines <==> l == lines[0] || l in lines[1..];
    }
  }

  /** Filtering distributes over concatenation. */
  lemma {:induction false} KeepAppend(x: seq<string>, y: seq<string>, keep: string -> bool)
    ensures Keep(x + y, keep) == Keep(x, keep) + Keep(y, keep)
    decreases |x|
  {
    if x == [] {
      assert x + y == y;
    } else {
      var xy := x + y;
      assert xy[0] == x[0] && xy[1..] == x[1..] + y;
      KeepAppend(x[1..], y, keep);
    }
  }

  /** A line with something other than whitespace in it. */
  predicate HasContent(line: string)
  {
    JsTrim(line) != ""
  }

  /** The lines that are not blank after trimming, in order: exactly those are kept. */
  function NonBlank(lines: seq<string>): (r: seq<string>)
    ensures forall l :: l in r <==> l in lines && JsTrim(l) != ""
  {
    KeepMembers(lines, HasContent);
    Keep(lines, HasContent)
  }

  /** The non-blank lines of a text, split at line feeds. */
  function Lines(text: string): (lines: seq<string>)
    ensures forall l :: l in lines ==> '\n' !in l && JsTrim(l) != ""
  {
    NonBlank(Split(text, '\n'))
  }

  /** The value of column i of a row: its trimmed text, or "" when the row has no such column. */
  function Cell(cols: seq<string>, i: nat): (cell: string)
    ensures i < |cols| ==> cell == JsTrim(cols[i])
    ensures i >= |cols| ==> cell == ""
  {
    if i < |cols| && cols[i] != "" then JsTrim(cols[i])
    else
      assert i < |cols| ==> JsTrim(cols[i]) == "";
      ""
  }

  /** The header names: the header tokens, each trimmed. */
  function HeaderNames(headers: seq<string>): (names: seq<string>)
    ensures |names| == |headers|
    ensures forall j :: 0 <= j < |headers| ==> names[j] == JsTrim(headers[j])
  {
    seq(|headers|, j requires 0 <= j < |headers| => JsTrim(headers[j]))
  }

  /** The record built from the first n names, assigned in header order. */
  function BuildRecord(names: seq<string>, cols: seq<string>, n: nat): (rec: Record)
    requires n <= |names|
    ensures n > 0 ==> names[n - 1] in rec && rec[names[n - 1]] == Cell(cols, n - 1)
  {
    if n == 0 then map[]
    else BuildRecord(names, cols, n - 1)[names[n - 1] := Cell(cols, n - 1)]
  }

  /** A record built from the first n names has exactly those names as keys. */
  lemma {:induction false} RecordKeys(names: seq<string>, cols: seq<string>, n: nat)
    requires n <= |names|
    ensures forall k :: k in BuildRecord(names, cols, n) <==> k in names[..n]
  {
    if n > 0 {
      RecordKeys(names, cols, n - 1);
      assert names[..n] == names[..n - 1] + [names[n - 1]];
    }
  }

  /**
   * The record of one data line: keyed by exactly the header names, each
   * name holding the cell under the last header with that name.
   */
  function ToRecord(names: seq<string>, line: string): (rec: Record)
    ensures forall k :: k in rec <==> k in names
    ensures forall j :: 0 <= j < |names| && LastWithName(names, j) ==>
      rec[names[j]] == Cell(Split(line, ','), j)
  {
    var cols := Split(line, ',');
    RecordKeys(names, cols, |names|);
    assert names[..|names|] == names;
    forall j | 0 <= j < |names| && LastWithName(names, j)
      ensures BuildRecord(names, cols, |names|)[names[j]] == Cell(cols, j)
    {
      LastColumnWins(names, cols, |names|, j);
    }
    BuildRecord(names, cols, |names|)
  }

  /** No header after position j has the name at j. */
  predicate LastWithName(names: seq<string>, j: nat)
    requires j < |names|
  {
    forall j' :: j < j' < |names| ==> names[j'] != names[j]
  }

  /**
   * Parses the text: no header is an error; otherwise one record per
   * non-blank line after the first, in order.
   */
  function ParseCSV(text: string): (r: Result<seq<Record>, CsvError>)
    ensures r.Failure? <==> Lines(text) == []
    ensures r.Success? ==> |r.value| == |Lines(text)| - 1
  {
    ParseLines(Lines(text))
  }

  /** The records of the non-blank lines: the first line is the header. */
  function ParseLines(lines: seq<string>): (r: Result<seq<Record>, CsvError>)
    ensures r.Failure? <==> lines == []
    ensures r.Success? ==> |r.value| == |lines| - 1
  {
    if lines == [] then Failure(NoHeader)
    else
      var names := HeaderNames(Split(lines[0], ','));
      Success(seq(|lines| - 1, i requires 0 <= i < |lines| - 1 => ToRecord(names, lines[i + 1])))
  }

  /** Record i of the parse is the record of line i + 1 under the header names. */
  lemma ParseLinesRecord(lines: seq<string>, i: nat)
    requires lines != [] && i < |lines| - 1
    ensures ParseLines(lines).value[i] == ToRecord(HeaderNames(Split(lines[0], ',')), lines[i + 1])
  {
  }

  /** Every record is keyed by exactly the trimmed header names. */
  lemma RecordsKeyedByHeader(lines: seq<string>)
    requires lines != []
    ensures forall i :: 0 <= i < |lines| - 1 ==>
      forall k :: k in ParseLines(lines).value[i] <==> k in HeaderNames(Split(lines[0], ','))
  {
    var names := HeaderNames(Split(lines[0], ','));
    forall i | 0 <= i < |lines| - 1 ensures forall k :: k in ParseLines(lines).value[i] <==> k in names {
      ParseLinesRecord(lines, i);
    }
  }

  /**
   * Record i of the parse comes from the (i + 1)-th non-blank line: under
   * the last header with a given name it holds that line's trimmed cell.
   */
  lemma ParseLinesCell(lines: seq<string>, i: nat, j: nat)
    requires lines != [] && i < |lines| - 1
    requires var names := HeaderNames(Split(lines[0], ','));
      j < |names| && LastWithName(names, j)
    ensures var names := HeaderNames(Split(lines[0], ','));
      ParseLines(lines).value[i][names[j]] == Cell(Split(lines[i + 1], ','), j)
  {
    ParseLinesRecord(lines, i);
  }

  /**
   * The same for the text: record i holds, under the last header with a
   * given name, the trimmed cell of the (i + 2)-th non-blank line.
   */
  lemma ParseCSVCell(text: string, i: nat, j: nat)
    requires ParseCSV(text).Success? && i < |ParseCSV(text).value|
    requires var names := HeaderNames(Split(Lines(text)[0], ','));
      j < |names| && LastWithName(names, j)
    ensures var names := HeaderNames(Split(Lines(text)[0], ','));
      ParseCSV(text).value[i][names[j]] == Cell(Split(Lines(text)[i + 1], ','), j)
  {
    ParseLinesCell(Lines(text), i, j);
  }

  /**
   * When header names repeat, the last column with that name supplies the
   * value: the value under a name is the cell of the last header with it.
   */
  lemma {:induction false} LastColumnWins(names: seq<string>, cols: seq<string>, n: nat, j: nat)
    requires j < n <= |names|
    requires forall j' :: j < j' < n ==> names[j'] != names[j]
    ensures names[j] in BuildRecord(names, cols, n)
    ensures BuildRecord(names, cols, n)[names[j]] == Cell(cols, j)
  {
    if j < n - 1 {
      LastColumnWins(names, cols, n - 1, j);
    }
  }

  /** Columns beyond the header count do not change a record. */
  lemma {:induction false} ExtraColumnsIgnored(names: seq<string>, cols: seq<string>, extra: seq<string>, n: nat)
    requires n <= |names| <= |cols|
    ensures BuildRecord(names, cols + extra, n) == BuildRecord(names, cols, n)
  {
    if n > 0 {
      ExtraColumnsIgnored(names, cols, extra, n - 1);
      assert (cols + extra)[n - 1] == cols[n - 1];
    }
  }

  /** Missing trailing columns read as "": padding a short row with empty cells changes nothing. */
  lemma {:induction false} MissingColumnsEmpty(names: seq<string>, cols: seq<string>, pad: seq<string>, n: nat)
    requires n <= |names|
    requires forall p :: p in pad ==> p == ""
    ensures BuildRecord(names, cols + pad, n) == BuildRecord(names, cols, n)
  {
    if n > 0 {
      MissingColumnsEmpty(names, cols, pad, n - 1);
      if |cols| <= n - 1 < |cols| + |pad| {
        assert (cols + pad)[n - 1] == pad[n - 1 - |cols|];
        assert pad[n - 1 - |cols|] in pad;
      }
    }
  }

  /** A text with a header line and no data line parses to no records. */
  lemma HeaderOnly(text: string)
    requires |Lines(text)| == 1
    ensures ParseCSV(text) == Success([])
  {
  }

  // ---------------------------------------------------------------------
  // Blank lines
  // ---------------------------------------------------------------------

  /** A line the filter rejects, inserted anywhere, is dropped again. */
  lemma KeepSkip(x: seq<string>, m: string, y: seq<string>, keep: string -> bool)
    requires !keep(m)
    ensures Keep(x + [m] + y, keep) == Keep(x + y, keep)
  {
    assert x + [m] + y == x + ([m] + y);
    KeepAppend(x, [m] + y, keep);
    KeepAppend(x, y, keep);
    assert ([m] + y)[0] == m && ([m] + y)[1..] == y;
  }

  /** A line of whitespace only, inserted anywhere between two lines, changes nothing. */
  lemma BlankLineIgnored(a: string, blank: string, b: string)
    requires '\n' !in blank
    requires forall k :: 0 <= k < |blank| ==> IsJsSpace(blank[k])
    ensures ParseCSV(a + "\n" + blank + "\n" + b) == ParseCSV(a + "\n" + b)
  {
    SplitAround(a, blank, b, '\n');
    SplitAppend(a, b, '\n');
    StripEmptyIffBlank(blank, IsJsSpace);
    KeepSkip(Split(a, '\n'), blank, Split(b, '\n'), HasContent);
    assert Lines(a + "\n" + blank + "\n" + b) == Lines(a + "\n" + b);
  }
}
