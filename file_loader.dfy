/**
  * Reading a table out of a spreadsheet frame: the header row is normalised
  * (dates rendered as month-year, blank headers numbered `Unnamed_k`, repeated
  * names suffixed with their occurrence count), and the data rows below it are
  * collected up to the first row with no value in it.
  *
  * The frame is a sequence of rows of cells. Date parsing and formatting is a
  * parameter: `parse(c)` is the `%b-%Y` rendering of `c` when it reads as a
  * date, and None when parsing or formatting fails.
  */
module FileLoader {
  import opened Wrappers

  /** A spreadsheet cell: null, a string, or another value shown by its `str` form. */
  datatype Cell = Missing | Text(s: string) | Other(repr: string)

  type DateParser = Cell -> Option<string>

  /** `str(c)` of a non-null cell. */
  function Str(c: Cell): string
    requires !c.Missing?
  {
    match c
    case Text(s) => s
    case Other(r) => r
  }

  /** The characters Python's `str.strip()` removes by default. */
  predicate IsWhitespace(ch: char)
  {
    ch in {'\U{0009}', '\U{000A}', '\U{000B}', '\U{000C}', '\U{000D}', '\U{001C}', '\U{001D}', '\U{001E}',
           '\U{001F}', '\U{0020}', '\U{0085}', '\U{00A0}', '\U{1680}', '\U{2000}', '\U{2001}', '\U{2002}',
           '\U{2003}', '\U{2004}', '\U{2005}', '\U{2006}', '\U{2007}', '\U{2008}', '\U{2009}', '\U{200A}',
           '\U{2028}', '\U{2029}', '\U{202F}', '\U{205F}', '\U{3000}'}
  }

  /** Null, or a value whose text strips to nothing. */
  predicate IsBlank(c: Cell)
  {
    c.Missing? || forall k :: 0 <= k < |Str(c)| ==> IsWhitespace(Str(c)[k])
  }

  /** A header that is not a date and is blank gets a numbered placeholder. */
  predicate NeedsPlaceholder(c: Cell, parse: DateParser)
  {
    parse(c).None? && IsBlank(c)
  }

  /** Decimal digits of `n`, as Python's `str(n)`. */
  function NatToString(n: nat): (s: string)
    ensures |s| > 0
    decreases n
  {
    var digit := ['0' + (n % 10) as char];
    if n < 10 then digit else NatToString(n / 10) + digit
  }

  function Placeholder(k: nat): string
  {
    "Unnamed_" + NatToString(k)
  }

  // ---------------------------------------------------------------------
  // Header normalisation, as two specification functions

  /** The number of headers in `hs` that need a placeholder. */
  function PlaceholderCount(hs: seq<Cell>, parse: DateParser): nat
  {
    if |hs| == 0 then 0
    else PlaceholderCount(hs[..|hs| - 1], parse) + (if NeedsPlaceholder(hs[|hs| - 1], parse) then 1 else 0)
  }

  /** Name of one header: its date rendering, else its text, else the placeholder numbered `k`. */
  function FormatCell(c: Cell, parse: DateParser, k: nat): string
  {
    match parse(c)
    case Some(d) => d
    case None => if !IsBlank(c) then Str(c) else Placeholder(k)
  }

  /** First pass: every header named, blank ones numbered from 1 in order of appearance. */
  function Formatted(headers: seq<Cell>, parse: DateParser): (names: seq<string>)
    ensures |names| == |headers|
  {
    seq(|headers|, i requires 0 <= i < |headers| =>
      FormatCell(headers[i], parse, PlaceholderCount(headers[..i], parse) + 1))
  }

  /** How often `x` occurs in `s`. */
  function Occurrences(s: seq<string>, x: string): nat
  {
    if |s| == 0 then 0
    else Occurrences(s[..|s| - 1], x) + (if s[|s| - 1] == x then 1 else 0)
  }

  /** The `k`-th occurrence of `name`: unchanged the first time, `name_k` after. */
  function Disambiguate(name: string, k: nat): string
  {
    if k > 1 then name + "_" + NatToString(k) else name
  }

  /** Second pass: each name followed by its occurrence count when it is a repeat. */
  function Deduplicated(names: seq<string>): (unique: seq<string>)
    ensures |unique| == |names|
  {
    seq(|names|, i requires 0 <= i < |names| => Disambiguate(names[i], Occurrences(names[..i + 1], names[i])))
  }

  /** The normalised header row: first every header is named, then repeats are
      suffixed. */
  method FormatColumnHeaders(headers: seq<Cell>, parse: DateParser) returns (unique: seq<string>)
    ensures unique == Deduplicated(Formatted(headers, parse))
  {
    var formatted := NameHeaders(headers, parse);
    unique := SuffixRepeats(formatted);
  }

  /** The naming loop, with a running counter for the placeholders. */
  method NameHeaders(headers: seq<Cell>, parse: DateParser) returns (formatted: seq<string>)
    ensures formatted == Formatted(headers, parse)
  {
    formatted := [];
    var blankCounter: nat := 1;
    for i := 0 to |headers|
      invariant |formatted| == i
      invariant blankCounter == PlaceholderCount(headers[..i], parse) + 1
      invariant forall j :: 0 <= j < i ==> formatted[j] == Formatted(headers, parse)[j]
    {
      PlaceholderCountStep(headers, parse, i);
      var h := headers[i];
      match parse(h)
      case Some(d) =>
        formatted := formatted + [d];
      case None =>
        if !IsBlank(h) {
          formatted := formatted + [Str(h)];
        } else {
          formatted := formatted + ["Unnamed_" + NatToString(blankCounter)];
          blankCounter := blankCounter + 1;
        }
    }
  }

  /** The de-duplication loop, with a counter per name. */
  method SuffixRepeats(formatted: seq<string>) returns (unique: seq<string>)
    ensures unique == Deduplicated(formatted)
  {
    var counts: map<string, nat> := map[];
    unique := [];
    for i := 0 to |formatted|
      invariant |unique| == i
      invariant forall name :: CountOf(counts, name) == Occurrences(formatted[..i], name)
      invariant forall j :: 0 <= j < i ==> unique[j] == Deduplicated(formatted)[j]
    {
      var h := formatted[i];
      var count := CountOf(counts, h) + 1;
      ghost var before := counts;
      counts := counts[h := count];
      forall name
        ensures CountOf(counts, name) == Occurrences(formatted[..i + 1], name)
      {
        assert CountOf(before, name) == Occurrences(formatted[..i], name);
        OccurrencesStep(formatted, i, name);
      }
      assert count == Occurrences(formatted[..i + 1], h) by {
        assert CountOf(counts, h) == count;
      }
      unique := unique + [if count > 1 then h + "_" + NatToString(count) else h];
    }
  }

  /** A `Counter` lookup: 0 for a name not seen yet. */
  function CountOf(counts: map<string, nat>, name: string): nat
  {
    if name in counts then counts[name] else 0
  }

  lemma PlaceholderCountStep(hs: seq<Cell>, parse: DateParser, i: nat)
    requires i < |hs|
    ensures PlaceholderCount(hs[..i + 1], parse)
            == PlaceholderCount(hs[..i], parse) + (if NeedsPlaceholder(hs[i], parse) then 1 else 0)
  {
    assert hs[..i + 1][..i] == hs[..i];
  }

  lemma OccurrencesStep(s: seq<string>, i: nat, x: string)
    requires i < |s|
    ensures Occurrences(s[..i + 1], x) == Occurrences(s[..i], x) + (if s[i] == x then 1 else 0)
  {
    assert s[..i + 1][..i] == s[..i];
  }

  // ---------------------------------------------------------------------
  // Properties of the normalised headers

  /** A date header becomes its rendering; any other non-blank header keeps its
      text; a blank one becomes `Unnamed_k`, k being one more than the number of
      blank headers before it. */
  lemma FormattedCases(headers: seq<Cell>, parse: DateParser, i: nat)
    requires i < |headers|
    ensures parse(headers[i]).Some? ==> Formatted(headers, parse)[i] == parse(headers[i]).value
    ensures parse(headers[i]).None? && !IsBlank(headers[i]) ==> Formatted(headers, parse)[i] == Str(headers[i])
    ensures NeedsPlaceholder(headers[i], parse) ==>
      Formatted(headers, parse)[i] == Placeholder(PlaceholderCount(headers[..i], parse) + 1)
  {
  }

  lemma {:induction false} PlaceholderCountMonotone(hs: seq<Cell>, parse: DateParser, i: nat, j: nat)
    requires i <= j <= |hs|
    ensures PlaceholderCount(hs[..i], parse) <= PlaceholderCount(hs[..j], parse)
    decreases j - i
  {
    if i < j {
      PlaceholderCountMonotone(hs, parse, i, j - 1);
      assert hs[..j][..j - 1] == hs[..j - 1];
    }
  }

  /** Placeholders are numbered in order of appearance: a later blank header gets
      a strictly larger number. */
  lemma PlaceholdersIncrease(headers: seq<Cell>, parse: DateParser, i: nat, j: nat)
    requires i < j < |headers|
    requires NeedsPlaceholder(headers[i], parse) && NeedsPlaceholder(headers[j], parse)
    ensures PlaceholderCount(headers[..i], parse) < PlaceholderCount(headers[..j], parse)
  {
    assert headers[..i + 1][..i] == headers[..i];
    PlaceholderCountMonotone(headers, parse, i + 1, j);
  }

  /** Placeholders are numbered without gaps: each of 1..(number of blank headers)
      is the number of some blank header. */
  lemma {:induction false} PlaceholdersConsecutive(headers: seq<Cell>, parse: DateParser, k: nat)
    requires 1 <= k <= PlaceholderCount(headers, parse)
    ensures exists i :: 0 <= i < |headers| && NeedsPlaceholder(headers[i], parse) &&
                        PlaceholderCount(headers[..i], parse) + 1 == k
  {
    var n := |headers|;
    var init := headers[..n - 1];
    if k <= PlaceholderCount(init, parse) {
      PlaceholdersConsecutive(init, parse, k);
      var i :| 0 <= i < |init| && NeedsPlaceholder(init[i], parse) && PlaceholderCount(init[..i], parse) + 1 == k;
      assert init[..i] == headers[..i];
    } else {
      assert headers[..n - 1] == init;
    }
  }

  lemma {:induction false} OccurrencesAbsent(s: seq<string>, x: string)
    requires x !in s
    ensures Occurrences(s, x) == 0
  {
    if |s| > 0 {
      OccurrencesAbsent(s[..|s| - 1], x);
    }
  }

  /** The first occurrence of a name is emitted unchanged. */
  lemma FirstOccurrenceKept(names: seq<string>, i: nat)
    requires i < |names| && names[i] !in names[..i]
    ensures Deduplicated(names)[i] == names[i]
  {
    assert names[..i + 1][..i] == names[..i];
    OccurrencesAbsent(names[..i], names[i]);
  }

  /** A name seen k-1 times before is emitted as `name_k` (k > 1). */
  lemma RepeatSuffixed(names: seq<string>, i: nat, k: nat)
    requires i < |names| && k > 1 && Occurrences(names[..i], names[i]) == k - 1
    ensures Deduplicated(names)[i] == names[i] + "_" + NatToString(k)
  {
    assert names[..i + 1][..i] == names[..i];
  }

  /** Names that are already distinct pass through unchanged. */
  lemma DistinctNamesUnchanged(names: seq<string>)
    requires forall i, j :: 0 <= i < j < |names| ==> names[i] != names[j]
    ensures Deduplicated(names) == names
  {
    forall i | 0 <= i < |names|
      ensures Deduplicated(names)[i] == names[i]
    {
      FirstOccurrenceKept(names, i);
    }
  }

  /** The suffixes do not make the names unique: a repeat can collide with a
      name that already carries the suffix. */
  lemma DeduplicationNotInjective()
    ensures Deduplicated(["a", "a", "a_2"]) == ["a", "a_2", "a_2"]
  {
    var names := ["a", "a", "a_2"];
    assert names[..0] == [] && names[..1] == ["a"] && names[..2] == ["a", "a"];
    FirstOccurrenceKept(names, 0);
    assert Occurrences(names[..1], "a") == 1 by {
      assert names[..1][..0] == [];
    }
    RepeatSuffixed(names, 1, 2);
    assert NatToString(2) == "2";
    FirstOccurrenceKept(names, 2);
    assert Deduplicated(names)[1] == "a_2";
  }

  // ---------------------------------------------------------------------
  // Data rows under the header

  /** The first `colCount` cells of a row. */
  function Take(row: seq<Cell>, colCount: nat): (r: seq<Cell>)
    ensures |r| <= colCount && |r| <= |row| && r == row[..|r|]
    ensures |r| == colCount || r == row
  {
    if colCount <= |row| then row[..colCount] else row
  }

  /** Every cell is null (true of an empty row). */
  predicate AllNull(row: seq<Cell>)
  {
    forall k :: 0 <= k < |row| ==> row[k].Missing?
  }

  /** Where the table that starts at row `from` ends: the first row at or after
      `from` with no value in its first `colCount` cells, or the end of the frame. */
  function TableEnd(frame: seq<seq<Cell>>, from: nat, colCount: nat): (stop: nat)
    requires from <= |frame|
    ensures from <= stop <= |frame|
    ensures forall i :: from <= i < stop ==> !AllNull(Take(frame[i], colCount))
    ensures stop == |frame| || AllNull(Take(frame[stop], colCount))
    decreases |frame| - from
  {
    if from == |frame| || AllNull(Take(frame[from], colCount)) then from
    else TableEnd(frame, from + 1, colCount)
  }

  /** The data rows of the table whose header is row `headerRow`: the consecutive
      rows right after it, each cut to `colCount` cells, none of them all-null, and
      stopping at the end of the frame or just before the first all-null row. */
  function TableRows(frame: seq<seq<Cell>>, headerRow: nat, colCount: nat): (rows: seq<seq<Cell>>)
    requires headerRow < |frame|
    ensures headerRow + 1 + |rows| <= |frame|
    ensures forall j :: 0 <= j < |rows| ==>
      rows[j] == Take(frame[headerRow + 1 + j], colCount) && !AllNull(rows[j])
    ensures headerRow + 1 + |rows| == |frame| || AllNull(Take(frame[headerRow + 1 + |rows|], colCount))
  {
    seq(TableEnd(frame, headerRow + 1, colCount) - (headerRow + 1),
        j requires 0 <= j < TableEnd(frame, headerRow + 1, colCount) - (headerRow + 1) =>
          Take(frame[headerRow + 1 + j], colCount))
  }

  /** The row-collection loop. */
  method CollectRows(frame: seq<seq<Cell>>, headerRow: nat, colCount: nat) returns (dataRows: seq<seq<Cell>>)
    requires headerRow < |frame|
    ensures dataRows == TableRows(frame, headerRow, colCount)
  {
    dataRows := [];
    var i := headerRow + 1;
    while i < |frame|
      invariant headerRow + 1 <= i <= |frame|
      invariant |dataRows| == i - (headerRow + 1)
      invariant forall j :: 0 <= j < |dataRows| ==> dataRows[j] == Take(frame[headerRow + 1 + j], colCount)
      invariant TableEnd(frame, i, colCount) == TableEnd(frame, headerRow + 1, colCount)
    {
      var row := Take(frame[i], colCount);
      if AllNull(row) {
        break;
      }
      dataRows := dataRows + [row];
      i := i + 1;
    }
  }

  /** The first row whose first cell is the string `startLabel`, searching from `from`. */
  function FirstLabelledRow(frame: seq<seq<Cell>>, startLabel: string, from: nat): (r: Option<nat>)
    requires from <= |frame|
    ensures r.Some? ==> from <= r.value < |frame| && IsLabelled(frame[r.value], startLabel) &&
                        forall i :: from <= i < r.value ==> !IsLabelled(frame[i], startLabel)
    ensures r.None? ==> forall i :: from <= i < |frame| ==> !IsLabelled(frame[i], startLabel)
    decreases |frame| - from
  {
    if from == |frame| then None
    else if IsLabelled(frame[from], startLabel) then Some(from)
    else FirstLabelledRow(frame, startLabel, from + 1)
  }

  predicate IsLabelled(row: seq<Cell>, startLabel: string)
  {
    |row| > 0 && row[0] == Text(startLabel)
  }

  /** The header names and data rows of the table labelled `startLabel`. */
  datatype Table = Table(columnNames: seq<string>, rows: seq<seq<Cell>>)

  datatype LoaderError =
    | StartLabelNotFound    // no row starts with the label
    | HeaderRowOutOfRange   // the header row lies past the end of the frame

  /** Locate the labelled row, normalise the header row `startRowOffset` rows below
      it, and collect the data rows under the header. */
  method ExtractTable(frame: seq<seq<Cell>>, startLabel: string, startRowOffset: nat,
                      colCount: nat, parse: DateParser) returns (res: Result<Table, LoaderError>)
    ensures FirstLabelledRow(frame, startLabel, 0).None? <==> res == Err(StartLabelNotFound)
    ensures res == Err(HeaderRowOutOfRange) <==>
      FirstLabelledRow(frame, startLabel, 0).Some? &&
      FirstLabelledRow(frame, startLabel, 0).value + startRowOffset >= |frame|
    ensures res.Ok? ==>
      var headerRow := FirstLabelledRow(frame, startLabel, 0).value + startRowOffset;
      && headerRow < |frame|
      && res.value.columnNames == Deduplicated(Formatted(Take(frame[headerRow], colCount), parse))
      && res.value.rows == TableRows(frame, headerRow, colCount)
  {
    var start := FirstLabelledRow(frame, startLabel, 0);
    if start.None? {
      return Err(StartLabelNotFound);
    }
    var headerRow := start.value + startRowOffset;
    if headerRow >= |frame| {
      return Err(HeaderRowOutOfRange);
    }
    var headers := FormatColumnHeaders(Take(frame[headerRow], colCount), parse);
    var dataRows := CollectRows(frame, headerRow, colCount);
    res := Ok(Table(headers, dataRows));
  }
}
