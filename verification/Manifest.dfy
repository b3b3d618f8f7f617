/**
  The set manifest: rows of tab-separated columns, grouped into sets of
  consecutive rows. The parser accepts exactly the texts whose data lines are
  the rows of well-formed sets, and returns those sets.
 */
module Manifest {
  import opened Wrappers

  const PROFILE := "rust-regex-lf-bytes-v1"
  const MAX_ROWS: int := 64

  datatype Exact64Set = Exact64Set(id: string, caseInsensitive: bool, sources: seq<string>)

  datatype Row = Row(id: string, caseInsensitive: bool, source: string)

  // ----- Lines and columns -----

  /** Place of the first `c`, or the length. */
  function IndexOf(s: string, c: char): (i: nat)
    ensures i <= |s| && (i < |s| ==> s[i] == c) && forall k :: 0 <= k < i ==> s[k] != c
  {
    if s == [] || s[0] == c then 0
    else
      var i := IndexOf(s[1..], c);
      assert forall k :: 1 <= k < i + 1 ==> s[k] == s[1..][k - 1];
      i + 1
  }

  function Lines(text: string): seq<string>
    decreases |text|
  {
    var i := IndexOf(text, '\n');
    if i == |text| then [text] else [text[..i]] + Lines(text[i + 1..])
  }

  /** Splits at the first tabs into at most `n` columns. */
  function Columns(s: string, n: nat): (r: seq<string>)
    ensures |r| >= 1
    decreases n
  {
    var i := IndexOf(s, '\t');
    if n <= 1 || i == |s| then [s] else [s[..i]] + Columns(s[i + 1..], n - 1)
  }

  predicate IsIdChar(c: char) {
    'a' <= c <= 'z' || 'A' <= c <= 'Z' || '0' <= c <= '9' || c == '_'
  }

  predicate ValidId(id: string) {
    id != [] && forall i :: 0 <= i < |id| ==> IsIdChar(id[i])
  }

  function CaseField(caseInsensitive: bool): string {
    if caseInsensitive then "1" else "0"
  }

  function RowLine(row: Row): string {
    row.id + "\t" + (PROFILE + "\t" + (CaseField(row.caseInsensitive) + "\t" + row.source))
  }

  /** One data line; none if a column is missing or wrong. */
  function ParseLine(line: string): Option<Row> {
    var columns := Columns(line, 4);
    if !ValidId(columns[0]) then None
    else if |columns| < 2 || columns[1] != PROFILE then None
    else if |columns| < 3 || (columns[2] != "0" && columns[2] != "1") then None
    else if |columns| < 4 then None
    else Some(Row(columns[0], columns[2] == "1", columns[3]))
  }

  predicate Lacks(s: string, c: char) {
    forall i :: 0 <= i < |s| ==> s[i] != c
  }

  lemma FirstAfter(a: string, c: char, rest: string)
    requires Lacks(a, c)
    ensures IndexOf(a + [c] + rest, c) == |a|
    ensures (a + [c] + rest)[..|a|] == a && (a + [c] + rest)[|a| + 1..] == rest
  {
    var s := a + [c] + rest;
    assert s[|a|] == c && forall k :: 0 <= k < |a| ==> s[k] == a[k];
  }

  lemma ColumnsSplit(a: string, rest: string, n: nat)
    requires Lacks(a, '\t') && n >= 2
    ensures Columns(a + "\t" + rest, n) == [a] + Columns(rest, n - 1)
  {
    FirstAfter(a, '\t', rest);
  }

  lemma ColumnsJoin(s: string, n: nat)
    requires |Columns(s, n)| >= 2
    ensures n >= 2
    ensures var i := IndexOf(s, '\t');
      i < |s| && Columns(s, n) == [s[..i]] + Columns(s[i + 1..], n - 1) && s == s[..i] + "\t" + s[i + 1..]
  {
  }

  lemma FourColumns(line: string)
    requires |Columns(line, 4)| >= 4
    ensures var c := Columns(line, 4); line == c[0] + "\t" + (c[1] + "\t" + (c[2] + "\t" + c[3]))
  {
    hide Columns, IndexOf;
    ColumnsJoin(line, 4);
    var one := line[IndexOf(line, '\t') + 1..];
    ColumnsJoin(one, 3);
    var two := one[IndexOf(one, '\t') + 1..];
    ColumnsJoin(two, 2);
    LastColumn(two[IndexOf(two, '\t') + 1..]);
  }

  /** A line parses to a row exactly when it is the row's line and the identifier is valid; tabs in the source are kept. */
  lemma ParseLineIsExact(line: string, row: Row)
    ensures ParseLine(line) == Some(row) <==> line == RowLine(row) && ValidId(row.id)
  {
    hide Columns, ValidId, IndexOf;
    if ParseLine(line) == Some(row) {
      FourColumns(line);
    }
    if line == RowLine(row) && ValidId(row.id) {
      RowLineParses(row);
    }
  }

  lemma RowLineParses(row: Row)
    requires ValidId(row.id)
    ensures ParseLine(RowLine(row)) == Some(row)
  {
    hide Columns, ValidId, IndexOf;
    IdLacksTab(row.id);
    var two := CaseField(row.caseInsensitive) + "\t" + row.source;
    var one := PROFILE + "\t" + two;
    ColumnsSplit(row.id, one, 4);
    ColumnsSplit(PROFILE, two, 3);
    ColumnsSplit(CaseField(row.caseInsensitive), row.source, 2);
    LastColumn(row.source);
  }

  lemma LastColumn(s: string)
    ensures Columns(s, 1) == [s]
  {
  }

  lemma IdLacksTab(id: string)
    requires ValidId(id)
    ensures Lacks(id, '\t') && Lacks(id, '\n') && Lacks(id, '\r') && id[0] != '#'
  {
  }

  // ----- Grouping rows into sets -----

  function RowsOf(s: Exact64Set): seq<Row> {
    seq(|s.sources|, i requires 0 <= i < |s.sources| => Row(s.id, s.caseInsensitive, s.sources[i]))
  }

  function Rows(sets: seq<Exact64Set>): seq<Row> {
    if sets == [] then [] else RowsOf(sets[0]) + Rows(sets[1..])
  }

  predicate Sized(s: Exact64Set) {
    2 <= |s.sources| <= MAX_ROWS
  }

  function SetIds(sets: seq<Exact64Set>): set<string> {
    set s | s in sets :: s.id
  }

  predicate DistinctIds(sets: seq<Exact64Set>) {
    forall i, j :: 0 <= i < j < |sets| ==> sets[i].id != sets[j].id
  }

  predicate WellFormed(sets: seq<Exact64Set>) {
    DistinctIds(sets) && forall s :: s in sets ==> Sized(s)
  }

  datatype State = State(sets: seq<Exact64Set>, current: Option<Exact64Set>)

  /** Closes the current set, if there is one and it has the right size. */
  function Finish(st: State): Option<seq<Exact64Set>> {
    if st.current.None? then Some(st.sets)
    else if Sized(st.current.value) then Some(st.sets + [st.current.value])
    else None
  }

  /** One more row: it continues the current set or opens another one. */
  function AddRow(st: State, row: Row): Option<State> {
    if st.current.Some? && st.current.value.id == row.id then Extend(st, row)
    else
      var sets := Finish(st);
      if sets.None? || row.id in SetIds(sets.value) then None
      else Extend(State(sets.value, Some(Exact64Set(row.id, row.caseInsensitive, []))), row)
  }

  function Extend(st: State, row: Row): Option<State>
    requires st.current.Some?
  {
    var s := st.current.value;
    var longer := s.(sources := s.sources + [row.source]);
    if s.caseInsensitive != row.caseInsensitive || |longer.sources| > MAX_ROWS then None
    else Some(st.(current := Some(longer)))
  }

  function Group(st: State, rows: seq<Row>): Option<seq<Exact64Set>>
    decreases |rows|
  {
    if rows == [] then Finish(st)
    else
      var next := AddRow(st, rows[0]);
      if next.None? then None else Group(next.value, rows[1..])
  }

  /** The rows read so far. */
  function Consumed(st: State): seq<Row> {
    Rows(st.sets) + if st.current.None? then [] else RowsOf(st.current.value)
  }

  predicate Sane(st: State) {
    && WellFormed(st.sets)
    && (st.current.Some? ==> st.current.value.id !in SetIds(st.sets) && 1 <= |st.current.value.sources| <= MAX_ROWS)
  }

  lemma {:induction false} RowsSnoc(sets: seq<Exact64Set>, s: Exact64Set)
    ensures Rows(sets + [s]) == Rows(sets) + RowsOf(s)
  {
    if sets == [] {
      assert Rows([s]) == RowsOf(s) + Rows([]);
    } else {
      RowsSnoc(sets[1..], s);
      assert (sets + [s])[1..] == sets[1..] + [s];
    }
  }

  lemma FinishKeeps(st: State)
    requires Sane(st) && Finish(st).Some?
    ensures WellFormed(Finish(st).value) && Rows(Finish(st).value) == Consumed(st)
  {
    hide Rows, RowsOf;
    if st.current.Some? {
      RowsSnoc(st.sets, st.current.value);
      DistinctSnoc(st.sets, st.current.value);
    }
  }

  lemma DistinctSnoc(sets: seq<Exact64Set>, s: Exact64Set)
    requires DistinctIds(sets)
    ensures DistinctIds(sets + [s]) <==> s.id !in SetIds(sets)
  {
    var more := sets + [s];
    if s.id in SetIds(sets) {
      var t :| t in sets && t.id == s.id;
      var i :| 0 <= i < |sets| && sets[i] == t;
      assert more[i].id == more[|sets|].id;
    }
  }

  lemma ExtendKeeps(st: State, row: Row)
    requires st.current.Some? && Extend(st, row).Some?
    ensures Consumed(Extend(st, row).value) == Rows(st.sets) + RowsOf(st.current.value) + [Row(st.current.value.id, row.caseInsensitive, row.source)]
  {
    hide Rows;
  }

  lemma AddRowKeeps(st: State, row: Row)
    requires Sane(st) && AddRow(st, row).Some?
    ensures Sane(AddRow(st, row).value) && Consumed(AddRow(st, row).value) == Consumed(st) + [row]
  {
    hide Rows, Finish, WellFormed;
    if st.current.Some? && st.current.value.id == row.id {
      ExtendKeeps(st, row);
    } else {
      FinishKeeps(st);
      var begun := State(Finish(st).value, Some(Exact64Set(row.id, row.caseInsensitive, [])));
      ExtendKeeps(begun, row);
      assert RowsOf(begun.current.value) == [];
    }
  }

  /** Grouping is sound: the sets are well-formed and their rows are the rows read. */
  lemma {:induction false} GroupIsSound(st: State, rows: seq<Row>)
    requires Sane(st) && Group(st, rows).Some?
    ensures WellFormed(Group(st, rows).value) && Rows(Group(st, rows).value) == Consumed(st) + rows
    decreases |rows|
  {
    hide AddRow, Consumed, Sane, WellFormed, Finish;
    if rows == [] {
      FinishKeeps(st);
      assert Consumed(st) + [] == Consumed(st);
    } else {
      AddRowKeeps(st, rows[0]);
      GroupIsSound(AddRow(st, rows[0]).value, rows[1..]);
      assert rows == [rows[0]] + rows[1..];
      assert Consumed(st) + [rows[0]] + rows[1..] == Consumed(st) + rows;
    }
  }

  /** The state after `m` rows of set `j`. */
  function After(sets: seq<Exact64Set>, j: nat, m: nat): State
    requires j < |sets| && m <= |sets[j].sources|
  {
    State(sets[..j], Some(sets[j].(sources := sets[j].sources[..m])))
  }

  lemma OpensNext(sets: seq<Exact64Set>, j: nat, row: Row)
    requires WellFormed(sets) && j < |sets| && sets[j].sources != [] && row == RowsOf(sets[j])[0]
    ensures j == 0 ==> AddRow(State([], None), row) == Some(After(sets, 0, 1))
    ensures j > 0 ==> AddRow(After(sets, j - 1, |sets[j - 1].sources|), row) == Some(After(sets, j, 1))
  {
    hide Rows;
    var s := sets[j];
    assert s in sets;
    assert [] + [row.source] == s.sources[..1];
    if j > 0 {
      var previous := sets[j - 1];
      assert previous in sets;
      assert previous.(sources := previous.sources[..|previous.sources|]) == previous;
      assert sets[..j - 1] + [previous] == sets[..j];
      assert previous.id != s.id;
      forall t | t in sets[..j]
        ensures t.id != s.id
      {
        var i :| 0 <= i < j && sets[..j][i] == t;
      }
    }
  }

  lemma ContinuesSet(sets: seq<Exact64Set>, j: nat, m: nat)
    requires j < |sets| && 1 <= m < |sets[j].sources| <= MAX_ROWS
    ensures AddRow(After(sets, j, m), RowsOf(sets[j])[m]) == Some(After(sets, j, m + 1))
  {
    var s := sets[j];
    assert s.sources[..m] + [s.sources[m]] == s.sources[..m + 1];
  }

  lemma EndsWithSets(sets: seq<Exact64Set>, j: nat)
    requires WellFormed(sets) && j + 1 == |sets|
    ensures Finish(After(sets, j, |sets[j].sources|)) == Some(sets)
  {
    var s := sets[j];
    assert s in sets;
    assert s.(sources := s.sources[..|s.sources|]) == s;
    assert sets[..j] + [s] == sets;
  }

  /** Grouping is complete: the rows of well-formed sets give back the sets. */
  lemma {:induction false} GroupIsComplete(sets: seq<Exact64Set>, j: nat, m: nat)
    requires WellFormed(sets) && j < |sets| && 1 <= m <= |sets[j].sources|
    ensures Group(After(sets, j, m), RowsOf(sets[j])[m..] + Rows(sets[j + 1..])) == Some(sets)
    decreases |sets| - j, |sets[j].sources| - m
  {
    hide AddRow, Finish, After;
    var s := sets[j];
    assert s in sets;
    var rows := RowsOf(s)[m..] + Rows(sets[j + 1..]);
    if m < |s.sources| {
      ContinuesSet(sets, j, m);
      GroupIsComplete(sets, j, m + 1);
      assert rows[0] == RowsOf(s)[m] && rows[1..] == RowsOf(s)[m + 1..] + Rows(sets[j + 1..]);
    } else if j + 1 == |sets| {
      EndsWithSets(sets, j);
      assert rows == [];
    } else {
      var t := sets[j + 1];
      assert t in sets;
      assert sets[j + 1..][0] == t && sets[j + 1..][1..] == sets[j + 2..];
      OpensNext(sets, j + 1, RowsOf(t)[0]);
      GroupIsComplete(sets, j + 1, 1);
      assert rows[0] == RowsOf(t)[0] && rows[1..] == RowsOf(t)[1..] + Rows(sets[j + 2..]);
    }
  }

  /** Rows group into sets exactly when the sets are well-formed and have those rows. */
  lemma GroupIsExact(rows: seq<Row>, sets: seq<Exact64Set>)
    ensures Group(State([], None), rows) == Some(sets) <==> WellFormed(sets) && Rows(sets) == rows
  {
    hide Group, Rows, AddRow;
    var start := State([], None);
    if Group(start, rows) == Some(sets) {
      GroupIsSound(start, rows);
      NoRows();
      assert [] + rows == rows;
    }
    if WellFormed(sets) && Rows(sets) == rows {
      GroupFromStart(sets);
    }
  }

  lemma NoRows()
    ensures Rows([]) == [] && Consumed(State([], None)) == []
  {
  }

  lemma GroupFromStart(sets: seq<Exact64Set>)
    requires WellFormed(sets)
    ensures Group(State([], None), Rows(sets)) == Some(sets)
  {
    hide AddRow, After;
    if sets != [] {
      var s, rows := sets[0], Rows(sets);
      assert s in sets;
      OpensNext(sets, 0, RowsOf(s)[0]);
      GroupIsComplete(sets, 0, 1);
      assert rows[0] == RowsOf(s)[0] && rows[1..] == RowsOf(s)[1..] + Rows(sets[1..]);
    }
  }

  // ----- The whole text -----

  predicate IsData(line: string) {
    line != [] && line[0] != '#'
  }

  function DataLines(lines: seq<string>): seq<string> {
    if lines == [] then []
    else (if IsData(lines[0]) then [lines[0]] else []) + DataLines(lines[1..])
  }

  function RowLines(rows: seq<Row>): seq<string> {
    if rows == [] then [] else [RowLine(rows[0])] + RowLines(rows[1..])
  }

  predicate ValidRows(rows: seq<Row>) {
    forall r :: r in rows ==> ValidId(r.id)
  }

  /** The rows of the data lines; none if a line holds a carriage return or a data line is malformed. */
  function RowsFrom(lines: seq<string>): Option<seq<Row>> {
    if lines == [] then Some([])
    else if !Lacks(lines[0], '\r') then None
    else if !IsData(lines[0]) then RowsFrom(lines[1..])
    else
      var row, rest := ParseLine(lines[0]), RowsFrom(lines[1..]);
      if row.None? || rest.None? then None else Some([row.value] + rest.value)
  }

  lemma {:induction false} RowsFromIsExact(lines: seq<string>, rows: seq<Row>)
    ensures RowsFrom(lines) == Some(rows) <==>
      (forall line :: line in lines ==> Lacks(line, '\r')) && DataLines(lines) == RowLines(rows) && ValidRows(rows)
    decreases |lines|
  {
    hide ParseLine, RowLine, ValidId, Lacks;
    if lines != [] {
      var line, more := lines[0], lines[1..];
      assert lines == [line] + more;
      if !IsData(line) {
        RowsFromIsExact(more, rows);
      } else if rows != [] {
        RowsFromIsExact(more, rows[1..]);
        ParseLineIsExact(line, rows[0]);
        assert rows == [rows[0]] + rows[1..];
        SameHead(line, DataLines(more), RowLine(rows[0]), RowLines(rows[1..]));
        if ParseLine(line).Some? && RowsFrom(more).Some? {
          SameHead(ParseLine(line).value, RowsFrom(more).value, rows[0], rows[1..]);
        }
      }
    }
  }

  lemma SameHead<T>(a: T, x: seq<T>, b: T, y: seq<T>)
    ensures [a] + x == [b] + y <==> a == b && x == y
  {
    if [a] + x == [b] + y {
      assert ([a] + x)[0] == a && ([b] + y)[0] == b;
      assert x == ([a] + x)[1..] && y == ([b] + y)[1..];
    }
  }

  /** The parse of the lines from some state on. */
  function ParseLines(lines: seq<string>, st: State): Option<seq<Exact64Set>>
    decreases |lines|
  {
    if lines == [] then
      var sets := Finish(st);
      if sets.None? || sets.value == [] then None else sets
    else if !Lacks(lines[0], '\r') then None
    else if !IsData(lines[0]) then ParseLines(lines[1..], st)
    else
      var row := ParseLine(lines[0]);
      if row.None? || AddRow(st, row.value).None? then None else ParseLines(lines[1..], AddRow(st, row.value).value)
  }

  /** Parsing line by line is parsing all lines and then grouping all rows. */
  lemma {:induction false} ParseThenGroup(lines: seq<string>, st: State)
    ensures ParseLines(lines, st) ==
      var rows := RowsFrom(lines);
      if rows.None? then None
      else
        var sets := Group(st, rows.value);
        if sets.None? || sets.value == [] then None else sets
    decreases |lines|
  {
    hide ParseLine, Lacks, AddRow, Finish;
    if lines != [] {
      if !IsData(lines[0]) {
        ParseThenGroup(lines[1..], st);
      } else {
        var row := ParseLine(lines[0]);
        if row.Some? && AddRow(st, row.value).Some? {
          ParseThenGroup(lines[1..], AddRow(st, row.value).value);
        }
        if row.Some? && RowsFrom(lines[1..]).Some? {
          var rest := RowsFrom(lines[1..]).value;
          assert ([row.value] + rest)[0] == row.value && ([row.value] + rest)[1..] == rest;
        }
      }
    }
  }

  lemma {:induction false} LinesLack(text: string, c: char)
    requires c != '\n'
    ensures Lacks(text, c) <==> forall line :: line in Lines(text) ==> Lacks(line, c)
    decreases |text|
  {
    var i := IndexOf(text, '\n');
    if i < |text| {
      var line, rest := text[..i], text[i + 1..];
      LinesLack(rest, c);
      assert text == line + ['\n'] + rest;
      LacksParts(line, rest, c);
      assert Lines(text) == [line] + Lines(rest);
    } else {
      assert Lines(text) == [text];
    }
  }

  lemma LacksParts(line: string, rest: string, c: char)
    requires c != '\n'
    ensures Lacks(line + ['\n'] + rest, c) <==> Lacks(line, c) && Lacks(rest, c)
  {
    var s := line + ['\n'] + rest;
    if Lacks(s, c) {
      assert forall i :: 0 <= i < |line| ==> line[i] == s[i];
      assert forall i :: 0 <= i < |rest| ==> rest[i] == s[|line| + 1 + i];
    }
  }

  /** The text is a manifest of these sets. */
  predicate Describes(text: string, sets: seq<Exact64Set>) {
    && Lacks(text, '\r') && sets != [] && WellFormed(sets)
    && (forall s :: s in sets ==> ValidId(s.id))
    && DataLines(Lines(text)) == RowLines(Rows(sets))
  }

  lemma {:induction false} RowIdsAreSetIds(sets: seq<Exact64Set>)
    requires forall s :: s in sets ==> Sized(s)
    ensures ValidRows(Rows(sets)) <==> forall s :: s in sets ==> ValidId(s.id)
  {
    hide ValidId;
    if sets != [] {
      RowIdsAreSetIds(sets[1..]);
      var s := sets[0];
      assert sets == [s] + sets[1..];
      assert s in sets;
      assert RowsOf(s)[0].id == s.id && RowsOf(s)[0] in RowsOf(s);
      assert forall r :: r in RowsOf(s) ==> r.id == s.id;
      assert forall r :: r in Rows(sets) <==> r in RowsOf(s) || r in Rows(sets[1..]);
    }
  }

  /** Parsing is exact: a text parses to sets if and only if it describes them. */
  lemma ParseIsExact(text: string, sets: seq<Exact64Set>)
    ensures ParseLines(Lines(text), State([], None)) == Some(sets) <==> Describes(text, sets)
  {
    hide ParseLines, Lines, RowsFrom, Group, DataLines, RowLines, Rows, Lacks, ValidRows, DistinctIds, ValidId;
    var lines := Lines(text);
    ParseThenGroup(lines, State([], None));
    LinesLack(text, '\r');
    if RowsFrom(lines).Some? {
      var rows := RowsFrom(lines).value;
      RowsFromIsExact(lines, rows);
      GroupIsExact(rows, sets);
    }
    if WellFormed(sets) {
      RowIdsAreSetIds(sets);
      RowsFromIsExact(lines, Rows(sets));
      GroupIsExact(Rows(sets), sets);
    }
  }

  /** The parser. */
  method ParseExact64Sets(text: string) returns (r: Option<seq<Exact64Set>>)
    ensures forall sets :: r == Some(sets) <==> Describes(text, sets)
  {
    hide Describes, ParseLine, Lines, Lacks;
    var lines := Lines(text);
    ghost var answer := ParseLines(lines, State([], None));
    forall sets
      ensures answer == Some(sets) <==> Describes(text, sets)
    {
      ParseIsExact(text, sets);
    }
    var finishedIds: set<string> := {};
    var sets: seq<Exact64Set> := [];
    var current: Option<Exact64Set> := None;
    for i := 0 to |lines|
      invariant finishedIds == SetIds(sets)
      invariant ParseLines(lines[i..], State(sets, current)) == answer
    {
      var line := lines[i];
      assert lines[i..][0] == line && lines[i..][1..] == lines[i + 1..];
      if !Lacks(line, '\r') {
        return None;
      }
      if !IsData(line) {
        continue;
      }
      var parsed := ParseLine(line);
      if parsed.None? {
        return None;
      }
      var row := parsed.value;
      if current.Some? && current.value.id != row.id {
        if !Sized(current.value) {
          return None;
        }
        OneMoreId(sets, current.value);
        finishedIds := finishedIds + {current.value.id};
        sets, current := sets + [current.value], None;
      }
      if current.None? {
        if row.id in finishedIds {
          return None;
        }
        current := Some(Exact64Set(row.id, row.caseInsensitive, []));
      }
      if current.value.caseInsensitive != row.caseInsensitive {
        return None;
      }
      current := Some(current.value.(sources := current.value.sources + [row.source]));
      if |current.value.sources| > MAX_ROWS {
        return None;
      }
    }
    assert lines[|lines|..] == [];
    if current.Some? {
      if !Sized(current.value) {
        return None;
      }
      sets := sets + [current.value];
    }
    return if sets == [] then None else Some(sets);
  }

  lemma OneMoreId(sets: seq<Exact64Set>, s: Exact64Set)
    ensures SetIds(sets + [s]) == SetIds(sets) + {s.id}
  {
    assert s in sets + [s];
    assert forall t :: t in sets + [s] <==> t in sets || t == s;
  }

  // ----- Round trip -----

  function Text(lines: seq<string>): string {
    if lines == [] then [] else lines[0] + ['\n'] + Text(lines[1..])
  }

  /** Writes the rows of sets, one line each. */
  function Render(sets: seq<Exact64Set>): string {
    Text(RowLines(Rows(sets)))
  }

  predicate LineSafe(s: string) {
    Lacks(s, '\n') && Lacks(s, '\r')
  }

  lemma RowLineIsSafe(row: Row)
    requires ValidId(row.id) && LineSafe(row.source)
    ensures LineSafe(RowLine(row)) && IsData(RowLine(row))
  {
    IdLacksTab(row.id);
    assert RowLine(row)[0] == row.id[0];
    assert LineSafe(PROFILE) && LineSafe(CaseField(row.caseInsensitive)) && LineSafe("\t");
    SafeParts(CaseField(row.caseInsensitive), row.source);
    SafeParts(PROFILE, CaseField(row.caseInsensitive) + "\t" + row.source);
    SafeParts(row.id, PROFILE + "\t" + (CaseField(row.caseInsensitive) + "\t" + row.source));
  }

  lemma SafeParts(a: string, b: string)
    requires LineSafe(a) && LineSafe(b)
    ensures LineSafe(a + "\t" + b)
  {
  }

  lemma {:induction false} RenderedLines(rows: seq<Row>)
    requires forall r :: r in rows ==> ValidId(r.id) && LineSafe(r.source)
    ensures DataLines(Lines(Text(RowLines(rows)))) == RowLines(rows) && Lacks(Text(RowLines(rows)), '\r')
  {
    hide RowLine, ValidId, LineSafe, Lacks;
    if rows == [] {
      EmptyText();
    } else {
      var row, more := rows[0], rows[1..];
      assert row in rows;
      RenderedLines(more);
      RowLineIsSafe(row);
      SafeLine(RowLine(row), Text(RowLines(more)));
    }
  }

  lemma EmptyText()
    ensures DataLines(Lines(Text([]))) == [] && Lacks(Text([]), '\r')
  {
    assert Lines([]) == [[]];
    assert DataLines([[]]) == [];
  }

  lemma SafeLine(line: string, rest: string)
    requires LineSafe(line) && IsData(line)
    ensures var text := line + ['\n'] + rest;
      DataLines(Lines(text)) == [line] + DataLines(Lines(rest)) && (Lacks(text, '\r') <==> Lacks(rest, '\r'))
  {
    var text := line + ['\n'] + rest;
    FirstLine(line, rest);
    LacksParts(line, rest, '\r');
  }

  lemma FirstLine(line: string, rest: string)
    requires Lacks(line, '\n')
    ensures Lines(line + ['\n'] + rest) == [line] + Lines(rest)
  {
    FirstAfter(line, '\n', rest);
  }

  /** Whole lines: no text, or one that ends its last line. */
  predicate WholeLines(s: string) {
    s == [] || s[|s| - 1] == '\n'
  }

  /** Empty lines and lines that start with `#` can be put anywhere between the lines of a text, and taken out again. */
  lemma {:induction false} NotesAreIgnored(before: string, note: string, after: string, st: State)
    requires WholeLines(before)
    requires LineSafe(note) && (note == [] || note[0] == '#')
    ensures ParseLines(Lines(before + note + ['\n'] + after), st) == ParseLines(Lines(before + after), st)
    decreases |before|
  {
    hide Lines, AddRow, ParseLine;
    if before == [] {
      assert before + note + ['\n'] + after == note + ['\n'] + after && before + after == after;
      FirstLine(note, after);
    } else {
      var i := IndexOf(before, '\n');
      var line, rest := before[..i], before[i + 1..];
      assert before == line + ['\n'] + rest;
      assert before + note + ['\n'] + after == line + ['\n'] + (rest + note + ['\n'] + after);
      assert before + after == line + ['\n'] + (rest + after);
      FirstLine(line, rest + note + ['\n'] + after);
      FirstLine(line, rest + after);
      if !IsData(line) {
        NotesAreIgnored(rest, note, after, st);
      } else if ParseLine(line).Some? && AddRow(st, ParseLine(line).value).Some? {
        NotesAreIgnored(rest, note, after, AddRow(st, ParseLine(line).value).value);
      }
    }
  }

  lemma {:induction false} RowsAreSafe(sets: seq<Exact64Set>)
    requires forall s :: s in sets ==> ValidId(s.id) && forall x :: x in s.sources ==> LineSafe(x)
    ensures forall r :: r in Rows(sets) ==> ValidId(r.id) && LineSafe(r.source)
  {
    hide ValidId, LineSafe;
    if sets != [] {
      RowsAreSafe(sets[1..]);
      var s := sets[0];
      assert s in sets;
      assert forall i :: 0 <= i < |s.sources| ==> s.sources[i] in s.sources;
    }
  }

  /** What sets have to be like: 2 to 64 sources each, different identifiers, and those of letters, digits and underscores. */
  predicate Renderable(sets: seq<Exact64Set>) {
    && (forall i :: 0 <= i < |sets| ==> 2 <= |sets[i].sources| <= 64 && |sets[i].id| > 0)
    && (forall i, j :: 0 <= i < |sets| && 0 <= j < |sets| && sets[i].id == sets[j].id ==> i == j)
    && forall i, c :: 0 <= i < |sets| && c in sets[i].id ==> c == '_' || '0' <= c <= '9' || 'a' <= c <= 'z' || 'A' <= c <= 'Z'
  }

  lemma RenderableIs(sets: seq<Exact64Set>)
    ensures Renderable(sets) <==> WellFormed(sets) && forall s :: s in sets ==> ValidId(s.id)
  {
    assert forall i :: 0 <= i < |sets| ==> sets[i] in sets;
    assert forall i, k :: 0 <= i < |sets| && 0 <= k < |sets[i].id| ==> sets[i].id[k] in sets[i].id;
  }

  /** Round trip: sets without line breaks in their sources, rendered, parse back exactly when they are some and renderable. */
  lemma RenderParsesBack(sets: seq<Exact64Set>)
    requires forall s, x :: s in sets && x in s.sources ==> LineSafe(x)
    ensures ParseLines(Lines(Render(sets)), State([], None)) == Some(sets) <==> sets != [] && Renderable(sets)
  {
    hide ParseLines, Lines, DataLines, RowLines, Rows, ValidId, LineSafe, Lacks, WellFormed, Renderable;
    RenderableIs(sets);
    ParseIsExact(Render(sets), sets);
    if Renderable(sets) {
      RowsAreSafe(sets);
      RenderedLines(Rows(sets));
    }
  }
}
