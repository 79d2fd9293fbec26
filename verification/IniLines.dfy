/** The lines of an exported file, said without the printer's state: a block for
    every section, in which an end marker stands before each row that begins an item
    and at the end (st01/utl/db2ini.c:143-243). */
module IniLines {
  import opened CText
  import opened IniParser
  import opened IniPrinter
  import opened IniRoundTrip

  /** Rows as the table holds them: sections of 1 to 3 characters, keys of 1 to 99.
      A key may come back within its section. */
  predicate Storable(rows: seq<Row>) {
    forall k :: 0 <= k < |rows| ==> 1 <= |rows[k].section| <= 3 && 1 <= |rows[k].key| <= 99
  }

  /** How many of the first rows are of the section. */
  function Lead(rows: seq<Row>, section: string): (n: nat)
    ensures n <= |rows| && forall k :: 0 <= k < n ==> rows[k].section == section
    ensures n < |rows| ==> rows[n].section != section
  {
    if rows == [] || rows[0].section != section then 0 else 1 + Lead(rows[1..], section)
  }

  /** The rows behind the first of a section. */
  function Items(rows: seq<Row>, first: string, marker: string): seq<string> {
    if rows == [] then []
    else
      (if rows[0].key == first then [marker] else []) + [rows[0].key + "=" + rows[0].value]
      + Items(rows[1..], first, marker)
  }

  /** The text of one section. */
  function Block(rows: seq<Row>, sys: char, marker: string): seq<string>
    requires rows != []
  {
    [[sys] + rows[0].section + "_CONF_START", rows[0].key + "=" + rows[0].value]
    + Items(rows[1..], rows[0].key, marker)
    + [marker, [sys] + rows[0].section + "_CONF_END"]
  }

  function Blocks(rows: seq<Row>, sys: char, marker: string): seq<string>
    decreases |rows|
  {
    if rows == [] then []
    else
      var n := Lead(rows, rows[0].section);
      Block(rows[..n], sys, marker) + Blocks(rows[n..], sys, marker)
  }

  lemma {:induction false} Join4(a: seq<string>, b: seq<string>, c: seq<string>, d: seq<string>)
    ensures a + (b + c + d) == a + b + c + d
  {
  }

  /** The rest of a section the printer is in, and the sections behind it. */
  function Remainder(rows: seq<Row>, section: string, first: string, sys: char, marker: string): seq<string> {
    var n := Lead(rows, section);
    Items(rows[..n], first, marker) + [marker, [sys] + section + "_CONF_END"] + Blocks(rows[n..], sys, marker)
  }

  lemma {:induction false} RemainderSame(rows: seq<Row>, section: string, first: string, sys: char, marker: string)
    requires rows != [] && rows[0].section == section
    ensures Remainder(rows, section, first, sys, marker)
         == (if rows[0].key == first then [marker] else []) + [rows[0].key + "=" + rows[0].value]
            + Remainder(rows[1..], section, first, sys, marker)
  {
    var n := Lead(rows, section);
    var mine, later := rows[..n], rows[1..][..n - 1];
    assert mine[1..] == later && rows[n..] == rows[1..][n - 1..];
    Join4((if rows[0].key == first then [marker] else []) + [rows[0].key + "=" + rows[0].value],
          Items(later, first, marker), [marker, [sys] + section + "_CONF_END"], Blocks(rows[n..], sys, marker));
  }

  lemma {:induction false} BlocksFirst(rows: seq<Row>, sys: char, marker: string)
    requires rows != []
    ensures Blocks(rows, sys, marker)
         == [[sys] + rows[0].section + "_CONF_START", rows[0].key + "=" + rows[0].value]
            + Remainder(rows[1..], rows[0].section, rows[0].key, sys, marker)
  {
    var row, n := rows[0], Lead(rows, rows[0].section);
    var later := rows[1..][..n - 1];
    assert rows[..n][1..] == later && rows[n..] == rows[1..][n - 1..] && rows[..n][0] == row;
    Join4([[sys] + row.section + "_CONF_START", row.key + "=" + row.value],
          Items(later, row.key, marker), [marker, [sys] + row.section + "_CONF_END"], Blocks(rows[n..], sys, marker));
  }

  lemma {:induction false} RemainderOther(rows: seq<Row>, section: string, first: string, sys: char, marker: string)
    requires rows == [] || rows[0].section != section
    ensures Remainder(rows, section, first, sys, marker)
         == [marker, [sys] + section + "_CONF_END"] + Blocks(rows, sys, marker)
  {
    assert rows[..0] == [] && rows[0..] == rows;
    assert [] + [marker, [sys] + section + "_CONF_END"] == [marker, [sys] + section + "_CONF_END"];
  }

  /** The printer within a section. */
  lemma {:induction false} LinesWithin(rows: seq<Row>, section: string, first: string, sys: char, marker: string)
    requires Storable(rows) && section != "" && first != ""
    ensures LinesFrom(Printer(section, false, first, true), rows, sys, marker)
         == Remainder(rows, section, first, sys, marker)
    decreases |rows|
  {
    var st := Printer(section, false, first, true);
    if rows == [] {
      RemainderOther(rows, section, first, sys, marker);
      assert Blocks(rows, sys, marker) == [];
    } else {
      var row, later := rows[0], rows[1..];
      if row.section == section {
        LinesWithin(later, section, first, sys, marker);
        RemainderSame(rows, section, first, sys, marker);
        SameSection(st, rows, sys, marker);
      } else {
        LinesWithin(later, row.section, row.key, sys, marker);
        RemainderOther(rows, section, first, sys, marker);
        BlocksFirst(rows, sys, marker);
        NewSection(st, rows, sys, marker);
      }
    }
  }

  lemma {:induction false} SameSection(st: Printer, rows: seq<Row>, sys: char, marker: string)
    requires rows != [] && st.prev == rows[0].section && st.firstKey != ""
    ensures LinesFrom(st, rows, sys, marker)
         == (if rows[0].key == st.firstKey then [marker] else []) + [rows[0].key + "=" + rows[0].value]
            + LinesFrom(st, rows[1..], sys, marker)
  {
    assert RowLines(st, rows[0], sys, marker)
        == (if rows[0].key == st.firstKey then [marker] else []) + [rows[0].key + "=" + rows[0].value];
  }

  lemma {:induction false} NewSection(st: Printer, rows: seq<Row>, sys: char, marker: string)
    requires rows != [] && st.prev != rows[0].section && Storable(rows) && (st.first || st.started)
    ensures var row := rows[0];
      LinesFrom(st, rows, sys, marker)
      == (if st.first then [] else [marker, [sys] + st.prev + "_CONF_END"])
         + ([[sys] + row.section + "_CONF_START", row.key + "=" + row.value]
            + LinesFrom(Printer(row.section, false, row.key, true), rows[1..], sys, marker))
  {
    var row := rows[0];
    var closing := if st.first then [] else [marker, [sys] + st.prev + "_CONF_END"];
    var entry := [[sys] + row.section + "_CONF_START", row.key + "=" + row.value];
    assert Closing(st, sys, marker) == closing;
    assert Boundary(Entered(st, row), row, marker) == [];
    assert RowLines(st, row, sys, marker) == closing + entry;
    var st' := Printer(row.section, false, row.key, true);
    assert Noted(Entered(st, row), row) == st';
    Join3(closing, entry, LinesFrom(st', rows[1..], sys, marker));
  }

  lemma {:induction false} Join3(a: seq<string>, b: seq<string>, c: seq<string>)
    ensures (a + b) + c == a + (b + c)
  {
  }

  /** What export_generic_ini prints: a heading and the blocks of the sections. */
  lemma {:induction false} ExportIsBlocks(rows: seq<Row>, env: string, sys: char, marker: string)
    requires Storable(rows)
    ensures Export(rows, env, sys, marker)
         == Text(["# Generated by db2ini(env=" + env + ")"] + Blocks(rows, sys, marker))
  {
    if rows == [] {
      assert LinesFrom(BEGIN, rows, sys, marker) == [] == Blocks(rows, sys, marker);
    } else {
      var row := rows[0];
      NewSection(BEGIN, rows, sys, marker);
      LinesWithin(rows[1..], row.section, row.key, sys, marker);
      BlocksFirst(rows, sys, marker);
      assert LinesFrom(BEGIN, rows, sys, marker) == Blocks(rows, sys, marker);
    }
  }

  // ---- Where the markers stand -------------------------------------------

  /** How many rows up to row j begin an item, the first row not counted. */
  function Begun(rows: seq<Row>, first: string): nat {
    if rows == [] then 0 else (if rows[0].key == first then 1 else 0) + Begun(rows[1..], first)
  }

  function Count(lines: seq<string>, x: string): nat {
    if lines == [] then 0 else (if lines[0] == x then 1 else 0) + Count(lines[1..], x)
  }

  lemma {:induction false} CountAppend(a: seq<string>, b: seq<string>, x: string)
    ensures Count(a + b, x) == Count(a, x) + Count(b, x)
  {
    if a == [] {
      assert a + b == b;
    } else {
      assert (a + b)[1..] == a[1..] + b;
      CountAppend(a[1..], b, x);
    }
  }

  lemma {:induction false} ItemsCount(rows: seq<Row>, first: string, marker: string)
    requires '=' !in marker
    ensures Count(Items(rows, first, marker), marker) == Begun(rows, first)
  {
    if rows == [] {
    } else {
      var line := rows[0].key + "=" + rows[0].value;
      var head := (if rows[0].key == first then [marker] else []) + [line];
      assert line[|rows[0].key|] == '=';
      ItemsCount(rows[1..], first, marker);
      CountAppend(head, Items(rows[1..], first, marker), marker);
      CountAppend(if rows[0].key == first then [marker] else [], [line], marker);
      OneLine(line, marker);
      OneLine(marker, marker);
    }
  }

  lemma {:induction false} OneLine(line: string, x: string)
    ensures Count([line], x) == if line == x then 1 else 0
  {
    assert [line][1..] == [];
  }

  /** A block begins with its START line and ends with a marker and its END line; the
      markers in it number the rows with the section's first key. */
  lemma {:induction false} BlockMarkers(rows: seq<Row>, sys: char, marker: string)
    requires rows != [] && '=' !in marker
    ensures var b := Block(rows, sys, marker); var n := |b|;
      && n >= 4 && b[0] == [sys] + rows[0].section + "_CONF_START"
      && b[n - 1] == [sys] + rows[0].section + "_CONF_END" && b[n - 2] == marker
      && (b[0] != marker && b[n - 1] != marker ==> Count(b, marker) == Begun(rows, rows[0].key))
  {
    var row, items := rows[0], Items(rows[1..], rows[0].key, marker);
    var head := [[sys] + row.section + "_CONF_START", row.key + "=" + row.value];
    var tail := [marker, [sys] + row.section + "_CONF_END"];
    assert head[1][|row.key|] == '=';
    CountAppend(head, items, marker);
    CountAppend(head + items, tail, marker);
    ItemsCount(rows[1..], row.key, marker);
    TwoLines(head[0], head[1], marker);
    TwoLines(tail[0], tail[1], marker);
  }

  lemma {:induction false} TwoLines(a: string, b: string, x: string)
    ensures Count([a, b], x) == (if a == x then 1 else 0) + (if b == x then 1 else 0)
  {
    assert [a, b][1..] == [b];
    OneLine(b, x);
  }

  /** Row j of the items stands behind as many lines as there are rows and markers
      before it; the line before it is a marker when it begins an item, else the row
      before it. */
  lemma {:induction false} ItemAt(rows: seq<Row>, first: string, marker: string, j: nat)
    requires j < |rows|
    ensures var items := Items(rows, first, marker); var p := j + Begun(rows[..j + 1], first);
      && p < |items| && items[p] == rows[j].key + "=" + rows[j].value
      && (rows[j].key == first ==> p > 0 && items[p - 1] == marker)
      && (rows[j].key != first && j > 0 ==> p > 0 && items[p - 1] == rows[j - 1].key + "=" + rows[j - 1].value)
      && (rows[j].key != first && j == 0 ==> p == 0)
    decreases j
  {
    var row, later := rows[0], rows[1..];
    var head := (if row.key == first then [marker] else []) + [row.key + "=" + row.value];
    var items := Items(rows, first, marker);
    assert items == head + Items(later, first, marker);
    assert rows[..j + 1][1..] == later[..j];
    if j == 0 {
      assert later[..0] == [] && Begun(rows[..1], first) == |head| - 1;
      assert items[|head| - 1] == head[|head| - 1];
    } else {
      ItemAt(later, first, marker, j - 1);
      var q := j - 1 + Begun(later[..j], first);
      assert items[|head| + q] == Items(later, first, marker)[q];
      if q > 0 { assert items[|head| + q - 1] == Items(later, first, marker)[q - 1]; }
      if q == 0 { assert items[|head| - 1] == head[|head| - 1]; }
    }
  }

  /** Within a section: row j > 0 has a marker line directly before it exactly when
      its key is the section's first key, else the line of row j - 1. */
  lemma {:induction false} RowInBlock(rows: seq<Row>, sys: char, marker: string, j: nat)
    requires 0 < j < |rows| && '=' !in marker
    ensures var b := Block(rows, sys, marker); var p := j + 1 + Begun(rows[1..j + 1], rows[0].key);
      && p + 2 < |b| && b[p] == rows[j].key + "=" + rows[j].value
      && (b[p - 1] == marker <==> rows[j].key == rows[0].key)
      && (b[p - 1] != marker ==> b[p - 1] == rows[j - 1].key + "=" + rows[j - 1].value)
  {
    var items := Items(rows[1..], rows[0].key, marker);
    ItemAt(rows[1..], rows[0].key, marker, j - 1);
    assert rows[1..][..j] == rows[1..j + 1];
    var b, q := Block(rows, sys, marker), j - 1 + Begun(rows[1..j + 1], rows[0].key);
    assert b[q + 2] == items[q];
    if q > 0 { assert b[q + 1] == items[q - 1]; }
    var before := rows[j - 1].key + "=" + rows[j - 1].value;
    assert before[|rows[j - 1].key|] == '=' && before != marker;
  }
}
