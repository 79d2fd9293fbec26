/** The configuration table and its .ini text (st01/utl/ini2db.c, st01/utl/db2ini.c):
    the pieces of C's string library the two programs use. */
module CText {

  const MAX_LINE: nat := 1024
  const MAX_VAL: nat := 512

  predicate IsBlank(c: char) { c == '\n' || c == '\r' || c == ' ' || c == '\t' }

  predicate IsGap(c: char) { c == ' ' || c == '\t' }

  /** str_trim: trailing blanks and line ends go. */
  function Trim(s: string): (t: string)
    ensures t <= s
  {
    if s != "" && IsBlank(s[|s| - 1]) then Trim(s[..|s| - 1]) else s
  }

  /** toupper in the C locale. */
  function UpperChar(c: char): char {
    if 'a' <= c <= 'z' then c - 'a' + 'A' else c
  }

  function Upper(s: string): (t: string)
    ensures |t| == |s| && forall i :: 0 <= i < |s| ==> t[i] == UpperChar(s[i])
  {
    seq(|s|, i requires 0 <= i < |s| => UpperChar(s[i]))
  }

  /** strstr(s, p) != NULL */
  predicate Contains(s: string, p: string)
    decreases |s|
  {
    |s| >= |p| && (s[..|p|] == p || (s != "" && Contains(s[1..], p)))
  }

  /** strchr: the first position of c, or the length. */
  function IndexOf(s: string, c: char): (i: nat)
    ensures i <= |s| && (i < |s| ==> s[i] == c) && c !in s[..i]
  {
    if s == "" then 0
    else if s[0] == c then 0
    else
      assert s[..1 + IndexOf(s[1..], c)] == [s[0]] + s[1..][..IndexOf(s[1..], c)];
      1 + IndexOf(s[1..], c)
  }

  /** How much fgets takes: a line with its end, at most `max` characters. */
  function LineLen(text: string, max: nat): (n: nat)
    ensures n <= |text| && n <= max && (text != "" && max > 0 ==> n > 0)
    decreases |text|, max
  {
    if text == "" || max == 0 then 0
    else if text[0] == '\n' then 1
    else 1 + LineLen(text[1..], max - 1)
  }

  /** The value up to its first space or tab, in a buffer of 512. */
  function Word(s: string, max: nat): (w: string)
    ensures w <= s && |w| <= max && forall c :: c in w ==> !IsGap(c)
    ensures w == s <==> |s| <= max && forall c :: c in s ==> !IsGap(c)
    decreases |s|, max
  {
    if s == "" || max == 0 || IsGap(s[0]) then ""
    else
      assert s == [s[0]] + s[1..];
      [s[0]] + Word(s[1..], max - 1)
  }

  function Prefix(s: string, max: nat): string { if |s| <= max then s else s[..max] }

  method StrTrim(s: string) returns (t: string)
    ensures t == Trim(s)
  {
    var len := |s|;
    assert s[..len] == s;
    while len > 0 && IsBlank(s[len - 1])
      invariant 0 <= len <= |s| && Trim(s) == Trim(s[..len])
    {
      assert s[..len][..len - 1] == s[..len - 1];
      len := len - 1;
    }
    return s[..len];
  }

  method StrUpper(s: string) returns (t: string)
    ensures t == Upper(s)
  {
    t := "";
    for i := 0 to |s|
      invariant |t| == i && t == Upper(s)[..i]
    {
      t := t + [UpperChar(s[i])];
    }
  }

  // ---- Facts -------------------------------------------------------------

  /** Trimming takes away blanks, tabs and line ends at the end, all of them and
      nothing else. */
  lemma {:induction false} TrimMeans(s: string)
    ensures var t := Trim(s);
      && t <= s && (t == "" || t[|t| - 1] !in {' ', '\t', '\r', '\n'})
      && forall i :: |t| <= i < |s| ==> s[i] in {' ', '\t', '\r', '\n'}
    decreases |s|
  {
    if s == "" || !IsBlank(s[|s| - 1]) {
    } else {
      TrimMeans(s[..|s| - 1]);
    }
  }

  /** The 26 small letters become the capitals 32 below, every other byte stays. */
  lemma UpperMeans(s: string, i: nat)
    requires i < |s|
    ensures Upper(s)[i] as int == s[i] as int - if 97 <= s[i] as int <= 122 then 32 else 0
  {
  }

  lemma {:induction false} TrimKeeps(s: string)
    requires s == "" || !IsBlank(s[|s| - 1])
    ensures Trim(s) == s && Trim(s + "\n") == s
  {
    assert (s + "\n")[..|s|] == s;
  }

  lemma {:induction false} LineEnds(line: string, rest: string, max: nat)
    requires '\n' !in line && |line| < max
    ensures LineLen(line + "\n" + rest, max) == |line| + 1
    decreases |line|
  {
    var text := line + "\n" + rest;
    if line == "" {
    } else {
      assert text[1..] == line[1..] + "\n" + rest;
      LineEnds(line[1..], rest, max - 1);
    }
  }

  lemma {:induction false} ContainsBehind(a: string, p: string)
    ensures Contains(a + p, p)
    decreases |a|
  {
    if a == "" {
      assert a + p == p && p[..|p|] == p;
    } else {
      assert (a + p)[1..] == a[1..] + p;
      ContainsBehind(a[1..], p);
    }
  }

  lemma {:induction false} NotFound(s: string, c: char)
    requires c !in s
    ensures IndexOf(s, c) == |s|
  {
  }

  lemma {:induction false} WordEnds(value: string, gap: char, rest: string, max: nat)
    requires ' ' !in value && '\t' !in value && |value| <= max && (gap == ' ' || gap == '\t')
    ensures Word(value + [gap] + rest, max) == value
    decreases |value|
  {
    var s := value + [gap] + rest;
    if value == "" {
    } else {
      assert s[1..] == value[1..] + [gap] + rest && s[0] == value[0];
      assert value[0] in value;
      WordEnds(value[1..], gap, rest, max - 1);
    }
  }

  lemma {:induction false} FirstIndex(a: string, c: char, b: string)
    requires c !in a
    ensures IndexOf(a + [c] + b, c) == |a|
    decreases |a|
  {
    if a == "" {
    } else {
      assert (a + [c] + b)[1..] == a[1..] + [c] + b;
      FirstIndex(a[1..], c, b);
    }
  }
}

/** The parser: parse_generic_ini and parse_daemon_ini. */
module IniParser {
  import opened CText

  /** A row of fep_config for one environment and group. */
  datatype Row = Row(section: string, key: string, value: string, sort: nat)

  /** INSERT OR REPLACE: the row takes the place of one with its section and key. */
  function Insert(table: seq<Row>, row: Row): seq<Row> {
    Without(table, row.section, row.key) + [row]
  }

  function Without(table: seq<Row>, section: string, key: string): (t: seq<Row>)
    ensures (forall r :: r in table ==> r.section != section || r.key != key) ==> t == table
  {
    if table == [] then []
    else
      (if table[0].section == section && table[0].key == key then [] else [table[0]])
      + Without(table[1..], section, key)
  }

  /** INSERT OR REPLACE: afterwards the row is the one with its section and key, and
      all others are as they were. */
  lemma {:induction false} InsertMeans(table: seq<Row>, row: Row, r: Row)
    ensures row in Insert(table, row)
    ensures r.section == row.section && r.key == row.key ==> (r in Insert(table, row) <==> r == row)
    ensures r.section != row.section || r.key != row.key ==> (r in Insert(table, row) <==> r in table)
  {
    WithoutMeans(table, row.section, row.key, r);
  }

  lemma {:induction false} WithoutMeans(table: seq<Row>, section: string, key: string, r: Row)
    ensures r in Without(table, section, key) <==> r in table && (r.section != section || r.key != key)
  {
    if table == [] {
    } else {
      WithoutMeans(table[1..], section, key, r);
    }
  }

  /** The unique key of the table. */
  ghost predicate OneRowPerKey(table: seq<Row>) {
    forall i, j :: 0 <= i < j < |table| ==> table[i].section != table[j].section || table[i].key != table[j].key
  }

  lemma {:induction false} InsertKeepsUnique(table: seq<Row>, row: Row)
    requires OneRowPerKey(table)
    ensures OneRowPerKey(Insert(table, row))
  {
    WithoutKeepsUnique(table, row.section, row.key);
    var t := Without(table, row.section, row.key);
    forall i | 0 <= i < |t|
      ensures t[i].section != row.section || t[i].key != row.key
    {
      WithoutMeans(table, row.section, row.key, t[i]);
      assert t[i] in t;
    }
  }

  lemma {:induction false} WithoutKeepsUnique(table: seq<Row>, section: string, key: string)
    requires OneRowPerKey(table)
    ensures OneRowPerKey(Without(table, section, key))
  {
    if table == [] {
    } else {
      var first, rest := table[0], Without(table[1..], section, key);
      WithoutKeepsUnique(table[1..], section, key);
      forall i | 0 <= i < |rest|
        ensures rest[i].section != first.section || rest[i].key != first.key
      {
        WithoutMeans(table[1..], section, key, rest[i]);
        assert rest[i] in rest;
        var j :| 0 <= j < |table[1..]| && table[1..][j] == rest[i];
        assert table[j + 1] == rest[i];
      }
    }
  }

  /** What parse_generic_ini sees in one trimmed line. */
  datatype Line =
    | Skipped                         // comment, blank, end marker, no '='
    | Start(section: string)          // ?X_CONF_START
    | BadStart                        // _CONF_START elsewhere
    | End                             // _CONF_END
    | Pair(key: string, value: string)

  const CONF_START := "_CONF_START"
  const CONF_END := "_CONF_END"

  predicate Ignored(buf: string) {
    buf == "" || buf[0] == '#' || buf[0] == '\t' || buf[0] == ' '
  }

  function KeyOf(buf: string): string { Upper(buf[..IndexOf(buf, '=')]) }

  function ValueOf(buf: string): string
    requires IndexOf(buf, '=') < |buf|
  {
    var rest := buf[IndexOf(buf, '=') + 1..];
    if Contains(KeyOf(buf), "COMMENT") then Prefix(rest, MAX_VAL - 1) else Word(rest, MAX_VAL - 1)
  }

  function Classify(buf: string, marker: string): Line {
    if Ignored(buf) then Skipped
    else if Contains(buf, CONF_START) then
      if |buf| > 2 && buf[2] == '_' then Start([UpperChar(buf[1])]) else BadStart
    else if Contains(buf, CONF_END) then End
    else if buf == marker || IndexOf(buf, '=') == |buf| then Skipped
    else Pair(KeyOf(buf), ValueOf(buf))
  }

  datatype Parser = Parser(section: string, inSection: bool, sort: nat, table: seq<Row>, count: nat)

  function Accept(p: Parser, line: Line): Parser {
    match line
    case Skipped => p
    case BadStart => p
    case Start(section) => p.(section := section, inSection := true, sort := 0)
    case End => p.(inSection := false)
    case Pair(key, value) =>
      if p.inSection then
        p.(table := Insert(p.table, Row(p.section, key, value, p.sort)), sort := p.sort + 1, count := p.count + 1)
      else p
  }

  function Parse(p: Parser, text: string, marker: string): Parser
    decreases |text|
  {
    if text == "" then p
    else
      var n := LineLen(text, MAX_LINE - 1);
      Parse(Accept(p, Classify(Trim(text[..n]), marker)), text[n..], marker)
  }

  /** Importing any text keeps one row for every section and key. */
  lemma {:induction false} ParseKeepsUnique(p: Parser, text: string, marker: string)
    requires OneRowPerKey(p.table)
    ensures OneRowPerKey(Parse(p, text, marker).table)
    decreases |text|
  {
    if text == "" {
    } else {
      var n := LineLen(text, MAX_LINE - 1);
      var c := Classify(Trim(text[..n]), marker);
      if c.Pair? && p.inSection { InsertKeepsUnique(p.table, Row(p.section, c.key, c.value, p.sort)); }
      ParseKeepsUnique(Accept(p, c), text[n..], marker);
    }
  }

  /** A key and value in a section go into the table under the capitals of the key,
      in place of what was there, and the next row gets the next sort order. */
  lemma {:induction false} PairMeans(p: Parser, key: string, value: string, r: Row)
    ensures !p.inSection ==> Accept(p, Pair(key, value)) == p
    ensures var q := Accept(p, Pair(key, value)); p.inSection ==>
              && q.section == p.section && q.inSection && q.sort == p.sort + 1 && q.count == p.count + 1
              && Row(p.section, key, value, p.sort) in q.table
              && (r in q.table <==> r == Row(p.section, key, value, p.sort)
                                    || (r in p.table && (r.section != p.section || r.key != key)))
  {
    InsertMeans(p.table, Row(p.section, key, value, p.sort), r);
  }

  /** A line as people write it: a key, '=', a value, and behind a blank a remark,
      which is left out unless the key speaks of a comment. */
  lemma {:induction false} RemarkLeftOut(key: string, value: string, gap: char, remark: string, marker: string)
    requires key != "" && '=' !in key && key[0] !in {'#', ' ', '\t'} && '=' !in marker
    requires ' ' !in value && '\t' !in value && |value| <= 511 && (gap == ' ' || gap == '\t')
    requires !Contains(Upper(key), "COMMENT")
    requires var buf := key + "=" + value + [gap] + remark; !Contains(buf, "_CONF_START") && !Contains(buf, "_CONF_END")
    ensures Classify(key + "=" + value + [gap] + remark, marker) == Pair(Upper(key), value)
  {
    var buf, rest := key + "=" + value + [gap] + remark, value + [gap] + remark;
    assert buf == key + ['='] + rest;
    FirstIndex(key, '=', rest);
    assert buf[..|key|] == key && buf[|key| + 1..] == rest && buf[0] == key[0] && buf[|key|] == '=';
    WordEnds(value, gap, remark, MAX_VAL - 1);
  }

  /** What begins a section, ends one, or is passed over. */
  lemma {:induction false} OtherLines(a: char, c: char, tail: string, marker: string)
    requires a !in {'#', ' ', '\t'}
    ensures Classify([a, c] + "_CONF_START", marker) == Start([UpperChar(c)])
    ensures Classify("", marker) == Skipped && Classify("#" + tail, marker) == Skipped
    ensures Classify(" " + tail, marker) == Skipped && Classify("\t" + tail, marker) == Skipped
    ensures '=' !in tail && !Contains([a] + tail, "_CONF_START") && !Contains([a] + tail, "_CONF_END") && a != '=' ==>
              Classify([a] + tail, marker) == Skipped
  {
    ContainsBehind([a, c], "_CONF_START");
    var start := [a, c] + "_CONF_START";
    assert start[0] == a && start[1] == c && start[2] == '_';
    var plain := [a] + tail;
    if '=' !in tail && a != '=' {
      NotFound(plain, '=');
    }
  }

  /** The loop body of parse_generic_ini. */
  method AcceptLine(p: Parser, buf: string, marker: string) returns (p': Parser)
    ensures p' == Accept(p, Classify(buf, marker))
  {
    p' := p;
    if Ignored(buf) { return; }
    if Contains(buf, CONF_START) {
      if |buf| > 2 && buf[2] == '_' {
        p' := p.(section := [UpperChar(buf[1])], inSection := true, sort := 0);
      }
      return;
    }
    if Contains(buf, CONF_END) {
      p' := p.(inSection := false);
      return;
    }
    if buf == marker { return; }
    if !p.inSection { return; }
    var eq := IndexOf(buf, '=');
    if eq == |buf| { return; }
    var key_up := StrUpper(buf[..eq]);
    var val;
    if Contains(key_up, "COMMENT") {
      val := Prefix(buf[eq + 1..], MAX_VAL - 1);
    } else {
      val := Word(buf[eq + 1..], MAX_VAL - 1);
    }
    p' := p.(table := Insert(p.table, Row(p.section, key_up, val, p.sort)), sort := p.sort + 1, count := p.count + 1);
  }

  /** parse_generic_ini over the text of a file and the rows already there. */
  method ParseGeneric(text: string, marker: string, rows: seq<Row>) returns (table: seq<Row>, count: nat)
    ensures var p := Parse(Parser("", false, 0, rows, 0), text, marker); table == p.table && count == p.count
  {
    var p := Parser("", false, 0, rows, 0);
    var pos := 0;
    ghost var rest, end := text, Parse(p, text, marker);
    while pos < |text|
      invariant 0 <= pos <= |text| && rest == text[pos..] && Parse(p, rest, marker) == end
      decreases |text| - pos
    {
      var n := LineLen(text[pos..], MAX_LINE - 1);
      assert text[pos..pos + n] == rest[..n];
      var buf := StrTrim(text[pos..pos + n]);
      p := AcceptLine(p, buf, marker);
      rest := rest[n..];
      pos := pos + n;
    }
    return p.table, p.count;
  }
}

/** The printer: export_generic_ini over the rows of the query, in its order. */
module IniPrinter {
  import opened CText
  import opened IniParser

  const MAX_KEY: nat := 100

  /** prev_section, first_in_section, first_key_in_item, item_started. */
  datatype Printer = Printer(prev: string, first: bool, firstKey: string, started: bool)

  const BEGIN := Printer("", true, "", false)

  /** The lines that close the section being printed. */
  function Closing(st: Printer, sys: char, marker: string): seq<string> {
    if st.first then []
    else (if st.started then [marker] else []) + [[sys] + st.prev + CONF_END]
  }

  function Opening(st: Printer, row: Row, sys: char, marker: string): seq<string> {
    if st.prev == row.section then [] else Closing(st, sys, marker) + [[sys] + row.section + CONF_START]
  }

  function Entered(st: Printer, row: Row): Printer {
    if st.prev == row.section then st else Printer(Prefix(row.section, 3), false, "", false)
  }

  function Boundary(st: Printer, row: Row, marker: string): seq<string> {
    if st.firstKey != "" && row.key == st.firstKey then [marker] else []
  }

  function Noted(st: Printer, row: Row): Printer {
    if st.firstKey == "" then st.(firstKey := Prefix(row.key, MAX_KEY - 1), started := true) else st
  }

  function KeyLine(row: Row): string { row.key + "=" + row.value }

  function RowLines(st: Printer, row: Row, sys: char, marker: string): seq<string> {
    Opening(st, row, sys, marker) + Boundary(Entered(st, row), row, marker) + [KeyLine(row)]
  }

  /** The lines printed for the rows from a printer state on. */
  function LinesFrom(st: Printer, rows: seq<Row>, sys: char, marker: string): seq<string>
    decreases |rows|
  {
    if rows == [] then Closing(st, sys, marker)
    else
      RowLines(st, rows[0], sys, marker)
      + LinesFrom(Noted(Entered(st, rows[0]), rows[0]), rows[1..], sys, marker)
  }

  function Heading(env: string): string { "# Generated by db2ini(env=" + env + ")" }

  function Text(lines: seq<string>): string {
    if lines == [] then "" else lines[0] + "\n" + Text(lines[1..])
  }

  /** The text of an exported file. */
  function Export(rows: seq<Row>, env: string, sys: char, marker: string): string {
    Text([Heading(env)] + LinesFrom(BEGIN, rows, sys, marker))
  }

  lemma {:induction false} TextAppend(a: seq<string>, b: seq<string>)
    ensures Text(a + b) == Text(a) + Text(b)
  {
    if a == [] {
      assert a + b == b;
    } else {
      TextAppend(a[1..], b);
      assert (a + b)[1..] == a[1..] + b;
    }
  }

  lemma Joined(a: string, b: string, c: string)
    ensures (a + b) + c == a + (b + c)
  {
  }

  /** fprintf of one line. */
  method Emit(fp: string, line: string) returns (fp': string)
    ensures fp' == fp + Text([line])
  {
    assert [line][1..] == [];
    Joined(fp, line, "\n");
    return fp + line + "\n";
  }

  method Close(fp: string, st: Printer, sys: char, marker: string) returns (fp': string)
    ensures fp' == fp + Text(Closing(st, sys, marker))
  {
    fp' := fp;
    if !st.first {
      var last := [sys] + st.prev + CONF_END;
      TextAppend([marker], [last]);
      Joined(fp, Text([marker]), Text([last]));
      if st.started { fp' := Emit(fp', marker); }
      fp' := Emit(fp', last);
      assert Closing(st, sys, marker) == if st.started then [marker] + [last] else [last];
    }
  }

  lemma {:induction false} OpeningText(st: Printer, row: Row, sys: char, marker: string)
    requires st.prev != row.section
    ensures Text(Opening(st, row, sys, marker))
         == Text(Closing(st, sys, marker)) + Text([[sys] + row.section + CONF_START])
  {
    TextAppend(Closing(st, sys, marker), [[sys] + row.section + CONF_START]);
  }

  method Open(fp: string, st: Printer, row: Row, sys: char, marker: string) returns (fp': string, st': Printer)
    ensures fp' == fp + Text(Opening(st, row, sys, marker)) && st' == Entered(st, row)
  {
    fp', st' := fp, st;
    if st.prev != row.section {
      OpeningText(st, row, sys, marker);
      Joined(fp, Text(Closing(st, sys, marker)), Text([[sys] + row.section + CONF_START]));
      fp' := Close(fp', st, sys, marker);
      fp' := Emit(fp', [sys] + row.section + CONF_START);
      st' := Printer(Prefix(row.section, 3), false, "", false);
    }
  }

  /** An item boundary, if there is one, and the row's own line. */
  method PrintEntry(fp: string, st: Printer, row: Row, marker: string) returns (fp': string, st': Printer)
    ensures fp' == fp + Text(Boundary(st, row, marker) + [KeyLine(row)]) && st' == Noted(st, row)
  {
    TextAppend(Boundary(st, row, marker), [KeyLine(row)]);
    Joined(fp, Text(Boundary(st, row, marker)), Text([KeyLine(row)]));
    fp', st' := fp, st;
    if st.firstKey == "" {
      st' := st.(firstKey := Prefix(row.key, MAX_KEY - 1), started := true);
    } else if row.key == st.firstKey {
      fp' := Emit(fp', marker);
    }
    assert fp' == fp + Text(Boundary(st, row, marker));
    fp' := Emit(fp', KeyLine(row));
  }

  /** The loop body of export_generic_ini. */
  method PrintRow(fp: string, st: Printer, row: Row, sys: char, marker: string) returns (fp': string, st': Printer)
    ensures fp' == fp + Text(RowLines(st, row, sys, marker)) && st' == Noted(Entered(st, row), row)
  {
    RowText(st, row, sys, marker);
    Joined(fp, Text(Opening(st, row, sys, marker)), Text(Boundary(Entered(st, row), row, marker) + [KeyLine(row)]));
    fp', st' := Open(fp, st, row, sys, marker);
    fp', st' := PrintEntry(fp', st', row, marker);
  }

  lemma {:induction false} RowText(st: Printer, row: Row, sys: char, marker: string)
    ensures Text(RowLines(st, row, sys, marker))
         == Text(Opening(st, row, sys, marker)) + Text(Boundary(Entered(st, row), row, marker) + [KeyLine(row)])
  {
    var opening, entry := Opening(st, row, sys, marker), Boundary(Entered(st, row), row, marker) + [KeyLine(row)];
    assert RowLines(st, row, sys, marker) == opening + entry;
    TextAppend(opening, entry);
  }

  /** export_generic_ini */
  method ExportGeneric(rows: seq<Row>, env: string, sys: char, marker: string) returns (fp: string, count: nat)
    ensures fp == Export(rows, env, sys, marker) && count == |rows|
  {
    var st := BEGIN;
    fp := Emit("", Heading(env));
    ghost var rest, all := rows, Export(rows, env, sys, marker);
    TextAppend([Heading(env)], LinesFrom(st, rows, sys, marker));
    count := 0;
    while count < |rows|
      invariant 0 <= count <= |rows| && rest == rows[count..]
      invariant fp + Text(LinesFrom(st, rest, sys, marker)) == all
    {
      var row := rows[count];
      ghost var mine := RowLines(st, row, sys, marker);
      ghost var later := LinesFrom(Noted(Entered(st, row), row), rest[1..], sys, marker);
      TextAppend(mine, later);
      Joined(fp, Text(mine), Text(later));
      fp, st := PrintRow(fp, st, row, sys, marker);
      rest := rest[1..];
      count := count + 1;
    }
    fp := Close(fp, st, sys, marker);
  }
}

/** Printing and parsing undo each other. */
module IniRoundTrip {
  import opened CText
  import opened IniParser
  import opened IniPrinter

  /** A line the reader takes whole: no line break, room in its buffer. */
  predicate WholeLine(line: string) { '\n' !in line && |line| < 1023 }

  function ParseLines(p: Parser, lines: seq<string>, marker: string): Parser
    decreases |lines|
  {
    if lines == [] then p else ParseLines(Accept(p, Classify(Trim(lines[0] + "\n"), marker)), lines[1..], marker)
  }

  lemma {:induction false} ParseText(p: Parser, lines: seq<string>, marker: string)
    requires forall l :: l in lines ==> WholeLine(l)
    ensures Parse(p, Text(lines), marker) == ParseLines(p, lines, marker)
    decreases |lines|
  {
    if lines == [] {
    } else {
      var line, rest := lines[0], Text(lines[1..]);
      var text := line + "\n" + rest;
      assert WholeLine(lines[0]);
      LineEnds(line, rest, MAX_LINE - 1);
      assert text[..|line| + 1] == line + "\n" && text[|line| + 1..] == rest;
      ParseText(Accept(p, Classify(Trim(line + "\n"), marker)), lines[1..], marker);
    }
  }

  lemma {:induction false} ParseAppend(p: Parser, a: seq<string>, b: seq<string>, marker: string)
    ensures ParseLines(p, a + b, marker) == ParseLines(ParseLines(p, a, marker), b, marker)
    decreases |a|
  {
    if a == [] {
      assert a + b == b;
    } else {
      assert (a + b)[1..] == a[1..] + b && (a + b)[0] == a[0];
      ParseAppend(Accept(p, Classify(Trim(a[0] + "\n"), marker)), a[1..], b, marker);
    }
  }

  /** A line that ends a section; a line that does not begin one. */
  predicate EndsSection(l: string) { l != "" && l[0] !in {'#', ' ', '\t'} && Contains(l, "_CONF_END") && Plain(l) }

  predicate Plain(l: string) { WholeLine(l) && (l == "" || !IsBlank(l[|l| - 1])) && !Contains(l, "_CONF_START") }

  lemma {:induction false} PlainLine(p: Parser, l: string, marker: string)
    requires Plain(l)
    ensures var q := Accept(p, Classify(Trim(l + "\n"), marker));
      (EndsSection(l) || !p.inSection) ==> !q.inSection && q.table == p.table && q.count == p.count
  {
    TrimKeeps(l);
  }

  /** From the end of a section up to the beginning of the next one nothing is
      imported, whatever stands there. */
  lemma {:induction false} NothingBetweenSections(p: Parser, lines: seq<string>, marker: string)
    requires forall l :: l in lines ==> Plain(l)
    requires !p.inSection || (lines != [] && EndsSection(lines[0]))
    ensures var q := Parse(p, Text(lines), marker); !q.inSection && q.table == p.table && q.count == p.count
  {
    ParseText(p, lines, marker);
    PlainLines(p, lines, marker);
  }

  lemma {:induction false} PlainLines(p: Parser, lines: seq<string>, marker: string)
    requires forall l :: l in lines ==> Plain(l)
    requires !p.inSection || (lines != [] && EndsSection(lines[0]))
    ensures var q := ParseLines(p, lines, marker); !q.inSection && q.table == p.table && q.count == p.count
    decreases |lines|
  {
    if lines == [] {
    } else {
      assert lines[0] in lines;
      PlainLine(p, lines[0], marker);
      PlainLines(Accept(p, Classify(Trim(lines[0] + "\n"), marker)), lines[1..], marker);
    }
  }

  // ---- One line ----------------------------------------------------------

  /** Keys and values that survive: what a caller can check before printing. */
  predicate Printable(key: string, value: string) {
    && '=' !in key && Upper(key) == key
    && (key == "" || (key[0] != '#' && !IsGap(key[0])))
    && !Contains(key + "=" + value, CONF_START) && !Contains(key + "=" + value, CONF_END)
    && |value| < 512 && (value == "" || !IsBlank(value[|value| - 1]))
    && (Contains(key, "COMMENT") || forall c :: c in value ==> !IsGap(c))
  }

  lemma {:induction false} TrimLast(s: string)
    requires Trim(s) == s
    ensures s == "" || !IsBlank(s[|s| - 1])
  {
  }

  lemma {:induction false} PrintableIsKept(key: string, value: string, marker: string)
    requires Printable(key, value) && '=' !in marker
    ensures Trim(key + "=" + value + "\n") == key + "=" + value
    ensures Classify(key + "=" + value, marker) == Pair(key, value)
  {
    var line := key + "=" + value;
    assert line[|line| - 1] == if value == "" then '=' else value[|value| - 1];
    TrimKeeps(line);
    FirstIndex(key, '=', value);
    assert line[|key|] == '=' && line[..|key|] == key && line[|key| + 1..] == value;
    assert line[0] == if key == "" then '=' else key[0];
  }

  lemma {:induction false} KeptIsPrintable(key: string, value: string, marker: string)
    requires Classify(Trim(key + "=" + value), marker) == Pair(key, value)
    ensures Printable(key, value)
  {
    var line := key + "=" + value;
    var buf := Trim(line);
    var eq := IndexOf(buf, '=');
    assert eq == |key| && buf[..eq] == line[..eq] == key;
    var rest := buf[eq + 1..];
    assert |rest| >= |value|;
    assert buf == line;
    TrimLast(line);
    assert rest == value;
    assert line[|line| - 1] == if value == "" then '=' else value[|value| - 1];
    assert line[0] == if key == "" then '=' else key[0];
  }

  /** What the parser makes of one trimmed line: the key and value it was printed
      from exactly when both are printable. */
  lemma {:induction false} TrimmedRoundTrip(key: string, value: string, marker: string)
    requires '=' !in marker
    ensures Classify(Trim(key + "=" + value), marker) == Pair(key, value) <==> Printable(key, value)
  {
    if Printable(key, value) {
      PrintableIsKept(key, value, marker);
      var line := key + "=" + value;
      assert line[|line| - 1] == if value == "" then '=' else value[|value| - 1];
      TrimKeeps(line);
    }
    if Classify(Trim(key + "=" + value), marker) == Pair(key, value) {
      KeptIsPrintable(key, value, marker);
    }
  }

  // ---- One line, read by fgets -------------------------------------------

  lemma {:induction false} TrimBreak(s: string)
    ensures Trim(s + "\n") == Trim(s)
  {
    assert (s + "\n")[..|s|] == s;
  }

  /** A line break can only be the last character that fgets takes. */
  lemma {:induction false} LineBody(text: string, max: nat, i: nat)
    requires i + 1 < LineLen(text, max)
    ensures text[i] != '\n'
    decreases i
  {
    if i == 0 {
    } else {
      LineBody(text[1..], max - 1, i - 1);
    }
  }

  lemma {:induction false} NoBreakInLine(text: string, max: nat)
    ensures '\n' !in Trim(text[..LineLen(text, max)])
  {
    var line := text[..LineLen(text, max)];
    var buf := Trim(line);
    forall i | 0 <= i < |buf|
      ensures buf[i] != '\n'
    {
      assert buf[i] == line[i] == text[i];
      if i + 1 < |line| {
        LineBody(text, max, i);
      } else {
        assert buf == line;
        TrimLast(line);
      }
    }
  }

  /** What a row read from a file is like. */
  predicate Readable(row: Row) {
    '\n' !in row.key && '\n' !in row.value && |row.value| < 512
  }

  lemma {:induction false} PairIsReadable(buf: string, marker: string, section: string, sort: nat)
    requires '\n' !in buf && Classify(buf, marker).Pair?
    ensures var c := Classify(buf, marker); Readable(Row(section, c.key, c.value, sort))
  {
    KeyHasNoBreak(buf[..IndexOf(buf, '=')]);
    ValueHasNoBreak(buf);
  }

  lemma {:induction false} KeyHasNoBreak(s: string)
    requires '\n' !in s
    ensures '\n' !in Upper(s)
  {
    forall i | 0 <= i < |s|
      ensures Upper(s)[i] != '\n'
    {
      assert s[i] in s;
    }
  }

  lemma {:induction false} ValueHasNoBreak(buf: string)
    requires '\n' !in buf && IndexOf(buf, '=') < |buf|
    ensures '\n' !in ValueOf(buf) && |ValueOf(buf)| < 512
  {
    var rest, v := buf[IndexOf(buf, '=') + 1..], ValueOf(buf);
    assert v <= rest;
    forall i | 0 <= i < |v|
      ensures v[i] != '\n'
    {
      assert v[i] == rest[i] && rest[i] in buf;
    }
  }

  /** The count tells how many rows a text has put into the table; a single one is
      readable. */
  lemma {:induction false} ParseAdds(p: Parser, text: string, marker: string)
    ensures var q := Parse(p, text, marker);
      && p.count <= q.count
      && (q.count == p.count ==> q.table == p.table)
      && (q.count == p.count + 1 ==> exists row :: Readable(row) && q.table == Insert(p.table, row))
    decreases |text|
  {
    if text == "" {
    } else {
      var n := LineLen(text, MAX_LINE - 1);
      var c := Classify(Trim(text[..n]), marker);
      ParseAdds(Accept(p, c), text[n..], marker);
      if c.Pair? && p.inSection {
        NoBreakInLine(text, MAX_LINE - 1);
        PairIsReadable(Trim(text[..n]), marker, p.section, p.sort);
        assert Accept(p, c).table == Insert(p.table, Row(p.section, c.key, c.value, p.sort));
      }
    }
  }

  lemma {:induction false} SameInsert(table: seq<Row>, a: Row, b: Row)
    requires Insert(table, a) == Insert(table, b)
    ensures a == b
  {
    var t := Insert(table, a);
    assert t[|t| - 1] == a && t[|t| - 1] == b;
  }

  lemma {:induction false} ParseOneLine(p: Parser, line: string, marker: string)
    requires WholeLine(line)
    ensures Parse(p, line + "\n", marker) == Accept(p, Classify(Trim(line + "\n"), marker))
  {
    var text := line + "\n";
    assert text + "" == text;
    LineEnds(line, "", MAX_LINE - 1);
    assert text[..|text|] == text && text[|text|..] == "";
  }

  lemma {:induction false} AcceptedPair(p: Parser, c: Line, key: string, value: string)
    requires p.inSection && Accept(p, c) == Accept(p, Pair(key, value))
    ensures c == Pair(key, value)
  {
    if c.Pair? {
      SameInsert(p.table, Row(p.section, c.key, c.value, p.sort), Row(p.section, key, value, p.sort));
    }
  }

  lemma {:induction false} ReadBackIsReadable(p: Parser, key: string, value: string, text: string, marker: string)
    requires p.inSection && Parse(p, text, marker) == Accept(p, Pair(key, value))
    ensures '\n' !in key && '\n' !in value && |value| < 512
  {
    ParseAdds(p, text, marker);
    var mine := Row(p.section, key, value, p.sort);
    var row :| Readable(row) && Insert(p.table, mine) == Insert(p.table, row);
    SameInsert(p.table, mine, row);
  }

  /** One printed line, read inside a section as the program reads it, gives back
      just the row's key and value exactly when both are printable and neither
      holds a line break. */
  lemma {:induction false} LineRoundTrip(p: Parser, key: string, value: string, marker: string)
    requires p.inSection && |key| < 100 && '=' !in marker
    ensures Parse(p, key + "=" + value + "\n", marker) == Accept(p, Pair(key, value))
            <==> Printable(key, value) && '\n' !in key && '\n' !in value
  {
    var line := key + "=" + value;
    if Parse(p, line + "\n", marker) == Accept(p, Pair(key, value)) {
      ReadBackIsReadable(p, key, value, line + "\n", marker);
      ParseOneLine(p, line, marker);
      AcceptedPair(p, Classify(Trim(line + "\n"), marker), key, value);
      TrimBreak(line);
      TrimmedRoundTrip(key, value, marker);
    }
    if Printable(key, value) && '\n' !in key && '\n' !in value {
      PrintableIsKept(key, value, marker);
      ParseOneLine(p, line, marker);
    }
  }

  // ---- The whole text ----------------------------------------------------

  predicate HasRow(table: seq<Row>, section: string, key: string) {
    exists r :: r in table && r.section == section && r.key == key
  }

  /** The unique key of the table: no row of `rows` is in the table, and none is
      there twice. */
  ghost predicate Distinct(table: seq<Row>, rows: seq<Row>)
    decreases |rows|
  {
    rows == [] ||
    (!HasRow(table, rows[0].section, rows[0].key) && Distinct(table + [rows[0]], rows[1..]))
  }

  predicate RowOk(row: Row) {
    && |row.section| == 1 && 'A' <= row.section[0] <= 'Z'
    && row.key != "" && |row.key| < 100 && '\n' !in row.key && '\n' !in row.value
    && Printable(row.key, row.value)
  }

  predicate MarkerOk(marker: string) {
    && !Ignored(marker) && WholeLine(marker) && '=' !in marker && Trim(marker) == marker
    && !Contains(marker, CONF_START) && !Contains(marker, CONF_END)
  }

  predicate SysOk(sys: char) { sys != '#' && !IsBlank(sys) }

  predicate EnvOk(env: string) { WholeLine(Heading(env)) }

  /** The rows as they come back: sort_order counts from 0 in every section. */
  function Renumber(rows: seq<Row>, prev: string, sort: nat): seq<Row>
    decreases |rows|
  {
    if rows == [] then []
    else
      var n := if prev == rows[0].section then sort else 0;
      [rows[0].(sort := n)] + Renumber(rows[1..], rows[0].section, n + 1)
  }

  lemma {:induction false} MarkerLine(marker: string)
    requires MarkerOk(marker)
    ensures Classify(Trim(marker + "\n"), marker) == Skipped
  {
    TrimLast(marker);
    TrimKeeps(marker);
  }

  lemma {:induction false} StartLine(sys: char, section: string, marker: string)
    requires SysOk(sys) && |section| == 1 && 'A' <= section[0] <= 'Z'
    ensures var line := [sys] + section + CONF_START;
      WholeLine(line) && Classify(Trim(line + "\n"), marker) == Start(section)
  {
    var line := [sys] + section + CONF_START;
    assert line[|line| - 1] == 'T' && line[0] == sys && line[1] == section[0] && line[2] == '_';
    TrimKeeps(line);
    ContainsBehind([sys] + section, CONF_START);
    assert [UpperChar(section[0])] == section;
  }

  lemma {:induction false} EndLine(sys: char, section: string, marker: string)
    requires SysOk(sys) && |section| == 1 && 'A' <= section[0] <= 'Z'
    ensures var line := [sys] + section + CONF_END;
      WholeLine(line) && Classify(Trim(line + "\n"), marker) == End
  {
    var line := [sys] + section + CONF_END;
    assert line[|line| - 1] == 'D' && line[0] == sys && line[2] == '_';
    TrimKeeps(line);
    ContainsBehind([sys] + section, CONF_END);
    assert line == [sys, section[0]] + CONF_END;
    EndHoldsNoStart(sys, section[0]);
  }

  lemma {:induction false} EndHoldsNoStart(a: char, b: char)
    ensures !Contains([a, b] + CONF_END, CONF_START)
  {
    var s := [a, b] + CONF_END;
    assert |s| == |CONF_START| == 11;
    assert s[2] == '_' && CONF_START[2] == 'O';
  }

  lemma {:induction false} HeadingLine(env: string, marker: string)
    requires EnvOk(env)
    ensures Classify(Trim(Heading(env) + "\n"), marker) == Skipped
  {
    var line := Heading(env);
    assert line[|line| - 1] == ')' && line[0] == '#';
    TrimKeeps(line);
  }

  lemma {:induction false} RowLine(row: Row, marker: string)
    requires RowOk(row) && MarkerOk(marker)
    ensures WholeLine(KeyLine(row)) && Classify(Trim(KeyLine(row) + "\n"), marker) == Pair(row.key, row.value)
  {
    PrintableIsKept(row.key, row.value, marker);
  }

  lemma InsertNew(table: seq<Row>, row: Row)
    requires !HasRow(table, row.section, row.key)
    ensures Insert(table, row) == table + [row]
  {
  }

  /** The parser has read exactly what the printer in state `st` has printed. */
  ghost predicate Coupled(st: Printer, p: Parser) {
    if st.first then st == BEGIN
    else
      && |st.prev| == 1 && 'A' <= st.prev[0] <= 'Z' && st.started && st.firstKey != ""
      && p.inSection && p.section == st.prev && HasRow(p.table, st.prev, st.firstKey)
  }

  ghost predicate AllWhole(lines: seq<string>) { forall k :: 0 <= k < |lines| ==> WholeLine(lines[k]) }

  lemma {:induction false} ParseOne(p: Parser, line: string, marker: string)
    ensures ParseLines(p, [line], marker) == Accept(p, Classify(Trim(line + "\n"), marker))
  {
    assert [line][1..] == [];
  }

  lemma {:induction false} ParseTwo(p: Parser, a: string, b: string, marker: string)
    ensures ParseLines(p, [a, b], marker)
         == Accept(Accept(p, Classify(Trim(a + "\n"), marker)), Classify(Trim(b + "\n"), marker))
  {
    assert [a, b] == [a] + [b];
    ParseAppend(p, [a], [b], marker);
    ParseOne(p, a, marker);
    ParseOne(Accept(p, Classify(Trim(a + "\n"), marker)), b, marker);
  }

  /** Closing a section takes the parser out of it and leaves the table alone. */
  lemma {:induction false} ClosingParsed(st: Printer, p: Parser, sys: char, marker: string)
    requires Coupled(st, p) && SysOk(sys) && MarkerOk(marker)
    ensures AllWhole(Closing(st, sys, marker))
    ensures ParseLines(p, Closing(st, sys, marker), marker) == if st.first then p else p.(inSection := false)
  {
    if !st.first {
      var last := [sys] + st.prev + CONF_END;
      EndLine(sys, st.prev, marker);
      MarkerLine(marker);
      assert Closing(st, sys, marker) == [marker, last];
      ParseTwo(p, marker, last, marker);
    }
  }

  /** Opening brings both into the row's section, with the sort order at 0 if it
      is a new one. */
  lemma {:induction false} OpeningParsed(st: Printer, p: Parser, row: Row, sys: char, marker: string)
    requires Coupled(st, p) && RowOk(row) && SysOk(sys) && MarkerOk(marker)
    ensures AllWhole(Opening(st, row, sys, marker))
    ensures ParseLines(p, Opening(st, row, sys, marker), marker)
         == if st.prev == row.section then p else p.(section := row.section, inSection := true, sort := 0)
  {
    if st.prev != row.section {
      var start := [sys] + row.section + CONF_START;
      var p1 := if st.first then p else p.(inSection := false);
      ClosingParsed(st, p, sys, marker);
      StartLine(sys, row.section, marker);
      ParseAppend(p, Closing(st, sys, marker), [start], marker);
      ParseOne(p1, start, marker);
    }
  }

  /** The parser after one more row. */
  function AfterRow(p: Parser, row: Row, n: nat): Parser {
    Parser(row.section, true, n + 1, p.table + [row.(sort := n)], p.count + 1)
  }

  function NextSort(st: Printer, p: Parser, row: Row): nat {
    if st.prev == row.section then p.sort else 0
  }

  lemma {:induction false} NoBoundary(st: Printer, p: Parser, row: Row, marker: string)
    requires Coupled(st, p) && !HasRow(p.table, row.section, row.key)
    ensures Boundary(Entered(st, row), row, marker) == []
  {
  }

  /** One row goes into the table behind the others. */
  lemma {:induction false} RowParsed(st: Printer, p: Parser, row: Row, sys: char, marker: string)
    requires Coupled(st, p) && RowOk(row) && SysOk(sys) && MarkerOk(marker)
    requires !HasRow(p.table, row.section, row.key)
    ensures ParseLines(p, RowLines(st, row, sys, marker), marker) == AfterRow(p, row, NextSort(st, p, row))
    ensures AllWhole(RowLines(st, row, sys, marker))
  {
    var n := NextSort(st, p, row);
    var opening, p1 := Opening(st, row, sys, marker), Parser(row.section, true, n, p.table, p.count);
    assert ParseLines(p, opening, marker) == p1 && AllWhole(opening) by { OpeningParsed(st, p, row, sys, marker); }
    assert RowLines(st, row, sys, marker) == opening + [KeyLine(row)] by { NoBoundary(st, p, row, marker); }
    assert ParseLines(p1, [KeyLine(row)], marker) == AfterRow(p, row, n) by { KeyLineParsed(p1, row, marker); }
    assert AllWhole([KeyLine(row)]) by { RowLine(row, marker); }
    ParseAppend(p, opening, [KeyLine(row)], marker);
    WholeAppend(opening, [KeyLine(row)]);
  }

  lemma {:induction false} KeyLineParsed(p: Parser, row: Row, marker: string)
    requires RowOk(row) && MarkerOk(marker) && p.inSection && p.section == row.section
    requires !HasRow(p.table, row.section, row.key)
    ensures ParseLines(p, [KeyLine(row)], marker) == AfterRow(p, row, p.sort)
  {
    RowLine(row, marker);
    ParseOne(p, KeyLine(row), marker);
    InsertNew(p.table, row.(sort := p.sort));
  }

  lemma {:induction false} RowCoupled(st: Printer, p: Parser, row: Row, n: nat)
    requires Coupled(st, p) && RowOk(row)
    ensures Coupled(Noted(Entered(st, row), row), AfterRow(p, row, n))
  {
    var p' := AfterRow(p, row, n);
    assert p'.table[|p.table|] == row.(sort := n) && row.(sort := n) in p'.table;
    assert HasRow(p'.table, row.section, row.key);
    StillHas(p.table, row.(sort := n), st.prev, st.firstKey);
  }

  lemma StillHas(table: seq<Row>, row: Row, section: string, key: string)
    ensures HasRow(table, section, key) ==> HasRow(table + [row], section, key)
  {
    if HasRow(table, section, key) {
      var r :| r in table && r.section == section && r.key == key;
      assert r in table + [row];
    }
  }

  /** A row counts as present by its section and key only. */
  lemma {:induction false} DistinctBySort(table: seq<Row>, row: Row, n: nat, rows: seq<Row>)
    requires Distinct(table + [row], rows)
    ensures Distinct(table + [row.(sort := n)], rows)
  {
    SameKeysDistinct(table + [row], table + [row.(sort := n)], rows);
  }

  lemma {:induction false} SameKeysHave(a: seq<Row>, b: seq<Row>, section: string, key: string)
    requires |a| == |b| && forall k :: 0 <= k < |a| ==> a[k].section == b[k].section && a[k].key == b[k].key
    ensures HasRow(b, section, key) ==> HasRow(a, section, key)
  {
    if HasRow(b, section, key) {
      var r :| r in b && r.section == section && r.key == key;
      var k :| 0 <= k < |b| && b[k] == r;
      assert a[k] in a;
    }
  }

  lemma {:induction false} SameKeysDistinct(a: seq<Row>, b: seq<Row>, rows: seq<Row>)
    requires |a| == |b| && forall k :: 0 <= k < |a| ==> a[k].section == b[k].section && a[k].key == b[k].key
    requires Distinct(a, rows)
    ensures Distinct(b, rows)
    decreases |rows|
  {
    if rows == [] {
    } else {
      SameKeysHave(a, b, rows[0].section, rows[0].key);
      SameKeysDistinct(a + [rows[0]], b + [rows[0]], rows[1..]);
    }
  }

  lemma {:induction false} WholeAppend(a: seq<string>, b: seq<string>)
    requires AllWhole(a) && AllWhole(b)
    ensures AllWhole(a + b)
  {
  }

  /** Reading the lines puts the rows behind those of the table. */
  ghost predicate Adds(p: Parser, lines: seq<string>, marker: string, rows: seq<Row>) {
    var p' := ParseLines(p, lines, marker);
    AllWhole(lines) && p'.table == p.table + rows && p'.count == p.count + |rows|
  }

  lemma {:induction false} NothingMore(st: Printer, p: Parser, sys: char, marker: string)
    requires Coupled(st, p) && SysOk(sys) && MarkerOk(marker)
    ensures Adds(p, Closing(st, sys, marker), marker, [])
  {
    ClosingParsed(st, p, sys, marker);
  }

  /** A first piece of text that adds one row, and the text of the others. */
  lemma {:induction false} PieceAndRest(p: Parser, p1: Parser, mine: seq<string>, more: seq<string>, marker: string,
                                        row: Row, added: seq<Row>)
    requires p1 == ParseLines(p, mine, marker) && p1.table == p.table + [row] && p1.count == p.count + 1
    requires AllWhole(mine) && Adds(p1, more, marker, added)
    ensures Adds(p, mine + more, marker, [row] + added)
  {
    var p2 := ParseLines(p1, more, marker);
    assert ParseLines(p, mine + more, marker) == p2 by { ParseAppend(p, mine, more, marker); }
    assert AllWhole(mine + more) by { WholeAppend(mine, more); }
    assert p2.table == p.table + ([row] + added) by { InOrder(p.table, row, added); }
  }

  lemma {:induction false} InOrder(table: seq<Row>, row: Row, added: seq<Row>)
    ensures table + [row] + added == table + ([row] + added)
  {
  }

  lemma {:induction false} RowAndRest(st: Printer, p: Parser, rows: seq<Row>, sys: char, marker: string, n: nat,
                                      more: seq<string>, added: seq<Row>, lines: seq<string>, all: seq<Row>)
    requires rows != [] && Coupled(st, p) && RowOk(rows[0]) && SysOk(sys) && MarkerOk(marker)
    requires !HasRow(p.table, rows[0].section, rows[0].key) && n == NextSort(st, p, rows[0])
    requires Adds(AfterRow(p, rows[0], n), more, marker, added)
    requires lines == RowLines(st, rows[0], sys, marker) + more && all == [rows[0].(sort := n)] + added
    ensures Adds(p, lines, marker, all)
  {
    RowParsed(st, p, rows[0], sys, marker);
    PieceAndRest(p, AfterRow(p, rows[0], n), RowLines(st, rows[0], sys, marker), more, marker,
                 rows[0].(sort := n), added);
  }

  lemma {:induction false} Unfolded(st: Printer, rows: seq<Row>, sys: char, marker: string, sort: nat)
    requires rows != []
    ensures var n := if st.prev == rows[0].section then sort else 0;
      && LinesFrom(st, rows, sys, marker)
         == RowLines(st, rows[0], sys, marker) + LinesFrom(Noted(Entered(st, rows[0]), rows[0]), rows[1..], sys, marker)
      && Renumber(rows, st.prev, sort) == [rows[0].(sort := n)] + Renumber(rows[1..], rows[0].section, n + 1)
  {
  }

  lemma {:induction false} TailReady(st: Printer, p: Parser, rows: seq<Row>, n: nat)
    requires rows != [] && Coupled(st, p) && RowOk(rows[0]) && Distinct(p.table, rows)
    ensures !HasRow(p.table, rows[0].section, rows[0].key)
    ensures Coupled(Noted(Entered(st, rows[0]), rows[0]), AfterRow(p, rows[0], n))
    ensures Distinct(AfterRow(p, rows[0], n).table, rows[1..])
    ensures Noted(Entered(st, rows[0]), rows[0]).prev == rows[0].section
  {
    RowCoupled(st, p, rows[0], n);
    DistinctBySort(p.table, rows[0], n, rows[1..]);
    EnteredPrev(st, rows[0]);
  }

  lemma {:induction false} OneMoreRow(st: Printer, p: Parser, rows: seq<Row>, sys: char, marker: string, n: nat,
                                      st1: Printer, lines: seq<string>, all: seq<Row>)
    requires rows != [] && Coupled(st, p) && RowOk(rows[0]) && SysOk(sys) && MarkerOk(marker)
    requires !HasRow(p.table, rows[0].section, rows[0].key)
    requires n == NextSort(st, p, rows[0]) && st1 == Noted(Entered(st, rows[0]), rows[0])
    requires Adds(AfterRow(p, rows[0], n), LinesFrom(st1, rows[1..], sys, marker), marker,
                  Renumber(rows[1..], rows[0].section, n + 1))
    requires lines == LinesFrom(st, rows, sys, marker) && all == Renumber(rows, st.prev, p.sort)
    ensures Adds(p, lines, marker, all)
  {
    Unfolded(st, rows, sys, marker, p.sort);
    RowAndRest(st, p, rows, sys, marker, n, LinesFrom(st1, rows[1..], sys, marker),
               Renumber(rows[1..], rows[0].section, n + 1), lines, all);
  }

  /** From any point of the text on. */
  lemma {:induction false} RowsParsed(st: Printer, p: Parser, rows: seq<Row>, sys: char, marker: string,
                                      lines: seq<string>, all: seq<Row>)
    requires Coupled(st, p) && SysOk(sys) && MarkerOk(marker)
    requires (forall r :: r in rows ==> RowOk(r)) && Distinct(p.table, rows)
    requires lines == LinesFrom(st, rows, sys, marker) && all == Renumber(rows, st.prev, p.sort)
    ensures Adds(p, lines, marker, all)
    decreases |rows|
  {
    if rows == [] {
      NothingMore(st, p, sys, marker);
    } else {
      var n, st1, later := NextSort(st, p, rows[0]), Noted(Entered(st, rows[0]), rows[0]), rows[1..];
      TailReady(st, p, rows, n);
      RowsParsed(st1, AfterRow(p, rows[0], n), later, sys, marker,
                 LinesFrom(st1, later, sys, marker), Renumber(later, rows[0].section, n + 1));
      OneMoreRow(st, p, rows, sys, marker, n, st1, lines, all);
    }
  }

  lemma EnteredPrev(st: Printer, row: Row)
    requires |row.section| == 1
    ensures Noted(Entered(st, row), row).prev == row.section
  {
  }

  lemma {:induction false} RenumberSize(rows: seq<Row>, prev: string, sort: nat)
    ensures |Renumber(rows, prev, sort)| == |rows|
    decreases |rows|
  {
    if rows == [] {
    } else {
      RenumberSize(rows[1..], rows[0].section, (if prev == rows[0].section then sort else 0) + 1);
    }
  }

  /** Printer and parser undo each other: importing an exported group into a table
      without these rows brings back every row, in order, with its section, key
      and value, and sort_order counted from 0 in every section. */
  lemma {:induction false} ExportThenParse(rows: seq<Row>, was: seq<Row>, env: string, sys: char, marker: string)
    requires SysOk(sys) && MarkerOk(marker) && EnvOk(env)
    requires (forall r :: r in rows ==> RowOk(r)) && Distinct(was, rows)
    ensures var p := Parse(Parser("", false, 0, was, 0), Export(rows, env, sys, marker), marker);
      p.table == was + Renumber(rows, "", 0) && p.count == |rows|
  {
    var p := Parser("", false, 0, was, 0);
    var lines := LinesFrom(BEGIN, rows, sys, marker);
    HeadingLine(env, marker);
    RowsParsed(BEGIN, p, rows, sys, marker, lines, Renumber(rows, "", 0));
    RenumberSize(rows, "", 0);
    ParseAppend(p, [Heading(env)], lines, marker);
    ParseOne(p, Heading(env), marker);
    ParseText(p, [Heading(env)] + lines, marker);
  }

  /** Renumbering does not show in the text, so a second export prints the same. */
  lemma {:induction false} RenumberUnseen(st: Printer, rows: seq<Row>, prev: string, sort: nat,
                                          sys: char, marker: string)
    ensures LinesFrom(st, Renumber(rows, prev, sort), sys, marker) == LinesFrom(st, rows, sys, marker)
    decreases |rows|
  {
    if rows == [] {
    } else {
      var row, again := rows[0], Renumber(rows, prev, sort);
      assert again[1..] == Renumber(rows[1..], row.section, again[0].sort + 1);
      assert RowLines(st, again[0], sys, marker) == RowLines(st, row, sys, marker);
      RenumberUnseen(Noted(Entered(st, row), row), rows[1..], row.section, again[0].sort + 1, sys, marker);
    }
  }

  /** Export, import, export gives the same file. */
  lemma {:induction false} ExportIsStable(rows: seq<Row>, env: string, sys: char, marker: string)
    requires SysOk(sys) && MarkerOk(marker) && EnvOk(env)
    requires (forall r :: r in rows ==> RowOk(r)) && Distinct([], rows)
    ensures var p := Parse(Parser("", false, 0, [], 0), Export(rows, env, sys, marker), marker);
      Export(p.table, env, sys, marker) == Export(rows, env, sys, marker)
  {
    ExportThenParse(rows, [], env, sys, marker);
    assert [] + Renumber(rows, "", 0) == Renumber(rows, "", 0);
    RenumberUnseen(BEGIN, rows, "", 0, sys, marker);
  }

  /** No section comes back after another one, as ORDER BY section makes sure. */
  ghost predicate Grouped(rows: seq<Row>) {
    forall i, j, k :: 0 <= i < j < k < |rows| && rows[i].section == rows[k].section ==>
                        rows[j].section == rows[i].section
  }

  ghost predicate Ascending(rows: seq<Row>) {
    forall j, k :: 0 <= j < k < |rows| && rows[j].section == rows[k].section ==> rows[j].sort < rows[k].sort
  }

  lemma {:induction false} RenumberFrom(rows: seq<Row>, prev: string, sort: nat)
    requires Grouped(rows)
    requires forall j, k :: 0 <= j < k < |rows| && rows[k].section == prev ==> rows[j].section == prev
    ensures var again := Renumber(rows, prev, sort);
      && |again| == |rows| && Ascending(again)
      && (forall k :: 0 <= k < |rows| ==> again[k] == rows[k].(sort := again[k].sort))
      && forall k :: 0 <= k < |rows| && rows[k].section == prev ==> again[k].sort >= sort
    decreases |rows|
  {
    if rows == [] {
    } else {
      var n := if prev == rows[0].section then sort else 0;
      var tail := rows[1..];
      forall j, k | 0 <= j < k < |tail| && tail[k].section == rows[0].section
        ensures tail[j].section == rows[0].section
      {
        assert rows[j + 1] == tail[j] && rows[k + 1] == tail[k];
      }
      RenumberFrom(tail, rows[0].section, n + 1);
    }
  }

  /** The query that prints the table orders it by section and sort_order. Imported
      rows keep their sections and ascend strictly inside each of them, so the
      query can return them in no other order. */
  lemma {:induction false} RenumberOrdered(rows: seq<Row>)
    requires Grouped(rows) && forall r :: r in rows ==> RowOk(r)
    ensures var again := Renumber(rows, "", 0);
      && |again| == |rows| && Ascending(again)
      && forall k :: 0 <= k < |rows| ==> again[k] == rows[k].(sort := again[k].sort)
  {
    assert forall k :: 0 <= k < |rows| ==> rows[k] in rows && RowOk(rows[k]);
    RenumberFrom(rows, "", 0);
  }
}
