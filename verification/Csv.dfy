/** The CSV reader of declared datasets (RFC 4180, section 2). One `char` stands for one byte. */
module Csv {

  // ----- reading ------------------------------------------------------------

  type Table = seq<seq<string>>

  datatype State = State(rows: Table, row: seq<string>, cell: string, quoted: bool)

  const START := State([], [], "", false)
  const BOM := "\U{EF}\U{BB}\U{BF}"

  predicate EndsInCr(s: string) {
    s != "" && s[|s| - 1] == '\r'
  }

  function DropCr(s: string): string {
    if EndsInCr(s) then s[..|s| - 1] else s
  }

  function EndRow(st: State): State {
    State(st.rows + [st.row + [DropCr(st.cell)]], [], "", false)
  }

  /** A character outside quotes. */
  function Plain(st: State, ch: char): State {
    if ch == '"' && st.cell == "" then st.(quoted := true)
    else if ch == ',' then st.(row := st.row + [st.cell], cell := "")
    else if ch == '\n' then EndRow(st)
    else st.(cell := st.cell + [ch])
  }

  /** The reader, one character at a time, two for a doubled quote. */
  function Scan(st: State, s: string): State
    decreases |s|
  {
    if s == "" then st
    else if !st.quoted then Scan(Plain(st, s[0]), s[1..])
    else if s[0] != '"' then Scan(st.(cell := st.cell + [s[0]]), s[1..])
    else if |s| > 1 && s[1] == '"' then Scan(st.(cell := st.cell + ['"']), s[2..])
    else Scan(st.(quoted := false), s[1..])
  }

  function Finish(st: State): Table {
    if st.cell != "" || st.row != [] then EndRow(st).rows else st.rows
  }

  function DropBom(t: Table): Table {
    if t != [] && t[0] != [] && BOM <= t[0][0] then t[0 := t[0][0 := t[0][0][3..]]] else t
  }

  function Parsed(input: string): Table {
    DropBom(Finish(Scan(START, input)))
  }

  method ParseCsv(input: string) returns (rows: Table)
    ensures rows == Parsed(input)
  {
    rows := [];
    var row: seq<string>, cell, quoted := [], "", false;
    var index := 0;
    assert input[0..] == input;
    while index < |input|
      invariant index <= |input|
      invariant Scan(State(rows, row, cell, quoted), input[index..]) == Scan(START, input)
    {
      var ch := input[index];
      assert input[index..][1..] == input[index + 1..];
      if quoted {
        if ch == '"' {
          if index + 1 < |input| && input[index + 1] == '"' {
            assert input[index..][2..] == input[index + 2..];
            cell := cell + ['"'];
            index := index + 1;
          } else {
            quoted := false;
          }
        } else {
          cell := cell + [ch];
        }
      } else if ch == '"' && cell == "" {
        quoted := true;
      } else if ch == ',' {
        row, cell := row + [cell], "";
      } else if ch == '\n' {
        if cell != "" && cell[|cell| - 1] == '\r' {
          cell := cell[..|cell| - 1];
        }
        rows, row, cell := rows + [row + [cell]], [], "";
      } else {
        cell := cell + [ch];
      }
      index := index + 1;
    }
    assert input[index..] == "";
    if cell != "" || row != [] {
      if cell != "" && cell[|cell| - 1] == '\r' {
        cell := cell[..|cell| - 1];
      }
      rows := rows + [row + [cell]];
    }
    if rows != [] && rows[0] != [] && |rows[0][0]| >= 3 && rows[0][0][0] == '\U{EF}' && rows[0][0][1] == '\U{BB}' &&
       rows[0][0][2] == '\U{BF}' {
      rows := rows[0 := rows[0][0 := rows[0][0][3..]]];
    }
  }

  // ----- writing, as the standard allows ------------------------------------

  /** A field, written in quotes with quotes doubled, or bare. */
  datatype Field = Quoted(text: string) | Bare(text: string)

  datatype Ending = Lf | CrLf | Eof

  datatype Row = Row(fields: seq<Field>, ending: Ending)

  /** What may stand without quotes. */
  predicate IsField(f: Field) {
    f.Bare? ==> ',' !in f.text && '\n' !in f.text && (f.text == "" || f.text[0] != '"')
  }

  predicate IsRow(r: Row) {
    r.fields != [] && forall i | 0 <= i < |r.fields| :: IsField(r.fields[i])
  }

  /** Non-empty rows; only the last may lack its line end. */
  predicate IsTable(rs: seq<Row>) {
    && (forall i | 0 <= i < |rs| :: IsRow(rs[i]))
    && (forall i | 0 <= i < |rs| - 1 :: rs[i].ending != Eof)
  }

  function Doubled(s: string): string {
    if s == "" then "" else (if s[0] == '"' then "\"\"" else [s[0]]) + Doubled(s[1..])
  }

  function WriteField(f: Field): string {
    if f.Quoted? then ['"'] + Doubled(f.text) + ['"'] else f.text
  }

  function WriteFields(fs: seq<Field>): string {
    if fs == [] then ""
    else if |fs| == 1 then WriteField(fs[0])
    else WriteField(fs[0]) + [','] + WriteFields(fs[1..])
  }

  function WriteEnding(e: Ending): string {
    match e
    case Lf => "\n"
    case CrLf => "\r\n"
    case Eof => ""
  }

  function WriteRow(r: Row): string {
    WriteFields(r.fields) + WriteEnding(r.ending)
  }

  function Write(rs: seq<Row>): string {
    if rs == [] then "" else WriteRow(rs[0]) + Write(rs[1..])
  }

  function Texts(fs: seq<Field>): (r: seq<string>)
    ensures |r| == |fs|
  {
    if fs == [] then [] else [fs[0].text] + Texts(fs[1..])
  }

  function TextsOf(rs: seq<Row>): (r: Table)
    ensures |r| == |rs|
  {
    if rs == [] then [] else [Texts(rs[0].fields)] + TextsOf(rs[1..])
  }

  // ----- one field ----------------------------------------------------------

  /** Inside quotes the text is read back, up to a closing quote that no other quote follows. */
  lemma {:induction false} ScanQuoted(st: State, text: string, rest: string)
    requires st.quoted && (rest == "" || rest[0] != '"')
    ensures Scan(st, Doubled(text) + (['"'] + rest)) == Scan(st.(cell := st.cell + text, quoted := false), rest)
    decreases |text|
  {
    var s := Doubled(text) + (['"'] + rest);
    if text == "" {
      assert s == ['"'] + rest && s[1..] == rest && st.cell + text == st.cell;
    } else {
      var next := st.(cell := st.cell + [text[0]]);
      var tail := Doubled(text[1..]) + (['"'] + rest);
      if text[0] == '"' {
        assert s == "\"\"" + tail && s[2..] == tail;
      } else {
        assert s == [text[0]] + tail && s[1..] == tail;
      }
      ScanQuoted(next, text[1..], rest);
      assert st.cell + [text[0]] + text[1..] == st.cell + text;
    }
  }

  lemma {:induction false} ScanBare(st: State, text: string, rest: string)
    requires !st.quoted && ',' !in text && '\n' !in text && (st.cell != "" || text == "" || text[0] != '"')
    ensures Scan(st, text + rest) == Scan(st.(cell := st.cell + text), rest)
    decreases |text|
  {
    if text == "" {
      assert text + rest == rest && st.cell + text == st.cell;
    } else {
      assert (text + rest)[1..] == text[1..] + rest;
      ScanBare(st.(cell := st.cell + [text[0]]), text[1..], rest);
      assert st.cell + [text[0]] + text[1..] == st.cell + text;
    }
  }

  lemma OpenQuote(st: State, rest: string)
    requires !st.quoted && st.cell == ""
    ensures Scan(st, ['"'] + rest) == Scan(st.(quoted := true), rest)
  {
    assert (['"'] + rest)[1..] == rest;
  }

  lemma Comma(st: State, rest: string)
    requires !st.quoted
    ensures Scan(st, [','] + rest) == Scan(st.(row := st.row + [st.cell], cell := ""), rest)
  {
    assert ([','] + rest)[1..] == rest;
  }

  lemma ScanField(st: State, f: Field, rest: string)
    requires IsField(f) && !st.quoted && st.cell == "" && (rest == "" || rest[0] != '"')
    ensures Scan(st, WriteField(f) + rest) == Scan(st.(cell := f.text), rest)
  {
    hide Scan, Doubled;
    assert "" + f.text == f.text;
    if f.Quoted? {
      assert WriteField(f) + rest == ['"'] + (Doubled(f.text) + (['"'] + rest));
      OpenQuote(st, Doubled(f.text) + (['"'] + rest));
      ScanQuoted(st.(quoted := true), f.text, rest);
    } else {
      ScanBare(st, f.text, rest);
    }
  }

  // ----- one row ------------------------------------------------------------

  /** All fields but the last go to the row, the last stays in the cell. */
  lemma {:induction false} ScanFields(st: State, fs: seq<Field>, rest: string)
    requires fs != [] && (forall i | 0 <= i < |fs| :: IsField(fs[i])) && !st.quoted && st.cell == ""
    requires rest == "" || rest[0] != '"'
    ensures var ts := Texts(fs);
            Scan(st, WriteFields(fs) + rest) ==
            Scan(st.(row := st.row + ts[..|ts| - 1], cell := ts[|ts| - 1]), rest)
    decreases |fs|
  {
    hide IsField, Scan, WriteField, Texts;
    LastText(fs);
    var ts := Texts(fs);
    if |fs| == 1 {
      ScanField(st, fs[0], rest);
      assert st.row + ts[..0] == st.row;
    } else {
      var tail := WriteFields(fs[1..]) + rest;
      WriteFieldsCons(fs, rest);
      ScanField(st, fs[0], [','] + tail);
      Comma(st.(cell := fs[0].text), tail);
      var next := st.(row := st.row + [fs[0].text], cell := "");
      assert st.(cell := fs[0].text).(row := st.row + [fs[0].text], cell := "") == next;
      ScanFields(next, fs[1..], rest);
      TextsCons(fs, st.row);
    }
  }

  lemma WriteFieldsCons(fs: seq<Field>, rest: string)
    requires |fs| > 1
    ensures WriteFields(fs) + rest == WriteField(fs[0]) + ([','] + (WriteFields(fs[1..]) + rest))
  {
    WriteFieldsStep(fs);
    Regroup(WriteField(fs[0]), WriteFields(fs[1..]), rest);
  }

  lemma WriteFieldsStep(fs: seq<Field>)
    requires |fs| > 1
    ensures WriteFields(fs) == WriteField(fs[0]) + [','] + WriteFields(fs[1..])
  {
    hide WriteField;
  }

  lemma Regroup(first: string, others: string, rest: string)
    ensures (first + [','] + others) + rest == first + ([','] + (others + rest))
  {
    var whole := first + [','] + others;
    assert whole + rest == first + [','] + (others + rest);
  }

  lemma TextsCons(fs: seq<Field>, row: seq<string>)
    requires |fs| > 1
    ensures var ts, us := Texts(fs), Texts(fs[1..]);
            row + [fs[0].text] + us[..|us| - 1] == row + ts[..|ts| - 1] && us[|us| - 1] == ts[|ts| - 1]
  {
  }

  /** What a row reads back as: a line feed takes a carriage return before it, in quotes or not. */
  function ReadBack(r: Row): seq<string> {
    var ts := Texts(r.fields);
    if ts == [] || r.ending == CrLf then ts else ts[|ts| - 1 := DropCr(ts[|ts| - 1])]
  }

  lemma ScanRow(rows: Table, r: Row, rest: string)
    requires IsRow(r) && r.ending != Eof
    ensures Scan(State(rows, [], "", false), WriteRow(r) + rest) ==
            Scan(State(rows + [ReadBack(r)], [], "", false), rest)
  {
    hide Texts, WriteFields, IsField, DropCr, Scan;
    var st := State(rows, [], "", false);
    var ts := Texts(r.fields);
    var tail := WriteEnding(r.ending) + rest;
    assert WriteRow(r) + rest == WriteFields(r.fields) + tail;
    ScanFields(st, r.fields, tail);
    var read := State(rows, ts[..|ts| - 1], ts[|ts| - 1], false);
    assert [] + ts[..|ts| - 1] == ts[..|ts| - 1];
    LineEnd(read, r.ending, rest);
    assert ts[..|ts| - 1] + [ts[|ts| - 1]] == ts;
    assert ts[..|ts| - 1] + [DropCr(ts[|ts| - 1])] == ts[|ts| - 1 := DropCr(ts[|ts| - 1])];
  }

  lemma LineEnd(st: State, e: Ending, rest: string)
    requires !st.quoted && e != Eof
    ensures Scan(st, WriteEnding(e) + rest) ==
            Scan(State(st.rows + [st.row + [if e == CrLf then st.cell else DropCr(st.cell)]], [], "", false), rest)
  {
    if e == Lf {
      assert ("\n" + rest)[1..] == rest;
    } else {
      var s := "\r\n" + rest;
      assert s[1..] == "\n" + rest && s[1..][1..] == rest;
      assert Plain(st, '\r') == st.(cell := st.cell + ['\r']);
      assert DropCr(st.cell + ['\r']) == st.cell;
    }
  }

  /** A last row without a line end is kept unless it is one empty field. */
  function LastRow(r: Row): Table {
    if |r.fields| == 1 && r.fields[0].text == "" then [] else [ReadBack(r)]
  }

  function RowsRead(r: Row): Table {
    if r.ending == Eof then LastRow(r) else [ReadBack(r)]
  }

  lemma ScanLastRow(rows: Table, r: Row)
    requires IsRow(r) && r.ending == Eof
    ensures Finish(Scan(State(rows, [], "", false), WriteRow(r))) == rows + LastRow(r)
  {
    hide WriteFields, IsField, Texts;
    LastText(r.fields);
    var ts := Texts(r.fields);
    assert WriteRow(r) == WriteFields(r.fields) + "";
    ScanFields(State(rows, [], "", false), r.fields, "");
    assert [] + ts[..|ts| - 1] == ts[..|ts| - 1];
    assert ts[..|ts| - 1] + [DropCr(ts[|ts| - 1])] == ts[|ts| - 1 := DropCr(ts[|ts| - 1])];
    assert rows + [] == rows;
  }

  // ----- the whole table ----------------------------------------------------

  function ReadAll(rs: seq<Row>): Table {
    if rs == [] then [] else RowsRead(rs[0]) + ReadAll(rs[1..])
  }

  lemma {:induction false} ScanTable(rows: Table, rs: seq<Row>)
    requires IsTable(rs)
    ensures Finish(Scan(State(rows, [], "", false), Write(rs))) == rows + ReadAll(rs)
    decreases |rs|
  {
    hide WriteRow, LastRow, ReadBack, IsRow, Scan, Finish;
    if rs == [] {
      NothingLeft(rows);
    } else if rs[0].ending == Eof {
      assert rs[1..] == [] && WriteRow(rs[0]) + "" == WriteRow(rs[0]);
      assert LastRow(rs[0]) + [] == LastRow(rs[0]);
      ScanLastRow(rows, rs[0]);
    } else {
      ScanRow(rows, rs[0], Write(rs[1..]));
      ScanTable(rows + [ReadBack(rs[0])], rs[1..]);
      assert rows + [ReadBack(rs[0])] + ReadAll(rs[1..]) == rows + ([ReadBack(rs[0])] + ReadAll(rs[1..]));
    }
  }

  lemma NothingLeft(rows: Table)
    ensures Finish(Scan(State(rows, [], "", false), "")) == rows + []
  {
  }

  /** Reading what was written gives every row, less the carriage returns and the byte-order mark the reader takes. */
  lemma ParsedWrite(rs: seq<Row>)
    requires IsTable(rs)
    ensures Parsed(Write(rs)) == DropBom(ReadAll(rs))
  {
    hide Scan, Write, ReadAll;
    ScanTable([], rs);
    assert [] + ReadAll(rs) == ReadAll(rs);
  }

  /** Rows the reader gives back unchanged. */
  predicate IsKept(r: Row) {
    var last := if r.fields == [] then "" else r.fields[|r.fields| - 1].text;
    && (r.ending != CrLf ==> !EndsInCr(last))
    && (r.ending == Eof ==> |r.fields| > 1 || last != "")
  }

  predicate StartsWithBom(rs: seq<Row>) {
    rs != [] && rs[0].fields != [] && BOM <= rs[0].fields[0].text
  }

  /** The round trip, exactly: the table comes back if and only if no row ended by a bare line feed or by the end of
    * the input has a last field ending in a carriage return, no unterminated last row is a single empty field, and
    * the first field does not start with a byte-order mark. */
  lemma RoundTripExactly(rs: seq<Row>)
    requires IsTable(rs)
    ensures Parsed(Write(rs)) == TextsOf(rs) <==>
            (forall i | 0 <= i < |rs| :: IsKept(rs[i])) && !StartsWithBom(rs)
  {
    hide Write, Parsed, IsKept, IsTable, ReadAll, TextsOf, DropBom, Total, StartsWithBom;
    ParsedWrite(rs);
    if forall i | 0 <= i < |rs| :: IsKept(rs[i]) {
      ReadAllKept(rs);
      BomExactly(rs);
    } else {
      TotalOfRead(rs);
      TotalOfDropBom(ReadAll(rs));
    }
  }

  lemma {:induction false} ReadAllKept(rs: seq<Row>)
    requires IsTable(rs) && forall i | 0 <= i < |rs| :: IsKept(rs[i])
    ensures ReadAll(rs) == TextsOf(rs)
    decreases |rs|
  {
    hide IsRow, IsKept, RowsRead, Texts;
    if rs != [] {
      assert IsKept(rs[0]);
      ReadBackKept(rs[0]);
      ReadAllKept(rs[1..]);
    }
  }

  lemma {:induction false} LastText(fs: seq<Field>)
    requires fs != []
    ensures Texts(fs)[|fs| - 1] == fs[|fs| - 1].text && Texts(fs)[0] == fs[0].text
  {
    if |fs| > 1 {
      LastText(fs[1..]);
    }
  }

  lemma ReadBackKept(r: Row)
    requires IsRow(r) && IsKept(r)
    ensures RowsRead(r) == [Texts(r.fields)]
  {
    hide Texts, IsField;
    LastText(r.fields);
    var ts := Texts(r.fields);
    assert ts[|ts| - 1 := ts[|ts| - 1]] == ts;
  }

  lemma BomExactly(rs: seq<Row>)
    requires IsTable(rs)
    ensures DropBom(TextsOf(rs)) == TextsOf(rs) <==> !StartsWithBom(rs)
  {
    hide Texts;
    if rs != [] {
      assert IsRow(rs[0]);
      LastText(rs[0].fields);
      var t := TextsOf(rs);
      assert t[0] == Texts(rs[0].fields) && t[0][0] == rs[0].fields[0].text;
      if StartsWithBom(rs) {
        assert DropBom(t)[0][0] == t[0][0][3..] != t[0][0];
      }
    }
  }

  // ----- what is lost is lost -----------------------------------------------

  /** Rows and bytes of a table, together. */
  function Total(t: Table): nat {
    if t == [] then 0 else 1 + Bytes(t[0]) + Total(t[1..])
  }

  function Bytes(row: seq<string>): nat {
    if row == [] then 0 else |row[0]| + Bytes(row[1..])
  }

  lemma {:induction false} BytesOfUpdate(row: seq<string>, k: nat, cell: string)
    requires k < |row|
    ensures Bytes(row[k := cell]) == Bytes(row) - |row[k]| + |cell|
    decreases |row|
  {
    if k == 0 {
      assert row[0 := cell][1..] == row[1..];
    } else {
      assert row[k := cell][1..] == row[1..][k - 1 := cell];
      BytesOfUpdate(row[1..], k - 1, cell);
    }
  }

  lemma TotalOfConcat(a: seq<string>, t: Table)
    ensures Total([a] + t) == 1 + Bytes(a) + Total(t)
  {
    assert ([a] + t)[1..] == t;
  }

  lemma RowLoses(r: Row)
    requires IsRow(r)
    ensures Total(RowsRead(r)) <= 1 + Bytes(Texts(r.fields))
    ensures !IsKept(r) ==> Total(RowsRead(r)) < 1 + Bytes(Texts(r.fields))
  {
    hide Texts, IsField;
    var ts := Texts(r.fields);
    LastText(r.fields);
    BytesOfUpdate(ts, |ts| - 1, DropCr(ts[|ts| - 1]));
    assert [ReadBack(r)] + [] == [ReadBack(r)];
    TotalOfConcat(ReadBack(r), []);
  }

  lemma {:induction false} TotalOfRead(rs: seq<Row>)
    requires IsTable(rs)
    ensures Total(ReadAll(rs)) <= Total(TextsOf(rs))
    ensures (exists i :: 0 <= i < |rs| && !IsKept(rs[i])) ==> Total(ReadAll(rs)) < Total(TextsOf(rs))
    decreases |rs|
  {
    hide IsRow, IsKept, RowsRead, Texts, Bytes;
    if rs != [] {
      RowLoses(rs[0]);
      TotalOfRead(rs[1..]);
      TotalOfAppend(RowsRead(rs[0]), ReadAll(rs[1..]));
      TotalOfConcat(Texts(rs[0].fields), TextsOf(rs[1..]));
      if i :| 0 <= i < |rs| && !IsKept(rs[i]) {
        assert i > 0 ==> rs[1..][i - 1] == rs[i];
      }
    }
  }

  lemma {:induction false} TotalOfAppend(a: Table, b: Table)
    ensures Total(a + b) == Total(a) + Total(b)
    decreases |a|
  {
    hide Bytes;
    if a == [] {
      assert a + b == b;
    } else {
      TotalOfAppend(a[1..], b);
      assert (a + b)[1..] == a[1..] + b;
    }
  }

  lemma TotalOfDropBom(t: Table)
    ensures Total(DropBom(t)) <= Total(t)
  {
    if t != [] && t[0] != [] && BOM <= t[0][0] {
      BytesOfUpdate(t[0], 0, t[0][0][3..]);
      assert DropBom(t)[1..] == t[1..];
    }
  }
}
