/** The two hand-written CSV readers of the web clients, and the RFC 4180 documents they must undo. */
module Csv {

  type Row = seq<string>

  /** The local variables of both index loops: finished rows, the open row, the open cell, the quote flag. */
  datatype State = State(rows: seq<Row>, row: Row, field: string, quoted: bool)

  const START := State([], [], "", false)

  predicate LineBreak(c: char) { c == '\n' || c == '\r' }

  /** How many characters one line break takes: CRLF is two, a lone CR or LF is one. */
  function BreakLength(s: string): (n: nat)
    requires s != [] && LineBreak(s[0])
    ensures 1 <= n <= |s|
  {
    if s[0] == '\r' && |s| > 1 && s[1] == '\n' then 2 else 1
  }

  /** Reads the characters of `s` one token at a time from `st`. */
  function Scan(s: string, st: State): State
    decreases |s|
  {
    if s == [] then st
    else if st.quoted then
      if s[0] != '"' then Scan(s[1..], st.(field := st.field + [s[0]]))
      else if |s| > 1 && s[1] == '"' then Scan(s[2..], st.(field := st.field + "\""))
      else Scan(s[1..], st.(quoted := false))
    else if s[0] == '"' then Scan(s[1..], st.(quoted := true))
    else if s[0] == ',' then Scan(s[1..], st.(row := st.row + [st.field], field := ""))
    else if LineBreak(s[0]) then Scan(s[BreakLength(s)..], State(st.rows + [st.row + [st.field]], [], "", false))
    else Scan(s[1..], st.(field := st.field + [s[0]]))
  }

  /** An open row survives the end of the text only if something was read into it. */
  function Close(st: State): seq<Row> {
    if st.field != "" || st.row != [] then st.rows + [st.row + [st.field]] else st.rows
  }

  function Rows(text: string): seq<Row> { Close(Scan(text, START)) }

  predicate Blank(row: Row) { forall c | c in row :: c == "" }

  function NonBlank(rows: seq<Row>): seq<Row> {
    if rows == [] then []
    else if Blank(rows[|rows| - 1]) then NonBlank(rows[..|rows| - 1])
    else NonBlank(rows[..|rows| - 1]) + [rows[|rows| - 1]]
  }

  lemma NonBlankSnoc(rows: seq<Row>, row: Row)
    ensures NonBlank(rows + [row]) == if Blank(row) then NonBlank(rows) else NonBlank(rows) + [row]
  {
    assert (rows + [row])[..|rows|] == rows;
  }

  // ----- the two loops -----

  method ParseCsvRows(text: string) returns (rows: seq<Row>)
    ensures rows == Rows(text)
  {
    rows := [];
    var field, row, inQuotes := "", [], false;
    var i := 0;
    while i < |text|
      invariant 0 <= i <= |text|
      invariant Scan(text[i..], State(rows, row, field, inQuotes)) == Scan(text, START)
    {
      var ch := text[i];
      if inQuotes {
        if ch == '"' {
          if i + 1 < |text| && text[i + 1] == '"' {
            field := field + "\"";
            i := i + 1;
          } else {
            inQuotes := false;
          }
        } else {
          field := field + [ch];
        }
      } else if ch == '"' {
        inQuotes := true;
      } else if ch == ',' {
        row, field := row + [field], "";
      } else if ch == '\n' || ch == '\r' {
        if ch == '\r' && i + 1 < |text| && text[i + 1] == '\n' { i := i + 1; }
        row := row + [field];
        rows := rows + [row];
        field, row := "", [];
      } else {
        field := field + [ch];
      }
      i := i + 1;
    }
    if |field| > 0 || |row| > 0 {
      row := row + [field];
      rows := rows + [row];
    }
  }

  /** The search client's loop drops blank rows as it goes; that is the mail client's parse, filtered. */
  method ParseCsv(text: string) returns (rows: seq<Row>)
    ensures rows == NonBlank(Rows(text))
  {
    rows := [];
    var row, cell, quoted := [], "", false;
    ghost var all := [];
    var i := 0;
    while i < |text|
      invariant 0 <= i <= |text|
      invariant Scan(text[i..], State(all, row, cell, quoted)) == Scan(text, START)
      invariant rows == NonBlank(all)
    {
      var ch := text[i];
      if quoted {
        if ch == '"' {
          if i + 1 < |text| && text[i + 1] == '"' {
            cell := cell + "\"";
            i := i + 1;
          } else {
            quoted := false;
          }
        } else {
          cell := cell + [ch];
        }
      } else if ch == '"' {
        quoted := true;
      } else if ch == ',' {
        row, cell := row + [cell], "";
      } else if ch == '\n' || ch == '\r' {
        if ch == '\r' && i + 1 < |text| && text[i + 1] == '\n' { i := i + 1; }
        row, cell := row + [cell], "";
        NonBlankSnoc(all, row);
        all := all + [row];
        if exists c | c in row :: c != "" { rows := rows + [row]; }
        row := [];
      } else {
        cell := cell + [ch];
      }
      i := i + 1;
    }
    NonBlankSnoc(all, row + [cell]);
    row := row + [cell];
    if exists c | c in row :: c != "" { rows := rows + [row]; }
  }

  // ----- RFC 4180 section 2 documents -----

  /** A cell as a writer put it down: its value and whether it chose to enclose it in quotes. */
  datatype Written = Written(text: string, quoted: bool)

  predicate NeedsQuotes(s: string) { exists c | c in s :: c == '"' || c == ',' || LineBreak(c) }

  /** Quotes are optional except around a quote, a comma or a line break. Every record has a field. */
  predicate Legal(doc: seq<seq<Written>>) { forall i | 0 <= i < |doc| :: LegalRow(doc[i]) }

  predicate LegalRow(r: seq<Written>) { r != [] && forall i | 0 <= i < |r| :: NeedsQuotes(r[i].text) ==> r[i].quoted }

  function Escape(s: string): string {
    if s == [] then "" else (if s[0] == '"' then "\"\"" else [s[0]]) + Escape(s[1..])
  }

  function EncodeCell(w: Written): string { if w.quoted then "\"" + Escape(w.text) + "\"" else w.text }

  function EncodeRow(r: seq<Written>): string
    requires r != []
  {
    if |r| == 1 then EncodeCell(r[0]) else EncodeCell(r[0]) + "," + EncodeRow(r[1..])
  }

  /** CRLF, or LF or CR alone. */
  predicate Eol(eol: string) { eol == "\r\n" || eol == "\n" || eol == "\r" }

  /** Records separated by `eol`; `terminated` says whether the last one carries one as well. */
  function Encode(doc: seq<seq<Written>>, eol: string, terminated: bool): string
    requires Legal(doc)
  {
    if doc == [] then ""
    else if |doc| == 1 && !terminated then EncodeRow(doc[0])
    else EncodeRow(doc[0]) + eol + Encode(doc[1..], eol, terminated)
  }

  function Texts(r: seq<Written>): Row { seq(|r|, i requires 0 <= i < |r| => r[i].text) }

  function Values(doc: seq<seq<Written>>): seq<Row> { seq(|doc|, i requires 0 <= i < |doc| => Texts(doc[i])) }

  predicate EndsCell(rest: string) { rest == [] || rest[0] == ',' || LineBreak(rest[0]) }

  lemma {:induction false} ScanEscaped(s: string, rest: string, st: State)
    requires st.quoted && EndsCell(rest)
    ensures Scan(Escape(s) + "\"" + rest, st) == Scan(rest, st.(field := st.field + s, quoted := false))
  {
    var all := Escape(s) + "\"" + rest;
    if s == [] {
      assert all == "\"" + rest;
      assert all[1..] == rest && st.field + s == st.field;
    } else {
      var head := if s[0] == '"' then "\"\"" else [s[0]];
      var tail := Escape(s[1..]) + "\"" + rest;
      assert all == head + tail;
      var st' := st.(field := st.field + [s[0]]);
      assert Scan(all, st) == Scan(tail, st') by { assert all[|head|..] == tail; }
      ScanEscaped(s[1..], rest, st');
      assert st'.field + s[1..] == st.field + s;
    }
  }

  lemma {:induction false} ScanPlain(s: string, rest: string, st: State)
    requires !st.quoted && !NeedsQuotes(s)
    ensures Scan(s + rest, st) == Scan(rest, st.(field := st.field + s))
  {
    if s == [] {
      assert s + rest == rest && st.field + s == st.field;
    } else {
      assert (s + rest)[1..] == s[1..] + rest;
      assert s[0] in s;
      var st' := st.(field := st.field + [s[0]]);
      assert !NeedsQuotes(s[1..]) by { assert forall c | c in s[1..] :: c in s; }
      ScanPlain(s[1..], rest, st');
      assert st'.field + s[1..] == st.field + s;
    }
  }

  lemma ScanCell(w: Written, rest: string, st: State)
    requires !st.quoted && st.field == "" && EndsCell(rest)
    requires NeedsQuotes(w.text) ==> w.quoted
    ensures Scan(EncodeCell(w) + rest, st) == Scan(rest, st.(field := w.text))
  {
    if w.quoted {
      var all := EncodeCell(w) + rest;
      assert all[1..] == Escape(w.text) + "\"" + rest;
      ScanEscaped(w.text, rest, st.(quoted := true));
    } else {
      ScanPlain(w.text, rest, st);
    }
    assert "" + w.text == w.text;
  }

  lemma FirstCell(r: seq<Written>, rest: string, st: State)
    requires !st.quoted && st.field == "" && LegalRow(r) && |r| > 1
    ensures Scan(EncodeRow(r) + rest, st)
         == Scan(EncodeRow(r[1..]) + rest, st.(row := st.row + [r[0].text], field := ""))
  {
    var tail := EncodeRow(r[1..]) + rest;
    var after := "," + tail;
    assert EncodeRow(r) + rest == EncodeCell(r[0]) + after;
    ScanCell(r[0], after, st);
    assert after[1..] == tail;
  }

  /** Everything but the last cell of a record ends in the open row. */
  lemma {:induction false} ScanRow(r: seq<Written>, rest: string, st: State)
    requires !st.quoted && st.field == "" && LegalRow(r) && (rest == [] || LineBreak(rest[0]))
    ensures Scan(EncodeRow(r) + rest, st)
         == Scan(rest, st.(row := st.row + Texts(r[..|r| - 1]), field := r[|r| - 1].text))
  {
    if |r| == 1 {
      ScanCell(r[0], rest, st);
      assert st.row + Texts(r[..0]) == st.row;
    } else {
      var tail := EncodeRow(r[1..]) + rest;
      var st' := st.(row := st.row + [r[0].text], field := "");
      assert Scan(EncodeRow(r) + rest, st) == Scan(tail, st') by { FirstCell(r, rest, st); }
      ScanRow(r[1..], rest, st');
      assert st'.row + Texts(r[1..][..|r| - 2]) == st.row + Texts(r[..|r| - 1]) by { TextsSplit(r); }
      assert |r[1..]| - 1 == |r| - 2 && r[1..][|r| - 2] == r[|r| - 1];
    }
  }

  lemma TextsSplit(r: seq<Written>)
    requires |r| > 1
    ensures Texts(r[..|r| - 1]) == [r[0].text] + Texts(r[1..][..|r| - 2])
  {}

  lemma TextsSnoc(r: seq<Written>)
    requires r != []
    ensures Texts(r[..|r| - 1]) + [r[|r| - 1].text] == Texts(r)
  {}

  lemma ValuesSnoc(doc: seq<seq<Written>>)
    requires doc != []
    ensures Values(doc) == Values(doc[..|doc| - 1]) + [Texts(doc[|doc| - 1])]
  {}

  /** A line feed that followed a carriage return would be taken for a part of its line break. */
  predicate NoLineFeed(eol: string, text: string) { eol == "\r" && text != [] ==> text[0] != '\n' }

  lemma RowStart(r: seq<Written>, rest: string, eol: string)
    requires LegalRow(r) && NoLineFeed(eol, rest)
    ensures NoLineFeed(eol, EncodeRow(r) + rest)
  {
    var cell := EncodeCell(r[0]);
    if cell != [] {
      assert cell[0] != '\n' by { if !r[0].quoted { assert cell[0] in r[0].text; } }
      assert (EncodeRow(r) + rest)[0] == cell[0];
    } else if |r| == 1 {
      assert EncodeRow(r) + rest == rest;
    } else {
      assert (EncodeRow(r) + rest)[0] == ',';
    }
  }

  lemma RecordsStart(doc: seq<seq<Written>>, eol: string, text: string)
    requires Legal(doc) && Eol(eol) && NoLineFeed(eol, text)
    ensures NoLineFeed(eol, Encode(doc, eol, true) + text)
  {
    if doc == [] {
      assert "" + text == text;
    } else {
      var rest := eol + (Encode(doc[1..], eol, true) + text);
      RowStart(doc[0], rest, eol);
      FirstRecord(doc, eol, text);
      assert EncodeRow(doc[0]) + eol + (Encode(doc[1..], eol, true) + text) == EncodeRow(doc[0]) + rest;
    }
  }

  lemma ScanBreak(eol: string, tail: string, rows: seq<Row>, open: Row, field: string)
    requires Eol(eol) && NoLineFeed(eol, tail)
    ensures Scan(eol + tail, State(rows, open, field, false))
         == Scan(tail, State(rows + [open + [field]], [], "", false))
  {
    var rest := eol + tail;
    assert rest[BreakLength(rest)..] == tail;
  }

  lemma ScanRecord(r: seq<Written>, eol: string, tail: string, rows: seq<Row>)
    requires LegalRow(r) && Eol(eol) && NoLineFeed(eol, tail)
    ensures Scan(EncodeRow(r) + eol + tail, State(rows, [], "", false))
         == Scan(tail, State(rows + [Texts(r)], [], "", false))
  {
    var rest := eol + tail;
    assert EncodeRow(r) + eol + tail == EncodeRow(r) + rest;
    ScanRow(r, rest, State(rows, [], "", false));
    assert [] + Texts(r[..|r| - 1]) == Texts(r[..|r| - 1]);
    ScanBreak(eol, tail, rows, Texts(r[..|r| - 1]), r[|r| - 1].text);
    TextsSnoc(r);
  }

  lemma Joined(a: string, b: string, c: string)
    ensures a + (b + c) == a + b + c
  {}

  lemma FrontOfRest<T>(s: seq<T>)
    requires |s| > 1
    ensures s[1..][..|s| - 2] == s[..|s| - 1][1..] && s[1..][|s| - 2] == s[|s| - 1] && s[..|s| - 1][0] == s[0]
  {}

  lemma {:induction false} EncodeSnoc(doc: seq<seq<Written>>, eol: string)
    requires Legal(doc) && doc != []
    ensures Encode(doc, eol, false) == Encode(doc[..|doc| - 1], eol, true) + EncodeRow(doc[|doc| - 1])
    decreases |doc|
  {
    if |doc| > 1 {
      EncodeSnoc(doc[1..], eol);
      FrontOfRest(doc);
      Joined(EncodeRow(doc[0]) + eol, Encode(doc[..|doc| - 1][1..], eol, true), EncodeRow(doc[|doc| - 1]));
    }
  }

  lemma FirstRecord(doc: seq<seq<Written>>, eol: string, text: string)
    requires Legal(doc) && doc != []
    ensures Encode(doc, eol, true) + text == EncodeRow(doc[0]) + eol + (Encode(doc[1..], eol, true) + text)
  {}

  lemma FirstValues(doc: seq<seq<Written>>, rows: seq<Row>)
    requires doc != []
    ensures rows + [Texts(doc[0])] + Values(doc[1..]) == rows + Values(doc)
  {}

  lemma {:induction false} ScanAfterRecords(doc: seq<seq<Written>>, eol: string, text: string, rows: seq<Row>)
    requires Legal(doc) && Eol(eol) && NoLineFeed(eol, text)
    ensures Scan(Encode(doc, eol, true) + text, State(rows, [], "", false))
         == Scan(text, State(rows + Values(doc), [], "", false))
    decreases |doc|
  {
    if doc == [] {
      assert "" + text == text && rows + Values(doc) == rows;
    } else {
      var tail := Encode(doc[1..], eol, true) + text;
      FirstRecord(doc, eol, text);
      RecordsStart(doc[1..], eol, text);
      ScanRecord(doc[0], eol, tail, rows);
      ScanAfterRecords(doc[1..], eol, text, rows + [Texts(doc[0])]);
      FirstValues(doc, rows);
    }
  }

  /** Every legal document whose records all end in the one kind of line break is read back exactly. */
  lemma RoundTrip(doc: seq<seq<Written>>, eol: string)
    requires Legal(doc) && Eol(eol)
    ensures Rows(Encode(doc, eol, true)) == Values(doc)
  {
    assert Encode(doc, eol, true) + "" == Encode(doc, eol, true);
    ScanAfterRecords(doc, eol, "", []);
    assert [] + Values(doc) == Values(doc);
  }

  lemma CloseLast(text: string, front: seq<Row>, open: Row, field: string)
    requires Scan(text, START) == State(front, open, field, false)
    ensures Rows(text) == front + [open + [field]] <==> open + [field] != [""]
  {
    if open == [] && field == "" {
      assert |Rows(text)| != |front + [open + [field]]|;
    } else {
      assert (open + [field])[|open|] == field;
    }
  }

  lemma ScanUnterminated(doc: seq<seq<Written>>, eol: string, last: seq<Written>)
    requires Legal(doc) && Eol(eol) && doc != [] && last == doc[|doc| - 1]
    ensures Scan(Encode(doc, eol, false), START)
         == State(Values(doc[..|doc| - 1]), Texts(last[..|last| - 1]), last[|last| - 1].text, false)
  {
    var front, open := Values(doc[..|doc| - 1]), Texts(last[..|last| - 1]);
    EncodeSnoc(doc, eol);
    assert EncodeRow(last) + "" == EncodeRow(last) && [] + front == front && [] + open == open;
    RowStart(last, "", eol);
    ScanAfterRecords(doc[..|doc| - 1], eol, EncodeRow(last), []);
    ScanRow(last, "", State(front, [], "", false));
  }

  /** Without the final line break the document is read back exactly unless its last record is one empty field. */
  lemma RoundTripUnterminated(doc: seq<seq<Written>>, eol: string)
    requires Legal(doc) && Eol(eol)
    ensures Rows(Encode(doc, eol, false)) == Values(doc) <==> doc == [] || Values(doc)[|doc| - 1] != [""]
  {
    if doc != [] {
      var last := doc[|doc| - 1];
      var front, open, field := Values(doc[..|doc| - 1]), Texts(last[..|last| - 1]), last[|last| - 1].text;
      assert Values(doc) == front + [open + [field]] by { ValuesSnoc(doc); TextsSnoc(last); }
      assert Scan(Encode(doc, eol, false), START) == State(front, open, field, false) by {
        ScanUnterminated(doc, eol, last);
      }
      CloseLast(Encode(doc, eol, false), front, open, field);
    }
  }

  lemma {:induction false} NonBlankFixed(rows: seq<Row>)
    ensures |NonBlank(rows)| <= |rows|
    ensures NonBlank(rows) == rows <==> forall r | r in rows :: !Blank(r)
  {
    if rows != [] {
      var front, last := rows[..|rows| - 1], rows[|rows| - 1];
      NonBlankFixed(front);
      assert rows == front + [last];
      assert forall r | r in rows :: r in front || r == last;
      if NonBlank(rows) == rows {
        assert !Blank(last);
        assert NonBlank(front) == front;
      }
    }
  }

  /** The search client reads a document back exactly when no record of it is blank. */
  lemma FilteredRoundTrip(doc: seq<seq<Written>>, eol: string)
    requires Legal(doc) && Eol(eol)
    ensures NonBlank(Rows(Encode(doc, eol, true))) == Values(doc) <==> forall r | r in Values(doc) :: !Blank(r)
  {
    RoundTrip(doc, eol);
    NonBlankFixed(Values(doc));
  }
}
