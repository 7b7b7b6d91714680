/** Printing report rows as CSV, and a parser that undoes it: the grammar of section 2 of
    RFC 4180 with LF for CRLF, where any character but a quote, a comma or a line feed is
    text, and a line feed separates records. */
module ComplianceCsv {
  import opened Wrappers

  /** A row's own keys in order, and its values; None is null or undefined. */
  datatype Row = Row(keys: seq<string>, values: map<string, Option<string>>)

  // ---- Printing -------------------------------------------------------------------------

  predicate IsSpecial(c: char) { c == '"' || c == ',' || c == '\n' }

  predicate Plain(text: string) { forall i :: 0 <= i < |text| ==> !IsSpecial(text[i]) }

  function Doubled(text: string): string {
    if text == "" then "" else (if text[0] == '"' then "\"\"" else [text[0]]) + Doubled(text[1..])
  }

  function Escape(text: string): string {
    if Plain(text) then text else "\"" + Doubled(text) + "\""
  }

  function Join(parts: seq<string>, sep: string): string {
    if parts == [] then ""
    else if |parts| == 1 then parts[0]
    else parts[0] + sep + Join(parts[1..], sep)
  }

  /** The text of a cell: nothing for null, undefined, or a key the row lacks. */
  function Cell(row: Row, header: string): string {
    if header in row.values && row.values[header].Some? then row.values[header].value else ""
  }

  function Texts(row: Row, headers: seq<string>): seq<string> {
    seq(|headers|, i requires 0 <= i < |headers| => Cell(row, headers[i]))
  }

  function Escaped(texts: seq<string>): seq<string> {
    seq(|texts|, i requires 0 <= i < |texts| => Escape(texts[i]))
  }

  function ToCsv(rows: seq<Row>): string {
    if rows == [] then ""
    else
      var headers := rows[0].keys;
      var lines := seq(|rows|, i requires 0 <= i < |rows| => Join(Escaped(Texts(rows[i], headers)), ","));
      Join([Join(headers, ",")] + lines, "\n")
  }

  // ---- Parsing --------------------------------------------------------------------------

  datatype Parsed<T> = Parsed(value: T, rest: string)

  predicate AtSeparator(rest: string) { rest == "" || rest[0] == ',' || rest[0] == '\n' }

  /** The rest of a quoted field, after its opening quote. */
  function ParseQuoted(s: string): Option<Parsed<string>> {
    if s == "" then None
    else if s[0] != '"' then Prepend(s[0], ParseQuoted(s[1..]))
    else if |s| > 1 && s[1] == '"' then Prepend('"', ParseQuoted(s[2..]))
    else Some(Parsed("", s[1..]))
  }

  function Prepend(c: char, p: Option<Parsed<string>>): Option<Parsed<string>> {
    if p.None? then None else Some(Parsed([c] + p.value.value, p.value.rest))
  }

  function ParsePlain(s: string): (p: Parsed<string>)
    ensures |p.rest| <= |s|
  {
    if s == "" || IsSpecial(s[0]) then Parsed("", s)
    else var p := ParsePlain(s[1..]); Parsed([s[0]] + p.value, p.rest)
  }

  function ParseField(s: string): Option<Parsed<string>> {
    var p := if s != "" && s[0] == '"' then ParseQuoted(s[1..]) else Some(ParsePlain(s));
    if p.Some? && AtSeparator(p.value.rest) then p else None
  }

  lemma {:induction false} QuotedConsumes(s: string)
    ensures var p := ParseQuoted(s); p.Some? ==> |p.value.rest| + |Doubled(p.value.value)| + 1 == |s|
  {
    if s != "" && ParseQuoted(s).Some? {
      if s[0] != '"' {
        QuotedConsumes(s[1..]);
        DoubledPrepend(s[0], ParseQuoted(s[1..]).value.value);
      } else if |s| > 1 && s[1] == '"' {
        QuotedConsumes(s[2..]);
        DoubledPrepend('"', ParseQuoted(s[2..]).value.value);
      }
    }
  }

  lemma DoubledPrepend(c: char, text: string)
    ensures Doubled([c] + text) == (if c == '"' then "\"\"" else [c]) + Doubled(text)
  {
    assert ([c] + text)[1..] == text;
  }

  function ParseRecord(s: string): (r: Option<Parsed<seq<string>>>)
    ensures r.Some? ==> |r.value.rest| <= |s| && (r.value.rest == "" || r.value.rest[0] == '\n')
    decreases |s|
  {
    FieldConsumes(s);
    var f := ParseField(s);
    if f.None? then None
    else if f.value.rest == "" || f.value.rest[0] == '\n' then Some(Parsed([f.value.value], f.value.rest))
    else
      var more := ParseRecord(f.value.rest[1..]);
      if more.None? then None else Some(Parsed([f.value.value] + more.value.value, more.value.rest))
  }

  function ParseFile(s: string): Option<seq<seq<string>>>
    decreases |s|
  {
    var r := ParseRecord(s);
    if r.None? then None
    else if r.value.rest == "" then Some([r.value.value])
    else
      var more := ParseFile(r.value.rest[1..]);
      if more.None? then None else Some([r.value.value] + more.value)
  }

  // ---- Parsing what was printed ------------------------------------------------------------

  lemma {:induction false} QuotedBack(text: string, rest: string)
    requires AtSeparator(rest)
    ensures ParseQuoted(Doubled(text) + "\"" + rest) == Some(Parsed(text, rest))
  {
    var s := Doubled(text) + "\"" + rest;
    if text == "" {
      assert s == "\"" + rest && s[1..] == rest;
    } else {
      QuotedBack(text[1..], rest);
      var tail := Doubled(text[1..]) + "\"" + rest;
      if text[0] == '"' {
        assert s == "\"\"" + tail && s[2..] == tail;
      } else {
        assert s == [text[0]] + tail && s[1..] == tail;
      }
      assert [text[0]] + text[1..] == text;
    }
  }

  lemma {:induction false} PlainBack(text: string, rest: string)
    requires Plain(text) && AtSeparator(rest)
    ensures ParsePlain(text + rest) == Parsed(text, rest)
  {
    if text == "" {
      assert text + rest == rest;
    } else {
      PlainBack(text[1..], rest);
      assert (text + rest)[1..] == text[1..] + rest;
      assert [text[0]] + text[1..] == text;
    }
  }

  lemma QuotedSplits(text: string, rest: string)
    ensures var s := "\"" + Doubled(text) + "\"" + rest; s[0] == '"' && s[1..] == Doubled(text) + "\"" + rest
  {}

  lemma FieldBack(text: string, rest: string)
    requires AtSeparator(rest)
    ensures ParseField(Escape(text) + rest) == Some(Parsed(text, rest))
  {
    if !Plain(text) {
      QuotedBack(text, rest);
      QuotedSplits(text, rest);
    } else if text == "" {
      PlainBack(text, rest);
      assert text + rest == rest;
    } else {
      PlainBack(text, rest);
      assert (text + rest)[0] == text[0];
    }
  }

  function PrintRecord(texts: seq<string>): string { Join(Escaped(texts), ",") }

  function Printed(records: seq<seq<string>>): seq<string> {
    seq(|records|, i requires 0 <= i < |records| => PrintRecord(records[i]))
  }

  function PrintFile(records: seq<seq<string>>): string { Join(Printed(records), "\n") }

  lemma PrintRecordSplits(texts: seq<string>)
    requires |texts| > 1
    ensures PrintRecord(texts) == Escape(texts[0]) + "," + PrintRecord(texts[1..])
  {
    assert Escaped(texts)[1..] == Escaped(texts[1..]);
  }

  lemma PrintFileSplits(records: seq<seq<string>>)
    requires |records| > 1
    ensures PrintFile(records) == PrintRecord(records[0]) + "\n" + PrintFile(records[1..])
  {
    assert Printed(records)[1..] == Printed(records[1..]);
  }

  lemma RecordSplits(texts: seq<string>, rest: string)
    requires |texts| > 1
    ensures PrintRecord(texts) + rest == Escape(texts[0]) + ("," + (PrintRecord(texts[1..]) + rest))
  {
    PrintRecordSplits(texts);
    Reassociate(Escape(texts[0]), ",", PrintRecord(texts[1..]), rest);
  }

  lemma Reassociate(a: string, b: string, c: string, d: string)
    ensures a + b + c + d == a + (b + (c + d))
  {}

  lemma FirstFieldBack(text: string, texts: seq<string>, tail: string, rest: string)
    requires ParseRecord(tail) == Some(Parsed(texts, rest))
    ensures ParseRecord(Escape(text) + ("," + tail)) == Some(Parsed([text] + texts, rest))
  {
    FieldBack(text, "," + tail);
    assert ("," + tail)[0] == ',' && ("," + tail)[1..] == tail;
  }

  lemma {:induction false} RecordBack(texts: seq<string>, rest: string)
    requires texts != [] && (rest == "" || rest[0] == '\n')
    ensures ParseRecord(PrintRecord(texts) + rest) == Some(Parsed(texts, rest))
  {
    if |texts| == 1 {
      FieldBack(texts[0], rest);
      assert texts == [texts[0]];
    } else {
      RecordBack(texts[1..], rest);
      RecordSplits(texts, rest);
      FirstFieldBack(texts[0], texts[1..], PrintRecord(texts[1..]) + rest, rest);
      assert [texts[0]] + texts[1..] == texts;
    }
  }

  lemma FirstRecordBack(texts: seq<string>, records: seq<seq<string>>, tail: string)
    requires texts != [] && ParseFile(tail) == Some(records)
    ensures ParseFile(PrintRecord(texts) + "\n" + tail) == Some([texts] + records)
  {
    RecordBack(texts, "\n" + tail);
    assert PrintRecord(texts) + "\n" + tail == PrintRecord(texts) + ("\n" + tail);
    assert ("\n" + tail)[1..] == tail;
  }

  lemma {:induction false} FileBack(records: seq<seq<string>>)
    requires records != [] && forall i :: 0 <= i < |records| ==> records[i] != []
    ensures ParseFile(PrintFile(records)) == Some(records)
  {
    if |records| == 1 {
      RecordBack(records[0], "");
      assert PrintRecord(records[0]) + "" == PrintRecord(records[0]);
      assert [records[0]] == records;
    } else {
      FileBack(records[1..]);
      PrintFileSplits(records);
      FirstRecordBack(records[0], records[1..], PrintFile(records[1..]));
      assert [records[0]] + records[1..] == records;
    }
  }

  // ---- No shorter text parses to the same -----------------------------------------------------

  lemma {:induction false} PlainConsumes(s: string)
    ensures var p := ParsePlain(s); |p.rest| + |p.value| == |s| && Plain(p.value)
  {
    if s != "" && !IsSpecial(s[0]) { PlainConsumes(s[1..]); }
  }

  lemma {:induction false} DoubledLength(text: string)
    ensures |Doubled(text)| >= |text|
  {
    if text != "" { DoubledLength(text[1..]); }
  }

  lemma FieldConsumes(s: string)
    ensures var p := ParseField(s); p.Some? ==> |p.value.rest| + |Escape(p.value.value)| <= |s|
  {
    if ParseField(s).Some? {
      if s != "" && s[0] == '"' {
        QuotedConsumes(s[1..]);
        DoubledLength(ParseQuoted(s[1..]).value.value);
      } else {
        PlainConsumes(s);
      }
    }
  }

  lemma {:induction false} RecordConsumes(s: string)
    ensures var r := ParseRecord(s);
            r.Some? ==> r.value.value != [] && |r.value.rest| + |PrintRecord(r.value.value)| <= |s|
    decreases |s|
  {
    FieldConsumes(s);
    var f, r := ParseField(s), ParseRecord(s);
    if r.Some? && |r.value.value| > 1 {
      RecordConsumes(f.value.rest[1..]);
      assert r.value.value[1..] == ParseRecord(f.value.rest[1..]).value.value;
      PrintRecordSplits(r.value.value);
    }
  }

  lemma {:induction false} FileConsumes(s: string)
    ensures var r := ParseFile(s); r.Some? ==> r.value != [] && |PrintFile(r.value)| <= |s|
    decreases |s|
  {
    RecordConsumes(s);
    var r, all := ParseRecord(s), ParseFile(s);
    if all.Some? && |all.value| > 1 {
      FileConsumes(r.value.rest[1..]);
      assert all.value[1..] == ParseFile(r.value.rest[1..]).value;
      PrintFileSplits(all.value);
    }
  }

  lemma {:induction false} EscapingLengthens(texts: seq<string>)
    ensures |PrintRecord(texts)| >= |Join(texts, ",")|
    ensures (forall i :: 0 <= i < |texts| ==> Plain(texts[i])) <==> |PrintRecord(texts)| == |Join(texts, ",")|
    ensures (forall i :: 0 <= i < |texts| ==> Plain(texts[i])) ==> PrintRecord(texts) == Join(texts, ",")
  {
    if texts != [] {
      DoubledLength(texts[0]);
      EscapingLengthens(texts[1..]);
      if |texts| > 1 { PrintRecordSplits(texts); }
    }
  }

  // ---- The report ------------------------------------------------------------------------------

  /** The header row and the field texts, null read as empty. */
  function Expected(rows: seq<Row>): seq<seq<string>>
    requires rows != []
  {
    [rows[0].keys] + seq(|rows|, i requires 0 <= i < |rows| => Texts(rows[i], rows[0].keys))
  }

  /** So what comes back is, under each header, the row's own value, and nothing where the row has
      none or null. */
  lemma FieldsAreTheValues(rows: seq<Row>, i: nat, j: nat)
    requires rows != [] && i < |rows| && j < |rows[0].keys|
    ensures var records, row, key := Expected(rows), rows[i], rows[0].keys[j];
            && |records| == |rows| + 1 && records[0] == rows[0].keys && |records[i + 1]| == |rows[0].keys|
            && (key in row.values && row.values[key].Some? ==> records[i + 1][j] == row.values[key].value)
            && (key !in row.values || row.values[key].None? ==> records[i + 1][j] == "")
  {}

  lemma JoinLengths(first: string, other: string, rest: seq<string>)
    ensures |Join([first] + rest, "\n")| - |first| == |Join([other] + rest, "\n")| - |other|
  {
    assert ([first] + rest)[1..] == rest && ([other] + rest)[1..] == rest;
  }

  /** The file parses back to its header row and its field texts, whatever the fields hold,
      exactly when no header needs escaping, for headers are written as they are. */
  lemma RoundTripIff(rows: seq<Row>)
    requires rows != [] && rows[0].keys != []
    ensures ParseFile(ToCsv(rows)) == Some(Expected(rows)) <==> forall h :: h in rows[0].keys ==> Plain(h)
  {
    var headers, records := rows[0].keys, Expected(rows);
    var lines := seq(|rows|, i requires 0 <= i < |rows| => Join(Escaped(Texts(rows[i], headers)), ","));
    assert Printed(records) == [PrintRecord(headers)] + lines;
    assert ToCsv(rows) == Join([Join(headers, ",")] + lines, "\n");
    EscapingLengthens(headers);
    JoinLengths(PrintRecord(headers), Join(headers, ","), lines);
    FileBack(records);
    FileConsumes(ToCsv(rows));
    if forall i :: 0 <= i < |headers| ==> Plain(headers[i]) {
      assert ToCsv(rows) == PrintFile(records);
    } else {
      var i :| 0 <= i < |headers| && !Plain(headers[i]);
      assert headers[i] in headers;
    }
  }

  // ---- With an optional final line break ---------------------------------------------------------

  /** The other reading that RFC 4180 allows: a line break at the very end starts no record. */
  function ParseWithFinalBreak(s: string): Option<seq<seq<string>>>
    decreases |s|
  {
    var r := ParseRecord(s);
    if r.None? then None
    else if r.value.rest == "" || r.value.rest == "\n" then Some([r.value.value])
    else
      var more := ParseWithFinalBreak(r.value.rest[1..]);
      if more.None? then None else Some([r.value.value] + more.value)
  }

  lemma {:induction false} FinalBreakConsumes(s: string)
    ensures var r := ParseWithFinalBreak(s); r.Some? ==> r.value != [] && |PrintFile(r.value)| <= |s|
    decreases |s|
  {
    RecordConsumes(s);
    var r, all := ParseRecord(s), ParseWithFinalBreak(s);
    if all.Some? && |all.value| > 1 {
      FinalBreakConsumes(r.value.rest[1..]);
      assert all.value[1..] == ParseWithFinalBreak(r.value.rest[1..]).value;
      PrintFileSplits(all.value);
    }
  }

  /** Only an empty last record looks like a final line break. */
  predicate LooksEnded(records: seq<seq<string>>) {
    |records| > 1 && records[|records| - 1] == [""]
  }

  lemma {:induction false} RecordIsEmptyIff(texts: seq<string>)
    requires texts != []
    ensures PrintRecord(texts) == "" <==> texts == [""]
  {
    if |texts| > 1 { PrintRecordSplits(texts); }
  }

  lemma FileIsEmptyIff(records: seq<seq<string>>)
    requires records != [] && forall i :: 0 <= i < |records| ==> records[i] != []
    ensures PrintFile(records) == "" <==> records == [[""]]
  {
    RecordIsEmptyIff(records[0]);
    if |records| > 1 { PrintFileSplits(records); }
    if records[0] == [""] && |records| == 1 { assert records == [[""]]; }
  }

  lemma RecordThenMore(texts: seq<string>, tail: string)
    requires texts != []
    ensures var s := PrintRecord(texts) + "\n" + tail;
            ParseWithFinalBreak(s) ==
              if tail == "" then Some([texts])
              else if ParseWithFinalBreak(tail).None? then None
              else Some([texts] + ParseWithFinalBreak(tail).value)
  {
    RecordBack(texts, "\n" + tail);
    assert PrintRecord(texts) + "\n" + tail == PrintRecord(texts) + ("\n" + tail);
    assert ("\n" + tail)[1..] == tail;
  }

  /** Printed records read this way are the records, less an empty last one. */
  lemma {:induction false} FinalBreakBack(records: seq<seq<string>>)
    requires records != [] && forall i :: 0 <= i < |records| ==> records[i] != []
    ensures ParseWithFinalBreak(PrintFile(records)) ==
              Some(if LooksEnded(records) then records[..|records| - 1] else records)
  {
    if |records| == 1 {
      RecordBack(records[0], "");
      assert PrintRecord(records[0]) + "" == PrintRecord(records[0]);
      assert [records[0]] == records;
    } else {
      var rest := records[1..];
      PrintFileSplits(records);
      RecordThenMore(records[0], PrintFile(rest));
      FileIsEmptyIff(rest);
      assert [records[0]] + rest == records;
      if PrintFile(rest) == "" {
        assert records[..|records| - 1] == [records[0]];
      } else {
        FinalBreakBack(rest);
        assert [records[0]] + rest[..|rest| - 1] == records[..|records| - 1];
      }
    }
  }

  /** Through a parser that takes a line break at the end for no record, the report comes back
      exactly when no header needs escaping and it is not a single column whose last field is
      empty; that one comes back without its last row. */
  lemma RoundTripWithFinalBreakIff(rows: seq<Row>)
    requires rows != [] && rows[0].keys != []
    ensures var headers := rows[0].keys; var parsed := ParseWithFinalBreak(ToCsv(rows));
            var plain := forall h :: h in headers ==> Plain(h);
            var lost := |headers| == 1 && Cell(rows[|rows| - 1], headers[0]) == "";
            && (parsed == Some(Expected(rows)) <==> plain && !lost)
            && (plain && lost ==> parsed == Some(Expected(rows)[..|rows|]))
  {
    var headers, records := rows[0].keys, Expected(rows);
    var lines := seq(|rows|, i requires 0 <= i < |rows| => Join(Escaped(Texts(rows[i], headers)), ","));
    assert Printed(records) == [PrintRecord(headers)] + lines;
    assert ToCsv(rows) == Join([Join(headers, ",")] + lines, "\n");
    EscapingLengthens(headers);
    JoinLengths(PrintRecord(headers), Join(headers, ","), lines);
    FinalBreakBack(records);
    FinalBreakConsumes(ToCsv(rows));
    LooksEndedIff(rows);
    if forall i :: 0 <= i < |headers| ==> Plain(headers[i]) {
      assert ToCsv(rows) == PrintFile(records);
    } else {
      var i :| 0 <= i < |headers| && !Plain(headers[i]);
      assert headers[i] in headers;
    }
  }

  lemma LooksEndedIff(rows: seq<Row>)
    requires rows != [] && rows[0].keys != []
    ensures LooksEnded(Expected(rows)) <==>
              |rows[0].keys| == 1 && Cell(rows[|rows| - 1], rows[0].keys[0]) == ""
  {
    var last := Expected(rows)[|rows|];
    assert last == Texts(rows[|rows| - 1], rows[0].keys);
    if |rows[0].keys| == 1 { assert last == [last[0]]; }
  }

  // ---- A first row without keys --------------------------------------------------------------------

  function Blank(n: nat): seq<seq<string>> { seq(n, _ => [""]) }

  lemma {:induction false} BlankLinesJoin(parts: seq<string>)
    requires parts != [] && forall i :: 0 <= i < |parts| ==> parts[i] == ""
    ensures Join(parts, "\n") == seq(|parts| - 1, _ => '\n')
  {
    if |parts| > 1 {
      BlankLinesJoin(parts[1..]);
      assert "\n" + seq(|parts| - 2, _ => '\n') == seq(|parts| - 1, _ => '\n');
      assert parts[0] + "\n" == "\n";
    }
  }

  /** Then every line is empty: as many line feeds are printed as there are rows, the fields are
      lost, and what parses back is a record of one empty field for the header and each row. */
  lemma WithoutKeysPrintsBlankLines(rows: seq<Row>)
    requires rows != [] && rows[0].keys == []
    ensures ToCsv(rows) == seq(|rows|, _ => '\n')
    ensures ParseFile(ToCsv(rows)) == Some(Blank(|rows| + 1)) != Some(Expected(rows))
    ensures ParseWithFinalBreak(ToCsv(rows)) == Some(Blank(|rows|)) != Some(Expected(rows))
  {
    var lines := seq(|rows|, i requires 0 <= i < |rows| => Join(Escaped(Texts(rows[i], [])), ","));
    var parts, blank := [Join([], ",")] + lines, Blank(|rows| + 1);
    assert ToCsv(rows) == Join(parts, "\n");
    BlankLinesJoin(parts);
    assert PrintRecord([""]) == "";
    assert Printed(blank) == parts;
    FileBack(blank);
    FinalBreakBack(blank);
    assert blank[..|rows|] == Blank(|rows|);
    assert Expected(rows)[0] == [] && blank[0] == [""] && Blank(|rows|)[0] == [""];
  }
}
