/** The results file of the paper drivers and a reader for it after section 2 of RFC 4180, which here also
    takes a bare line feed as a record's end. test-sort/benchmarks/paper_harness.hpp */
module Csv {

  import opened Wrappers

  predicate Special(c: char) {
    c == ',' || c == '"' || c == '\n' || c == '\r'
  }

  predicate Plain(text: string) {
    forall i :: 0 <= i < |text| ==> !Special(text[i])
  }

  // --- the writer ---

  function Escaped(c: char): string {
    if c == '"' then ['"', '"'] else [c]
  }

  /** The first n characters with every quote doubled. */
  function Doubled(text: string, n: nat): string
    requires n <= |text|
  {
    if n == 0 then "" else Doubled(text, n - 1) + Escaped(text[n - 1])
  }

  function Field(text: string): string {
    if Plain(text) then text else "\"" + Doubled(text, |text|) + "\""
  }

  method FindSpecial(text: string) returns (found: bool)
    ensures found == !Plain(text)
  {
    for i := 0 to |text|
      invariant forall j :: 0 <= j < i ==> !Special(text[j])
    {
      if Special(text[i]) {
        return true;
      }
    }
    return false;
  }

  method CsvField(text: string) returns (quoted: string)
    ensures quoted == Field(text)
    ensures quoted == text <==> forall i :: 0 <= i < |text| ==> text[i] !in {',', '"', '\n', '\r'}
    ensures quoted != text ==> |quoted| >= |text| + 2 && quoted[0] == quoted[|quoted| - 1] == '"'
  {
    DoublingLengthens(text, |text|);
    var special := FindSpecial(text);
    if !special {
      return text;
    }
    quoted := "\"";
    for i := 0 to |text|
      invariant quoted == "\"" + Doubled(text, i)
    {
      if text[i] == '"' {
        quoted := quoted + "\"";
      }
      quoted := quoted + [text[i]];
    }
    quoted := quoted + "\"";
  }

  lemma {:induction false} DoublingLengthens(text: string, n: nat)
    requires n <= |text|
    ensures |Doubled(text, n)| >= n
  {
    if n > 0 { DoublingLengthens(text, n - 1); }
  }

  /** The first n pieces with commas between them. */
  function Joined(pieces: seq<string>, n: nat): string
    requires n <= |pieces|
  {
    if n == 0 then "" else if n == 1 then pieces[0] else Joined(pieces, n - 1) + "," + pieces[n - 1]
  }

  function Line(pieces: seq<string>): string {
    Joined(pieces, |pieces|) + "\n"
  }

  /** A line is its pieces with a comma before each but the first and a line feed at the end. */
  lemma {:induction false} LineGrows(pieces: seq<string>, last: string)
    ensures Line([last]) == last + "\n"
    ensures pieces != [] ==>
              |Line(pieces)| > 0 && Line(pieces + [last]) == Line(pieces)[..|Line(pieces)| - 1] + "," + last + "\n"
  {
    JoinedPrefix(pieces, [last], |pieces|);
  }

  lemma {:induction false} JoinedPrefix(pieces: seq<string>, more: seq<string>, n: nat)
    requires n <= |pieces|
    ensures Joined(pieces + more, n) == Joined(pieces, n)
  {
    if n > 1 { JoinedPrefix(pieces, more, n - 1); }
  }

  /** The first n rows, each given as the pieces written for its cells. */
  function Document(rows: seq<seq<string>>, n: nat): string
    requires n <= |rows|
  {
    if n == 0 then "" else Document(rows, n - 1) + Line(rows[n - 1])
  }

  /** Each cell was written through csv_field, or in a way that comes to the same. */
  predicate Encodes(pieces: seq<string>, cells: seq<string>) {
    && |pieces| == |cells| > 0
    && forall i :: 0 <= i < |cells| ==> pieces[i] == Field(cells[i])
  }

  // --- the reader ---

  /** Where in a field the reader stands. Return: after a carriage return that ends a record. */
  datatype Mode = Start | Bare | Quoted | Closing | Return

  datatype Reader = Reader(mode: Mode, field: string, fields: seq<string>, records: seq<seq<string>>) | Malformed

  const FRESH := Reader(Start, "", [], [])

  function EndField(s: Reader): Reader
    requires s.Reader?
  {
    Reader(Start, "", s.fields + [s.field], s.records)
  }

  function EndRecord(s: Reader): Reader
    requires s.Reader?
  {
    Reader(Start, "", [], s.records + [s.fields + [s.field]])
  }

  function Step(s: Reader, c: char): Reader {
    if s.Malformed? then s
    else if s.mode == Quoted then
      if c == '"' then s.(mode := Closing) else s.(field := s.field + [c])
    else if s.mode == Return then
      if c == '\n' then EndRecord(s) else Malformed
    else if c == ',' then EndField(s)
    else if c == '\n' then EndRecord(s)
    else if c == '\r' then s.(mode := Return)
    else if c == '"' then
      match s.mode
      case Start => s.(mode := Quoted)
      case Closing => s.(mode := Quoted, field := s.field + [c])
      case _ => Malformed
    else if s.mode == Closing then Malformed
    else s.(mode := Bare, field := s.field + [c])
  }

  function Read(s: Reader, text: string): Reader {
    if text == [] then s else Step(Read(s, text[..|text| - 1]), text[|text| - 1])
  }

  /** The last record's line break may be missing. */
  function Parse(text: string): Option<seq<seq<string>>> {
    var s := Read(FRESH, text);
    if s.Malformed? || s.mode == Quoted || s.mode == Return then None
    else if s.mode == Start && s.fields == [] then Some(s.records)
    else Some(EndRecord(s).records)
  }

  // --- round trip ---

  lemma {:induction false} ReadConcat(s: Reader, a: string, b: string)
    ensures Read(s, a + b) == Read(Read(s, a), b)
    decreases |b|
  {
    hide Step;
    if b == [] {
      assert a + b == a;
    } else {
      var n := |b| - 1;
      assert (a + b)[..|a| + n] == a + b[..n] && (a + b)[|a| + n] == b[n];
      ReadConcat(s, a, b[..n]);
    }
  }

  lemma {:induction false} ReadOne(s: Reader, c: char)
    ensures Read(s, [c]) == Step(s, c)
  {
    assert [c][..0] == [];
  }

  lemma {:induction false} ReadPlain(s: Reader, text: string)
    requires s.Reader? && s.mode == Start && s.field == "" && Plain(text)
    ensures Read(s, text) == s.(mode := if text == [] then Start else Bare, field := text)
  {
    if text != [] {
      var n := |text| - 1;
      ReadPlain(s, text[..n]);
      assert !Special(text[n]) && text == text[..n] + [text[n]];
    }
  }

  lemma {:induction false} ReadEscaped(s: Reader, c: char)
    requires s.Reader? && s.mode == Quoted
    ensures Read(s, Escaped(c)) == s.(field := s.field + [c])
  {
    if c == '"' {
      assert Escaped(c) == [c] + [c];
      ReadConcat(s, [c], [c]);
      ReadOne(s.(mode := Closing), c);
    }
    ReadOne(s, c);
  }

  lemma {:induction false} ReadDoubled(s: Reader, text: string, n: nat)
    requires s.Reader? && s.mode == Quoted && s.field == "" && n <= |text|
    ensures Read(s, Doubled(text, n)) == s.(field := text[..n])
  {
    hide Step;
    hide Escaped;
    if n > 0 {
      ReadDoubled(s, text, n - 1);
      ReadConcat(s, Doubled(text, n - 1), Escaped(text[n - 1]));
      ReadEscaped(s.(field := text[..n - 1]), text[n - 1]);
      assert text[..n] == text[..n - 1] + [text[n - 1]];
    }
  }

  /** The reader has the field's text and stands where a comma or a line break ends it. */
  predicate HasField(r: Reader, s: Reader, text: string)
    requires s.Reader?
  {
    && r.Reader? && r.field == text && r.fields == s.fields && r.records == s.records
    && (r.mode == Start || r.mode == Bare || r.mode == Closing)
  }

  lemma {:induction false} ReadField(s: Reader, text: string)
    requires s.Reader? && s.mode == Start && s.field == ""
    ensures HasField(Read(s, Field(text)), s, text)
  {
    if Plain(text) {
      ReadPlain(s, text);
    } else {
      var body := Doubled(text, |text|);
      assert Field(text) == ("\"" + body) + "\"";
      ReadConcat(s, "\"" + body, "\"");
      ReadConcat(s, "\"", body);
      ReadOne(s, '"');
      ReadDoubled(s.(mode := Quoted), text, |text|);
      assert text[..|text|] == text;
      ReadOne(s.(mode := Quoted, field := text), '"');
    }
  }

  lemma {:induction false} AppendField(s: Reader, before: string, done: seq<string>, last: string, cell: string)
    requires s.Reader? && s.mode == Start && s.field == ""
    requires HasField(Read(s, before), s.(fields := done), last)
    ensures HasField(Read(s, before + "," + Field(cell)), s.(fields := done + [last]), cell)
  {
    var r := Read(s, before);
    ReadConcat(s, before + ",", Field(cell));
    ReadConcat(s, before, ",");
    ReadOne(r, ',');
    ReadField(EndField(r), cell);
  }

  lemma {:induction false} ReadJoined(s: Reader, pieces: seq<string>, cells: seq<string>, n: nat)
    requires s.Reader? && s.mode == Start && s.field == "" && s.fields == []
    requires Encodes(pieces, cells) && n < |cells|
    ensures HasField(Read(s, Joined(pieces, n + 1)), s.(fields := cells[..n]), cells[n])
  {
    hide Step;
    hide Field;
    if n == 0 {
      ReadField(s, cells[0]);
      assert cells[..0] == [];
    } else {
      ReadJoined(s, pieces, cells, n - 1);
      AppendField(s, Joined(pieces, n), cells[..n - 1], cells[n - 1], cells[n]);
      assert cells[..n - 1] + [cells[n - 1]] == cells[..n];
    }
  }

  lemma {:induction false} EndsLine(s: Reader, body: string, done: seq<string>, last: string)
    requires s.Reader? && HasField(Read(s, body), s.(fields := done), last)
    ensures Read(s, body + "\n") == Reader(Start, "", [], s.records + [done + [last]])
  {
    ReadConcat(s, body, "\n");
    ReadOne(Read(s, body), '\n');
  }

  lemma {:induction false} ReadLine(s: Reader, pieces: seq<string>, cells: seq<string>)
    requires s.Reader? && s.mode == Start && s.field == "" && s.fields == []
    requires Encodes(pieces, cells)
    ensures Read(s, Line(pieces)) == s.(records := s.records + [cells])
  {
    var n := |cells| - 1;
    hide Field;
    var body := Joined(pieces, n + 1);
    ReadJoined(s, pieces, cells, n);
    EndsLine(s, body, cells[..n], cells[n]);
    assert cells[..n] + [cells[n]] == cells;
  }

  lemma {:induction false} ReadDocument(rows: seq<seq<string>>, records: seq<seq<string>>, n: nat)
    requires n <= |rows| == |records|
    requires forall i :: 0 <= i < |rows| ==> Encodes(rows[i], records[i])
    ensures Read(FRESH, Document(rows, n)) == FRESH.(records := records[..n])
  {
    hide Field;
    hide Line;
    hide Read;
    if n == 0 {
      ReadNothing(FRESH);
    } else {
      var before := Document(rows, n - 1);
      ReadDocument(rows, records, n - 1);
      ReadConcat(FRESH, before, Line(rows[n - 1]));
      ReadLine(FRESH.(records := records[..n - 1]), rows[n - 1], records[n - 1]);
      assert records[..n - 1] + [records[n - 1]] == records[..n];
    }
  }

  lemma {:induction false} ReadNothing(s: Reader)
    ensures Read(s, "") == s
  {
  }

  /** Any records of any strings read back as written. */
  lemma {:induction false} DocumentRoundTrip(rows: seq<seq<string>>, records: seq<seq<string>>)
    requires |rows| == |records| && forall i :: 0 <= i < |rows| ==> Encodes(rows[i], records[i])
    ensures Parse(Document(rows, |rows|)) == Some(records)
  {
    ReadDocument(rows, records, |rows|);
    assert records[..|rows|] == records;
  }

  // --- the writer quotes no more than it must ---

  /** Writing a text as it stands and reading it back. */
  predicate BareRoundTrips(text: string) {
    Parse(text + "\n") == Some([[text]])
  }

  /** The first field of the first record, finished or not. */
  function First(s: Reader): string
    requires s.Reader?
  {
    if s.records != [] then
      if s.records[0] == [] then "" else s.records[0][0]
    else if s.fields != [] then s.fields[0]
    else s.field
  }

  predicate InFirst(s: Reader)
    requires s.Reader?
  {
    s.records == [] && s.fields == []
  }

  /** What holds after reading a text: the first field is the text, or once a special character has been
      read it is shorter, and by two within quotes that have closed. */
  predicate FirstIsShort(s: Reader, text: string) {
    s.Reader? ==>
      if Plain(text) then InFirst(s) && s.field == text && (s.mode == Start || s.mode == Bare)
      else
        && |First(s)| < |text|
        && (InFirst(s) ==> s.mode == Quoted || s.mode == Return || (s.mode == Closing && |s.field| + 2 <= |text|))
  }

  lemma {:induction false} StepKeepsFirstShort(s: Reader, text: string, c: char)
    requires FirstIsShort(s, text)
    ensures FirstIsShort(Step(s, c), text + [c])
  {
    assert (text + [c])[|text|] == c && (text + [c])[..|text|] == text;
    assert Plain(text + [c]) <==> Plain(text) && !Special(c);
  }

  lemma {:induction false} FirstStaysShort(text: string)
    ensures FirstIsShort(Read(FRESH, text), text)
  {
    if text != [] {
      var n := |text| - 1;
      FirstStaysShort(text[..n]);
      StepKeepsFirstShort(Read(FRESH, text[..n]), text[..n], text[n]);
      assert text == text[..n] + [text[n]];
    }
  }

  lemma {:induction false} BareRoundTripsIff(text: string)
    ensures BareRoundTrips(text) <==> Plain(text)
  {
    var line := text + "\n";
    assert line[..|text|] == text;
    var s := Read(FRESH, text);
    assert Read(FRESH, line) == Step(s, '\n');
    FirstStaysShort(text);
    if Plain(text) {
      ReadPlain(FRESH, text);
      assert [] + [text] == [text];
      assert EndRecord(s).records == [] + [[] + [text]] == [[text]];
      assert Parse(line) == Some([[text]]);
    } else if Parse(line).Some? {
      assert |First(Step(s, '\n'))| < |text|;
    }
  }
}
