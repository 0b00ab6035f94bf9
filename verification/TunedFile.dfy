/** The file of tuned configurations as a whole: its lines, its keys and the lookup by cell.
    test-sort/benchmarks/tuned_config.hpp */
module TunedFile {

  import opened Text
  import opened TunedConfig
  import opened Wrappers

  type Configs = map<string, Config>

  // --- the reader ---

  function ReadLine(configs: Configs, line: string): Result<Configs> {
    if line == "" || line[0] == '#' then Ok(configs) else
      var tab := Find(line, '\t');
      if tab == |line| then Ok(configs)
      else match ReadFields(DEFAULTS.(fromFile := true), line[tab + 1..])
        case Ok(config) => Ok(if line[..tab] in configs then configs else configs[line[..tab] := config])
        case InvalidArgument => InvalidArgument
        case OutOfRange => OutOfRange
  }

  function ReadLines(configs: Configs, text: string): Result<Configs>
    decreases |text|
  {
    if text == "" then Ok(configs) else
      var n := Find(text, '\n');
      match ReadLine(configs, text[..n])
      case Ok(next) => ReadLines(next, if n < |text| then text[n + 1..] else "")
      case InvalidArgument => InvalidArgument
      case OutOfRange => OutOfRange
  }

  /** Comments, empty lines and lines without a tab are passed over. */
  lemma {:induction false} SkippedLines(configs: Configs, text: string)
    ensures ReadLine(configs, "") == ReadLine(configs, "#" + text) == Ok(configs)
    ensures '\t' !in text ==> ReadLine(configs, text) == Ok(configs)
  {
    if '\t' !in text { FindNothing(text, '\t'); }
  }

  /** A key that has its configuration keeps it, whatever the rest of the text holds. */
  lemma {:induction false} EarlierLinesWin(configs: Configs, text: string)
    requires ReadLines(configs, text).Ok?
    ensures forall key :: key in configs ==>
              key in ReadLines(configs, text).value && ReadLines(configs, text).value[key] == configs[key]
    decreases |text|
  {
    hide DEFAULTS;
    hide ReadFields;
    if text != "" {
      var n := Find(text, '\n');
      EarlierLinesWin(ReadLine(configs, text[..n]).value, if n < |text| then text[n + 1..] else "");
    }
  }

  /** None is a file that cannot be opened. */
  function Read(file: Option<string>): Result<Configs> {
    match file
    case None => Ok(map[])
    case Some(text) => ReadLines(map[], text)
  }

  method ParseLine(configs: Configs, line: string) returns (r: Result<Configs>)
    ensures r == ReadLine(configs, line)
  {
    hide ReadFields;
    if line == "" || line[0] == '#' {
      return Ok(configs);
    }
    var tab := Find(line, '\t');
    if tab == |line| {
      return Ok(configs);
    }
    var key := line[..tab];
    var config := ParseFields(DEFAULTS.(fromFile := true), line[tab + 1..]);
    match config {
      case InvalidArgument => return InvalidArgument;
      case OutOfRange => return OutOfRange;
      case Ok(c) => return Ok(if key in configs then configs else configs[key := c]);
    }
  }

  method ReadTuned(file: Option<string>) returns (r: Result<Configs>)
    ensures r == Read(file)
  {
    hide ReadLine;
    var configs: Configs := map[];
    if file.None? {
      return Ok(configs);
    }
    var rest := file.value;
    while rest != ""
      invariant ReadLines(configs, rest) == Read(file)
      decreases |rest|
    {
      var n := Find(rest, '\n');
      var read := ParseLine(configs, rest[..n]);
      if !read.Ok? {
        return read;
      }
      configs, rest := read.value, if n < |rest| then rest[n + 1..] else "";
    }
    return Ok(configs);
  }

  // --- what a file can hold ---

  predicate KeyFits(key: string) {
    '\t' !in key && '\n' !in key && (key == "" || key[0] != '#')
  }

  predicate Fits(configs: Configs) {
    forall key :: key in configs ==> KeyFits(key) && Coherent(configs[key])
  }

  predicate FromFile(configs: Configs) {
    forall key :: key in configs ==> configs[key].fromFile
  }

  lemma {:induction false} FieldsKeepCoherent(c: Config, text: string)
    requires Coherent(c) && ReadFields(c, text).Ok?
    ensures Coherent(ReadFields(c, text).value) && ReadFields(c, text).value.fromFile == c.fromFile
    decreases |text|
  {
    hide Set;
    hide KnobNamed;
    if text != "" {
      if IsSpace(text[0]) {
        FieldsKeepCoherent(c, text[1..]);
      } else {
        var n := WordLength(text);
        var field := text[..n];
        var equals := Find(field, '=');
        if equals < n && KnobNamed(field[..equals]).Some? {
          SetKeepsCoherent(c, KnobNamed(field[..equals]).value, field[equals + 1..]);
        }
        FieldsKeepCoherent(ReadField(c, field).value, text[n..]);
      }
    }
  }

  lemma {:induction false} LineKeepsFits(configs: Configs, line: string)
    requires Fits(configs) && FromFile(configs) && '\n' !in line && ReadLine(configs, line).Ok?
    ensures Fits(ReadLine(configs, line).value) && FromFile(ReadLine(configs, line).value)
  {
    hide ReadFields;
    var tab := Find(line, '\t');
    if line != "" && line[0] != '#' && tab < |line| {
      FieldsKeepCoherent(DEFAULTS.(fromFile := true), line[tab + 1..]);
      assert KeyFits(line[..tab]);
    }
  }

  /** Whatever text is read, only fitting keys and coherent configurations come out of it. */
  lemma {:induction false} OnlyWhatFitsIsRead(configs: Configs, text: string)
    requires Fits(configs) && FromFile(configs) && ReadLines(configs, text).Ok?
    ensures Fits(ReadLines(configs, text).value) && FromFile(ReadLines(configs, text).value)
    decreases |text|
  {
    hide ReadLine;
    hide Fits;
    hide FromFile;
    if text != "" {
      var n := Find(text, '\n');
      LineKeepsFits(configs, text[..n]);
      OnlyWhatFitsIsRead(ReadLine(configs, text[..n]).value, if n < |text| then text[n + 1..] else "");
    }
  }

  // --- the writer ---

  const NOTE := "#" + " written by bench_q0_tune;" + " read by the reporting drivers"
  const LEGEND := "#" + " key: algorithm|style|width|element_bytes"

  function ConfigLine(key: string, c: Config): string {
    key + "\t" + FieldsText(c, 0)
  }

  predicate Enumerates(order: seq<string>, configs: Configs) {
    && (forall i :: 0 <= i < |order| ==> order[i] in configs)
    && (forall key :: key in configs ==> key in order)
    && (forall i, j :: 0 <= i < j < |order| ==> order[i] != order[j])
  }

  /** The lines from the i-th key on. */
  function LinesFrom(configs: Configs, order: seq<string>, i: nat): string
    requires i <= |order| && forall j :: 0 <= j < |order| ==> order[j] in configs
    decreases |order| - i
  {
    if i == |order| then ""
    else ConfigLine(order[i], configs[order[i]]) + "\n" + LinesFrom(configs, order, i + 1)
  }

  function FileText(configs: Configs, order: seq<string>): string
    requires Enumerates(order, configs)
  {
    NOTE + "\n" + (LEGEND + "\n" + LinesFrom(configs, order, 0))
  }

  /** order is the map's iteration order. */
  method WriteTuned(configs: Configs, order: seq<string>) returns (text: string)
    requires Enumerates(order, configs)
    ensures text == FileText(configs, order)
  {
    hide ConfigLine;
    text := NOTE + "\n" + LEGEND + "\n";
    for i := 0 to |order|
      invariant text + LinesFrom(configs, order, i) == FileText(configs, order)
    {
      var line := ConfigLine(order[i], configs[order[i]]) + "\n";
      assert text + (line + LinesFrom(configs, order, i + 1)) == text + line + LinesFrom(configs, order, i + 1);
      text := text + line;
    }
  }

  // --- round trip ---

  function Marked(configs: Configs): Configs {
    map key | key in configs :: configs[key].(fromFile := true)
  }

  /** The map after the first i keys. */
  function Loaded(configs: Configs, order: seq<string>, i: nat): Configs
    requires i <= |order| && forall j :: 0 <= j < |order| ==> order[j] in configs
  {
    if i == 0 then map[]
    else Loaded(configs, order, i - 1)[order[i - 1] := configs[order[i - 1]].(fromFile := true)]
  }

  lemma {:induction false} LoadedKeys(configs: Configs, order: seq<string>, i: nat)
    requires i <= |order| && forall j :: 0 <= j < |order| ==> order[j] in configs
    ensures forall key :: key in Loaded(configs, order, i) <==> key in order[..i]
    ensures forall key :: key in order[..i] ==> Loaded(configs, order, i)[key] == configs[key].(fromFile := true)
  {
    if i > 0 {
      LoadedKeys(configs, order, i - 1);
      assert order[..i] == order[..i - 1] + [order[i - 1]];
    }
  }

  lemma {:induction false} SplitLine(configs: Configs, line: string, rest: string)
    requires '\n' !in line && ReadLine(configs, line).Ok?
    ensures ReadLines(configs, line + "\n" + rest) == ReadLines(ReadLine(configs, line).value, rest)
  {
    hide ReadLine;
    var text := line + ['\n'] + rest;
    FindInSplit(line, '\n', rest);
    assert text[..|line|] == line && text[|line| + 1..] == rest;
  }

  lemma {:induction false} FieldsHaveNoBreak(c: Config, i: nat)
    requires i < |KNOBS|
    ensures '\n' !in FieldsText(c, i)
    decreases |KNOBS| - i
  {
    hide Token;
    var token := Token(KNOBS[i], c);
    TokenIsWord(KNOBS[i], c);
    assert forall j :: 0 <= j < |token| ==> !IsSpace(token[j]);
    assert '\n' !in token;
    if i < |KNOBS| - 1 {
      FieldsHaveNoBreak(c, i + 1);
    }
  }

  lemma {:induction false} ReadKeyed(configs: Configs, key: string, fields: string, c: Config)
    requires KeyFits(key) && key !in configs && ReadFields(DEFAULTS.(fromFile := true), fields) == Ok(c)
    ensures ReadLine(configs, key + "\t" + fields) == Ok(configs[key := c])
  {
    hide ReadFields;
    var line := key + ['\t'] + fields;
    FindInSplit(key, '\t', fields);
    assert line[..|key|] == key && line[|key| + 1..] == fields;
    assert line[0] == if key == "" then '\t' else key[0];
  }

  lemma {:induction false} ReadConfigLine(configs: Configs, key: string, c: Config)
    requires KeyFits(key) && Coherent(c) && key !in configs
    ensures ReadLine(configs, ConfigLine(key, c)) == Ok(configs[key := c.(fromFile := true)])
    ensures '\n' !in ConfigLine(key, c)
  {
    hide ReadFields;
    hide FieldsText;
    hide WithAll;
    hide ReadLine;
    var start := DEFAULTS.(fromFile := true);
    FieldsHaveNoBreak(c, 0);
    ReadAll(start, c, 0);
    WithAllIsCopy(start, c);
    ReadKeyed(configs, key, FieldsText(c, 0), c.(fromFile := true));
  }

  lemma {:induction false} ReadLoaded(configs: Configs, order: seq<string>, i: nat)
    requires Enumerates(order, configs) && Fits(configs) && i <= |order|
    ensures ReadLines(Loaded(configs, order, i), LinesFrom(configs, order, i)) == Ok(Loaded(configs, order, |order|))
    decreases |order| - i
  {
    hide ReadLine;
    hide ConfigLine;
    var now := Loaded(configs, order, i);
    if i < |order| {
      var key := order[i];
      LoadedKeys(configs, order, i);
      ReadConfigLine(now, key, configs[key]);
      SplitLine(now, ConfigLine(key, configs[key]), LinesFrom(configs, order, i + 1));
      ReadLoaded(configs, order, i + 1);
    }
  }

  lemma {:induction false} NoteIsSkipped(configs: Configs)
    ensures '\n' !in NOTE && ReadLine(configs, NOTE) == Ok(configs)
  {
    assert NOTE[0] == '#';
  }

  lemma {:induction false} LegendIsSkipped(configs: Configs)
    ensures '\n' !in LEGEND && ReadLine(configs, LEGEND) == Ok(configs)
  {
    assert LEGEND[0] == '#';
  }

  lemma {:induction false} TwoLinesAreSkipped(configs: Configs, first: string, second: string, body: string)
    requires '\n' !in first && ReadLine(configs, first) == Ok(configs)
    requires '\n' !in second && ReadLine(configs, second) == Ok(configs)
    ensures ReadLines(configs, first + "\n" + (second + "\n" + body)) == ReadLines(configs, body)
  {
    hide ReadLine;
    hide ReadLines;
    SplitLine(configs, first, second + "\n" + body);
    SplitLine(configs, second, body);
  }

  lemma {:induction false} LoadedIsMarked(configs: Configs, order: seq<string>)
    requires Enumerates(order, configs)
    ensures Loaded(configs, order, |order|) == Marked(configs)
  {
    LoadedKeys(configs, order, |order|);
    assert order[..|order|] == order;
  }

  lemma {:induction false} FittingRoundTrips(configs: Configs, order: seq<string>)
    requires Enumerates(order, configs) && Fits(configs)
    ensures Read(Some(FileText(configs, order))) == Ok(Marked(configs))
  {
    hide ReadLine;
    hide ReadLines;
    hide LinesFrom;
    NoteIsSkipped(map[]);
    LegendIsSkipped(map[]);
    TwoLinesAreSkipped(map[], NOTE, LEGEND, LinesFrom(configs, order, 0));
    ReadLoaded(configs, order, 0);
    LoadedIsMarked(configs, order);
  }

  lemma {:induction false} MarkedFitsToo(configs: Configs)
    requires Fits(Marked(configs))
    ensures Fits(configs)
  {
    forall key | key in configs ensures KeyFits(key) && Coherent(configs[key]) {
      assert key in Marked(configs);
    }
  }

  /** Reading undoes writing, whatever the iteration order, exactly for the maps that fit: no key holds a tab
      or a line break or begins with a number sign, and hybrid leaves are over networks. */
  lemma {:induction false} RoundTripIff(configs: Configs, order: seq<string>)
    requires Enumerates(order, configs)
    ensures Read(Some(FileText(configs, order))) == Ok(Marked(configs)) <==> Fits(configs)
  {
    hide FileText;
    hide ReadLines;
    if Fits(configs) {
      FittingRoundTrips(configs, order);
    } else if Read(Some(FileText(configs, order))) == Ok(Marked(configs)) {
      OnlyWhatFitsIsRead(map[], FileText(configs, order));
      MarkedFitsToo(configs);
    }
  }

  // --- cells ---

  datatype Style = Intrinsics | ClangBuiltin | ClangBoolMask

  datatype Cell = Cell(algorithm: string, style: Style, width: Size, elementBytes: Size)

  function StyleName(style: Style): string {
    match style
    case Intrinsics => "intr"
    case ClangBuiltin => "clang"
    case ClangBoolMask => "clang_bool"
  }

  function TunedKey(c: Cell): string {
    c.algorithm + "|" + StyleName(c.style) + "|" + Decimal(c.width) + "|" + Decimal(c.elementBytes)
  }

  /** The key as text. */
  lemma {:induction false} KeyInFull(algorithm: string, width: Size, elementBytes: Size)
    ensures var end := "|" + Decimal(width) + "|" + Decimal(elementBytes);
            && TunedKey(Cell(algorithm, Intrinsics, width, elementBytes)) == algorithm + "|intr" + end
            && TunedKey(Cell(algorithm, ClangBuiltin, width, elementBytes)) == algorithm + "|clang" + end
            && TunedKey(Cell(algorithm, ClangBoolMask, width, elementBytes)) == algorithm + "|clang_bool" + end
  {
    hide Decimal;
    KeyWithStyle(Cell(algorithm, Intrinsics, width, elementBytes), "|intr");
    KeyWithStyle(Cell(algorithm, ClangBuiltin, width, elementBytes), "|clang");
    KeyWithStyle(Cell(algorithm, ClangBoolMask, width, elementBytes), "|clang_bool");
  }

  lemma {:induction false} KeyWithStyle(c: Cell, style: string)
    requires style == "|" + StyleName(c.style)
    ensures TunedKey(c) == c.algorithm + style + ("|" + Decimal(c.width) + "|" + Decimal(c.elementBytes))
  {
    hide Decimal;
    hide StyleName;
    var w, e := Decimal(c.width), Decimal(c.elementBytes);
    assert c.algorithm + style == c.algorithm + "|" + StyleName(c.style);
    assert TunedKey(c) == c.algorithm + style + "|" + w + "|" + e;
  }

  lemma {:induction false} NoBarInNumbers(n: nat)
    ensures '|' !in Decimal(n)
  {
    var d := Decimal(n);
    forall i | 0 <= i < |d| ensures d[i] != '|' {
      assert IsDigit(d[i]);
    }
  }

  lemma {:induction false} NoBarInStyles(style: Style)
    ensures '|' !in StyleName(style)
  {
  }

  lemma {:induction false} StylesDiffer(style: Style, other: Style)
    requires StyleName(style) == StyleName(other)
    ensures style == other
  {
    assert |StyleName(style)| == |StyleName(other)|;
  }

  /** Bars in the algorithm's name do no harm: the last three fields have none. */
  lemma {:induction false} KeyIsInjective(c: Cell, d: Cell)
    requires TunedKey(c) == TunedKey(d)
    ensures c == d
  {
    var cStyle, dStyle := c.algorithm + "|" + StyleName(c.style), d.algorithm + "|" + StyleName(d.style);
    var cWidth, dWidth := cStyle + "|" + Decimal(c.width), dStyle + "|" + Decimal(d.width);
    NoBarInNumbers(c.elementBytes);
    NoBarInNumbers(d.elementBytes);
    LastSplitsAgree(cWidth, Decimal(c.elementBytes), dWidth, Decimal(d.elementBytes), '|');
    NoBarInNumbers(c.width);
    NoBarInNumbers(d.width);
    LastSplitsAgree(cStyle, Decimal(c.width), dStyle, Decimal(d.width), '|');
    NoBarInStyles(c.style);
    NoBarInStyles(d.style);
    LastSplitsAgree(c.algorithm, StyleName(c.style), d.algorithm, StyleName(d.style), '|');
    StylesDiffer(c.style, d.style);
    NumberOfDecimal(c.width);
    NumberOfDecimal(d.width);
    NumberOfDecimal(c.elementBytes);
    NumberOfDecimal(d.elementBytes);
  }

  lemma {:induction false} KeyFitsWhenNameDoes(c: Cell)
    requires KeyFits(c.algorithm)
    ensures KeyFits(TunedKey(c))
  {
    var w, e := Decimal(c.width), Decimal(c.elementBytes);
    assert AllDigits(w) && AllDigits(e);
    hide Decimal;
    assert '\t' !in StyleName(c.style) && '\n' !in StyleName(c.style);
    hide StyleName;
    assert forall i :: 0 <= i < |w| ==> IsDigit(w[i]);
    assert forall i :: 0 <= i < |e| ==> IsDigit(e[i]);
  }

  /** The configuration read for a cell, or the defaults. */
  function TunedFor(configs: Configs, c: Cell): Config {
    if TunedKey(c) in configs then configs[TunedKey(c)] else DEFAULTS
  }

  /** A driver without a tuned file runs every cell with these. */
  lemma {:induction false} WithoutFile(c: Cell)
    ensures Read(None).Ok?
    ensures TunedFor(Read(None).value, c)
         == Config(16, Adaptive, NetworkBase, 256, 50, ByteIds, OutOfPlace, ThreeWay, NetworkLeaf, false,
                   PostSort, 16384, false)
  {
  }

  /** The map the tuner writes for its cells. */
  function ByKey(table: map<Cell, Config>): Configs {
    KeysDiffer(table);
    map c | c in table :: TunedKey(c) := table[c]
  }

  lemma {:induction false} KeysDiffer(table: map<Cell, Config>)
    ensures forall c, d :: c in table && d in table && TunedKey(c) == TunedKey(d) ==> c == d
  {
    hide TunedKey;
    forall c, d | c in table && d in table && TunedKey(c) == TunedKey(d) ensures c == d {
      KeyIsInjective(c, d);
    }
  }

  /** After the tuner has written its cells and a driver read them, every cell finds its own configuration and
      no other cell finds any. */
  lemma {:induction false} EveryCellFindsItsOwn(table: map<Cell, Config>, order: seq<string>, c: Cell)
    requires forall d :: d in table ==> KeyFits(d.algorithm) && Coherent(table[d])
    requires Enumerates(order, ByKey(table))
    ensures var read := Read(Some(FileText(ByKey(table), order)));
            && read.Ok?
            && TunedFor(read.value, c) == if c in table then table[c].(fromFile := true) else DEFAULTS
  {
    hide TunedKey;
    hide KeyFits;
    hide Coherent;
    hide Enumerates;
    hide Read;
    hide FileText;
    var configs := ByKey(table);
    forall d | d in table ensures KeyFits(TunedKey(d)) {
      KeyFitsWhenNameDoes(d);
    }
    assert Fits(configs);
    FittingRoundTrips(configs, order);
    forall d | d in table && TunedKey(d) == TunedKey(c) ensures d == c {
      KeyIsInjective(d, c);
    }
    assert TunedKey(c) in configs <==> c in table;
  }
}
