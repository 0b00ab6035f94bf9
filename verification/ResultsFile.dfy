/** The layout of the results file: which of its 26 columns are quoted, and that each reads back under its own
    heading. test-sort/benchmarks/paper_harness.hpp, TslPaperResults::write_csv */
module ResultsFile {

  import opened Csv
  import opened Text
  import opened Wrappers

  /** What the output stream prints for a floating-point number: digits, signs, a point, letters. */
  type Printed = s: string | Plain(s)

  datatype Row = Row(question: string, binary: string, shape: string, shapeParams: string,
                     rows: nat, columns: nat, elementBytes: nat,
                     algorithm: string, variant: string, detector: string, workers: nat, repetitions: nat,
                     median: Printed, p25: Printed, p75: Printed,
                     materialize: Printed, sort: Printed, detect: Printed,
                     verified: bool, dropReason: string)

  datatype Machine = Machine(host: string, governor: string, clock: Printed, compiler: string,
                             load: Printed, allowedCpus: nat)

  // The columns in file order, in the groups the writer sends them in: for each group the names, what a row
  // writes for them and the values meant.

  const SHAPE_NAMES := ["question", "binary", "shape", "shape_params"]
  const SIZE_NAMES := ["rows", "columns", "element_bytes"]
  const SORTER_NAMES := ["algorithm", "variant", "detector", "workers", "repetitions"]
  const TIME_NAMES := ["ns_per_element_median", "ns_per_element_p25", "ns_per_element_p75",
                       "ns_materialize", "ns_sort", "ns_detect"]
  const OUTCOME_NAMES := ["verified", "drop_reason"]
  const MACHINE_NAMES := ["host", "governor", "clock_mhz", "compiler", "start_load", "pinned_cpus"]

  const NAMES := SHAPE_NAMES + SIZE_NAMES + SORTER_NAMES + TIME_NAMES + OUTCOME_NAMES + MACHINE_NAMES

  function ShapePieces(r: Row): seq<string> {
    [Field(r.question), Field(r.binary), Field(r.shape), Field(r.shapeParams)]
  }

  function ShapeCells(r: Row): seq<string> {
    [r.question, r.binary, r.shape, r.shapeParams]
  }

  function SizeCells(r: Row): seq<string> {
    [Decimal(r.rows), Decimal(r.columns), Decimal(r.elementBytes)]
  }

  function SorterPieces(r: Row): seq<string> {
    [Field(r.algorithm), Field(r.variant), Field(r.detector), Decimal(r.workers), Decimal(r.repetitions)]
  }

  function SorterCells(r: Row): seq<string> {
    [r.algorithm, r.variant, r.detector, Decimal(r.workers), Decimal(r.repetitions)]
  }

  function TimeCells(r: Row): seq<string> {
    [r.median, r.p25, r.p75, r.materialize, r.sort, r.detect]
  }

  function Flag(b: bool): string {
    Decimal(if b then 1 else 0)
  }

  function OutcomePieces(r: Row): seq<string> {
    [Flag(r.verified), Field(r.dropReason)]
  }

  function OutcomeCells(r: Row): seq<string> {
    [Flag(r.verified), r.dropReason]
  }

  function MachinePieces(m: Machine): seq<string> {
    [Field(m.host), Field(m.governor), m.clock, Field(m.compiler), m.load, Decimal(m.allowedCpus)]
  }

  function MachineCells(m: Machine): seq<string> {
    [m.host, m.governor, m.clock, m.compiler, m.load, Decimal(m.allowedCpus)]
  }

  function Pieces(r: Row, m: Machine): seq<string> {
    ShapePieces(r) + SizeCells(r) + SorterPieces(r) + TimeCells(r) + OutcomePieces(r) + MachinePieces(m)
  }

  /** The values that belong under the names. */
  function Cells(r: Row, m: Machine): seq<string> {
    ShapeCells(r) + SizeCells(r) + SorterCells(r) + TimeCells(r) + OutcomeCells(r) + MachineCells(m)
  }

  // --- every row and the heading are written as their cells ---

  lemma {:induction false} DigitsArePlain(n: nat)
    ensures Field(Decimal(n)) == Decimal(n)
  {
    var d := Decimal(n);
    forall i | 0 <= i < |d| ensures !Special(d[i]) {
      assert IsDigit(d[i]);
    }
  }

  lemma {:induction false} PlainEncodes(cells: seq<string>)
    requires cells != [] && forall i :: 0 <= i < |cells| ==> Plain(cells[i])
    ensures Encodes(cells, cells)
  {
  }

  lemma {:induction false} GroupsEncode(p0: seq<string>, p1: seq<string>, p2: seq<string>, p3: seq<string>,
                                        p4: seq<string>, p5: seq<string>, c0: seq<string>, c1: seq<string>,
                                        c2: seq<string>, c3: seq<string>, c4: seq<string>, c5: seq<string>)
    requires Encodes(p0, c0) && Encodes(p1, c1) && Encodes(p2, c2)
    requires Encodes(p3, c3) && Encodes(p4, c4) && Encodes(p5, c5)
    ensures Encodes(p0 + p1 + p2 + p3 + p4 + p5, c0 + c1 + c2 + c3 + c4 + c5)
  {
    hide Field;
  }

  lemma {:induction false} ShapeEncodes(r: Row)
    ensures Encodes(ShapePieces(r), ShapeCells(r))
  {
    hide Field;
  }

  lemma {:induction false} SizeEncodes(r: Row)
    ensures Encodes(SizeCells(r), SizeCells(r))
  {
    hide Field;
    DigitsArePlain(r.rows);
    DigitsArePlain(r.columns);
    DigitsArePlain(r.elementBytes);
  }

  lemma {:induction false} SorterEncodes(r: Row)
    ensures Encodes(SorterPieces(r), SorterCells(r))
  {
    hide Field;
    DigitsArePlain(r.workers);
    DigitsArePlain(r.repetitions);
  }

  lemma {:induction false} OutcomeEncodes(r: Row)
    ensures Encodes(OutcomePieces(r), OutcomeCells(r))
  {
    hide Field;
    DigitsArePlain(if r.verified then 1 else 0);
  }

  lemma {:induction false} MachineEncodes(m: Machine)
    ensures Encodes(MachinePieces(m), MachineCells(m))
  {
    DigitsArePlain(m.allowedCpus);
  }

  lemma {:induction false} RowEncodes(r: Row, m: Machine)
    ensures Encodes(Pieces(r, m), Cells(r, m))
  {
    ShapeEncodes(r);
    SizeEncodes(r);
    SorterEncodes(r);
    PlainEncodes(TimeCells(r));
    OutcomeEncodes(r);
    MachineEncodes(m);
    GroupsEncode(ShapePieces(r), SizeCells(r), SorterPieces(r), TimeCells(r), OutcomePieces(r), MachinePieces(m),
                 ShapeCells(r), SizeCells(r), SorterCells(r), TimeCells(r), OutcomeCells(r), MachineCells(m));
  }

  lemma {:induction false} FirstNamesArePlain()
    ensures Encodes(SHAPE_NAMES, SHAPE_NAMES) && Encodes(SIZE_NAMES, SIZE_NAMES) && Encodes(SORTER_NAMES, SORTER_NAMES)
  {
    PlainEncodes(SHAPE_NAMES);
    PlainEncodes(SIZE_NAMES);
    PlainEncodes(SORTER_NAMES);
  }

  lemma {:induction false} LastNamesArePlain()
    ensures Encodes(TIME_NAMES, TIME_NAMES) && Encodes(OUTCOME_NAMES, OUTCOME_NAMES)
    ensures Encodes(MACHINE_NAMES, MACHINE_NAMES)
  {
    PlainEncodes(TIME_NAMES);
    PlainEncodes(OUTCOME_NAMES);
    PlainEncodes(MACHINE_NAMES);
  }

  lemma {:induction false} NamesEncode()
    ensures Encodes(NAMES, NAMES)
  {
    FirstNamesArePlain();
    LastNamesArePlain();
    GroupsEncode(SHAPE_NAMES, SIZE_NAMES, SORTER_NAMES, TIME_NAMES, OUTCOME_NAMES, MACHINE_NAMES,
                 SHAPE_NAMES, SIZE_NAMES, SORTER_NAMES, TIME_NAMES, OUTCOME_NAMES, MACHINE_NAMES);
  }

  // --- each value under its own name ---

  /** The value that belongs under a heading, by its name. */
  function ValueNamed(r: Row, m: Machine, name: string): string {
    if name == "question" then r.question
    else if name == "binary" then r.binary
    else if name == "shape" then r.shape
    else if name == "shape_params" then r.shapeParams
    else if name == "rows" then Decimal(r.rows)
    else if name == "columns" then Decimal(r.columns)
    else if name == "element_bytes" then Decimal(r.elementBytes)
    else if name == "algorithm" then r.algorithm
    else if name == "variant" then r.variant
    else if name == "detector" then r.detector
    else if name == "workers" then Decimal(r.workers)
    else if name == "repetitions" then Decimal(r.repetitions)
    else if name == "ns_per_element_median" then r.median
    else if name == "ns_per_element_p25" then r.p25
    else if name == "ns_per_element_p75" then r.p75
    else if name == "ns_materialize" then r.materialize
    else if name == "ns_sort" then r.sort
    else if name == "ns_detect" then r.detect
    else if name == "verified" then if r.verified then "1" else "0"
    else if name == "drop_reason" then r.dropReason
    else if name == "host" then m.host
    else if name == "governor" then m.governor
    else if name == "clock_mhz" then m.clock
    else if name == "compiler" then m.compiler
    else if name == "start_load" then m.load
    else if name == "pinned_cpus" then Decimal(m.allowedCpus)
    else ""
  }

  /** Each cell is the value its name asks for. */
  ghost predicate Stands(names: seq<string>, cells: seq<string>, r: Row, m: Machine) {
    |names| == |cells| && forall j :: 0 <= j < |names| ==> cells[j] == ValueNamed(r, m, names[j])
  }

  lemma {:induction false} ShapeStands(r: Row, m: Machine)
    ensures Stands(SHAPE_NAMES, ShapeCells(r), r, m)
  {
    hide Decimal;
  }

  lemma {:induction false} SizeStands(r: Row, m: Machine)
    ensures Stands(SIZE_NAMES, SizeCells(r), r, m)
  {
    hide Decimal;
  }

  lemma {:induction false} SorterStands(r: Row, m: Machine)
    ensures Stands(SORTER_NAMES, SorterCells(r), r, m)
  {
    hide Decimal;
  }

  lemma {:induction false} TimeStands(r: Row, m: Machine)
    ensures Stands(TIME_NAMES, TimeCells(r), r, m)
  {
    hide Decimal;
  }

  lemma {:induction false} FlagIsOneOrZero(b: bool)
    ensures Flag(b) == if b then "1" else "0"
  {
  }

  lemma {:induction false} OutcomeStands(r: Row, m: Machine)
    ensures Stands(OUTCOME_NAMES, OutcomeCells(r), r, m)
  {
    hide Decimal;
    FlagIsOneOrZero(r.verified);
  }

  lemma {:induction false} MachineStands(r: Row, m: Machine)
    ensures Stands(MACHINE_NAMES, MachineCells(m), r, m)
  {
    hide Decimal;
  }

  lemma {:induction false} BothStand(n0: seq<string>, n1: seq<string>, c0: seq<string>, c1: seq<string>, r: Row,
      m: Machine)
    requires Stands(n0, c0, r, m) && Stands(n1, c1, r, m)
    ensures Stands(n0 + n1, c0 + c1, r, m)
  {
    hide ValueNamed;
  }

  /** The row's cells are the values the 26 names ask for, in order. */
  lemma {:induction false} CellsAreNamed(r: Row, m: Machine)
    ensures Stands(NAMES, Cells(r, m), r, m)
  {
    hide Stands;
    ShapeStands(r, m);
    SizeStands(r, m);
    SorterStands(r, m);
    TimeStands(r, m);
    OutcomeStands(r, m);
    MachineStands(r, m);
    var n1, c1 := SHAPE_NAMES + SIZE_NAMES, ShapeCells(r) + SizeCells(r);
    BothStand(SHAPE_NAMES, SIZE_NAMES, ShapeCells(r), SizeCells(r), r, m);
    BothStand(n1, SORTER_NAMES, c1, SorterCells(r), r, m);
    var n2, c2 := n1 + SORTER_NAMES, c1 + SorterCells(r);
    BothStand(n2, TIME_NAMES, c2, TimeCells(r), r, m);
    var n3, c3 := n2 + TIME_NAMES, c2 + TimeCells(r);
    BothStand(n3, OUTCOME_NAMES, c3, OutcomeCells(r), r, m);
    BothStand(n3 + OUTCOME_NAMES, MACHINE_NAMES, c3 + OutcomeCells(r), MachineCells(m), r, m);
  }

  lemma {:induction false} NamesInOrder()
    ensures NAMES == ["question", "binary", "shape", "shape_params", "rows", "columns", "element_bytes",
              "algorithm", "variant", "detector", "workers", "repetitions",
              "ns_per_element_median", "ns_per_element_p25", "ns_per_element_p75",
              "ns_materialize", "ns_sort", "ns_detect", "verified", "drop_reason",
              "host", "governor", "clock_mhz", "compiler", "start_load", "pinned_cpus"]
  {
  }

  // --- the file ---

  function Written(rows: seq<Row>, m: Machine): (w: seq<seq<string>>)
    ensures |w| == |rows| + 1 && w[0] == NAMES
    ensures forall i {:trigger w[i]} :: 0 < i < |w| ==> w[i] == Pieces(rows[i - 1], m)
  {
    hide Pieces;
    if rows == [] then [NAMES] else Written(rows[..|rows| - 1], m) + [Pieces(rows[|rows| - 1], m)]
  }

  function Meant(rows: seq<Row>, m: Machine): (w: seq<seq<string>>)
    ensures |w| == |rows| + 1 && w[0] == NAMES
    ensures forall i {:trigger w[i]} :: 0 < i < |w| ==> w[i] == Cells(rows[i - 1], m)
  {
    hide Cells;
    if rows == [] then [NAMES] else Meant(rows[..|rows| - 1], m) + [Cells(rows[|rows| - 1], m)]
  }

  lemma {:induction false} FileReadsBack(rows: seq<Row>, m: Machine)
    ensures Parse(Document(Written(rows, m), |rows| + 1)) == Some(Meant(rows, m))
  {
    hide *;
    var w, c := Written(rows, m), Meant(rows, m);
    forall i | 0 <= i < |w| ensures Encodes(w[i], c[i]) {
      if i == 0 {
        NamesEncode();
      } else {
        RowEncodes(rows[i - 1], m);
      }
    }
    DocumentRoundTrip(w, c);
  }

  lemma {:induction false} MeantByName(rows: seq<Row>, m: Machine)
    ensures forall i :: 1 <= i <= |rows| ==> Stands(NAMES, Meant(rows, m)[i], rows[i - 1], m)
  {
    hide Stands;
    hide Cells;
    hide NAMES;
    forall i | 1 <= i <= |rows|
      ensures Stands(NAMES, Meant(rows, m)[i], rows[i - 1], m)
    {
      CellsAreNamed(rows[i - 1], m);
    }
  }

  /** Whatever the text fields hold, the file reads back as the heading and, for every row in order, each
      value in the column it was meant for. */
  method WriteCsv(rows: seq<Row>, m: Machine) returns (csv: string)
    ensures Parse(csv) == Some(Meant(rows, m))
    ensures var table := Parse(csv).value;
            && |table| == |rows| + 1
            && table[0] == ["question", "binary", "shape", "shape_params", "rows", "columns", "element_bytes",
                           "algorithm", "variant", "detector", "workers", "repetitions",
                           "ns_per_element_median", "ns_per_element_p25", "ns_per_element_p75",
                           "ns_materialize", "ns_sort", "ns_detect", "verified", "drop_reason",
                           "host", "governor", "clock_mhz", "compiler", "start_load", "pinned_cpus"]
            && forall i, j :: 1 <= i < |table| && 0 <= j < |table[0]| ==>
                 |table[i]| == 26 && table[i][j] == ValueNamed(rows[i - 1], m, table[0][j])
  {
    hide Line;
    hide Pieces;
    hide Parse;
    hide ValueNamed;
    hide NAMES;
    ghost var w := Written(rows, m);
    csv := Line(NAMES);
    assert csv == "" + Line(w[0]);
    for i := 0 to |rows|
      invariant csv == Document(w, i + 1)
    {
      csv := csv + Line(Pieces(rows[i], m));
    }
    FileReadsBack(rows, m);
    MeantByName(rows, m);
    NamesInOrder();
  }
}
