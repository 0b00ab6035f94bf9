/** The tuned configurations, written by one driver and read by the others.
    test-sort/benchmarks/tuned_config.hpp; style names from cosort_plan.hpp */
module TunedConfig {

  import opened Text
  import opened Wrappers

  /** The last two are the exceptions of std::stoi and std::stoul. */
  datatype Result<T> = Ok(value: T) | InvalidArgument | OutOfRange

  const INT_LIMIT := 0x8000_0000
  const SIZE_LIMIT := 0x1_0000_0000_0000_0000

  type Int = x: int | -INT_LIMIT <= x < INT_LIMIT
  type Size = x: nat | x < SIZE_LIMIT

  datatype Buckets = Adaptive | Ordered
  datatype Base = NetworkBase | InsertionBase
  datatype Ids = ByteIds | KeyWidth
  datatype Movement = InPlace | OutOfPlace
  datatype Partition = TwoWay | ThreeWay
  datatype Leaf = NetworkLeaf | InsertionLeaf
  datatype Discovery = PostSort | Incremental

  datatype Config = Config(k: Int, buckets: Buckets, basePolicy: Base, baseCase: Size, fillPercent: Size, ids: Ids,
                           movement: Movement, partition: Partition, leaf: Leaf, hybridLeaf: bool,
                           discovery: Discovery, partitionThreshold: Size, fromFile: bool)

  const DEFAULTS := Config(16, Adaptive, NetworkBase, 256, 50, ByteIds, OutOfPlace, ThreeWay, NetworkLeaf, false,
                           PostSort, 16384, false)

  // --- numbers ---

  function SignedDecimal(n: int): string {
    if n < 0 then "-" + Decimal(-n) else Decimal(n)
  }

  predicate Signed(s: string) {
    s != "" && (s[0] == '-' || s[0] == '+')
  }

  /** The digits after an optional sign, up to the first other character. */
  function Magnitude(s: string): Option<nat> {
    var body := if Signed(s) then s[1..] else s;
    var n := DigitsPrefix(body);
    if n == 0 then None else Some(Number(body[..n]))
  }

  function Stoi(s: string): Result<Int> {
    match Magnitude(s)
    case None => InvalidArgument
    case Some(m) =>
      var v := if s[0] == '-' then 0 - m as int else m as int;
      if -INT_LIMIT <= v < INT_LIMIT then Ok(v) else OutOfRange
  }

  /** A minus sign negates modulo the word size. */
  function Stoul(s: string): Result<Size> {
    match Magnitude(s)
    case None => InvalidArgument
    case Some(m) =>
      if m >= SIZE_LIMIT then OutOfRange
      else Ok(if s[0] == '-' && m > 0 then SIZE_LIMIT - m else m)
  }

  lemma {:induction false} MagnitudeOfDigits(n: nat)
    ensures Magnitude(Decimal(n)) == Some(n) && !Signed(Decimal(n))
    ensures Magnitude("-" + Decimal(n)) == Some(n)
  {
    var d := Decimal(n);
    assert IsDigit(d[0]) && ("-" + d)[1..] == d && d[..|d|] == d;
    AllOfItIsPrefix(d);
    NumberOfDecimal(n);
  }

  lemma {:induction false} StoiUndoesPrinting(k: Int)
    ensures Stoi(SignedDecimal(k)) == Ok(k)
  {
    var m := if k < 0 then 0 - k as int else k as int;
    MagnitudeOfDigits(m);
    assert IsDigit(Decimal(m)[0]);
    assert ("-" + Decimal(m))[0] == '-';
  }

  lemma {:induction false} StoulUndoesPrinting(n: Size)
    ensures Stoul(Decimal(n)) == Ok(n)
  {
    MagnitudeOfDigits(n);
    assert IsDigit(Decimal(n)[0]);
  }

  lemma {:induction false} MagnitudeStops(m: nat, rest: string)
    requires rest == "" || !IsDigit(rest[0])
    ensures Magnitude(Decimal(m) + rest) == Some(m)
    ensures Magnitude("-" + Decimal(m) + rest) == Some(m) == Magnitude("+" + Decimal(m) + rest)
  {
    hide Number;
    hide DigitsPrefix;
    var d := Decimal(m);
    var text := d + rest;
    assert IsDigit(d[0]) && d[0] == text[0];
    PrefixStops(d, rest);
    assert text[..|d|] == d;
    NumberOfDecimal(m);
    assert ("-" + d + rest)[1..] == text && ("+" + d + rest)[1..] == text;
  }

  lemma {:induction false} PrefixStops(d: string, rest: string)
    requires AllDigits(d) && (rest == "" || !IsDigit(rest[0]))
    ensures DigitsPrefix(d + rest) == |d|
  {
    if d == "" {
      assert d + rest == rest;
    } else {
      PrefixStops(d[1..], rest);
      assert (d + rest)[1..] == d[1..] + rest;
    }
  }

  /** std::stoi on digits after an optional sign, whatever follows them: the number when an int holds it. */
  lemma {:induction false} StoiReads(m: nat, rest: string)
    requires rest == "" || !IsDigit(rest[0])
    ensures Stoi(Decimal(m) + rest) == Stoi("+" + Decimal(m) + rest)
         == if m < 0x8000_0000 then Ok(m) else OutOfRange
    ensures Stoi("-" + Decimal(m) + rest) == if m <= 0x8000_0000 then Ok(0 - m as int) else OutOfRange
  {
    MagnitudeStops(m, rest);
    assert IsDigit(Decimal(m)[0]) && (Decimal(m) + rest)[0] == Decimal(m)[0];
  }

  /** std::stoul on the same: a minus sign gives the negative modulo 2^64, and is no error. */
  lemma {:induction false} StoulReads(m: nat, rest: string)
    requires rest == "" || !IsDigit(rest[0])
    ensures Stoul(Decimal(m) + rest) == Stoul("+" + Decimal(m) + rest)
         == if m < 0x1_0000_0000_0000_0000 then Ok(m) else OutOfRange
    ensures Stoul("-" + Decimal(m) + rest)
         == if m >= 0x1_0000_0000_0000_0000 then OutOfRange
            else Ok(if m == 0 then 0 else 0x1_0000_0000_0000_0000 - m)
  {
    MagnitudeStops(m, rest);
    assert IsDigit(Decimal(m)[0]) && (Decimal(m) + rest)[0] == Decimal(m)[0];
  }

  /** Without a digit where the number should start, both refuse the text. */
  lemma {:induction false} NoDigitsNoNumber(sign: string, rest: string)
    requires sign == "" || sign == "-" || sign == "+"
    requires rest == "" || (!IsDigit(rest[0]) && (sign == "" ==> rest[0] != '-' && rest[0] != '+'))
    ensures Stoi(sign + rest) == InvalidArgument && Stoul(sign + rest) == InvalidArgument
  {
    var text := sign + rest;
    assert sign == "" ==> text == rest;
    assert sign != "" ==> text[1..] == rest;
  }

  // --- one knob ---

  datatype Knob = K | BucketsKnob | BasePolicy | BaseCase | Fill | IdsKnob | MovementKnob | PartitionKnob | LeafKnob
                | DiscoveryKnob | PartitionThreshold

  function KnobName(knob: Knob): string {
    match knob
    case K => "k"
    case BucketsKnob => "buckets"
    case BasePolicy => "base_policy"
    case BaseCase => "base_case"
    case Fill => "fill"
    case IdsKnob => "ids"
    case MovementKnob => "movement"
    case PartitionKnob => "partition"
    case LeafKnob => "leaf"
    case DiscoveryKnob => "discovery"
    case PartitionThreshold => "partition_threshold"
  }

  function KnobNamed(name: string): Option<Knob> {
    if name == "k" then Some(K)
    else if name == "buckets" then Some(BucketsKnob)
    else if name == "base_policy" then Some(BasePolicy)
    else if name == "base_case" then Some(BaseCase)
    else if name == "fill" then Some(Fill)
    else if name == "ids" then Some(IdsKnob)
    else if name == "movement" then Some(MovementKnob)
    else if name == "partition" then Some(PartitionKnob)
    else if name == "leaf" then Some(LeafKnob)
    else if name == "discovery" then Some(DiscoveryKnob)
    else if name == "partition_threshold" then Some(PartitionThreshold)
    else None
  }

  /** What the writer puts after the equals sign. */
  function ValueText(knob: Knob, c: Config): string {
    match knob
    case K => SignedDecimal(c.k)
    case BucketsKnob => if c.buckets == Adaptive then "adaptive" else "ordered"
    case BasePolicy => if c.basePolicy == NetworkBase then "net" else "ins"
    case BaseCase => Decimal(c.baseCase)
    case Fill => Decimal(c.fillPercent)
    case IdsKnob => if c.ids == ByteIds then "byte" else "wide"
    case MovementKnob => if c.movement == InPlace then "inplace" else "oop"
    case PartitionKnob => if c.partition == TwoWay then "2way" else "3way"
    case LeafKnob => if c.hybridLeaf then "hyb" else if c.leaf == NetworkLeaf then "net" else "ins"
    case DiscoveryKnob => if c.discovery == PostSort then "post" else "incremental"
    case PartitionThreshold => Decimal(c.partitionThreshold)
  }

  function Mapped(r: Result<Size>, f: Size -> Config): Result<Config> {
    match r
    case Ok(v) => Ok(f(v))
    case InvalidArgument => InvalidArgument
    case OutOfRange => OutOfRange
  }

  /** What the reader does with the text after the equals sign. */
  function Set(c: Config, knob: Knob, value: string): Result<Config> {
    match knob
    case K =>
      (match Stoi(value)
       case Ok(v) => Ok(c.(k := v))
       case InvalidArgument => InvalidArgument
       case OutOfRange => OutOfRange)
    case BucketsKnob => Ok(c.(buckets := if value == "ordered" then Ordered else Adaptive))
    case BasePolicy => Ok(c.(basePolicy := if value == "ins" then InsertionBase else NetworkBase))
    case BaseCase => Mapped(Stoul(value), (v: Size) => c.(baseCase := v))
    case Fill => Mapped(Stoul(value), (v: Size) => c.(fillPercent := v))
    case IdsKnob => Ok(c.(ids := if value == "wide" then KeyWidth else ByteIds))
    case MovementKnob => Ok(c.(movement := if value == "inplace" then InPlace else OutOfPlace))
    case PartitionKnob => Ok(c.(partition := if value == "2way" then TwoWay else ThreeWay))
    case LeafKnob =>
      Ok(c.(hybridLeaf := value == "hyb", leaf := if value == "ins" then InsertionLeaf else NetworkLeaf))
    case DiscoveryKnob => Ok(c.(discovery := if value == "incremental" then Incremental else PostSort))
    case PartitionThreshold => Mapped(Stoul(value), (v: Size) => c.(partitionThreshold := v))
  }

  /** c with one knob taken from another configuration. */
  function With(c: Config, knob: Knob, from: Config): Config {
    match knob
    case K => c.(k := from.k)
    case BucketsKnob => c.(buckets := from.buckets)
    case BasePolicy => c.(basePolicy := from.basePolicy)
    case BaseCase => c.(baseCase := from.baseCase)
    case Fill => c.(fillPercent := from.fillPercent)
    case IdsKnob => c.(ids := from.ids)
    case MovementKnob => c.(movement := from.movement)
    case PartitionKnob => c.(partition := from.partition)
    case LeafKnob => c.(hybridLeaf := from.hybridLeaf, leaf := from.leaf)
    case DiscoveryKnob => c.(discovery := from.discovery)
    case PartitionThreshold => c.(partitionThreshold := from.partitionThreshold)
  }

  /** A hybrid leaf is printed without the leaf it is a hybrid of, and read back as one over networks. */
  predicate Coherent(c: Config) {
    c.hybridLeaf ==> c.leaf == NetworkLeaf
  }

  lemma {:induction false} NamesAreKnown(knob: Knob)
    ensures KnobNamed(KnobName(knob)) == Some(knob)
  {
  }

  lemma {:induction false} SetUndoesPrinting(c: Config, knob: Knob, from: Config)
    requires Coherent(from)
    ensures Set(c, knob, ValueText(knob, from)) == Ok(With(c, knob, from))
  {
    hide Stoi;
    hide Stoul;
    StoiUndoesPrinting(from.k);
    StoulUndoesPrinting(from.baseCase);
    StoulUndoesPrinting(from.fillPercent);
    StoulUndoesPrinting(from.partitionThreshold);
  }

  predicate IsNumber(knob: Knob) {
    knob == K || knob == BaseCase || knob == Fill || knob == PartitionThreshold
  }

  /** A word that the writer never prints for a knob sets it to its default. */
  lemma {:induction false} OtherWordsAreDefaults(c: Config, knob: Knob, value: string)
    requires !IsNumber(knob) && forall from: Config :: ValueText(knob, from) != value
    ensures Set(c, knob, value) == Ok(With(c, knob, DEFAULTS))
  {
    var o := DEFAULTS.(buckets := Ordered, basePolicy := InsertionBase, ids := KeyWidth, movement := InPlace,
                       partition := TwoWay, leaf := InsertionLeaf, discovery := Incremental);
    assert ValueText(knob, o) != value && ValueText(knob, o.(hybridLeaf := true)) != value;
  }

  lemma {:induction false} SetKeepsCoherent(c: Config, knob: Knob, value: string)
    requires Coherent(c) && Set(c, knob, value).Ok?
    ensures Coherent(Set(c, knob, value).value) && Set(c, knob, value).value.fromFile == c.fromFile
  {
  }
  // --- one line ---

  /** The characters that operator>> skips. */
  predicate IsSpace(c: char) {
    c == ' ' || '\t' <= c <= '\r'
  }

  predicate Word(s: string) {
    forall i :: 0 <= i < |s| ==> !IsSpace(s[i])
  }

  function WordLength(s: string): (r: nat)
    ensures r <= |s| && Word(s[..r]) && (r < |s| ==> IsSpace(s[r]))
  {
    if s == "" || IsSpace(s[0]) then 0 else
      var r := 1 + WordLength(s[1..]);
      assert s[..r] == [s[0]] + s[1..][..r - 1];
      r
  }

  function ReadField(c: Config, field: string): Result<Config> {
    var equals := Find(field, '=');
    if equals == |field| then Ok(c)
    else match KnobNamed(field[..equals])
      case None => Ok(c)
      case Some(knob) => Set(c, knob, field[equals + 1..])
  }

  /** A word without an equals sign, or whose name is no knob's, is passed over. */
  lemma {:induction false} IgnoredFields(c: Config, name: string, value: string)
    requires '=' !in name
    ensures ReadField(c, name) == Ok(c)
    ensures (forall knob: Knob :: KnobName(knob) != name) ==> ReadField(c, name + "=" + value) == Ok(c)
  {
    hide KnobName;
    hide KnobNamed;
    hide Set;
    FindNothing(name, '=');
    FindInSplit(name, '=', value);
    assert (name + ['='] + value)[..|name|] == name;
    KnownNamesAreNames(name);
  }

  lemma {:induction false} KnownNamesAreNames(name: string)
    ensures KnobNamed(name).Some? ==> KnobName(KnobNamed(name).value) == name
  {
  }

  function ReadFields(c: Config, text: string): Result<Config>
    decreases |text|
  {
    if text == "" then Ok(c)
    else if IsSpace(text[0]) then ReadFields(c, text[1..])
    else
      var n := WordLength(text);
      match ReadField(c, text[..n])
      case Ok(d) => ReadFields(d, text[n..])
      case InvalidArgument => InvalidArgument
      case OutOfRange => OutOfRange
  }

  method ParseFields(start: Config, text: string) returns (r: Result<Config>)
    ensures r == ReadFields(start, text)
  {
    hide ReadField;
    var c, rest := start, text;
    while rest != ""
      invariant ReadFields(c, rest) == ReadFields(start, text)
      decreases |rest|
    {
      if IsSpace(rest[0]) {
        rest := rest[1..];
      } else {
        var n := WordLength(rest);
        var read := ReadField(c, rest[..n]);
        if !read.Ok? {
          return read;
        }
        c, rest := read.value, rest[n..];
      }
    }
    return Ok(c);
  }

  const KNOBS: seq<Knob> := [K, BucketsKnob, BasePolicy, BaseCase, Fill, IdsKnob, MovementKnob, PartitionKnob, LeafKnob,
                             DiscoveryKnob, PartitionThreshold]

  function Token(knob: Knob, c: Config): string {
    KnobName(knob) + "=" + ValueText(knob, c)
  }

  /** The fields from the i-th on. */
  function FieldsText(c: Config, i: nat): string
    requires i < |KNOBS|
    decreases |KNOBS| - i
  {
    if i == |KNOBS| - 1 then Token(KNOBS[i], c) else Token(KNOBS[i], c) + (" " + FieldsText(c, i + 1))
  }

  /** The eleven fields of a line, in order and with the words they are written in. */
  lemma {:induction false} FieldsInFull(c: Config)
    ensures var rest := " " + FieldsText(c, 6);
            var ids := " ids=" + (if c.ids == ByteIds then "byte" else "wide") + rest;
            var fill := " fill=" + Decimal(c.fillPercent) + ids;
            var base := " base_case=" + Decimal(c.baseCase) + fill;
            var policy := " base_policy=" + (if c.basePolicy == NetworkBase then "net" else "ins") + base;
            var buckets := " buckets=" + (if c.buckets == Adaptive then "adaptive" else "ordered") + policy;
            FieldsText(c, 0) == "k=" + SignedDecimal(c.k) + buckets
    ensures " " + FieldsText(c, 10) == " partition_threshold=" + Decimal(c.partitionThreshold)
    ensures var size := " " + FieldsText(c, 10);
            var discovery := " discovery=" + (if c.discovery == PostSort then "post" else "incremental") + size;
            var leaf := " leaf=" + (if c.hybridLeaf then "hyb" else if c.leaf == NetworkLeaf then "net" else "ins")
                        + discovery;
            var partition := " partition=" + (if c.partition == TwoWay then "2way" else "3way") + leaf;
            " " + FieldsText(c, 6) == " movement=" + (if c.movement == InPlace then "inplace" else "oop") + partition
  {
    hide *;
    FirstFields(c);
    LastFields(c);
    LastField(c);
  }

  lemma {:induction false} FirstFields(c: Config)
    ensures var rest := " " + FieldsText(c, 6);
            var ids := " ids=" + (if c.ids == ByteIds then "byte" else "wide") + rest;
            var fill := " fill=" + Decimal(c.fillPercent) + ids;
            var base := " base_case=" + Decimal(c.baseCase) + fill;
            var policy := " base_policy=" + (if c.basePolicy == NetworkBase then "net" else "ins") + base;
            var buckets := " buckets=" + (if c.buckets == Adaptive then "adaptive" else "ordered") + policy;
            FieldsText(c, 0) == "k=" + SignedDecimal(c.k) + buckets
  {
    hide Decimal;
    hide SignedDecimal;
    hide FieldsText;
    FieldAt(c, 5, " ids=");
    FieldAt(c, 4, " fill=");
    FieldAt(c, 3, " base_case=");
    FieldAt(c, 2, " base_policy=");
    FieldAt(c, 1, " buckets=");
    FirstField(c);
  }

  lemma {:induction false} LastFields(c: Config)
    ensures var size := " " + FieldsText(c, 10);
            var discovery := " discovery=" + (if c.discovery == PostSort then "post" else "incremental") + size;
            var leaf := " leaf=" + (if c.hybridLeaf then "hyb" else if c.leaf == NetworkLeaf then "net" else "ins")
                        + discovery;
            var partition := " partition=" + (if c.partition == TwoWay then "2way" else "3way") + leaf;
            " " + FieldsText(c, 6) == " movement=" + (if c.movement == InPlace then "inplace" else "oop") + partition
  {
    hide Decimal;
    hide SignedDecimal;
    hide FieldsText;
    FieldAt(c, 9, " discovery=");
    FieldAt(c, 8, " leaf=");
    FieldAt(c, 7, " partition=");
    FieldAt(c, 6, " movement=");
  }

  lemma {:induction false} LastField(c: Config)
    ensures " " + FieldsText(c, 10) == " partition_threshold=" + Decimal(c.partitionThreshold)
  {
    hide Decimal;
    FieldAt(c, 10, " partition_threshold=");
  }

  lemma {:induction false} FieldAt(c: Config, i: nat, lead: string)
    requires 0 < i < |KNOBS| && lead == " " + KnobName(KNOBS[i]) + "="
    ensures " " + FieldsText(c, i)
         == lead + ValueText(KNOBS[i], c) + if i == |KNOBS| - 1 then "" else " " + FieldsText(c, i + 1)
  {
    hide KnobName;
    hide ValueText;
    var name, value := KnobName(KNOBS[i]), ValueText(KNOBS[i], c);
    assert " " + (name + "=" + value) == " " + name + "=" + value;
  }

  lemma {:induction false} FirstField(c: Config)
    ensures FieldsText(c, 0) == "k=" + SignedDecimal(c.k) + (" " + FieldsText(c, 1))
  {
    assert KnobName(K) + "=" == "k=";
  }

  function WithAll(c: Config, from: Config, i: nat): Config
    requires i <= |KNOBS|
    decreases |KNOBS| - i
  {
    if i == |KNOBS| then c else WithAll(With(c, KNOBS[i], from), from, i + 1)
  }

  lemma {:induction false} DigitsAreWords(n: nat)
    ensures Word(Decimal(n)) && Word("-" + Decimal(n))
  {
    var d := Decimal(n);
    forall i | 0 <= i < |d| ensures !IsSpace(d[i]) {
      assert IsDigit(d[i]);
    }
  }

  lemma {:induction false} NameIsWord(knob: Knob)
    ensures Word(KnobName(knob)) && '=' !in KnobName(knob)
  {
  }

  lemma {:induction false} ValueIsWord(knob: Knob, c: Config)
    ensures Word(ValueText(knob, c))
  {
    DigitsAreWords(if c.k < 0 then 0 - c.k as int else c.k as int);
    DigitsAreWords(c.baseCase);
    DigitsAreWords(c.fillPercent);
    DigitsAreWords(c.partitionThreshold);
  }

  lemma {:induction false} TokenIsWord(knob: Knob, c: Config)
    ensures Word(Token(knob, c)) && Token(knob, c) != ""
  {
    hide KnobName;
    hide ValueText;
    NameIsWord(knob);
    ValueIsWord(knob, c);
  }

  lemma {:induction false} WordLengthOfWord(w: string, rest: string)
    requires Word(w) && (rest == "" || IsSpace(rest[0]))
    ensures WordLength(w + rest) == |w|
  {
    if w == "" {
      assert w + rest == rest;
    } else {
      WordLengthOfWord(w[1..], rest);
      assert (w + rest)[1..] == w[1..] + rest;
    }
  }

  lemma {:induction false} ReadToken(c: Config, knob: Knob, from: Config)
    requires Coherent(from)
    ensures ReadField(c, Token(knob, from)) == Ok(With(c, knob, from))
  {
    var name, value, token := KnobName(knob), ValueText(knob, from), Token(knob, from);
    hide KnobName;
    hide KnobNamed;
    hide ValueText;
    hide Set;
    hide With;
    NameIsWord(knob);
    NamesAreKnown(knob);
    SetUndoesPrinting(c, knob, from);
    assert token == name + ['='] + value;
    FindInSplit(name, '=', value);
    assert token[..|name|] == name && token[|name| + 1..] == value;
  }

  lemma {:induction false} ReadWord(c: Config, word: string, rest: string)
    requires word != "" && Word(word) && (rest == "" || IsSpace(rest[0])) && ReadField(c, word).Ok?
    ensures ReadFields(c, word + rest) == ReadFields(ReadField(c, word).value, rest)
  {
    hide ReadField;
    WordLengthOfWord(word, rest);
    assert (word + rest)[..|word|] == word && (word + rest)[|word|..] == rest;
  }

  lemma {:induction false} ReadSpace(c: Config, rest: string)
    ensures ReadFields(c, " " + rest) == ReadFields(c, rest)
  {
    assert (" " + rest)[1..] == rest;
  }

  lemma {:induction false} ReadAll(c: Config, from: Config, i: nat)
    requires Coherent(from) && i < |KNOBS|
    ensures ReadFields(c, FieldsText(from, i)) == Ok(WithAll(c, from, i))
    decreases |KNOBS| - i
  {
    hide ReadFields;
    hide ReadField;
    hide With;
    hide Token;
    var token, d := Token(KNOBS[i], from), With(c, KNOBS[i], from);
    ReadToken(c, KNOBS[i], from);
    TokenIsWord(KNOBS[i], from);
    if i == |KNOBS| - 1 {
      ReadWord(c, token, "");
      ReadNothing(d);
      assert token + "" == token;
    } else {
      var more := FieldsText(from, i + 1);
      ReadWord(c, token, " " + more);
      ReadSpace(d, more);
      ReadAll(d, from, i + 1);
    }
  }

  lemma {:induction false} ReadNothing(c: Config)
    ensures ReadFields(c, "") == Ok(c)
  {
  }

  /** Setting every knob replaces the whole configuration except where it came from. */
  lemma {:induction false} WithAllIsCopy(c: Config, from: Config)
    ensures WithAll(c, from, 0) == from.(fromFile := c.fromFile)
  {
    var c3 := With(With(With(c, K, from), BucketsKnob, from), BasePolicy, from);
    var c6 := With(With(With(c3, BaseCase, from), Fill, from), IdsKnob, from);
    var c9 := With(With(With(c6, MovementKnob, from), PartitionKnob, from), LeafKnob, from);
    var c11 := With(With(c9, DiscoveryKnob, from), PartitionThreshold, from);
    assert c11 == from.(fromFile := c.fromFile);
    hide With;
    assert WithAll(c, from, 0) == WithAll(c3, from, 3);
    assert WithAll(c3, from, 3) == WithAll(c6, from, 6);
    assert WithAll(c6, from, 6) == WithAll(c9, from, 9);
    assert WithAll(c9, from, 9) == WithAll(c11, from, 11);
  }
}
