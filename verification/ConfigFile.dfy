// The frontier configuration and its dictionary form
// (benchmarking/planning_eval/config.py).
module ConfigFile {
  import opened Wrappers
  import opened Decimals
  import opened PointIds

  // The keys the format knows, and any other.
  datatype Key =
    | SchemaKey | NameKey | ExpectedProgramsKey | ExpectedPointsPerProgramKey | PointTimeoutSecondsKey
    | MaxPointAttemptsKey
    | MaxWorkerRestartsPerProgramKey | PlanStoreModeKey | TransferBandwidthsKey | GridsKey | CapacityRefinementBytesKey
    | MaxRepairAttemptsKey | DeterministicKey | ExecutionBudgetsKey | SpillBudgetsKey | BandwidthScalesKey
    | NumeratorKey
    | DenominatorKey | FetchSoloBytesPerSecondKey | FetchConcurrentBytesPerSecondKey
    | EvictSoloBytesPerSecondKey | EvictConcurrentBytesPerSecondKey | ProvenanceKey
    | OtherKey(name: string)

  datatype Json =
    | Null
    | Bool(b: bool)
    | Int(n: int)
    | Str(s: string)
    | Arr(items: seq<Json>)
    | Obj(fields: map<Key, Json>)

  datatype Baseline = Baseline(fetchSolo: int, fetchConcurrent: int, evictSolo: int, evictConcurrent: int,
    provenance: string)

  datatype Config = Config(
    name: string,
    expectedPrograms: int,
    expectedPoints: int,
    pointTimeout: int,
    maxPointAttempts: int,
    maxWorkerRestarts: int,
    planStoreMode: string,
    transfer: Baseline,
    grids: seq<Grid>,
    capacityRefinement: Option<int>,
    maxRepairAttempts: Option<int>,
    deterministic: Option<bool>)

  datatype LoadError =
    | NotAnObject | UnknownKeys | MissingKeys | NotAnInteger | NotAString | NotAnArray
    | InvalidSize | InvalidScale | InvalidGrid | InvalidBaseline | InvalidConfig
    | WrongSchema | UnknownMode | DuplicatePoint | WrongPointCount

  type Load<T> = Result<T, LoadError>

  const SCHEMA := "shadowspill.search_frontier_config/v1"

  predicate StoreMode(mode: string) {
    mode == "contribute" || mode == "reuse" || mode == "require" || mode == "refresh"
  }

  // ----- What the dataclasses accept -----

  predicate SafeChar(c: char) {
    'A' <= c <= 'Z' || 'a' <= c <= 'z' || '0' <= c <= '9' || c == '.' || c == '_' || c == '-'
  }

  predicate SafeName(s: string) {
    |s| > 0 && forall i :: 0 <= i < |s| ==> SafeChar(s[i])
  }

  predicate Unique<T(==)>(xs: seq<T>) {
    forall i, j :: 0 <= i < j < |xs| ==> xs[i] != xs[j]
  }

  predicate ValidGrid(g: Grid) {
    && SafeName(g.name)
    && |g.executions| > 0 && Unique(g.executions)
    && |g.spills| > 0 && Unique(g.spills)
    && |g.scales| > 0 && Unique(g.scales)
  }

  // str.strip() leaves something: some character is not white space.
  predicate Blank(c: char) {
    c == ' ' || '\t' <= c <= '\r' || '\U{1C}' <= c <= '\U{1F}' || c == '\U{85}' || c == '\U{A0}' || c == '\U{1680}'
    || '\U{2000}' <= c <= '\U{200A}' || c == '\U{2028}' || c == '\U{2029}' || c == '\U{202F}'
    || c == '\U{205F}' || c == '\U{3000}'
  }

  predicate ValidBaseline(b: Baseline) {
    && b.fetchSolo > 0 && b.fetchConcurrent > 0 && b.evictSolo > 0 && b.evictConcurrent > 0
    && exists i :: 0 <= i < |b.provenance| && !Blank(b.provenance[i])
  }

  predicate ValidConfig(c: Config) {
    && SafeName(c.name)
    && c.expectedPrograms > 0 && c.expectedPoints > 0 && c.pointTimeout > 0
    && c.maxPointAttempts > 0 && c.maxWorkerRestarts > 0
    && |c.grids| > 0
  }

  // ----- Printing -----

  function Sizes(values: seq<nat>): Json {
    Arr(seq(|values|, i requires 0 <= i < |values| => Str(FormatSize(values[i]))))
  }

  function ScaleToDict(s: Scale): Json {
    Obj(map[NumeratorKey := Int(s.numerator), DenominatorKey := Int(s.denominator)])
  }

  function ScaleItems(scales: seq<Scale>): seq<Json> {
    seq(|scales|, i requires 0 <= i < |scales| => ScaleToDict(scales[i]))
  }

  function GridToDict(g: Grid): Json {
    Obj(map[
      NameKey := Str(g.name),
      ExecutionBudgetsKey := Sizes(g.executions),
      SpillBudgetsKey := Sizes(g.spills),
      BandwidthScalesKey := Arr(ScaleItems(g.scales))])
  }

  function GridItems(grids: seq<Grid>): seq<Json> {
    seq(|grids|, i requires 0 <= i < |grids| => GridToDict(grids[i]))
  }

  function BaselineToDict(b: Baseline): Json {
    Obj(map[
      FetchSoloBytesPerSecondKey := Int(b.fetchSolo),
      FetchConcurrentBytesPerSecondKey := Int(b.fetchConcurrent),
      EvictSoloBytesPerSecondKey := Int(b.evictSolo),
      EvictConcurrentBytesPerSecondKey := Int(b.evictConcurrent),
      ProvenanceKey := Str(b.provenance)])
  }

  function OptionalInt(n: Option<int>): Json {
    if n.None? then Null else Int(n.value)
  }

  function ToDict(c: Config): Json {
    Obj(map[
      SchemaKey := Str(SCHEMA),
      NameKey := Str(c.name),
      ExpectedProgramsKey := Int(c.expectedPrograms),
      ExpectedPointsPerProgramKey := Int(c.expectedPoints),
      PointTimeoutSecondsKey := Int(c.pointTimeout),
      MaxPointAttemptsKey := Int(c.maxPointAttempts),
      MaxWorkerRestartsPerProgramKey := Int(c.maxWorkerRestarts),
      PlanStoreModeKey := Str(c.planStoreMode),
      CapacityRefinementBytesKey := OptionalInt(c.capacityRefinement),
      MaxRepairAttemptsKey := OptionalInt(c.maxRepairAttempts),
      DeterministicKey := if c.deterministic.None? then Null else Bool(c.deterministic.value),
      TransferBandwidthsKey := BaselineToDict(c.transfer),
      GridsKey := Arr(GridItems(c.grids))])
  }

  // ----- Loading -----

  function Get(data: map<Key, Json>, key: Key): Json {
    if key in data then data[key] else Null
  }

  function Object(v: Json, expected: set<Key>, optional: set<Key>): Load<map<Key, Json>> {
    if !v.Obj? then Err(NotAnObject)
    else if !(v.fields.Keys <= expected + optional) then Err(UnknownKeys)
    else if !(expected <= v.fields.Keys) then Err(MissingKeys)
    else Ok(v.fields)
  }

  function Integer(v: Json): Load<int> {
    if v.Int? then Ok(v.n) else Err(NotAnInteger)
  }

  function Text(v: Json): Load<string> {
    if v.Str? then Ok(v.s) else Err(NotAString)
  }

  function Array(v: Json): Load<seq<Json>> {
    if v.Arr? then Ok(v.items) else Err(NotAnArray)
  }

  function Size(v: Json): (r: Load<nat>)
    ensures r.Ok? ==> v.Str? && ParseSize(v.s) == Some(r.value) && r.value > 0
  {
    if !v.Str? then Err(NotAString)
    else
      var size := ParseSize(v.s);
      if size.None? then Err(InvalidSize)
      else
        assert size.value > 0 by { ParsedIsPositive(v.s); }
        Ok(size.value)
  }

  function SizeList(items: seq<Json>): Load<seq<nat>> {
    if |items| == 0 then Ok([])
    else
      var first :- Size(items[0]);
      var rest :- SizeList(items[1..]);
      Ok([first] + rest)
  }

  function LoadScale(v: Json): (r: Load<Scale>)
    ensures r.Ok? ==> ValidScale(r.value)
  {
    var data :- Object(v, {NumeratorKey, DenominatorKey}, {});
    var n :- Integer(Get(data, NumeratorKey));
    var d :- Integer(Get(data, DenominatorKey));
    if n <= 0 || d <= 0 then Err(InvalidScale)
    else if GcdOf(n, d) != 1 then Err(InvalidScale)
    else Ok(Scale(n, d))
  }

  function ScaleList(items: seq<Json>): (r: Load<seq<Scale>>)
    ensures r.Ok? ==> forall i :: 0 <= i < |r.value| ==> ValidScale(r.value[i])
  {
    if |items| == 0 then Ok([])
    else
      var first :- LoadScale(items[0]);
      var rest :- ScaleList(items[1..]);
      Ok([first] + rest)
  }

  const GRID_KEYS: set<Key> := {NameKey, ExecutionBudgetsKey, SpillBudgetsKey, BandwidthScalesKey}

  function LoadGrid(v: Json): Load<Grid> {
    var data :- Object(v, GRID_KEYS, {});
    var name :- Text(Get(data, NameKey));
    var es :- Array(Get(data, ExecutionBudgetsKey));
    var executions :- SizeList(es);
    var ss :- Array(Get(data, SpillBudgetsKey));
    var spills :- SizeList(ss);
    var bs :- Array(Get(data, BandwidthScalesKey));
    var scales :- ScaleList(bs);
    CheckedGrid(Grid(name, executions, spills, scales))
  }

  function CheckedGrid(g: Grid): Load<Grid> {
    if ValidGrid(g) then Ok(g) else Err(InvalidGrid)
  }

  function GridList(items: seq<Json>): Load<seq<Grid>> {
    if |items| == 0 then Ok([])
    else
      var first :- LoadGrid(items[0]);
      var rest :- GridList(items[1..]);
      Ok([first] + rest)
  }

  const RATES: set<Key> :=
    {FetchSoloBytesPerSecondKey, FetchConcurrentBytesPerSecondKey,
     EvictSoloBytesPerSecondKey, EvictConcurrentBytesPerSecondKey, ProvenanceKey}

  function LoadBaseline(v: Json): Load<Baseline> {
    var data :- Object(v, RATES, {});
    var fs :- Integer(Get(data, FetchSoloBytesPerSecondKey));
    var fc :- Integer(Get(data, FetchConcurrentBytesPerSecondKey));
    var es :- Integer(Get(data, EvictSoloBytesPerSecondKey));
    var ec :- Integer(Get(data, EvictConcurrentBytesPerSecondKey));
    var provenance :- Text(Get(data, ProvenanceKey));
    var b := Baseline(fs, fc, es, ec, provenance);
    if ValidBaseline(b) then Ok(b) else Err(InvalidBaseline)
  }

  function LoadOptionalInt(v: Json): Load<Option<int>> {
    if v.Null? then Ok(None)
    else
      var n :- Integer(v);
      Ok(Some(n))
  }

  // bool(value): any JSON value is taken, by its truth.
  function Truth(v: Json): bool {
    match v
    case Null => false
    case Bool(b) => b
    case Int(n) => n != 0
    case Str(s) => |s| > 0
    case Arr(items) => |items| > 0
    case Obj(fields) => fields != map[]
  }

  const KEYS: set<Key> :=
    {SchemaKey, NameKey, ExpectedProgramsKey, ExpectedPointsPerProgramKey, PointTimeoutSecondsKey,
     MaxPointAttemptsKey, MaxWorkerRestartsPerProgramKey, PlanStoreModeKey, TransferBandwidthsKey, GridsKey}

  const OPTIONAL: set<Key> := {CapacityRefinementBytesKey, MaxRepairAttemptsKey, DeterministicKey}

  function LoadConfig(v: Json): Load<Config> {
    var data :- Object(v, KEYS, OPTIONAL);
    LoadFields(data)
  }

  function LoadFields(data: map<Key, Json>): Load<Config> {
    if Get(data, SchemaKey) != Str(SCHEMA) then Err(WrongSchema)
    else
      var items :- Array(Get(data, GridsKey));
      var grids :- GridList(items);
      var name :- Text(Get(data, NameKey));
      var counts :- LoadCounts(data);
      var mode :- LoadMode(Get(data, PlanStoreModeKey));
      var transfer :- LoadBaseline(Get(data, TransferBandwidthsKey));
      LoadLimits(data, name, counts, mode, transfer, grids)
  }

  // The five counts, in the order in which they are read.
  datatype Counts = Counts(programs: int, points: int, timeout: int, attempts: int, restarts: int)

  function LoadCounts(data: map<Key, Json>): Load<Counts> {
    var programs :- Integer(Get(data, ExpectedProgramsKey));
    var points :- Integer(Get(data, ExpectedPointsPerProgramKey));
    var timeout :- Integer(Get(data, PointTimeoutSecondsKey));
    var attempts :- Integer(Get(data, MaxPointAttemptsKey));
    var restarts :- Integer(Get(data, MaxWorkerRestartsPerProgramKey));
    Ok(Counts(programs, points, timeout, attempts, restarts))
  }

  // The three optional fields, then the checks on the whole.
  function LoadLimits(data: map<Key, Json>, name: string, n: Counts, mode: string, transfer: Baseline,
                      grids: seq<Grid>): Load<Config> {
    var capacity :- LoadOptionalInt(Get(data, CapacityRefinementBytesKey));
    var repairs :- LoadOptionalInt(Get(data, MaxRepairAttemptsKey));
    CheckedConfig(Config(name, n.programs, n.points, n.timeout, n.attempts, n.restarts, mode, transfer, grids,
                         capacity, repairs, LoadFlag(Get(data, DeterministicKey))))
  }

  function LoadMode(v: Json): Load<string> {
    var mode :- Text(v);
    if StoreMode(mode) then Ok(mode) else Err(UnknownMode)
  }

  function LoadFlag(v: Json): Option<bool> {
    if v.Null? then None else Some(Truth(v))
  }

  function CheckedConfig(c: Config): Load<Config> {
    if !ValidConfig(c) then Err(InvalidConfig)
    else if !Unrepeated(Product(c.grids)) then Err(DuplicatePoint)
    else if |Product(c.grids)| != c.expectedPoints then Err(WrongPointCount)
    else Ok(c)
  }

  // ----- What loading guarantees, and the round trip -----

  ghost predicate LoadedGrid(g: Grid) {
    && ValidGrid(g)
    && (forall i :: 0 <= i < |g.executions| ==> g.executions[i] > 0)
    && (forall i :: 0 <= i < |g.spills| ==> g.spills[i] > 0)
    && (forall i :: 0 <= i < |g.scales| ==> ValidScale(g.scales[i]))
  }

  ghost predicate Loaded(c: Config) {
    && ValidConfig(c) && ValidBaseline(c.transfer) && StoreMode(c.planStoreMode)
    && (forall i :: 0 <= i < |c.grids| ==> LoadedGrid(c.grids[i]))
    && Unrepeated(Product(c.grids)) && |Product(c.grids)| == c.expectedPoints
  }

  // ----- Which configurations load -----

  const WHITE_SPACE :=
    "\t\n\U{B}\U{C}\r\U{1C}\U{1D}\U{1E}\U{1F} \U{85}\U{A0}\U{1680}\U{2000}\U{2001}\U{2002}\U{2003}\U{2004}" +
    "\U{2005}\U{2006}\U{2007}\U{2008}\U{2009}\U{200A}\U{2028}\U{2029}\U{202F}\U{205F}\U{3000}"

  const MODES := ["contribute", "reuse", "require", "refresh"]

  // Names are of plain characters, counts and rates positive, the provenance
  // says something, and every grid has budgets and scales, none twice, the
  // budgets positive and the scales positive and reduced; no point repeats and
  // there are as many as announced.
  ghost predicate Acceptable(c: Config) {
    && PlainName(c.name)
    && 1 <= c.expectedPrograms && 1 <= c.expectedPoints && 1 <= c.pointTimeout
    && 1 <= c.maxPointAttempts && 1 <= c.maxWorkerRestarts
    && c.planStoreMode in MODES
    && 1 <= c.transfer.fetchSolo && 1 <= c.transfer.fetchConcurrent
    && 1 <= c.transfer.evictSolo && 1 <= c.transfer.evictConcurrent
    && (exists ch :: ch in c.transfer.provenance && ch !in WHITE_SPACE)
    && c.grids != [] && (forall g :: g in c.grids ==> AcceptableGrid(g))
    && Unrepeated(Product(c.grids)) && |Product(c.grids)| == c.expectedPoints
  }

  ghost predicate PlainName(s: string) {
    s != "" && forall ch :: ch in s ==> Plain(ch as int)
  }

  // The code points of - . _, the digits and the ASCII letters.
  predicate Plain(n: int) {
    n == 45 || n == 46 || n == 95 || 48 <= n < 58 || 65 <= n < 91 || 97 <= n < 123
  }

  ghost predicate AcceptableGrid(g: Grid) {
    && PlainName(g.name)
    && g.executions != [] && Once(g.executions) && (forall n :: n in g.executions ==> n >= 1)
    && g.spills != [] && Once(g.spills) && (forall n :: n in g.spills ==> n >= 1)
    && g.scales != [] && Once(g.scales)
    && forall s :: s in g.scales ==> s.numerator >= 1 && s.denominator >= 1 && GcdOf(s.numerator, s.denominator) == 1
  }

  // No value is listed twice.
  ghost predicate Once<T>(xs: seq<T>) {
    forall x :: x in xs ==> multiset(xs)[x] == 1
  }

  lemma {:induction false} UniqueIsOnce<T>(xs: seq<T>)
    ensures Unique(xs) <==> Once(xs)
  {
    if |xs| > 0 {
      var front, last := xs[..|xs| - 1], xs[|xs| - 1];
      UniqueIsOnce(front);
      assert xs == front + [last];
      assert multiset(xs) == multiset(front) + multiset([last]);
      if Once(xs) {
        assert last !in front by {
          assert last in xs;
        }
        forall x | x in front
          ensures multiset(front)[x] == 1
        {
          assert x in xs && x != last;
        }
      }
      if Unique(xs) {
        assert Unique(front) && last !in front;
      }
    }
  }

  lemma PlainCharacter(ch: char)
    ensures SafeChar(ch) <==> Plain(ch as int)
  {}

  lemma BlankCharacter(ch: char)
    ensures Blank(ch) <==> ch in WHITE_SPACE
  {}

  lemma SafeIsPlain(s: string)
    ensures SafeName(s) <==> PlainName(s)
  {
    if PlainName(s) {
      forall i | 0 <= i < |s|
        ensures SafeChar(s[i])
      {
        assert s[i] in s;
        PlainCharacter(s[i]);
      }
    }
    if SafeName(s) {
      forall ch | ch in s
        ensures Plain(ch as int)
      {
        var i :| 0 <= i < |s| && s[i] == ch;
        PlainCharacter(s[i]);
      }
    }
  }

  lemma GridIsAcceptable(g: Grid)
    ensures LoadedGrid(g) <==> AcceptableGrid(g)
  {
    SafeIsPlain(g.name);
    UniqueIsOnce(g.executions);
    UniqueIsOnce(g.spills);
    UniqueIsOnce(g.scales);
    AllPositive(g.executions);
    AllPositive(g.spills);
    AllReduced(g.scales);
  }

  lemma AllPositive(values: seq<nat>)
    ensures (forall i :: 0 <= i < |values| ==> values[i] > 0) <==> forall n :: n in values ==> n >= 1
  {
    if forall n :: n in values ==> n >= 1 {
      forall i | 0 <= i < |values|
        ensures values[i] > 0
      {
        assert values[i] in values;
      }
    }
  }

  lemma AllReduced(scales: seq<Scale>)
    ensures (forall i :: 0 <= i < |scales| ==> ValidScale(scales[i])) <==>
              forall s :: s in scales ==>
                s.numerator >= 1 && s.denominator >= 1 && GcdOf(s.numerator, s.denominator) == 1
  {
    if forall s :: s in scales ==> s.numerator >= 1 && s.denominator >= 1 && GcdOf(s.numerator, s.denominator) == 1 {
      forall i | 0 <= i < |scales|
        ensures ValidScale(scales[i])
      {
        assert scales[i] in scales;
      }
    }
  }

  // What loads is exactly what is acceptable.
  lemma LoadedIsAcceptable(c: Config)
    ensures Loaded(c) <==> Acceptable(c)
  {
    SafeIsPlain(c.name);
    forall g: Grid
      ensures LoadedGrid(g) <==> AcceptableGrid(g)
    {
      GridIsAcceptable(g);
    }
    forall ch
      ensures Blank(ch) <==> ch in WHITE_SPACE
    {
      BlankCharacter(ch);
    }
  }

  lemma {:induction false} SizesLoad(values: seq<nat>)
    requires forall i :: 0 <= i < |values| ==> values[i] > 0
    ensures SizeList(Sizes(values).items) == Ok(values)
  {
    if |values| > 0 {
      SizeRoundTrip(values[0]);
      SizesLoad(values[1..]);
      assert [values[0]] + values[1..] == values;
      assert Sizes(values).items[1..] == Sizes(values[1..]).items;
    }
  }

  lemma {:induction false} ScalesLoad(scales: seq<Scale>)
    requires forall i :: 0 <= i < |scales| ==> ValidScale(scales[i])
    ensures ScaleList(ScaleItems(scales)) == Ok(scales)
  {
    if |scales| > 0 {
      ScalesLoad(scales[1..]);
      assert [scales[0]] + scales[1..] == scales;
      assert ScaleItems(scales)[1..] == ScaleItems(scales[1..]);
      assert LoadScale(ScaleToDict(scales[0])) == Ok(scales[0]);
    }
  }

  lemma GridLoads(g: Grid)
    requires LoadedGrid(g)
    ensures LoadGrid(GridToDict(g)) == Ok(g)
  {
    GridPrints(g);
    SizesLoad(g.executions);
    SizesLoad(g.spills);
    ScalesLoad(g.scales);
    assert CheckedGrid(g) == Ok(g);
  }

  lemma GridPrints(g: Grid)
    ensures var data := GridToDict(g).fields;
            && Object(GridToDict(g), GRID_KEYS, {}) == Ok(data)
            && Get(data, ExecutionBudgetsKey) == Sizes(g.executions) && Get(data, SpillBudgetsKey) == Sizes(g.spills)
            && Get(data, BandwidthScalesKey) == Arr(ScaleItems(g.scales)) && Get(data, NameKey) == Str(g.name)
  {
    assert GridToDict(g).fields.Keys == GRID_KEYS;
  }

  lemma {:induction false} GridsLoad(grids: seq<Grid>)
    requires forall i :: 0 <= i < |grids| ==> LoadedGrid(grids[i])
    ensures GridList(GridItems(grids)) == Ok(grids)
  {
    if |grids| > 0 {
      GridsLoad(grids[1..]);
      assert [grids[0]] + grids[1..] == grids;
      assert GridItems(grids)[1..] == GridItems(grids[1..]);
      GridLoads(grids[0]);
    }
  }

  lemma BaselineLoads(b: Baseline)
    requires ValidBaseline(b)
    ensures LoadBaseline(BaselineToDict(b)) == Ok(b)
  {
    assert BaselineToDict(b).fields.Keys == RATES;
  }

  lemma DictKeys(c: Config)
    ensures KEYS <= ToDict(c).fields.Keys <= KEYS + OPTIONAL
  {
    assert ToDict(c).fields.Keys == KEYS + OPTIONAL;
  }

  // The fields of a dictionary are those printed for c.
  ghost predicate Prints(data: map<Key, Json>, c: Config) {
    PrintsCounts(data, c) && PrintsParts(data, c) && PrintsOptions(data, c)
  }

  ghost predicate PrintsCounts(data: map<Key, Json>, c: Config) {
    && Get(data, ExpectedProgramsKey) == Int(c.expectedPrograms)
    && Get(data, ExpectedPointsPerProgramKey) == Int(c.expectedPoints)
    && Get(data, PointTimeoutSecondsKey) == Int(c.pointTimeout)
    && Get(data, MaxPointAttemptsKey) == Int(c.maxPointAttempts)
    && Get(data, MaxWorkerRestartsPerProgramKey) == Int(c.maxWorkerRestarts)
  }

  ghost predicate PrintsParts(data: map<Key, Json>, c: Config) {
    && Get(data, SchemaKey) == Str(SCHEMA)
    && Get(data, NameKey) == Str(c.name)
    && Get(data, PlanStoreModeKey) == Str(c.planStoreMode)
    && Get(data, TransferBandwidthsKey) == BaselineToDict(c.transfer)
    && Get(data, GridsKey) == Arr(GridItems(c.grids))
  }

  ghost predicate PrintsOptions(data: map<Key, Json>, c: Config) {
    && Get(data, CapacityRefinementBytesKey) == OptionalInt(c.capacityRefinement)
    && Get(data, MaxRepairAttemptsKey) == OptionalInt(c.maxRepairAttempts)
    && Get(data, DeterministicKey) == (if c.deterministic.None? then Null else Bool(c.deterministic.value))
  }

  lemma LimitsLoad(data: map<Key, Json>, c: Config)
    requires Prints(data, c)
    ensures LoadCounts(data)
            == Ok(Counts(c.expectedPrograms, c.expectedPoints, c.pointTimeout, c.maxPointAttempts, c.maxWorkerRestarts))
    ensures LoadLimits(data, c.name, LoadCounts(data).value, c.planStoreMode, c.transfer, c.grids) == CheckedConfig(c)
  {
    assert LoadOptionalInt(OptionalInt(c.capacityRefinement)) == Ok(c.capacityRefinement);
    assert LoadOptionalInt(OptionalInt(c.maxRepairAttempts)) == Ok(c.maxRepairAttempts);
    assert LoadFlag(Get(data, DeterministicKey)) == c.deterministic;
  }

  lemma FieldsLoad(data: map<Key, Json>, c: Config)
    requires Prints(data, c) && GridList(GridItems(c.grids)) == Ok(c.grids)
    requires LoadBaseline(BaselineToDict(c.transfer)) == Ok(c.transfer) && StoreMode(c.planStoreMode)
    ensures LoadFields(data) == CheckedConfig(c)
  {
    LimitsLoad(data, c);
    assert LoadMode(Str(c.planStoreMode)) == Ok(c.planStoreMode);
  }

  lemma DictPrints(c: Config)
    ensures Prints(ToDict(c).fields, c)
  {
    CountsPrint(c);
    PartsPrint(c);
    OptionsPrint(c);
  }

  lemma CountsPrint(c: Config)
    ensures PrintsCounts(ToDict(c).fields, c)
  {}

  lemma PartsPrint(c: Config)
    ensures PrintsParts(ToDict(c).fields, c)
  {}

  lemma OptionsPrint(c: Config)
    ensures PrintsOptions(ToDict(c).fields, c)
  {}

  // A configuration that could have been loaded loads back from its own
  // dictionary, unchanged: the worker reads what the controller wrote.
  lemma ConfigRoundTrip(c: Config)
    requires Loaded(c)
    ensures LoadConfig(ToDict(c)) == Ok(c)
  {
    GridsLoad(c.grids);
    BaselineLoads(c.transfer);
    DictKeys(c);
    DictPrints(c);
    FieldsLoad(ToDict(c).fields, c);
  }

  lemma {:induction false} SizeListPositive(items: seq<Json>)
    requires SizeList(items).Ok?
    ensures forall i :: 0 <= i < |SizeList(items).value| ==> SizeList(items).value[i] > 0
  {
    if |items| > 0 {
      SizeListPositive(items[1..]);
    }
  }

  lemma GridIsLoaded(v: Json)
    requires LoadGrid(v).Ok?
    ensures LoadedGrid(LoadGrid(v).value)
  {
    var data := v.fields;
    SizeListPositive(Get(data, ExecutionBudgetsKey).items);
    SizeListPositive(Get(data, SpillBudgetsKey).items);
  }

  lemma {:induction false} GridListIsLoaded(items: seq<Json>)
    requires GridList(items).Ok?
    ensures forall i :: 0 <= i < |GridList(items).value| ==> LoadedGrid(GridList(items).value[i])
  {
    if |items| > 0 {
      GridIsLoaded(items[0]);
      GridListIsLoaded(items[1..]);
    }
  }

  // Loading accepts exactly such configurations, and loading what was loaded
  // changes nothing.
  lemma LoadingIsStable(v: Json)
    requires LoadConfig(v).Ok?
    ensures Loaded(LoadConfig(v).value)
    ensures LoadConfig(ToDict(LoadConfig(v).value)) == LoadConfig(v)
  {
    LoadedIsLoaded(v.fields);
    ConfigRoundTrip(LoadConfig(v).value);
  }

  lemma LoadedIsLoaded(data: map<Key, Json>)
    requires LoadFields(data).Ok?
    ensures Loaded(LoadFields(data).value)
  {
    var c := LoadFields(data).value;
    GridListIsLoaded(Get(data, GridsKey).items);
    assert c.grids == GridList(Get(data, GridsKey).items).value;
    assert LoadBaseline(Get(data, TransferBandwidthsKey)) == Ok(c.transfer);
    assert LoadMode(Get(data, PlanStoreModeKey)) == Ok(c.planStoreMode);
    assert CheckedConfig(c) == Ok(c);
  }

  // The points of a loaded configuration have pairwise distinct ids.
  lemma LoadedPointsAreDistinct(v: Json, i: nat, j: nat)
    requires LoadConfig(v).Ok? && i < j < |Product(LoadConfig(v).value.grids)|
    ensures var axes := Product(LoadConfig(v).value.grids);
            ValidScales(axes) && Label(axes[i]) != Label(axes[j])
  {
    LoadingIsStable(v);
    var grids := LoadConfig(v).value.grids;
    ProductScales(grids);
    PointIdsAreDistinct(Product(grids), i, j);
  }

  lemma {:induction false} ProductScales(grids: seq<Grid>)
    requires forall i :: 0 <= i < |grids| ==> LoadedGrid(grids[i])
    ensures ValidScales(Product(grids))
  {
    if |grids| > 0 {
      ProductScales(grids[..|grids| - 1]);
      var g := grids[|grids| - 1];
      SpaceScales(g, g.executions);
    }
  }

  lemma {:induction false} SpaceScales(g: Grid, executions: seq<nat>)
    requires LoadedGrid(g)
    ensures ValidScales(Space(g, executions))
  {
    if |executions| > 0 {
      SpaceScales(g, executions[..|executions| - 1]);
      PlaneScales(g, executions[|executions| - 1], g.spills);
    }
  }

  lemma {:induction false} PlaneScales(g: Grid, execution: nat, spills: seq<nat>)
    requires LoadedGrid(g)
    ensures ValidScales(Plane(g, execution, spills))
  {
    if |spills| > 0 {
      PlaneScales(g, execution, spills[..|spills| - 1]);
      RowScales(g.name, execution, spills[|spills| - 1], g.scales);
    }
  }

  lemma {:induction false} RowScales(name: string, execution: nat, spill: nat, scales: seq<Scale>)
    requires forall i :: 0 <= i < |scales| ==> ValidScale(scales[i])
    ensures ValidScales(Row(name, execution, spill, scales))
  {
    if |scales| > 0 {
      RowScales(name, execution, spill, scales[..|scales| - 1]);
    }
  }
}
