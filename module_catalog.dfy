/**
 * The positional module catalog of static/assets/charts.js: processCSVData,
 * which turns the catalog's CSV text into module records, and the selection
 * rules around it (lookup of the selected module, the models of one
 * manufacturer, the manufacturer list, the three-point scatter).
 */
module ModuleCatalog {
  import opened Wrappers
  import opened JsString
  import opened JsNumber

  /** One catalog entry, as processCSVData builds it. */
  datatype ModuleRecord = ModuleRecord(
    manufacturer: string,
    model: string,
    technology: string,
    I_L_ref: real,
    I_o_ref: real,
    R_s: real,
    R_sh_ref: real,
    Adjust: real)

  /** Columns of the catalog's CSV layout. */
  const ModelColumn := 0
  const ManufacturerColumn := 1
  const TechnologyColumn := 2
  const ILRefColumn := 21
  const IoRefColumn := 22
  const RsColumn := 23
  const RshRefColumn := 24
  const AdjustColumn := 25

  /** A line with fewer than this many comma-separated fields is skipped. */
  const MinFields := 3

  /**
   * `parseFloat(cols[k]) || 0`: a missing cell parses as NaN, and NaN (like
   * zero) is falsy, so the result is the parsed value or 0.
   */
  function NumberOrZero(cols: seq<string>, k: nat, parseFloat: FloatParser): (v: real)
    ensures k >= |cols| ==> v == 0.0
    ensures k < |cols| && parseFloat(cols[k]).None? ==> v == 0.0
    ensures k < |cols| && parseFloat(cols[k]).Some? ==> v == parseFloat(cols[k]).value
  {
    if k < |cols| then
      match parseFloat(cols[k])
      case Some(x) => x
      case None => 0.0
    else 0.0
  }

  /** The record built from the comma-separated fields of a line, or None for a line that is skipped. */
  function RecordOf(cols: seq<string>, parseFloat: FloatParser): (r: Option<ModuleRecord>)
    ensures r.None? <==> |cols| < MinFields
  {
    if |cols| < MinFields then None
    else Some(ModuleRecord(
      manufacturer := Trim(cols[ManufacturerColumn]),
      model := Trim(cols[ModelColumn]),
      technology := Trim(cols[TechnologyColumn]),
      I_L_ref := NumberOrZero(cols, ILRefColumn, parseFloat),
      I_o_ref := NumberOrZero(cols, IoRefColumn, parseFloat),
      R_s := NumberOrZero(cols, RsColumn, parseFloat),
      R_sh_ref := NumberOrZero(cols, RshRefColumn, parseFloat),
      Adjust := NumberOrZero(cols, AdjustColumn, parseFloat)))
  }

  /** The record one CSV line yields. */
  function ParseRow(row: string, parseFloat: FloatParser): (r: Option<ModuleRecord>)
  {
    RecordOf(Split(row, ','), parseFloat)
  }

  /**
   * `xs.map(f).filter(Boolean)` for an f that yields a record or null: the
   * present results, in order.
   */
  function FilterMap<T, U>(xs: seq<T>, f: T -> Option<U>): (ys: seq<U>)
    ensures |ys| <= |xs|
  {
    if xs == [] then []
    else (match f(xs[0]) case Some(y) => [y] case None => []) + FilterMap(xs[1..], f)
  }

  lemma {:induction false} FilterMapAppend<T, U>(a: seq<T>, b: seq<T>, f: T -> Option<U>)
    ensures FilterMap(a + b, f) == FilterMap(a, f) + FilterMap(b, f)
  {
    if a == [] {
      assert a + b == b;
    } else {
      assert (a + b)[1..] == a[1..] + b;
      FilterMapAppend(a[1..], b, f);
    }
  }

  lemma {:induction false} FilterMapSources<T, U>(xs: seq<T>, f: T -> Option<U>, y: U)
    requires y in FilterMap(xs, f)
    ensures exists k :: 0 <= k < |xs| && f(xs[k]) == Some(y)
  {
    if f(xs[0]) != Some(y) {
      FilterMapSources(xs[1..], f, y);
      var k :| 0 <= k < |xs[1..]| && f(xs[1..][k]) == Some(y);
      assert xs[k + 1] == xs[1..][k];
    }
  }

  lemma {:induction false} FilterMapAllSome<T, U>(xs: seq<T>, f: T -> Option<U>)
    requires forall k :: 0 <= k < |xs| ==> f(xs[k]).Some?
    ensures |FilterMap(xs, f)| == |xs|
    ensures forall k :: 0 <= k < |xs| ==> FilterMap(xs, f)[k] == f(xs[k]).value
  {
    if xs != [] {
      FilterMapAllSome(xs[1..], f);
      forall k | 1 <= k < |xs|
        ensures FilterMap(xs, f)[k] == f(xs[k]).value
      {
        assert xs[1..][k - 1] == xs[k];
      }
    }
  }

  lemma {:induction false} FilterMapAllNone<T, U>(xs: seq<T>, f: T -> Option<U>)
    requires forall k :: 0 <= k < |xs| ==> f(xs[k]).None?
    ensures FilterMap(xs, f) == []
  {
    if xs != [] {
      FilterMapAllNone(xs[1..], f);
    }
  }

  /** The line parser of processCSVData, for a given parseFloat. */
  function LineParser(parseFloat: FloatParser): (f: string -> Option<ModuleRecord>)
  {
    row => ParseRow(row, parseFloat)
  }

  /** `rows.map(...).filter(Boolean)` in processCSVData. */
  function ProcessRows(rows: seq<string>, parseFloat: FloatParser): (modules: seq<ModuleRecord>)
    ensures |modules| <= |rows|
  {
    FilterMap(rows, LineParser(parseFloat))
  }

  /** processCSVData: the first line is the header and is dropped. */
  function ProcessCSVData(data: string, parseFloat: FloatParser): (modules: seq<ModuleRecord>)
  {
    ProcessRows(Split(data, '\n')[1..], parseFloat)
  }

  /** Records of consecutive blocks of lines are concatenated: input order is kept. */
  lemma ProcessRowsAppend(a: seq<string>, b: seq<string>, parseFloat: FloatParser)
    ensures ProcessRows(a + b, parseFloat) == ProcessRows(a, parseFloat) + ProcessRows(b, parseFloat)
  {
    FilterMapAppend(a, b, LineParser(parseFloat));
  }

  /** Every record is the one some line parses to. */
  lemma ProcessRowsSources(rows: seq<string>, parseFloat: FloatParser, m: ModuleRecord)
    requires m in ProcessRows(rows, parseFloat)
    ensures exists k :: 0 <= k < |rows| && ParseRow(rows[k], parseFloat) == Some(m)
  {
    FilterMapSources(rows, LineParser(parseFloat), m);
  }

  /** A single line yields no record when it has fewer than three fields, else exactly one. */
  lemma ProcessRowsSingle(row: string, parseFloat: FloatParser)
    ensures |Split(row, ',')| < MinFields ==> ProcessRows([row], parseFloat) == []
    ensures |Split(row, ',')| >= MinFields ==>
      ProcessRows([row], parseFloat) == [ParseRow(row, parseFloat).value]
  {
    assert [row][1..] == [];
  }

  /** When no line is short, there is exactly one record per line, index by index. */
  lemma ProcessRowsAllComplete(rows: seq<string>, parseFloat: FloatParser)
    requires forall k :: 0 <= k < |rows| ==> |Split(rows[k], ',')| >= MinFields
    ensures |ProcessRows(rows, parseFloat)| == |rows|
    ensures forall k :: 0 <= k < |rows| ==> ProcessRows(rows, parseFloat)[k] == ParseRow(rows[k], parseFloat).value
  {
    FilterMapAllSome(rows, LineParser(parseFloat));
  }

  /** Lines that are all short yield no records at all. */
  lemma ProcessRowsAllShort(rows: seq<string>, parseFloat: FloatParser)
    requires forall k :: 0 <= k < |rows| ==> |Split(rows[k], ',')| < MinFields
    ensures ProcessRows(rows, parseFloat) == []
  {
    FilterMapAllNone(rows, LineParser(parseFloat));
  }

  /**
   * The text's first line is the header, whatever it holds: the records are
   * those of the lines after it.
   */
  lemma HeaderDiscarded(header: string, lines: seq<string>, parseFloat: FloatParser)
    requires '\n' !in header
    requires forall k :: 0 <= k < |lines| ==> '\n' !in lines[k]
    ensures ProcessCSVData(Join([header] + lines, '\n'), parseFloat) == ProcessRows(lines, parseFloat)
  {
    var all := [header] + lines;
    forall k | 0 <= k < |all| ensures '\n' !in all[k] {
      if k > 0 { assert all[k] == lines[k - 1]; }
    }
    SplitJoin(all, '\n');
    assert Split(Join(all, '\n'), '\n')[1..] == lines;
  }

  /** Text of one line (header only, or empty text) yields no records. */
  lemma HeaderOnly(data: string, parseFloat: FloatParser)
    requires '\n' !in data
    ensures ProcessCSVData(data, parseFloat) == []
  {
    SplitWithoutSeparator(data, '\n');
  }

  /** A blank trailing line has one field, so it is skipped like any short line. */
  lemma TrailingNewlineSkipped(data: string, parseFloat: FloatParser)
    ensures ProcessCSVData(data + "\n", parseFloat) == ProcessCSVData(data, parseFloat)
  {
    var lines := Split(data, '\n');
    SplitTrailingSeparator(data, '\n');
    assert (lines + [""])[1..] == lines[1..] + [""];
    ProcessRowsAppend(lines[1..], [""], parseFloat);
    SplitWithoutSeparator("", ',');
    ProcessRowsSingle("", parseFloat);
  }

  /**
   * A kept line's record: name fields are the trimmed first three fields,
   * carry no surrounding whitespace and no comma; each number is the parsed
   * field 21 to 25, or 0 when that field is absent or NaN.
   */
  lemma RecordFields(cols: seq<string>, parseFloat: FloatParser)
    requires |cols| >= MinFields
    requires forall k :: 0 <= k < |cols| ==> ',' !in cols[k]
    ensures RecordOf(cols, parseFloat).Some?
    ensures var m := RecordOf(cols, parseFloat).value;
      && m.model == Trim(cols[0]) && m.manufacturer == Trim(cols[1]) && m.technology == Trim(cols[2])
      && IsTrimmed(m.model) && IsTrimmed(m.manufacturer) && IsTrimmed(m.technology)
      && ',' !in m.model && ',' !in m.manufacturer && ',' !in m.technology
      && m.I_L_ref == NumberOrZero(cols, ILRefColumn, parseFloat)
      && m.I_o_ref == NumberOrZero(cols, IoRefColumn, parseFloat)
      && m.R_s == NumberOrZero(cols, RsColumn, parseFloat)
      && m.R_sh_ref == NumberOrZero(cols, RshRefColumn, parseFloat)
      && m.Adjust == NumberOrZero(cols, AdjustColumn, parseFloat)
  {
    TrimKeepsAbsent(cols[0], ',');
    TrimKeepsAbsent(cols[1], ',');
    TrimKeepsAbsent(cols[2], ',');
  }

  predicate Matches(m: ModuleRecord, manufacturer: string, model: string) {
    m.manufacturer == manufacturer && m.model == model
  }

  /**
   * `modules.find(...)` in renderPVChart: the first record whose manufacturer
   * and model both equal the selection; None when there is none.
   */
  function FindModule(modules: seq<ModuleRecord>, manufacturer: string, model: string): (r: Option<ModuleRecord>)
    ensures r.None? <==> forall i :: 0 <= i < |modules| ==> !Matches(modules[i], manufacturer, model)
    ensures r.Some? ==>
      exists i :: 0 <= i < |modules| && modules[i] == r.value
        && Matches(modules[i], manufacturer, model)
        && forall j :: 0 <= j < i ==> !Matches(modules[j], manufacturer, model)
  {
    if modules == [] then None
    else if Matches(modules[0], manufacturer, model) then Some(modules[0])
    else
      var r := FindModule(modules[1..], manufacturer, model);
      assert forall i :: 1 <= i < |modules| ==> modules[i] == modules[1..][i - 1];
      r
  }

  /** `modules.filter(m => m.manufacturer === selected).map(m => m.model)` in initPVChart. */
  function ModelsOf(modules: seq<ModuleRecord>, manufacturer: string): (models: seq<string>)
    ensures |models| <= |modules|
    ensures forall x :: x in models <==> exists m :: m in modules && m.manufacturer == manufacturer && m.model == x
  {
    if modules == [] then []
    else
      var tail := ModelsOf(modules[1..], manufacturer);
      assert forall m :: m in modules <==> m == modules[0] || m in modules[1..];
      if modules[0].manufacturer == manufacturer then [modules[0].model] + tail else tail
  }

  /** The model list of consecutive catalog blocks is the concatenation of theirs: catalog order is kept. */
  lemma {:induction false} ModelsOfAppend(a: seq<ModuleRecord>, b: seq<ModuleRecord>, manufacturer: string)
    ensures ModelsOf(a + b, manufacturer) == ModelsOf(a, manufacturer) + ModelsOf(b, manufacturer)
  {
    if a == [] {
      assert a + b == b;
    } else {
      assert (a + b)[1..] == a[1..] + b;
      ModelsOfAppend(a[1..], b, manufacturer);
    }
  }

  /** When every record is of that manufacturer, every model is listed, duplicates included, in order. */
  lemma {:induction false} ModelsOfAllSameMaker(modules: seq<ModuleRecord>, manufacturer: string)
    requires forall i :: 0 <= i < |modules| ==> modules[i].manufacturer == manufacturer
    ensures |ModelsOf(modules, manufacturer)| == |modules|
    ensures forall i :: 0 <= i < |modules| ==> ModelsOf(modules, manufacturer)[i] == modules[i].model
  {
    if modules != [] {
      ModelsOfAllSameMaker(modules[1..], manufacturer);
      forall i | 1 <= i < |modules|
        ensures ModelsOf(modules, manufacturer)[i] == modules[i].model
      {
        assert modules[1..][i - 1] == modules[i];
      }
    }
  }

  /** Records of other manufacturers contribute nothing. */
  lemma {:induction false} ModelsOfOtherMakers(modules: seq<ModuleRecord>, manufacturer: string)
    requires forall i :: 0 <= i < |modules| ==> modules[i].manufacturer != manufacturer
    ensures ModelsOf(modules, manufacturer) == []
  {
    if modules != [] {
      ModelsOfOtherMakers(modules[1..], manufacturer);
    }
  }

  /** `modules.map(m => m.manufacturer)`. */
  function Manufacturers(modules: seq<ModuleRecord>): (makers: seq<string>)
    ensures |makers| == |modules|
    ensures forall i :: 0 <= i < |modules| ==> makers[i] == modules[i].manufacturer
  {
    seq(|modules|, i requires 0 <= i < |modules| => modules[i].manufacturer)
  }

  /** Index of the first occurrence of x in xs. */
  function FirstIndex(xs: seq<string>, x: string): (k: nat)
    requires x in xs
    ensures k < |xs| && xs[k] == x
    ensures forall j :: 0 <= j < k ==> xs[j] != x
  {
    if xs[0] == x then 0 else 1 + FirstIndex(xs[1..], x)
  }

  lemma FirstIndexInPrefix(p: seq<string>, x: string, y: string)
    requires y in p
    ensures FirstIndex(p + [x], y) == FirstIndex(p, y)
  {
    var k := FirstIndex(p, y);
    assert (p + [x])[k] == y;
    var k' := FirstIndex(p + [x], y);
    assert k' <= k;
    assert p[k'] == y;
  }

  predicate NoDuplicates(xs: seq<string>) {
    forall i, j :: 0 <= i < j < |xs| ==> xs[i] != xs[j]
  }

  /** r lists the values of xs once each, ordered by where they first occur in xs. */
  ghost predicate FirstAppearanceOrder(xs: seq<string>, r: seq<string>) {
    && NoDuplicates(r)
    && (forall x :: x in r <==> x in xs)
    && (forall i, j :: 0 <= i < j < |r| ==> FirstIndex(xs, r[i]) < FirstIndex(xs, r[j]))
  }

  /** Appending x leaves the first index of every earlier value unchanged. */
  lemma FirstIndexAppend(p: seq<string>, x: string)
    ensures forall y :: y in p ==> FirstIndex(p + [x], y) == FirstIndex(p, y)
  {
    forall y | y in p ensures FirstIndex(p + [x], y) == FirstIndex(p, y) {
      FirstIndexInPrefix(p, x, y);
    }
  }

  /** Re-inserting a value the Set already holds leaves it unchanged. */
  lemma DistinctStepPresent(p: seq<string>, x: string, d: seq<string>)
    requires FirstAppearanceOrder(p, d)
    requires x in d
    ensures FirstAppearanceOrder(p + [x], d)
  {
    var xs := p + [x];
    FirstIndexAppend(p, x);
    forall i, j | 0 <= i < j < |d| ensures FirstIndex(xs, d[i]) < FirstIndex(xs, d[j]) {
      assert d[i] in p && d[j] in p;
    }
  }

  /** Inserting a new value appends it at the end. */
  lemma DistinctStepAbsent(p: seq<string>, x: string, d: seq<string>)
    requires FirstAppearanceOrder(p, d)
    requires x !in d
    ensures FirstAppearanceOrder(p + [x], d + [x])
  {
    var xs, r := p + [x], d + [x];
    FirstIndexAppend(p, x);
    assert x !in p;
    assert FirstIndex(xs, x) == |p|;
    forall i, j | 0 <= i < j < |r| ensures FirstIndex(xs, r[i]) < FirstIndex(xs, r[j]) {
      assert r[i] == d[i] && d[i] in p;
      if j < |d| {
        assert r[j] == d[j] && d[j] in p;
      }
    }
  }

  /** Adding x to a Set that already lists p in first-appearance order. */
  lemma DistinctStep(p: seq<string>, x: string, d: seq<string>)
    requires FirstAppearanceOrder(p, d)
    ensures FirstAppearanceOrder(p + [x], if x in d then d else d + [x])
  {
    if x in d {
      DistinctStepPresent(p, x, d);
    } else {
      DistinctStepAbsent(p, x, d);
    }
  }

  /**
   * `[...new Set(xs)]`: a Set keeps its first insertion order and ignores
   * re-insertion, so each value appears once, where it first occurred.
   */
  function Distinct(xs: seq<string>): (r: seq<string>)
    ensures FirstAppearanceOrder(xs, r)
  {
    if xs == [] then []
    else
      var p, x := xs[..|xs| - 1], xs[|xs| - 1];
      assert xs == p + [x];
      var d := Distinct(p);
      DistinctStep(p, x, d);
      if x in d then d else d + [x]
  }

  /** The manufacturer list of initPVChart. */
  function UniqueManufacturers(modules: seq<ModuleRecord>): (makers: seq<string>)
  {
    Distinct(Manufacturers(modules))
  }

  /**
   * Every catalog manufacturer appears exactly once, none other appears, and
   * they are ordered by the index of their first record.
   */
  lemma UniqueManufacturersSpec(modules: seq<ModuleRecord>)
    ensures var u := UniqueManufacturers(modules);
      && NoDuplicates(u)
      && (forall i :: 0 <= i < |modules| ==> modules[i].manufacturer in u)
      && (forall x :: x in u ==> exists i :: 0 <= i < |modules| && modules[i].manufacturer == x)
      && (forall i, j :: 0 <= i < j < |u| ==>
            FirstIndex(Manufacturers(modules), u[i]) < FirstIndex(Manufacturers(modules), u[j]))
  {
    var makers := Manufacturers(modules);
    var u := UniqueManufacturers(modules);
    forall x | x in u ensures exists i :: 0 <= i < |modules| && modules[i].manufacturer == x {
      var i := FirstIndex(makers, x);
      assert modules[i].manufacturer == x;
    }
    forall i | 0 <= i < |modules| ensures modules[i].manufacturer in u {
      assert makers[i] in makers;
    }
  }

  datatype Point = Point(x: real, y: real)

  /**
   * The scatter of renderPVChart: the current axis at I_L_ref, a point at
   * R_s where the current has dropped by R_s times I_o_ref, and the voltage
   * axis at R_sh_ref.
   */
  function ScatterData(m: ModuleRecord): (pts: seq<Point>)
    ensures |pts| == 3
    ensures pts[0] == Point(0.0, m.I_L_ref)
    ensures pts[1].x == m.R_s && pts[1].y == pts[0].y - m.R_s * m.I_o_ref
    ensures pts[2] == Point(m.R_sh_ref, 0.0)
  {
    [Point(0.0, m.I_L_ref), Point(m.R_s, m.I_L_ref - m.R_s * m.I_o_ref), Point(m.R_sh_ref, 0.0)]
  }

  /**
   * The data renderPVChart plots for a selection: None (no chart) when no
   * record matches, else the scatter of the first matching record.
   */
  function ChartData(modules: seq<ModuleRecord>, manufacturer: string, model: string): (r: Option<seq<Point>>)
    ensures r.None? <==> forall i :: 0 <= i < |modules| ==> !Matches(modules[i], manufacturer, model)
    ensures r.Some? ==>
      exists i :: 0 <= i < |modules| && r.value == ScatterData(modules[i])
        && Matches(modules[i], manufacturer, model)
        && forall j :: 0 <= j < i ==> !Matches(modules[j], manufacturer, model)
  {
    match FindModule(modules, manufacturer, model)
    case None => None
    case Some(m) => Some(ScatterData(m))
  }

  /**
   * A catalog line with no field 21 onward gives a record whose numbers are
   * all 0, so its scatter collapses onto the origin.
   */
  lemma ShortLineScatterAtOrigin(cols: seq<string>, parseFloat: FloatParser)
    requires MinFields <= |cols| <= ILRefColumn
    ensures RecordOf(cols, parseFloat).Some?
    ensures ScatterData(RecordOf(cols, parseFloat).value) == [Point(0.0, 0.0), Point(0.0, 0.0), Point(0.0, 0.0)]
  {
    var m := RecordOf(cols, parseFloat).value;
    assert m.I_L_ref == 0.0 && m.I_o_ref == 0.0 && m.R_s == 0.0 && m.R_sh_ref == 0.0;
  }
}
