/** The profiler: measurable facts about a loaded table, with no judgement.
    The table is given (CSV parsing and dtype inference happen before);
    every section of the profile is computed from that one table. */
module Profiler {
  import opened Wrappers
  import opened Seqs
  import opened Text
  import opened Numeric
  import opened Stats
  import opened DataProfile

  /** One column of the loaded table: its header name, its storage type and
      one cell per row (`None` is a null). For non-numeric storage only
      whether a cell is null matters. */
  datatype Column = Column(name: string, storage: StorageType, cells: seq<Option<real>>)

  datatype Table = Table(rowCount: nat, columns: seq<Column>)

  function Names(cs: seq<Column>): (ns: seq<string>)
    ensures |ns| == |cs|
    ensures forall i :: 0 <= i < |cs| ==> ns[i] == cs[i].name
  {
    seq(|cs|, i requires 0 <= i < |cs| => cs[i].name)
  }

  /** What loading guarantees: one cell per row in every column, and header
      names made unique. */
  predicate WellFormed(t: Table) {
    && (forall i :: 0 <= i < |t.columns| ==> |t.columns[i].cells| == t.rowCount)
    && Distinct(Names(t.columns))
  }

  datatype ProfileError = FileNotFound(path: string)

  /** The storage types selected as numeric (`select_dtypes(include=[np.number])`). */
  predicate IsNumeric(s: StorageType) {
    s == IntegerStorage || s == FloatStorage
  }

  // ------------------------------------------------------------ basic stats

  function GetBasicStats(t: Table): (b: BasicStats)
    ensures b.rowCount == t.rowCount
    ensures b.columnCount == |b.columns| == |t.columns|
    ensures forall i :: 0 <= i < |t.columns| ==> b.columns[i] == t.columns[i].name
  {
    BasicStats(t.rowCount, |t.columns|, Names(t.columns))
  }

  // ------------------------------------------------------------ column types

  /** The `_date` suffix test never decides anything the substring test
      would not: a name ending in `_date` contains "date" once lowercased. */
  lemma DateSuffixSubsumed(name: string)
    requires EndsWith(name, "_date")
    ensures Contains(ToLower(name), "date")
  {
    var i := |name| - 4;
    var low := ToLower(name);
    forall k | 0 <= k < 4 ensures low[i + k] == "date"[k] {
      assert name[i + k] == name[|name| - 5..][k + 1] == "_date"[k + 1];
    }
    assert low[i..i + 4] == "date";
    assert OccursAt("date", low, i);
  }

  /** Semantic type from the storage type, falling back on the column name
      for untyped (object) columns. */
  function SemanticTypeOf(storage: StorageType, name: string): (r: SemanticType)
    ensures storage == IntegerStorage ==> r == IntegerType
    ensures storage == FloatStorage ==> r == NumericType
    ensures storage == BoolStorage ==> r == BooleanType
    ensures storage == DatetimeStorage ==> r == DatetimeType
    ensures (r == IntegerType || r == NumericType) <==> IsNumeric(storage)
    ensures r == DateStringType <==> storage == ObjectStorage && Contains(ToLower(name), "date")
    ensures r == StringType <==> storage == ObjectStorage && !Contains(ToLower(name), "date")
  {
    match storage
    case IntegerStorage => IntegerType
    case FloatStorage => NumericType
    case BoolStorage => BooleanType
    case DatetimeStorage => DatetimeType
    case ObjectStorage =>
      assert EndsWith(name, "_date") ==> Contains(ToLower(name), "date") by {
        if EndsWith(name, "_date") { DateSuffixSubsumed(name); }
      }
      if EndsWith(name, "_date") || Contains(ToLower(name), "date") then DateStringType
      else StringType
  }

  function GetColumnTypes(t: Table): (m: Entries<ColumnType>)
    ensures Keys(m) == Names(t.columns)
    ensures forall i :: 0 <= i < |m| ==> m[i].1.storage == t.columns[i].storage
    ensures forall i :: 0 <= i < |m| ==>
      m[i].1.semanticType == SemanticTypeOf(t.columns[i].storage, t.columns[i].name)
  {
    seq(|t.columns|, i requires 0 <= i < |t.columns| =>
      (t.columns[i].name,
       ColumnType(t.columns[i].storage, SemanticTypeOf(t.columns[i].storage, t.columns[i].name))))
  }

  // ------------------------------------------------------------ nulls

  function NullCount(cells: seq<Option<real>>): (n: nat)
    ensures n == multiset(cells)[None]
    ensures n <= |cells|
  {
    if |cells| == 0 then 0
    else
      assert cells == [cells[0]] + cells[1..];
      (if cells[0].None? then 1 else 0) + NullCount(cells[1..])
  }

  /** `dropna()`: the non-null values in row order. */
  function NonNull(cells: seq<Option<real>>): (vs: seq<real>)
    ensures |vs| + NullCount(cells) == |cells|
    ensures forall x :: x in vs <==> Some(x) in cells
  {
    if |cells| == 0 then []
    else
      assert cells == [cells[0]] + cells[1..];
      (if cells[0].Some? then [cells[0].value] else []) + NonNull(cells[1..])
  }

  /** `dropna` keeps every present value exactly as often as it occurs. */
  lemma {:induction false} NonNullMultiplicity(cells: seq<Option<real>>)
    ensures forall x :: multiset(NonNull(cells))[x] == multiset(cells)[Some(x)]
  {
    if |cells| > 0 {
      var c, tl := cells[0], cells[1..];
      var head: seq<real> := if c.Some? then [c.value] else [];
      var rest := NonNull(tl);
      NonNullMultiplicity(tl);
      assert NonNull(cells) == head + rest;
      assert cells == [c] + tl;
      forall x ensures multiset(NonNull(cells))[x] == multiset(cells)[Some(x)] {
        calc {
          multiset(NonNull(cells))[x];
          multiset(head)[x] + multiset(rest)[x];
          { CellMultiplicity(c, x); }
          multiset([c])[Some(x)] + multiset(tl)[Some(x)];
          multiset([c] + tl)[Some(x)];
        }
      }
    }
  }

  lemma CellMultiplicity(c: Option<real>, x: real)
    ensures multiset(if c.Some? then [c.value] else [])[x] == multiset([c])[Some(x)]
  {
  }

  lemma NonNullNonEmpty(cells: seq<Option<real>>)
    ensures |NonNull(cells)| > 0 <==> exists i :: 0 <= i < |cells| && cells[i].Some?
  {
    var vs := NonNull(cells);
    if |vs| > 0 {
      assert vs[0] in vs;
      var i :| 0 <= i < |cells| && cells[i] == Some(vs[0]);
    }
    if i :| 0 <= i < |cells| && cells[i].Some? {
      assert cells[i].value in vs;
    }
  }

  /** `round(count / rows * 100, 2)`, or 0.0 for a table without rows. */
  function Percentage(count: nat, rows: nat): (pct: real)
    ensures rows == 0 ==> pct == 0.0
    ensures count <= rows ==> IsPercentage(pct)
    ensures rows > 0 ==> -0.005 <= pct - count as real / rows as real * 100.0 <= 0.005
  {
    if rows > 0 then
      RatioPercent(count, rows);
      Round2(count as real / rows as real * 100.0)
    else 0.0
  }

  lemma RatioPercent(count: nat, rows: nat)
    requires rows > 0
    ensures count <= rows ==> IsPercentage(Round2(count as real / rows as real * 100.0))
  {
    if count <= rows {
      var x := count as real / rows as real;
      assert x * rows as real == count as real;
      assert 0.0 <= x <= 1.0;
      Round2WithinPercent(x * 100.0);
    }
  }

  // ------------------------------------------------------------ missing values

  function MissingStatOf(c: Column, rows: nat): (s: MissingStat)
    requires |c.cells| == rows
    ensures s.missingCount == multiset(c.cells)[None]
    ensures MissingStatOk(s, rows)
    ensures rows == 0 ==> s.missingPercentage == 0.0
    ensures rows > 0 ==>
      -0.005 <= s.missingPercentage - s.missingCount as real / rows as real * 100.0 <= 0.005
  {
    var n := NullCount(c.cells);
    MissingStat(n, Percentage(n, rows))
  }

  function GetMissingValues(t: Table): (m: Entries<MissingStat>)
    requires WellFormed(t)
    ensures Keys(m) == Names(t.columns)
    ensures forall i :: 0 <= i < |m| ==> MissingStatOk(m[i].1, t.rowCount)
    ensures forall i :: 0 <= i < |m| ==> m[i].1.missingCount == multiset(t.columns[i].cells)[None]
    ensures forall i :: 0 <= i < |m| ==> m[i].1 == MissingStatOf(t.columns[i], t.rowCount)
  {
    seq(|t.columns|, i requires 0 <= i < |t.columns| =>
      (t.columns[i].name, MissingStatOf(t.columns[i], t.rowCount)))
  }

  // ------------------------------------------------------------ per-column sections

  /** Builds one section from facts aligned with the columns: an entry for
      each column that has facts, in column order. */
  function Present<V>(names: seq<string>, vals: seq<Option<V>>): (r: Entries<V>)
    requires |names| == |vals|
    ensures |r| <= |names|
    ensures IsSubsequence(Keys(r), names)
  {
    if |names| == 0 then []
    else
      var rest := Present(names[1..], vals[1..]);
      if vals[0].Some? then
        var r := [(names[0], vals[0].value)] + rest;
        assert Keys(r) == [names[0]] + Keys(rest);
        r
      else
        SubsequenceSkip(Keys(rest), names);
        rest
  }

  /** Every entry comes from a column that has facts. */
  lemma {:induction false} PresentSound<V>(names: seq<string>, vals: seq<Option<V>>)
    requires |names| == |vals|
    ensures forall k :: 0 <= k < |Present(names, vals)| ==>
      exists i :: 0 <= i < |names| && names[i] == Present(names, vals)[k].0 && vals[i] == Some(Present(names, vals)[k].1)
  {
    if |names| > 0 {
      var r, rest := Present(names, vals), Present(names[1..], vals[1..]);
      assert r == if vals[0].Some? then [(names[0], vals[0].value)] + rest else rest;
      PresentSound(names[1..], vals[1..]);
      forall k | 0 <= k < |r|
        ensures exists i :: 0 <= i < |names| && names[i] == r[k].0 && vals[i] == Some(r[k].1)
      {
        if vals[0].Some? && k == 0 {
          assert names[0] == r[0].0 && vals[0] == Some(r[0].1);
        } else {
          var k' := if vals[0].Some? then k - 1 else k;
          assert r[k] == rest[k'];
          var i :| 0 <= i < |names[1..]| && names[1..][i] == rest[k'].0 && vals[1..][i] == Some(rest[k'].1);
          assert names[i + 1] == r[k].0 && vals[i + 1] == Some(r[k].1);
        }
      }
    } else {
      assert Present(names, vals) == [];
    }
  }

  /** Every column that has facts gets its entry. */
  lemma {:induction false} PresentComplete<V>(names: seq<string>, vals: seq<Option<V>>)
    requires |names| == |vals|
    ensures forall i :: 0 <= i < |vals| && vals[i].Some? ==> (names[i], vals[i].value) in Present(names, vals)
  {
    if |names| > 0 {
      var r, rest := Present(names, vals), Present(names[1..], vals[1..]);
      PresentComplete(names[1..], vals[1..]);
      forall i | 0 <= i < |vals| && vals[i].Some?
        ensures (names[i], vals[i].value) in r
      {
        if i > 0 {
          assert names[1..][i - 1] == names[i] && vals[1..][i - 1] == vals[i];
          assert (names[i], vals[i].value) in rest;
        }
      }
    }
  }

  /** With distinct names, a column has an entry exactly when it has facts. */
  lemma PresentKeys<V>(names: seq<string>, vals: seq<Option<V>>)
    requires |names| == |vals| && Distinct(names)
    ensures forall i :: 0 <= i < |names| ==> (names[i] in Keys(Present(names, vals)) <==> vals[i].Some?)
    ensures forall i, k :: 0 <= i < |names| && 0 <= k < |Present(names, vals)| && Present(names, vals)[k].0 == names[i] ==>
      vals[i] == Some(Present(names, vals)[k].1)
  {
    var r := Present(names, vals);
    PresentSound(names, vals);
    PresentComplete(names, vals);
    forall i, k | 0 <= i < |names| && 0 <= k < |r| && r[k].0 == names[i] ensures vals[i] == Some(r[k].1) {
      var j :| 0 <= j < |names| && names[j] == r[k].0 && vals[j] == Some(r[k].1);
      assert j == i;
    }
    forall i | 0 <= i < |names| ensures names[i] in Keys(r) <==> vals[i].Some? {
      if names[i] in Keys(r) {
        var k :| 0 <= k < |r| && Keys(r)[k] == names[i];
        var j :| 0 <= j < |names| && names[j] == r[k].0 && vals[j] == Some(r[k].1);
      }
      if vals[i].Some? {
        var k :| 0 <= k < |r| && r[k] == (names[i], vals[i].value);
        assert Keys(r)[k] == names[i];
      }
    }
  }

  /** A section built from per-column facts: a column is a key exactly when
      it has facts, and its entry holds those facts. */
  lemma SectionKeys<V>(cs: seq<Column>, vals: seq<Option<V>>)
    requires |cs| == |vals| && Distinct(Names(cs))
    ensures forall i :: 0 <= i < |cs| ==> (cs[i].name in Keys(Present(Names(cs), vals)) <==> vals[i].Some?)
    ensures forall i, k :: 0 <= i < |cs| && 0 <= k < |Present(Names(cs), vals)| && Present(Names(cs), vals)[k].0 == cs[i].name ==>
      vals[i] == Some(Present(Names(cs), vals)[k].1)
  {
    PresentKeys(Names(cs), vals);
  }

  /** A property every column's facts have holds for every entry. */
  lemma SectionEntries<V>(names: seq<string>, vals: seq<Option<V>>, ok: V -> bool)
    requires |names| == |vals|
    requires forall i :: 0 <= i < |vals| && vals[i].Some? ==> ok(vals[i].value)
    ensures forall k :: 0 <= k < |Present(names, vals)| ==> ok(Present(names, vals)[k].1)
  {
    var m := Present(names, vals);
    PresentSound(names, vals);
    forall k | 0 <= k < |m| ensures ok(m[k].1) {
      var i :| 0 <= i < |names| && names[i] == m[k].0 && vals[i] == Some(m[k].1);
    }
  }

  // ------------------------------------------------------------ descriptive stats

  /** `m` is one of the non-null values and no non-null value is smaller. */
  predicate IsSmallest(m: real, cells: seq<Option<real>>) {
    Some(m) in cells && forall i :: 0 <= i < |cells| && cells[i].Some? ==> m <= cells[i].value
  }

  /** `m` is one of the non-null values and no non-null value is larger. */
  predicate IsLargest(m: real, cells: seq<Option<real>>) {
    Some(m) in cells && forall i :: 0 <= i < |cells| && cells[i].Some? ==> cells[i].value <= m
  }

  /** Column `c` has at least one non-null cell. */
  predicate HasValue(c: Column) {
    exists j :: 0 <= j < |c.cells| && c.cells[j].Some?
  }

  /** min, max, rounded mean and median of the non-null values of a numeric
      column; nothing for other columns or when every cell is null. */
  function DescribeColumn(c: Column): (r: Option<DescriptiveStat>)
    ensures r.Some? <==> IsNumeric(c.storage) && HasValue(c)
    ensures r.Some? ==> DescriptiveStatOk(r.value)
    ensures r.Some? ==> IsSmallest(r.value.min, c.cells) && IsLargest(r.value.max, c.cells)
    ensures r.Some? ==> r.value.min - 0.005 <= r.value.mean <= r.value.max + 0.005
    ensures r.Some? ==> |NonNull(c.cells)| > 0
    ensures r.Some? ==> r.value.median == Median(Sort(NonNull(c.cells)))
    ensures r.Some? ==> r.value.mean == Round2(Mean(NonNull(c.cells)))
  {
    var vs := NonNull(c.cells);
    NonNullNonEmpty(c.cells);
    if !IsNumeric(c.storage) || |vs| == 0 then None
    else
      var sorted := Sort(vs);
      var lo, hi := Min(vs), Max(vs);
      MeanBounds(vs);
      SortedEnds(vs);
      ExtremesOfCells(c.cells);
      Some(DescriptiveStat(lo, hi, Round2(Mean(vs)), Median(sorted)))
  }

  lemma ExtremesOfCells(cells: seq<Option<real>>)
    requires |NonNull(cells)| > 0
    ensures IsSmallest(Min(NonNull(cells)), cells)
    ensures IsLargest(Max(NonNull(cells)), cells)
  {
    var vs := NonNull(cells);
    forall i | 0 <= i < |cells| && cells[i].Some?
      ensures Min(vs) <= cells[i].value <= Max(vs)
    {
      assert cells[i].value in vs;
    }
  }

  /** The per-column facts the section is built from, in column order. */
  function DescriptiveFacts(t: Table): (vals: seq<Option<DescriptiveStat>>)
    requires WellFormed(t)
    ensures |vals| == |t.columns|
    ensures forall i :: 0 <= i < |vals| ==> vals[i] == DescribeColumn(t.columns[i])
  {
    seq(|t.columns|, i requires 0 <= i < |t.columns| => DescribeColumn(t.columns[i]))
  }

  /** Descriptive statistics of the numeric columns that have a value. */
  function GetDescriptiveStats(t: Table): (m: Entries<DescriptiveStat>)
    requires WellFormed(t)
    ensures IsSubsequence(Keys(m), Names(t.columns))
    ensures forall k :: 0 <= k < |m| ==> DescriptiveStatOk(m[k].1)
    ensures forall i :: 0 <= i < |t.columns| ==>
      (t.columns[i].name in Keys(m) <==> IsNumeric(t.columns[i].storage) && HasValue(t.columns[i]))
    ensures forall i, k :: 0 <= i < |t.columns| && 0 <= k < |m| && m[k].0 == t.columns[i].name ==>
      DescribeColumn(t.columns[i]) == Some(m[k].1)
  {
    var cs := t.columns;
    var vals := DescriptiveFacts(t);
    SectionKeys(cs, vals);
    SectionEntries(Names(cs), vals, s => DescriptiveStatOk(s));
    Present(Names(cs), vals)
  }

  // ------------------------------------------------------------ outliers

  /** Quartiles and the 1.5 IQR fence around them, before rounding. */
  datatype Fence = Fence(q1: real, q3: real, lower: real, upper: real)

  function FenceOf(vs: seq<real>): (f: Fence)
    requires |vs| > 0
    ensures f.lower <= f.q1 <= f.q3 <= f.upper
    ensures Min(vs) <= f.q1 && f.q3 <= Max(vs)
    ensures f.q1 == Quantile(Sort(vs), 0.25) && f.q3 == Quantile(Sort(vs), 0.75)
    ensures f.lower == f.q1 - 1.5 * (f.q3 - f.q1) && f.upper == f.q3 + 1.5 * (f.q3 - f.q1)
  {
    var sorted := Sort(vs);
    var q1 := Quantile(sorted, 0.25);
    var q3 := Quantile(sorted, 0.75);
    QuantileMonotone(sorted, 0.25, 0.75);
    SortedEnds(vs);
    var iqr := q3 - q1;
    Fence(q1, q3, q1 - 1.5 * iqr, q3 + 1.5 * iqr)
  }

  /** Strictly outside the fence. */
  predicate IsOutlier(x: real, f: Fence) {
    x < f.lower || x > f.upper
  }

  /** The outlier test of fence `f` as a predicate on values. */
  function Outside(f: Fence): real -> bool {
    x => IsOutlier(x, f)
  }

  /** Number of values strictly outside the unrounded fence. */
  function OutlierCount(vs: seq<real>): (n: nat)
    requires |vs| > 0
    ensures n <= |vs|
    ensures n == |Filter(vs, Outside(FenceOf(vs)))|
    ensures n == 0 <==> forall i :: 0 <= i < |vs| ==> !IsOutlier(vs[i], FenceOf(vs))
  {
    Count(vs, Outside(FenceOf(vs)))
  }

  /** IQR outlier facts for a numeric column with at least one non-null
      value: the count uses the unrounded fence, the reported bounds and
      quartiles are rounded. */
  function ColumnOutliers(c: Column, rows: nat): (r: Option<OutlierStat>)
    requires |c.cells| == rows
    ensures r.Some? <==> IsNumeric(c.storage) && HasValue(c)
    ensures r.Some? ==> OutlierStatOk(r.value, rows)
    ensures r.Some? ==> r.value.outlierCount + multiset(c.cells)[None] <= rows
    ensures r.Some? ==> |NonNull(c.cells)| > 0
    ensures r.Some? ==> r.value.outlierCount == OutlierCount(NonNull(c.cells))
    ensures r.Some? ==> r.value.outlierPercentage == Percentage(r.value.outlierCount, rows)
    ensures r.Some? ==>
      var f := FenceOf(NonNull(c.cells));
      && r.value.q1 == Round2(f.q1) && r.value.q3 == Round2(f.q3)
      && r.value.lowerBound == Round2(f.lower) && r.value.upperBound == Round2(f.upper)
  {
    var vs := NonNull(c.cells);
    NonNullNonEmpty(c.cells);
    if !IsNumeric(c.storage) || |vs| == 0 then None
    else
      var f := FenceOf(vs);
      var n := OutlierCount(vs);
      Round2Monotone(f.lower, f.q1);
      Round2Monotone(f.q1, f.q3);
      Round2Monotone(f.q3, f.upper);
      Some(OutlierStat(n, Percentage(n, rows),
                       Round2(f.lower), Round2(f.upper), Round2(f.q1), Round2(f.q3)))
  }

  /** A column whose values are all equal has no outliers: both quartiles
      and both fence ends collapse onto that value. */
  lemma ConstantColumnHasNoOutliers(vs: seq<real>, v: real)
    requires |vs| > 0 && forall i :: 0 <= i < |vs| ==> vs[i] == v
    ensures OutlierCount(vs) == 0
  {
    var f := FenceOf(vs);
    assert Min(vs) == v && Max(vs) == v;
    assert f.lower == v == f.upper;
  }

  /** A value between the quartiles is never an outlier. */
  lemma InterquartileValuesAreInliers(vs: seq<real>, x: real)
    requires |vs| > 0 && FenceOf(vs).q1 <= x <= FenceOf(vs).q3
    ensures !IsOutlier(x, FenceOf(vs))
  {
  }

  /** The per-column facts the section is built from, in column order. */
  function OutlierFacts(t: Table): (vals: seq<Option<OutlierStat>>)
    requires WellFormed(t)
    ensures |vals| == |t.columns|
    ensures forall i :: 0 <= i < |vals| ==> vals[i] == ColumnOutliers(t.columns[i], t.rowCount)
  {
    seq(|t.columns|, i requires 0 <= i < |t.columns| => ColumnOutliers(t.columns[i], t.rowCount))
  }

  /** Outlier facts of the numeric columns that have a value. */
  function DetectOutliersIqr(t: Table): (m: Entries<OutlierStat>)
    requires WellFormed(t)
    ensures IsSubsequence(Keys(m), Names(t.columns))
    ensures forall k :: 0 <= k < |m| ==> OutlierStatOk(m[k].1, t.rowCount)
    ensures forall i :: 0 <= i < |t.columns| ==>
      (t.columns[i].name in Keys(m) <==> IsNumeric(t.columns[i].storage) && HasValue(t.columns[i]))
    ensures forall i, k :: 0 <= i < |t.columns| && 0 <= k < |m| && m[k].0 == t.columns[i].name ==>
      ColumnOutliers(t.columns[i], t.rowCount) == Some(m[k].1)
  {
    var cs := t.columns;
    var vals := OutlierFacts(t);
    SectionKeys(cs, vals);
    SectionEntries(Names(cs), vals, s => OutlierStatOk(s, t.rowCount));
    Present(Names(cs), vals)
  }

  // ------------------------------------------------------------ negatives

  /** Column `c` holds a negative non-null value (zero is not negative). */
  predicate HasNegative(c: Column) {
    exists j :: 0 <= j < |c.cells| && c.cells[j].Some? && c.cells[j].value < 0.0
  }

  predicate IsNegative(x: real) {
    x < 0.0
  }

  /** Count of negative non-null values of a numeric column, present only
      when that count is positive. */
  function ColumnNegatives(c: Column, rows: nat): (r: Option<NegativeStat>)
    requires |c.cells| == rows
    ensures r.Some? <==> IsNumeric(c.storage) && HasNegative(c)
    ensures r.Some? ==> NegativeStatOk(r.value, rows)
    ensures r.Some? ==> r.value.negativeCount == |Filter(NonNull(c.cells), IsNegative)|
    ensures r.Some? ==> r.value.negativePercentage == Percentage(r.value.negativeCount, rows)
  {
    if !IsNumeric(c.storage) then None
    else
      var vs := NonNull(c.cells);
      var n := Count(vs, IsNegative);
      NegativesOfCells(c.cells);
      if n > 0 then Some(NegativeStat(n, Percentage(n, rows))) else None
  }

  lemma NegativesOfCells(cells: seq<Option<real>>)
    ensures Count(NonNull(cells), IsNegative) > 0 <==>
      exists i :: 0 <= i < |cells| && cells[i].Some? && cells[i].value < 0.0
  {
    var vs := NonNull(cells);
    if Count(vs, IsNegative) > 0 {
      var k :| 0 <= k < |vs| && vs[k] < 0.0;
      assert vs[k] in vs;
      var i :| 0 <= i < |cells| && cells[i] == Some(vs[k]);
    }
    if i :| 0 <= i < |cells| && cells[i].Some? && cells[i].value < 0.0 {
      assert cells[i].value in vs;
      var k :| 0 <= k < |vs| && vs[k] == cells[i].value;
    }
  }

  /** The per-column facts the section is built from, in column order. */
  function NegativeFacts(t: Table): (vals: seq<Option<NegativeStat>>)
    requires WellFormed(t)
    ensures |vals| == |t.columns|
    ensures forall i :: 0 <= i < |vals| ==> vals[i] == ColumnNegatives(t.columns[i], t.rowCount)
  {
    seq(|t.columns|, i requires 0 <= i < |t.columns| => ColumnNegatives(t.columns[i], t.rowCount))
  }

  /** Negative-value facts of the numeric columns holding a negative value. */
  function DetectNegativeValues(t: Table): (m: Entries<NegativeStat>)
    requires WellFormed(t)
    ensures IsSubsequence(Keys(m), Names(t.columns))
    ensures forall k :: 0 <= k < |m| ==> NegativeStatOk(m[k].1, t.rowCount)
    ensures forall i :: 0 <= i < |t.columns| ==>
      (t.columns[i].name in Keys(m) <==> IsNumeric(t.columns[i].storage) && HasNegative(t.columns[i]))
    ensures forall i, k :: 0 <= i < |t.columns| && 0 <= k < |m| && m[k].0 == t.columns[i].name ==>
      ColumnNegatives(t.columns[i], t.rowCount) == Some(m[k].1)
  {
    var cs := t.columns;
    var vals := NegativeFacts(t);
    SectionKeys(cs, vals);
    SectionEntries(Names(cs), vals, s => NegativeStatOk(s, t.rowCount));
    Present(Names(cs), vals)
  }

  // ------------------------------------------------------------ profile

  /** The whole profile of the loaded table, or `FileNotFound` when there is
      nothing at the path (`None`). */
  function GenerateProfile(filePath: string, source: Option<Table>): (r: Result<Profile, ProfileError>)
    requires source.Some? ==> WellFormed(source.value)
    ensures source.None? <==> r.Failure?
    ensures source.None? ==> r.error == FileNotFound(filePath)
    ensures r.Success? ==> Consistent(r.value)
    ensures r.Success? ==> r.value.basicStats.rowCount == source.value.rowCount
    ensures r.Success? ==> r.value.basicStats.columns == Names(source.value.columns)
    ensures r.Success? ==>
      var t := source.value;
      && r.value.filePath == filePath
      && r.value.basicStats == GetBasicStats(t)
      && r.value.columnTypes == GetColumnTypes(t)
      && r.value.missingValues == Some(GetMissingValues(t))
      && r.value.descriptiveStats == GetDescriptiveStats(t)
      && r.value.outliers == Some(DetectOutliersIqr(t))
      && r.value.negativeValues == Some(DetectNegativeValues(t))
  {
    match source
    case None => Failure(FileNotFound(filePath))
    case Some(t) =>
      Success(Profile(filePath, GetBasicStats(t), GetColumnTypes(t), Some(GetMissingValues(t)),
                      GetDescriptiveStats(t), Some(DetectOutliersIqr(t)), Some(DetectNegativeValues(t))))
  }
}
