/** The profile record the profiler produces and the decision engine reads:
    one field per top-level key of the profile mapping, each per-column
    section an ordered list of (column name, facts) pairs. */
module DataProfile {
  import opened Wrappers
  import opened Seqs

  /** How a column is stored after loading (pandas' dtype family). */
  datatype StorageType = IntegerStorage | FloatStorage | BoolStorage | DatetimeStorage | ObjectStorage

  /** Coarse meaning of a column. */
  datatype SemanticType = IntegerType | NumericType | BooleanType | DatetimeType | DateStringType | StringType
  {
    function Name(): string {
      match this
      case IntegerType => "integer"
      case NumericType => "numeric"
      case BooleanType => "boolean"
      case DatetimeType => "datetime"
      case DateStringType => "date_string"
      case StringType => "string"
    }
  }

  /** The enum loses nothing against the profile's strings: different
      semantic types are reported under different names. */
  lemma SemanticNamesDistinct(a: SemanticType, b: SemanticType)
    ensures a.Name() == b.Name() ==> a == b
  {
  }

  /** A per-column section: (column name, facts) in column order. */
  type Entries<V> = seq<(string, V)>

  function Keys<V>(m: Entries<V>): (ks: seq<string>)
    ensures |ks| == |m|
    ensures forall i :: 0 <= i < |m| ==> ks[i] == m[i].0
  {
    seq(|m|, i requires 0 <= i < |m| => m[i].0)
  }

  datatype BasicStats = BasicStats(rowCount: nat, columnCount: nat, columns: seq<string>)

  datatype ColumnType = ColumnType(storage: StorageType, semanticType: SemanticType)

  datatype MissingStat = MissingStat(missingCount: nat, missingPercentage: real)

  /** Standard deviation is not part of this model. */
  datatype DescriptiveStat = DescriptiveStat(min: real, max: real, mean: real, median: real)

  datatype OutlierStat = OutlierStat(
    outlierCount: nat, outlierPercentage: real,
    lowerBound: real, upperBound: real, q1: real, q3: real)

  datatype NegativeStat = NegativeStat(negativeCount: nat, negativePercentage: real)

  /** `None` for a section stands for a key absent from the profile mapping. */
  datatype Profile = Profile(
    filePath: string,
    basicStats: BasicStats,
    columnTypes: Entries<ColumnType>,
    missingValues: Option<Entries<MissingStat>>,
    descriptiveStats: Entries<DescriptiveStat>,
    outliers: Option<Entries<OutlierStat>>,
    negativeValues: Option<Entries<NegativeStat>>)

  predicate IsPercentage(x: real) {
    0.0 <= x <= 100.0
  }

  predicate MissingStatOk(s: MissingStat, rows: nat) {
    s.missingCount <= rows && IsPercentage(s.missingPercentage)
  }

  predicate DescriptiveStatOk(s: DescriptiveStat) {
    s.min <= s.median <= s.max
  }

  predicate OutlierStatOk(s: OutlierStat, rows: nat) {
    && s.outlierCount <= rows && IsPercentage(s.outlierPercentage)
    && s.lowerBound <= s.q1 <= s.q3 <= s.upperBound
  }

  predicate NegativeStatOk(s: NegativeStat, rows: nat) {
    1 <= s.negativeCount <= rows && IsPercentage(s.negativePercentage)
  }

  /** The facts every profile built from a table satisfies: the sections
      agree with the column list, counts never exceed the row count,
      percentages lie in [0, 100] and the order statistics are ordered. */
  predicate Consistent(p: Profile) {
    var rows := p.basicStats.rowCount;
    var cols := p.basicStats.columns;
    && p.basicStats.columnCount == |cols|
    && Distinct(cols)
    && Keys(p.columnTypes) == cols
    && p.missingValues.Some? && Keys(p.missingValues.value) == cols
    && (forall i :: 0 <= i < |p.missingValues.value| ==> MissingStatOk(p.missingValues.value[i].1, rows))
    && IsSubsequence(Keys(p.descriptiveStats), cols)
    && (forall i :: 0 <= i < |p.descriptiveStats| ==> DescriptiveStatOk(p.descriptiveStats[i].1))
    && p.outliers.Some? && IsSubsequence(Keys(p.outliers.value), cols)
    && (forall i :: 0 <= i < |p.outliers.value| ==> OutlierStatOk(p.outliers.value[i].1, rows))
    && p.negativeValues.Some? && IsSubsequence(Keys(p.negativeValues.value), cols)
    && (forall i :: 0 <= i < |p.negativeValues.value| ==> NegativeStatOk(p.negativeValues.value[i].1, rows))
  }
}
