/** How the pieces fit: a profile built from a table is always analysable,
    and the decision engine's behaviour on the profiles its own tests use. */
module Pipeline {
  import opened Wrappers
  import opened Seqs
  import opened DataProfile
  import opened Profiler
  import opened QualityAgent

  /** Analysing a profile the profiler built never fails, copies the row
      and column counts of the table, and raises at most one issue per
      column in each column check. */
  lemma ProfileThenAnalyze(config: AgentConfig, path: string, t: Table)
    requires WellFormed(t)
    ensures var p := GenerateProfile(path, Some(t)).value;
      && Analyze(config, p).Success?
      && Analyze(config, p).value.stats.rowCount == t.rowCount
      && Analyze(config, p).value.stats.columnCount == |t.columns|
      && Distinct(IssueColumns(CheckMissingValues(p.missingValues.value, config.criticalColumns)))
      && Distinct(IssueColumns(CheckOutliers(p.outliers)))
      && Distinct(IssueColumns(CheckNegativeValues(p.negativeValues, config.noNegativeColumns)))
  {
    var p := GenerateProfile(path, Some(t)).value;
    var cols := p.basicStats.columns;
    assert Distinct(Keys(p.missingValues.value));
    SubsequenceDistinct(Keys(EntriesOf(p.outliers)), cols);
    SubsequenceDistinct(Keys(EntriesOf(p.negativeValues)), cols);
    ColumnChecksOnePerColumn(p, config);
  }

  function SampleProfile(rows: nat, missing: Entries<MissingStat>, negatives: Entries<NegativeStat>): Profile {
    Profile("sample.csv", BasicStats(rows, 5, []), [], Some(missing), [], Some([]), Some(negatives))
  }

  /** A dataset without findings is accepted with no issues. */
  lemma CleanDatasetAccepted()
    ensures Analyze(DefaultConfig, SampleProfile(1000, [], [])).Success?
    ensures Analyze(DefaultConfig, SampleProfile(1000, [], [])).value.decision == Accept
    ensures Analyze(DefaultConfig, SampleProfile(1000, [], [])).value.issues == []
  {
  }

  /** A profile whose only fact is one missing-value entry yields the one
      issue, if any, raised for that entry. */
  lemma OneMissingEntry(rows: nat, e: (string, MissingStat))
    requires rows > 0
    ensures var r := Analyze(DefaultConfig, SampleProfile(rows, [e], []));
      && r.Success?
      && (MissingIssueFor(e, CriticalColumns).Some? ==> r.value.issues == [MissingIssueFor(e, CriticalColumns).value])
  {
    OneMissingCheck(e, CriticalColumns);
    assert CheckOutliers(Some([])) == [];
    assert CheckNegativeValues(Some([]), NoNegativeColumns) == [];
  }

  lemma OneMissingCheck(e: (string, MissingStat), critical: set<string>)
    ensures MissingIssueFor(e, critical).Some? ==>
      CheckMissingValues([e], critical) == [MissingIssueFor(e, critical).value]
  {
    var f := (e: (string, MissingStat)) => MissingIssueFor(e, critical);
    assert [e][1..] == [];
    assert CheckMissingValues([e], critical) == CollectIssues([e], f);
  }

  /** 25% missing in `age`, a critical column, is a medium issue and a
      WARNING. */
  lemma CriticalColumnWarning()
    ensures var r := Analyze(DefaultConfig, SampleProfile(1000, [("age", MissingStat(250, 25.0))], []));
      && r.Success? && r.value.decision == Warning
      && RaisesWith(r.value.issues, "DQ-01", "age", Medium)
  {
    var e := ("age", MissingStat(250, 25.0));
    OneMissingEntry(1000, e);
    assert "age" in CriticalColumns;
    var iss := MissingIssueFor(e, CriticalColumns);
    assert iss.Some? && iss.value.severity == Medium;
    assert iss.value in [iss.value];
  }

  /** 50% missing in `user_id` is a critical issue and a REJECT. */
  lemma CriticalColumnReject()
    ensures var r := Analyze(DefaultConfig, SampleProfile(1000, [("user_id", MissingStat(500, 50.0))], []));
      && r.Success? && r.value.decision == Reject
      && RaisesWith(r.value.issues, "DQ-01", "user_id", Critical)
  {
    var e := ("user_id", MissingStat(500, 50.0));
    OneMissingEntry(1000, e);
    assert "user_id" in CriticalColumns;
    var iss := MissingIssueFor(e, CriticalColumns);
    assert iss.Some? && iss.value.severity == Critical;
    assert iss.value in [iss.value];
  }

  /** Negative values in a column where they are allowed raise nothing. */
  lemma AllowedNegativesAccepted()
    ensures var r := Analyze(DefaultConfig, SampleProfile(1000, [], [("balance", NegativeStat(3, 0.3))]));
      r.Success? && r.value.decision == Accept
  {
    var p := SampleProfile(1000, [], [("balance", NegativeStat(3, 0.3))]);
    assert "balance" !in NoNegativeColumns;
    assert forall e :: e in EntriesOf(p.negativeValues) ==> e.0 !in NoNegativeColumns;
    AnalyzeAcceptsExactly(DefaultConfig, p);
  }

  /** An empty dataset is rejected whatever its sections say. */
  lemma EmptyDatasetRejected()
    ensures var r := Analyze(DefaultConfig, SampleProfile(0, [("age", MissingStat(0, 0.0))], []));
      r.Success? && r.value.decision == Reject && r.value.issues == [EmptyDatasetIssue]
  {
  }
}
