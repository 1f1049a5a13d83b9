/** The decision engine: four rule checks over a data profile (empty dataset,
    missing values, outliers, impossible negatives), a global decision from
    the severities of the issues found, and a one-sentence summary. */
module QualityAgent {
  import opened Wrappers
  import opened Seqs
  import opened Text
  import opened Numeric
  import opened DataProfile
  import opened Json

  datatype Decision = Accept | Warning | Reject
  {
    function Value(): string {
      match this
      case Accept => "ACCEPT"
      case Warning => "WARNING"
      case Reject => "REJECT"
    }

    /** ACCEPT < WARNING < REJECT. */
    function Rank(): nat {
      match this
      case Accept => 0
      case Warning => 1
      case Reject => 2
    }
  }

  datatype Severity = Low | Medium | High | Critical
  {
    function Value(): string {
      match this
      case Low => "low"
      case Medium => "medium"
      case High => "high"
      case Critical => "critical"
    }

    /** low < medium < high < critical. */
    function Rank(): nat {
      match this
      case Low => 0
      case Medium => 1
      case High => 2
      case Critical => 3
    }

    /** The severities that force a REJECT. */
    predicate IsBlocking() {
      this == High || this == Critical
    }
  }

  /** One detected problem; `kind` is the issue's `type` field. */
  datatype Issue = Issue(
    kind: string,
    severity: Severity,
    ruleReference: string,
    explanation: string,
    column: Option<string>)

  /** The report's `stats` mapping. */
  datatype ReportStats = ReportStats(rowCount: nat, columnCount: nat, issuesCount: nat)

  datatype QualityReport = QualityReport(
    decision: Decision,
    summary: string,
    issues: seq<Issue>,
    stats: ReportStats)

  /** A profile key the analysis indexes directly but that is absent. */
  datatype AnalysisError = MissingKey(key: string)

  /** The two column-name sets the checks consult. */
  datatype AgentConfig = AgentConfig(criticalColumns: set<string>, noNegativeColumns: set<string>)

  const MissingWarningThreshold: real := 20.0
  const MissingRejectThreshold: real := 40.0
  const OutlierWarningThreshold: real := 5.0

  /** Columns whose missing values are one severity step worse. */
  const CriticalColumns: set<string> := {
    "user_id", "age", "gender", "country", "income_level",
    "weekly_purchases", "monthly_spend", "average_order_value",
    "last_purchase_date"
  }

  /** Columns in which a negative value is impossible. */
  const NoNegativeColumns: set<string> := {
    "age", "weekly_purchases", "monthly_spend", "average_order_value",
    "household_size", "referral_count", "impulse_purchases_per_month",
    "hobby_count", "daily_session_time_minutes", "product_views_per_day",
    "ad_views_per_day", "ad_clicks_per_day", "wishlist_items_count",
    "cart_items_average", "checkout_abandonments_per_month",
    "account_age_months"
  }

  const DefaultConfig: AgentConfig := AgentConfig(CriticalColumns, NoNegativeColumns)

  // ---------------------------------------------------------------------
  // Issue lists
  // ---------------------------------------------------------------------

  function IssueColumns(issues: seq<Issue>): (cs: seq<Option<string>>)
    ensures |cs| == |issues|
    ensures forall k :: 0 <= k < |issues| ==> cs[k] == issues[k].column
  {
    seq(|issues|, k requires 0 <= k < |issues| => issues[k].column)
  }

  function SomeKeys<V>(m: Entries<V>): (cs: seq<Option<string>>)
    ensures |cs| == |m|
    ensures forall i :: 0 <= i < |m| ==> cs[i] == Some(m[i].0)
  {
    seq(|m|, i requires 0 <= i < |m| => Some(m[i].0))
  }

  lemma SomeKeysDistinct<V>(m: Entries<V>)
    requires Distinct(Keys(m))
    ensures Distinct(SomeKeys(m))
  {
    var ks := Keys(m);
    assert forall i, j :: 0 <= i < j < |m| ==> ks[i] != ks[j];
  }

  /** Walks a per-column section in order and keeps the issue, if any, that
      `f` raises for each entry; the shape shared by the three column checks. */
  function CollectIssues<V>(m: Entries<V>, f: ((string, V)) -> Option<Issue>): (r: seq<Issue>)
    requires forall e :: e in m && f(e).Some? ==> f(e).value.column == Some(e.0)
    ensures IsSubsequence(IssueColumns(r), SomeKeys(m))
  {
    if |m| == 0 then []
    else
      var rest := CollectIssues(m[1..], f);
      assert SomeKeys(m)[1..] == SomeKeys(m[1..]);
      match f(m[0])
      case Some(iss) =>
        assert IssueColumns([iss] + rest)[1..] == IssueColumns(rest);
        [iss] + rest
      case None =>
        SubsequenceSkip(IssueColumns(rest), SomeKeys(m));
        rest
  }

  /** Every collected issue is the one `f` raises for some entry. */
  lemma {:induction false} CollectSound<V>(m: Entries<V>, f: ((string, V)) -> Option<Issue>)
    requires forall e :: e in m && f(e).Some? ==> f(e).value.column == Some(e.0)
    ensures forall iss :: iss in CollectIssues(m, f) ==> exists e :: e in m && f(e) == Some(iss)
  {
    if |m| > 0 {
      var r, rest := CollectIssues(m, f), CollectIssues(m[1..], f);
      CollectSound(m[1..], f);
      assert r == if f(m[0]).Some? then [f(m[0]).value] + rest else rest;
      forall iss | iss in r ensures exists e :: e in m && f(e) == Some(iss) {
        if iss in rest {
          var e :| e in m[1..] && f(e) == Some(iss);
          assert e in m;
        } else {
          assert m[0] in m;
        }
      }
    } else {
      assert CollectIssues(m, f) == [];
    }
  }

  /** Every issue `f` raises for an entry is collected. */
  lemma {:induction false} CollectComplete<V>(m: Entries<V>, f: ((string, V)) -> Option<Issue>)
    requires forall e :: e in m && f(e).Some? ==> f(e).value.column == Some(e.0)
    ensures forall e :: e in m && f(e).Some? ==> f(e).value in CollectIssues(m, f)
  {
    if |m| > 0 {
      var r, rest := CollectIssues(m, f), CollectIssues(m[1..], f);
      CollectComplete(m[1..], f);
      assert r == if f(m[0]).Some? then [f(m[0]).value] + rest else rest;
      forall e | e in m && f(e).Some? ensures f(e).value in r {
        if e != m[0] {
          assert e in m[1..];
        }
      }
    }
  }

  // ---------------------------------------------------------------------
  // DQ-02: empty dataset
  // ---------------------------------------------------------------------

  const EmptyDatasetIssue: Issue := Issue(
    "Empty dataset", Critical, "DQ-02",
    "Dataset contains 0 rows. Cannot perform quality analysis on empty data.",
    None)

  /** The issues the emptiness check raises; the analysis stops after it
      exactly when it raises one. */
  function CheckEmptyDataset(basic: BasicStats): (r: seq<Issue>)
    ensures r != [] <==> basic.rowCount == 0
    ensures forall iss :: iss in r ==> iss.severity == Critical && iss.ruleReference == "DQ-02"
  {
    if basic.rowCount == 0 then [EmptyDatasetIssue] else []
  }

  // ---------------------------------------------------------------------
  // DQ-01: missing values
  // ---------------------------------------------------------------------

  /** The severity of the missing-value issue for a column with `pct`
      percent missing values, or `None` below the warning threshold: two
      bands, each one step worse for a critical column. */
  function MissingSeverity(pct: real, critical: bool): (r: Option<Severity>)
    ensures r.None? <==> pct < MissingWarningThreshold
    ensures r.Some? ==> (r.value.IsBlocking() <==> pct >= MissingRejectThreshold)
    ensures r.Some? ==> (critical <==> r.value in {Medium, Critical})
  {
    if pct >= MissingRejectThreshold then Some(if critical then Critical else High)
    else if pct >= MissingWarningThreshold then Some(if critical then Medium else Low)
    else None
  }

  /** Rank of an optional severity; no issue ranks below every severity. */
  function OptionRank(s: Option<Severity>): int {
    match s
    case None => -1
    case Some(v) => v.Rank()
  }

  /** A higher missing percentage never yields a milder issue. */
  lemma MissingSeverityMonotone(pct: real, pct': real, critical: bool)
    requires pct <= pct'
    ensures OptionRank(MissingSeverity(pct, critical)) <= OptionRank(MissingSeverity(pct', critical))
  {
  }

  /** Membership in the critical set raises an issue by exactly one rank
      and never creates or removes one. */
  lemma CriticalRaisesOneRank(pct: real)
    ensures MissingSeverity(pct, true).Some? <==> MissingSeverity(pct, false).Some?
    ensures MissingSeverity(pct, true).Some? ==>
      MissingSeverity(pct, true).value.Rank() == MissingSeverity(pct, false).value.Rank() + 1
  {
  }

  function MissingIssueFor(e: (string, MissingStat), critical: set<string>): (r: Option<Issue>)
    ensures r.Some? ==> r.value.column == Some(e.0)
    ensures r.Some? ==> r.value.ruleReference == "DQ-01" && r.value.kind == "Missing values"
    ensures MissingSeverity(e.1.missingPercentage, e.0 in critical) == (if r.Some? then Some(r.value.severity) else None)
  {
    var (col, stat) := e;
    var pct := stat.missingPercentage;
    match MissingSeverity(pct, col in critical)
    case None => None
    case Some(severity) =>
      var threshold := if pct >= MissingRejectThreshold then MissingRejectThreshold else MissingWarningThreshold;
      Some(Issue(
        "Missing values", severity, "DQ-01",
        "Column '" + col + "' has " + FormatFloat(pct) + "% missing values, exceeding the "
          + FormatFloat(threshold) + "% threshold.",
        Some(col)))
  }

  /** DQ-01: exactly the issues `MissingIssueFor` raises for the entries
      of the section, in column order. */
  function CheckMissingValues(m: Entries<MissingStat>, critical: set<string>): (r: seq<Issue>)
    ensures forall iss :: iss in r ==> exists e :: e in m && MissingIssueFor(e, critical) == Some(iss)
    ensures forall e :: e in m && MissingIssueFor(e, critical).Some? ==> MissingIssueFor(e, critical).value in r
    ensures IsSubsequence(IssueColumns(r), SomeKeys(m))
  {
    var f := (e: (string, MissingStat)) => MissingIssueFor(e, critical);
    CollectSound(m, f);
    CollectComplete(m, f);
    CollectIssues(m, f)
  }

  // ---------------------------------------------------------------------
  // DQ-05: outliers
  // ---------------------------------------------------------------------

  function OutlierIssueFor(e: (string, OutlierStat)): (r: Option<Issue>)
    ensures r.Some? <==> e.1.outlierPercentage >= OutlierWarningThreshold
    ensures r.Some? ==> r.value.column == Some(e.0)
    ensures r.Some? ==> r.value.ruleReference == "DQ-05" && r.value.kind == "Outliers" && r.value.severity == Medium
  {
    var (col, stat) := e;
    if stat.outlierPercentage >= OutlierWarningThreshold then
      Some(Issue(
        "Outliers", Medium, "DQ-05",
        "Column '" + col + "' has " + FormatFloat(stat.outlierPercentage)
          + "% outliers (values outside [" + FormatFloat(stat.lowerBound) + ", "
          + FormatFloat(stat.upperBound) + "]).",
        Some(col)))
    else None
  }

  /** The entries of an optional section; an absent section reads as empty. */
  function EntriesOf<V>(o: Option<Entries<V>>): Entries<V> {
    match o
    case None => []
    case Some(m) => m
  }

  /** DQ-05: exactly the issues `OutlierIssueFor` raises for the entries
      of the section, in column order; an absent section raises nothing. */
  function CheckOutliers(o: Option<Entries<OutlierStat>>): (r: seq<Issue>)
    ensures forall iss :: iss in r ==> exists e :: e in EntriesOf(o) && OutlierIssueFor(e) == Some(iss)
    ensures forall e :: e in EntriesOf(o) && OutlierIssueFor(e).Some? ==> OutlierIssueFor(e).value in r
    ensures IsSubsequence(IssueColumns(r), SomeKeys(EntriesOf(o)))
  {
    CollectSound(EntriesOf(o), OutlierIssueFor);
    CollectComplete(EntriesOf(o), OutlierIssueFor);
    CollectIssues(EntriesOf(o), OutlierIssueFor)
  }

  // ---------------------------------------------------------------------
  // DQ-04: impossible negative values
  // ---------------------------------------------------------------------

  function NegativeIssueFor(e: (string, NegativeStat), noNegative: set<string>): (r: Option<Issue>)
    ensures r.Some? <==> e.0 in noNegative
    ensures r.Some? ==> r.value.column == Some(e.0)
    ensures r.Some? ==> r.value.ruleReference == "DQ-04" && r.value.kind == "Negative values" && r.value.severity == Medium
  {
    var (col, stat) := e;
    if col in noNegative then
      Some(Issue(
        "Negative values", Medium, "DQ-04",
        "Column '" + col + "' contains " + NatToString(stat.negativeCount)
          + " negative values (" + FormatFloat(stat.negativePercentage)
          + "%), which should not be possible for this field.",
        Some(col)))
    else None
  }

  /** DQ-04: exactly the issues `NegativeIssueFor` raises for the entries
      of the section, in column order; an absent section raises nothing. */
  function CheckNegativeValues(o: Option<Entries<NegativeStat>>, noNegative: set<string>): (r: seq<Issue>)
    ensures forall iss :: iss in r ==>
      exists e :: e in EntriesOf(o) && NegativeIssueFor(e, noNegative) == Some(iss)
    ensures forall e :: e in EntriesOf(o) && NegativeIssueFor(e, noNegative).Some? ==>
      NegativeIssueFor(e, noNegative).value in r
    ensures IsSubsequence(IssueColumns(r), SomeKeys(EntriesOf(o)))
  {
    var f := (e: (string, NegativeStat)) => NegativeIssueFor(e, noNegative);
    CollectSound(EntriesOf(o), f);
    CollectComplete(EntriesOf(o), f);
    CollectIssues(EntriesOf(o), f)
  }

  /** With distinct column names in a section, each check raises at most
      one issue per column. */
  lemma ColumnChecksOnePerColumn(p: Profile, config: AgentConfig)
    requires p.missingValues.Some? ==> Distinct(Keys(p.missingValues.value))
    requires Distinct(Keys(EntriesOf(p.outliers)))
    requires Distinct(Keys(EntriesOf(p.negativeValues)))
    ensures p.missingValues.Some? ==>
      Distinct(IssueColumns(CheckMissingValues(p.missingValues.value, config.criticalColumns)))
    ensures Distinct(IssueColumns(CheckOutliers(p.outliers)))
    ensures Distinct(IssueColumns(CheckNegativeValues(p.negativeValues, config.noNegativeColumns)))
  {
    if p.missingValues.Some? {
      var m := p.missingValues.value;
      SomeKeysDistinct(m);
      SubsequenceDistinct(IssueColumns(CheckMissingValues(m, config.criticalColumns)), SomeKeys(m));
    }
    SomeKeysDistinct(EntriesOf(p.outliers));
    SubsequenceDistinct(IssueColumns(CheckOutliers(p.outliers)), SomeKeys(EntriesOf(p.outliers)));
    SomeKeysDistinct(EntriesOf(p.negativeValues));
    SubsequenceDistinct(
      IssueColumns(CheckNegativeValues(p.negativeValues, config.noNegativeColumns)),
      SomeKeys(EntriesOf(p.negativeValues)));
  }

  // ---------------------------------------------------------------------
  // Decision and summary
  // ---------------------------------------------------------------------

  function IsSeverity(s: Severity): Issue -> bool {
    (i: Issue) => i.severity == s
  }

  /** ACCEPT without issues, REJECT as soon as one issue is critical or
      high, WARNING otherwise. */
  function DetermineDecision(issues: seq<Issue>): (d: Decision)
    ensures d == Accept <==> |issues| == 0
    ensures d == Reject <==> exists iss :: iss in issues && iss.severity.IsBlocking()
    ensures d == Warning <==> |issues| > 0 && forall iss :: iss in issues ==> iss.severity.Rank() <= 1
  {
    var criticalIssues := Filter(issues, IsSeverity(Critical));
    var highIssues := Filter(issues, IsSeverity(High));
    if |issues| == 0 then Accept
    else if |criticalIssues| > 0 then
      assert criticalIssues[0] in issues;
      Reject
    else if |highIssues| > 0 then
      assert highIssues[0] in issues;
      Reject
    else Warning
  }

  /** More issues never make the decision milder. */
  lemma DecisionMonotone(a: seq<Issue>, b: seq<Issue>)
    ensures DetermineDecision(a).Rank() <= DetermineDecision(a + b).Rank()
  {
    if DetermineDecision(a) == Reject {
      var iss :| iss in a && iss.severity.IsBlocking();
      assert iss in a + b;
    } else if DetermineDecision(a) == Warning {
      assert a[0] in a + b;
    }
  }

  function IsBlockingIssue(i: Issue): bool {
    i.severity.IsBlocking()
  }

  function Severities(issues: seq<Issue>): (s: seq<Severity>)
    ensures |s| == |issues|
    ensures forall k :: 0 <= k < |issues| ==> s[k] == issues[k].severity
  {
    seq(|issues|, k requires 0 <= k < |issues| => issues[k].severity)
  }

  /** The number of critical or high issues is the number of critical
      severities plus the number of high ones. */
  lemma {:induction false} BlockingCount(issues: seq<Issue>)
    ensures |Filter(issues, IsBlockingIssue)| ==
      multiset(Severities(issues))[Critical] + multiset(Severities(issues))[High]
  {
    BlockingTallyCount(issues);
  }

  lemma {:induction false} BlockingTallyCount(issues: seq<Issue>)
    ensures Count(issues, IsBlockingIssue) ==
      multiset(Severities(issues))[Critical] + multiset(Severities(issues))[High]
  {
    if |issues| > 0 {
      var s, s' := Severities(issues), Severities(issues[1..]);
      BlockingTallyCount(issues[1..]);
      assert s == [issues[0].severity] + s';
      assert multiset(s) == multiset{issues[0].severity} + multiset(s');
    }
  }

  function SummaryPrefix(basic: BasicStats): string {
    "Dataset with " + GroupThousands(basic.rowCount) + " rows and "
      + NatToString(basic.columnCount) + " columns "
  }

  /** The one-line summary: the counts, then a tail that depends on the
      decision. An ACCEPT tail cites nothing, a WARNING tail cites every
      issue and a REJECT tail cites the critical or high ones. */
  function GenerateSummary(decision: Decision, issues: seq<Issue>, basic: BasicStats): (r: string)
    ensures |SummaryPrefix(basic)| <= |r| && r[..|SummaryPrefix(basic)|] == SummaryPrefix(basic)
    ensures decision == Accept ==> r == SummaryPrefix(basic) + AcceptTail
    ensures decision == Warning ==> r == SummaryPrefix(basic) + WarningTail(|issues|)
  {
    var tail := match decision
      case Accept => AcceptTail
      case Warning => WarningTail(|issues|)
      case Reject => RejectTail(|Filter(issues, IsBlockingIssue)|);
    assert (SummaryPrefix(basic) + tail)[..|SummaryPrefix(basic)|] == SummaryPrefix(basic);
    SummaryPrefix(basic) + tail
  }

  const AcceptTail: string := "passed all quality checks."

  /** The end of a WARNING summary, citing `n` issues. */
  function WarningTail(n: nat): string {
    "has " + NatToString(n) + " quality issue(s) requiring attention."
  }

  /** Two summaries of the same dataset are equal only for the same
      decision: the summary alone tells ACCEPT, WARNING and REJECT apart. */
  lemma SummaryNamesDecision(d1: Decision, i1: seq<Issue>, d2: Decision, i2: seq<Issue>, basic: BasicStats)
    ensures GenerateSummary(d1, i1, basic) == GenerateSummary(d2, i2, basic) ==> d1 == d2
  {
    var p := SummaryPrefix(basic);
    var s1, s2 := GenerateSummary(d1, i1, basic), GenerateSummary(d2, i2, basic);
    if s1 == s2 && d1 != d2 {
      var t1, t2 := s1[|p|..], s2[|p|..];
      assert t1 == t2;
      var n1, n2 := |Filter(i1, IsBlockingIssue)|, |Filter(i2, IsBlockingIssue)|;
      assert t1 == TailOf(d1, |i1|, n1) by { assert s1 == p + TailOf(d1, |i1|, n1); }
      assert t2 == TailOf(d2, |i2|, n2) by { assert s2 == p + TailOf(d2, |i2|, n2); }
      TailsDiffer(d1, |i1|, n1, d2, |i2|, n2);
      assert false;
    }
  }

  function TailOf(d: Decision, all: nat, blocking: nat): string {
    match d
    case Accept => AcceptTail
    case Warning => WarningTail(all)
    case Reject => RejectTail(blocking)
  }

  lemma TailsDiffer(d1: Decision, a1: nat, b1: nat, d2: Decision, a2: nat, b2: nat)
    requires d1 != d2
    ensures TailOf(d1, a1, b1) != TailOf(d2, a2, b2)
  {
    AcceptTailDiffers(a1, b1);
    AcceptTailDiffers(a2, b2);
    WarningTailDiffers(a1, b2);
    WarningTailDiffers(a2, b1);
  }

  lemma AcceptTailDiffers(a: nat, b: nat)
    ensures AcceptTail != WarningTail(a) && AcceptTail != RejectTail(b)
  {
    assert AcceptTail[0] == 'p';
    assert WarningTail(a)[0] == 'h' && RejectTail(b)[0] == 'h';
  }

  lemma WarningTailDiffers(a: nat, b: nat)
    ensures WarningTail(a) != RejectTail(b)
  {
    var x := " quality issue(s) requiring attention.";
    var y := " critical" + " quality issue(s). Manual review required.";
    assert x[0] == ' ' && x[1] == 'q';
    assert y[0] == ' ' && y[1] == 'c';
    DigitRunsDiffer(NatToString(a), x, NatToString(b), y);
    assert WarningTail(a) == "has " + (NatToString(a) + x);
    assert RejectTail(b) == "has " + (NatToString(b) + y);
    assert WarningTail(a)[4..] == NatToString(a) + x;
    assert RejectTail(b)[4..] == NatToString(b) + y;
  }

  /** Digits followed by a space and a different word never read alike. */
  lemma DigitRunsDiffer(a: string, x: string, b: string, y: string)
    requires AllDigits(a) && AllDigits(b)
    requires |x| > 1 && |y| > 1 && x[0] == ' ' && y[0] == ' ' && x[1] != y[1]
    ensures a + x != b + y
  {
    if |a| < |b| {
      assert (a + x)[|a|] == ' ' && IsDigit((b + y)[|a|]);
    } else if |b| < |a| {
      assert (b + y)[|b|] == ' ' && IsDigit((a + x)[|b|]);
    } else {
      assert (a + x)[|a| + 1] == x[1] && (b + y)[|a| + 1] == y[1];
    }
  }

  /** The end of a REJECT summary, citing `n` critical or high issues. */
  function RejectTail(n: nat): string {
    "has " + NatToString(n) + " critical" + " quality issue(s). Manual review required."
  }

  function MakeReport(decision: Decision, issues: seq<Issue>, basic: BasicStats): QualityReport {
    QualityReport(
      decision, GenerateSummary(decision, issues, basic), issues,
      ReportStats(basic.rowCount, basic.columnCount, |issues|))
  }

  // ---------------------------------------------------------------------
  // Analysis
  // ---------------------------------------------------------------------

  /** The column checks in the order they run. */
  function ColumnIssues(config: AgentConfig, missing: Entries<MissingStat>, p: Profile): seq<Issue> {
    CheckMissingValues(missing, config.criticalColumns)
      + CheckOutliers(p.outliers)
      + CheckNegativeValues(p.negativeValues, config.noNegativeColumns)
  }

  /** The whole analysis. An empty dataset is rejected without further
      checks; otherwise the missing-value section must be present. */
  function Analyze(config: AgentConfig, p: Profile): (r: Result<QualityReport, AnalysisError>)
    ensures p.basicStats.rowCount == 0 ==>
      r.Success? && r.value.decision == Reject && r.value.issues == [EmptyDatasetIssue]
    ensures p.basicStats.rowCount > 0 ==> (r.Failure? <==> p.missingValues.None?)
    ensures r.Failure? ==> r.error == MissingKey("missing_values")
    ensures r.Success? && p.basicStats.rowCount > 0 ==>
      r.value.issues == ColumnIssues(config, p.missingValues.value, p)
    ensures r.Success? ==> r.value.decision == DetermineDecision(r.value.issues)
    ensures r.Success? ==> r.value.summary == GenerateSummary(r.value.decision, r.value.issues, p.basicStats)
    ensures r.Success? ==>
      r.value.stats == ReportStats(p.basicStats.rowCount, p.basicStats.columnCount, |r.value.issues|)
  {
    var empty := CheckEmptyDataset(p.basicStats);
    if empty != [] then
      Success(MakeReport(Reject, empty, p.basicStats))
    else if p.missingValues.None? then
      Failure(MissingKey("missing_values"))
    else
      var issues := ColumnIssues(config, p.missingValues.value, p);
      Success(MakeReport(DetermineDecision(issues), issues, p.basicStats))
  }

  /** Which check an issue comes from, in the order the checks run. */
  function CheckRank(iss: Issue): nat {
    if iss.ruleReference == "DQ-02" then 0
    else if iss.ruleReference == "DQ-01" then 1
    else if iss.ruleReference == "DQ-05" then 2
    else 3
  }

  predicate RankSorted(issues: seq<Issue>) {
    forall i, j :: 0 <= i < j < |issues| ==> CheckRank(issues[i]) <= CheckRank(issues[j])
  }

  /** Issues are grouped by check: all missing-value issues come before all
      outlier issues, which come before all negative-value issues. */
  lemma AnalyzeIssueOrder(config: AgentConfig, p: Profile)
    requires Analyze(config, p).Success?
    ensures RankSorted(Analyze(config, p).value.issues)
  {
    if p.basicStats.rowCount > 0 {
      var a := CheckMissingValues(p.missingValues.value, config.criticalColumns);
      var b := CheckOutliers(p.outliers);
      var c := CheckNegativeValues(p.negativeValues, config.noNegativeColumns);
      RankedGroupsSorted(a, b, c);
    }
  }

  lemma RankedGroupsSorted(a: seq<Issue>, b: seq<Issue>, c: seq<Issue>)
    requires forall iss :: iss in a ==> iss.ruleReference == "DQ-01"
    requires forall iss :: iss in b ==> iss.ruleReference == "DQ-05"
    requires forall iss :: iss in c ==> iss.ruleReference == "DQ-04"
    ensures RankSorted(a + b + c)
  {
    var all := a + b + c;
    forall k | 0 <= k < |all|
      ensures CheckRank(all[k]) == (if k < |a| then 1 else if k < |a| + |b| then 2 else 3)
    {
      if k < |a| {
        assert all[k] == a[k] && a[k] in a;
      } else if k < |a| + |b| {
        assert all[k] == b[k - |a|] && b[k - |a|] in b;
      } else {
        assert all[k] == c[k - |a| - |b|] && c[k - |a| - |b|] in c;
      }
    }
  }

  /** Some issue in `issues` comes from rule `rule` and names column `col`. */
  predicate Raises(issues: seq<Issue>, rule: string, col: string) {
    exists iss :: iss in issues && iss.ruleReference == rule && iss.column == Some(col)
  }

  /** As `Raises`, with the issue's severity fixed too. */
  predicate RaisesWith(issues: seq<Issue>, rule: string, col: string, sev: Severity) {
    exists iss :: iss in issues && iss.ruleReference == rule && iss.column == Some(col) && iss.severity == sev
  }

  lemma RaisesInGroups(a: seq<Issue>, b: seq<Issue>, c: seq<Issue>, rule: string, col: string, sev: Severity)
    ensures Raises(a + b + c, rule, col) <==> Raises(a, rule, col) || Raises(b, rule, col) || Raises(c, rule, col)
    ensures RaisesWith(a + b + c, rule, col, sev) <==>
      RaisesWith(a, rule, col, sev) || RaisesWith(b, rule, col, sev) || RaisesWith(c, rule, col, sev)
  {
    if Raises(a + b + c, rule, col) {
      var iss :| iss in a + b + c && iss.ruleReference == rule && iss.column == Some(col);
      assert iss in a || iss in b || iss in c;
    }
    if RaisesWith(a + b + c, rule, col, sev) {
      var iss :| iss in a + b + c && iss.ruleReference == rule && iss.column == Some(col) && iss.severity == sev;
      assert iss in a || iss in b || iss in c;
    }
    if Raises(a, rule, col) || Raises(b, rule, col) || Raises(c, rule, col) {
      var iss :| (iss in a || iss in b || iss in c) && iss.ruleReference == rule && iss.column == Some(col);
      assert iss in a + b + c;
    }
    if RaisesWith(a, rule, col, sev) || RaisesWith(b, rule, col, sev) || RaisesWith(c, rule, col, sev) {
      var iss :| (iss in a || iss in b || iss in c) && iss.ruleReference == rule
        && iss.column == Some(col) && iss.severity == sev;
      assert iss in a + b + c;
    }
  }

  lemma MissingRaisesSound(m: Entries<MissingStat>, critical: set<string>, col: string, sev: Severity)
    ensures RaisesWith(CheckMissingValues(m, critical), "DQ-01", col, sev) ==>
      exists e :: e in m && e.0 == col && MissingSeverity(e.1.missingPercentage, col in critical) == Some(sev)
  {
    var a := CheckMissingValues(m, critical);
    if RaisesWith(a, "DQ-01", col, sev) {
      var iss :| iss in a && iss.ruleReference == "DQ-01" && iss.column == Some(col) && iss.severity == sev;
      var e :| e in m && MissingIssueFor(e, critical) == Some(iss);
    }
  }

  lemma MissingRaisesComplete(m: Entries<MissingStat>, critical: set<string>, col: string, sev: Severity)
    requires exists e :: e in m && e.0 == col && MissingSeverity(e.1.missingPercentage, col in critical) == Some(sev)
    ensures RaisesWith(CheckMissingValues(m, critical), "DQ-01", col, sev)
  {
    var a := CheckMissingValues(m, critical);
    var e :| e in m && e.0 == col && MissingSeverity(e.1.missingPercentage, col in critical) == Some(sev);
    assert MissingIssueFor(e, critical).value in a;
  }

  lemma MissingRaises(m: Entries<MissingStat>, critical: set<string>, col: string, sev: Severity)
    ensures RaisesWith(CheckMissingValues(m, critical), "DQ-01", col, sev) <==>
      exists e :: e in m && e.0 == col && MissingSeverity(e.1.missingPercentage, col in critical) == Some(sev)
  {
    if RaisesWith(CheckMissingValues(m, critical), "DQ-01", col, sev) {
      MissingRaisesSound(m, critical, col, sev);
    }
    if exists e :: e in m && e.0 == col && MissingSeverity(e.1.missingPercentage, col in critical) == Some(sev) {
      MissingRaisesComplete(m, critical, col, sev);
    }
  }

  lemma OutliersRaiseSound(o: Option<Entries<OutlierStat>>, col: string)
    requires Raises(CheckOutliers(o), "DQ-05", col)
    ensures exists e :: e in EntriesOf(o) && e.0 == col && e.1.outlierPercentage >= OutlierWarningThreshold
  {
    var iss :| iss in CheckOutliers(o) && iss.ruleReference == "DQ-05" && iss.column == Some(col);
    var e :| e in EntriesOf(o) && OutlierIssueFor(e) == Some(iss);
  }

  lemma OutliersRaiseComplete(o: Option<Entries<OutlierStat>>, col: string)
    requires exists e :: e in EntriesOf(o) && e.0 == col && e.1.outlierPercentage >= OutlierWarningThreshold
    ensures Raises(CheckOutliers(o), "DQ-05", col)
  {
    var e :| e in EntriesOf(o) && e.0 == col && e.1.outlierPercentage >= OutlierWarningThreshold;
    assert OutlierIssueFor(e).value in CheckOutliers(o);
  }

  lemma OutliersRaise(o: Option<Entries<OutlierStat>>, col: string)
    ensures Raises(CheckOutliers(o), "DQ-05", col) <==>
      exists e :: e in EntriesOf(o) && e.0 == col && e.1.outlierPercentage >= OutlierWarningThreshold
  {
    if Raises(CheckOutliers(o), "DQ-05", col) {
      OutliersRaiseSound(o, col);
    }
    if exists e :: e in EntriesOf(o) && e.0 == col && e.1.outlierPercentage >= OutlierWarningThreshold {
      OutliersRaiseComplete(o, col);
    }
  }

  lemma NegativesRaiseSound(o: Option<Entries<NegativeStat>>, noNegative: set<string>, col: string)
    requires Raises(CheckNegativeValues(o, noNegative), "DQ-04", col)
    ensures col in Keys(EntriesOf(o)) && col in noNegative
  {
    var n := EntriesOf(o);
    var iss :| iss in CheckNegativeValues(o, noNegative) && iss.ruleReference == "DQ-04" && iss.column == Some(col);
    var e :| e in n && NegativeIssueFor(e, noNegative) == Some(iss);
    var i :| 0 <= i < |n| && n[i] == e;
    assert Keys(n)[i] == col;
  }

  lemma NegativesRaiseComplete(o: Option<Entries<NegativeStat>>, noNegative: set<string>, col: string)
    requires col in Keys(EntriesOf(o)) && col in noNegative
    ensures Raises(CheckNegativeValues(o, noNegative), "DQ-04", col)
  {
    var n := EntriesOf(o);
    var i :| 0 <= i < |n| && Keys(n)[i] == col;
    assert n[i] in n;
    assert NegativeIssueFor(n[i], noNegative).value in CheckNegativeValues(o, noNegative);
  }

  lemma NegativesRaise(o: Option<Entries<NegativeStat>>, noNegative: set<string>, col: string)
    ensures Raises(CheckNegativeValues(o, noNegative), "DQ-04", col) <==>
      col in Keys(EntriesOf(o)) && col in noNegative
  {
    if Raises(CheckNegativeValues(o, noNegative), "DQ-04", col) {
      NegativesRaiseSound(o, noNegative, col);
    }
    if col in Keys(EntriesOf(o)) && col in noNegative {
      NegativesRaiseComplete(o, noNegative, col);
    }
  }

  /** Issues whose rule differs from `rule` never raise it. */
  lemma OtherRuleRaisesNothing(a: seq<Issue>, other: string, rule: string, col: string, sev: Severity)
    requires forall iss :: iss in a ==> iss.ruleReference == other
    requires other != rule
    ensures !Raises(a, rule, col) && !RaisesWith(a, rule, col, sev)
  {
  }

  /** DQ-01 in the report: a missing-value issue of a given severity names
      a column exactly when the section reports that column with a
      percentage that `MissingSeverity` maps to that severity. */
  lemma AnalyzeMissingIssues(config: AgentConfig, p: Profile, col: string, sev: Severity)
    requires p.basicStats.rowCount > 0 && p.missingValues.Some?
    ensures Analyze(config, p).Success?
    ensures RaisesWith(Analyze(config, p).value.issues, "DQ-01", col, sev)
        <==> (exists e :: e in p.missingValues.value && e.0 == col
               && MissingSeverity(e.1.missingPercentage, col in config.criticalColumns) == Some(sev))
  {
    var a := CheckMissingValues(p.missingValues.value, config.criticalColumns);
    var b := CheckOutliers(p.outliers);
    var c := CheckNegativeValues(p.negativeValues, config.noNegativeColumns);
    RaisesInGroups(a, b, c, "DQ-01", col, sev);
    OtherRuleRaisesNothing(b, "DQ-05", "DQ-01", col, sev);
    OtherRuleRaisesNothing(c, "DQ-04", "DQ-01", col, sev);
    MissingRaises(p.missingValues.value, config.criticalColumns, col, sev);
  }

  /** DQ-05 in the report: an outlier issue names a column exactly when the
      outlier section reports it at or above the threshold. */
  lemma AnalyzeOutlierIssues(config: AgentConfig, p: Profile, col: string)
    requires p.basicStats.rowCount > 0 && p.missingValues.Some?
    ensures Analyze(config, p).Success?
    ensures Raises(Analyze(config, p).value.issues, "DQ-05", col)
        <==> (exists e :: e in EntriesOf(p.outliers) && e.0 == col
               && e.1.outlierPercentage >= OutlierWarningThreshold)
  {
    var a := CheckMissingValues(p.missingValues.value, config.criticalColumns);
    var b := CheckOutliers(p.outliers);
    var c := CheckNegativeValues(p.negativeValues, config.noNegativeColumns);
    RaisesInGroups(a, b, c, "DQ-05", col, Medium);
    OtherRuleRaisesNothing(a, "DQ-01", "DQ-05", col, Medium);
    OtherRuleRaisesNothing(c, "DQ-04", "DQ-05", col, Medium);
    OutliersRaise(p.outliers, col);
  }

  /** DQ-04 in the report: a negative-value issue names a column exactly
      when the negative section reports it and it may not be negative. */
  lemma AnalyzeNegativeIssues(config: AgentConfig, p: Profile, col: string)
    requires p.basicStats.rowCount > 0 && p.missingValues.Some?
    ensures Analyze(config, p).Success?
    ensures Raises(Analyze(config, p).value.issues, "DQ-04", col)
        <==> (col in Keys(EntriesOf(p.negativeValues)) && col in config.noNegativeColumns)
  {
    var a := CheckMissingValues(p.missingValues.value, config.criticalColumns);
    var b := CheckOutliers(p.outliers);
    var c := CheckNegativeValues(p.negativeValues, config.noNegativeColumns);
    RaisesInGroups(a, b, c, "DQ-04", col, Medium);
    OtherRuleRaisesNothing(a, "DQ-01", "DQ-04", col, Medium);
    OtherRuleRaisesNothing(b, "DQ-05", "DQ-04", col, Medium);
    NegativesRaise(p.negativeValues, config.noNegativeColumns, col);
  }

  lemma MissingClear(m: Entries<MissingStat>, critical: set<string>)
    ensures CheckMissingValues(m, critical) == [] <==>
      forall e :: e in m ==> e.1.missingPercentage < MissingWarningThreshold
  {
    var a := CheckMissingValues(m, critical);
    if a != [] { assert a[0] in a; }
  }

  lemma OutliersClear(o: Option<Entries<OutlierStat>>)
    ensures CheckOutliers(o) == [] <==>
      forall e :: e in EntriesOf(o) ==> e.1.outlierPercentage < OutlierWarningThreshold
  {
    var b := CheckOutliers(o);
    if b != [] { assert b[0] in b; }
  }

  lemma NegativesClear(o: Option<Entries<NegativeStat>>, noNegative: set<string>)
    ensures CheckNegativeValues(o, noNegative) == [] <==>
      forall e :: e in EntriesOf(o) ==> e.0 !in noNegative
  {
    var c := CheckNegativeValues(o, noNegative);
    if c != [] { assert c[0] in c; }
  }

  /** A non-empty dataset is accepted exactly when no column reaches the
      missing-value or outlier threshold and no reported negative column is
      one where negatives are impossible. */
  lemma AnalyzeAcceptsExactly(config: AgentConfig, p: Profile)
    requires p.basicStats.rowCount > 0 && p.missingValues.Some?
    ensures Analyze(config, p).Success?
    ensures Analyze(config, p).value.decision == Accept <==>
      (forall e :: e in p.missingValues.value ==> e.1.missingPercentage < MissingWarningThreshold) &&
      (forall e :: e in EntriesOf(p.outliers) ==> e.1.outlierPercentage < OutlierWarningThreshold) &&
      (forall e :: e in EntriesOf(p.negativeValues) ==> e.0 !in config.noNegativeColumns)
  {
    MissingClear(p.missingValues.value, config.criticalColumns);
    OutliersClear(p.outliers);
    NegativesClear(p.negativeValues, config.noNegativeColumns);
  }

  /** The number of critical or high issues among `issues`, counted by
      severity. */
  function BlockingTally(issues: seq<Issue>): nat {
    multiset(Severities(issues))[Critical] + multiset(Severities(issues))[High]
  }

  lemma RejectSummaryCites(issues: seq<Issue>, basic: BasicStats)
    requires exists iss :: iss in issues && iss.severity.IsBlocking()
    ensures BlockingTally(issues) >= 1
    ensures GenerateSummary(Reject, issues, basic) == SummaryPrefix(basic) + RejectTail(BlockingTally(issues))
  {
    var n := |Filter(issues, IsBlockingIssue)|;
    BlockingCount(issues);
    assert n == BlockingTally(issues);
    assert GenerateSummary(Reject, issues, basic) == SummaryPrefix(basic) + RejectTail(n);
    var iss :| iss in issues && iss.severity.IsBlocking();
    assert iss in Filter(issues, IsBlockingIssue);
  }

  /** A REJECT summary cites the number of critical and high issues, and
      that number is at least one. */
  lemma RejectSummaryCount(config: AgentConfig, p: Profile)
    requires Analyze(config, p).Success? && Analyze(config, p).value.decision == Reject
    ensures BlockingTally(Analyze(config, p).value.issues) >= 1
    ensures Analyze(config, p).value.summary ==
      SummaryPrefix(p.basicStats) + RejectTail(BlockingTally(Analyze(config, p).value.issues))
  {
    RejectSummaryCites(Analyze(config, p).value.issues, p.basicStats);
  }

  // ---------------------------------------------------------------------
  // Conversion to a JSON-shaped mapping
  // ---------------------------------------------------------------------

  function IssueToJson(i: Issue): JsonValue {
    JObject([
      ("type", JString(i.kind)),
      ("severity", JString(i.severity.Value())),
      ("rule_reference", JString(i.ruleReference)),
      ("explanation", JString(i.explanation)),
      ("column", match i.column case Some(c) => JString(c) case None => JNull)])
  }

  function IssuesToJson(issues: seq<Issue>): (js: seq<JsonValue>)
    ensures |js| == |issues|
  {
    seq(|issues|, k requires 0 <= k < |issues| => IssueToJson(issues[k]))
  }

  function ToDict(r: QualityReport): JsonValue {
    JObject([
      ("decision", JString(r.decision.Value())),
      ("summary", JString(r.summary)),
      ("issues", JArray(IssuesToJson(r.issues))),
      ("stats", JObject([
        ("row_count", JInt(r.stats.rowCount)),
        ("column_count", JInt(r.stats.columnCount)),
        ("issues_count", JInt(r.stats.issuesCount))]))])
  }

  function DecisionFromValue(s: string): Option<Decision> {
    if s == "ACCEPT" then Some(Accept)
    else if s == "WARNING" then Some(Warning)
    else if s == "REJECT" then Some(Reject)
    else None
  }

  function SeverityFromValue(s: string): Option<Severity> {
    if s == "low" then Some(Low)
    else if s == "medium" then Some(Medium)
    else if s == "high" then Some(High)
    else if s == "critical" then Some(Critical)
    else None
  }

  function IssueFromJson(j: JsonValue): Option<Issue> {
    match j
    case JObject(fs) =>
      if |fs| == 5 && fs[0].0 == "type" && fs[1].0 == "severity" && fs[2].0 == "rule_reference"
         && fs[3].0 == "explanation" && fs[4].0 == "column"
      then
        match (fs[0].1, fs[1].1, fs[2].1, fs[3].1, fs[4].1)
        case (JString(kind), JString(sv), JString(rule), JString(text), JNull) =>
          (match SeverityFromValue(sv)
           case Some(sev) => Some(Issue(kind, sev, rule, text, None))
           case None => None)
        case (JString(kind), JString(sv), JString(rule), JString(text), JString(col)) =>
          (match SeverityFromValue(sv)
           case Some(sev) => Some(Issue(kind, sev, rule, text, Some(col)))
           case None => None)
        case _ => None
      else None
    case _ => None
  }

  function IssuesFromJson(js: seq<JsonValue>): Option<seq<Issue>> {
    if |js| == 0 then Some([])
    else
      match (IssueFromJson(js[0]), IssuesFromJson(js[1..]))
      case (Some(i), Some(rest)) => Some([i] + rest)
      case _ => None
  }

  function StatsFromJson(j: JsonValue): Option<ReportStats> {
    match j
    case JObject(fs) =>
      if |fs| == 3 && fs[0].0 == "row_count" && fs[1].0 == "column_count" && fs[2].0 == "issues_count"
      then
        match (fs[0].1, fs[1].1, fs[2].1)
        case (JInt(rows), JInt(cols), JInt(n)) =>
          if rows >= 0 && cols >= 0 && n >= 0 then Some(ReportStats(rows, cols, n)) else None
        case _ => None
      else None
    case _ => None
  }

  /** Reads back a mapping in the shape `ToDict` writes. */
  function FromDict(j: JsonValue): Option<QualityReport> {
    match j
    case JObject(fs) =>
      if |fs| == 4 && fs[0].0 == "decision" && fs[1].0 == "summary" && fs[2].0 == "issues"
         && fs[3].0 == "stats"
      then
        match (fs[0].1, fs[1].1, fs[2].1)
        case (JString(d), JString(summary), JArray(items)) =>
          (match (DecisionFromValue(d), IssuesFromJson(items), StatsFromJson(fs[3].1))
           case (Some(decision), Some(issues), Some(stats)) =>
             Some(QualityReport(decision, summary, issues, stats))
           case _ => None)
        case _ => None
      else None
    case _ => None
  }

  lemma {:induction false} IssuesRoundTrip(issues: seq<Issue>)
    ensures IssuesFromJson(IssuesToJson(issues)) == Some(issues)
  {
    if |issues| > 0 {
      IssuesRoundTrip(issues[1..]);
      IssueRoundTrip(issues[0]);
      assert IssuesToJson(issues)[0] == IssueToJson(issues[0]);
      assert IssuesToJson(issues)[1..] == IssuesToJson(issues[1..]);
      assert [issues[0]] + issues[1..] == issues;
    }
  }

  /** One issue survives its conversion to a mapping and back. */
  lemma IssueRoundTrip(i: Issue)
    ensures IssueFromJson(IssueToJson(i)) == Some(i)
  {
    assert SeverityFromValue(i.severity.Value()) == Some(i.severity);
  }

  /** The dictionary form loses nothing: reading it back gives the report. */
  lemma ToDictRoundTrip(r: QualityReport)
    ensures FromDict(ToDict(r)) == Some(r)
  {
    IssuesRoundTrip(r.issues);
    assert DecisionFromValue(r.decision.Value()) == Some(r.decision);
    StatsRoundTrip(r.stats);
  }

  lemma StatsRoundTrip(s: ReportStats)
    ensures StatsFromJson(JObject([
      ("row_count", JInt(s.rowCount)),
      ("column_count", JInt(s.columnCount)),
      ("issues_count", JInt(s.issuesCount))])) == Some(s)
  {
  }
}
