/** The rule catalogue: a markdown text is split at `## DQ-<n> - <title>`
    header lines into rules, each with its id, title, body and the WARNING /
    REJECT condition snippets found in the body; plus the lookups over the
    parsed list. The headers are found by the leftmost, non-overlapping scan
    of the regular expression `##\s+(DQ-\d+)\s*-\s*(.+?)(?=\n)`, modelled
    with its backtracking. */
module RulesLoader {
  import opened Wrappers
  import opened Seqs
  import opened Text

  datatype Rule = Rule(
    id: string,
    title: string,
    content: string,
    severityWarning: Option<string>,
    severityReject: Option<string>)

  // ---------------------------------------------------------------------
  // Dash normalisation
  // ---------------------------------------------------------------------

  /** En dash, em dash, non-breaking hyphen and minus sign. */
  predicate IsDash(c: char) {
    c == '\U{2013}' || c == '\U{2014}' || c == '\U{2011}' || c == '\U{2212}'
  }

  /** Python's `s.replace(c, "-")` for a single character `c`. */
  function ReplaceWithHyphen(s: string, c: char): (r: string)
    ensures |r| == |s|
    ensures forall i :: 0 <= i < |s| ==> r[i] == (if s[i] == c then '-' else s[i])
  {
    seq(|s|, i requires 0 <= i < |s| => if s[i] == c then '-' else s[i])
  }

  /** The four replacement passes, one per dash character. */
  function NormalizeDashes(s: string): (r: string)
    ensures |r| == |s|
    ensures forall i :: 0 <= i < |s| ==> r[i] == (if IsDash(s[i]) then '-' else s[i])
    ensures forall i :: 0 <= i < |r| ==> !IsDash(r[i])
  {
    ReplaceWithHyphen(
      ReplaceWithHyphen(
        ReplaceWithHyphen(
          ReplaceWithHyphen(s, '\U{2013}'),
          '\U{2014}'),
        '\U{2011}'),
      '\U{2212}')
  }

  // ---------------------------------------------------------------------
  // Header matching
  // ---------------------------------------------------------------------

  /** `t[lo..hi]` is whitespace. */
  predicate SpacesIn(t: string, lo: nat, hi: nat) {
    lo <= hi <= |t| && forall x {:trigger IsSpace(t[x])} :: lo <= x < hi ==> IsSpace(t[x])
  }

  /** `t[lo..hi]` is decimal digits. */
  predicate DigitsIn(t: string, lo: nat, hi: nat) {
    lo <= hi <= |t| && forall x {:trigger IsDigit(t[x])} :: lo <= x < hi ==> IsDigit(t[x])
  }

  predicate NotNewline(c: char) {
    c != '\n'
  }

  /** `t[lo..hi]` holds no newline. */
  predicate NoNewlineIn(t: string, lo: nat, hi: nat) {
    lo <= hi <= |t| && forall x {:trigger NotNewline(t[x])} :: lo <= x < hi ==> NotNewline(t[x])
  }

  /** Greedy `\s*` from `i`. */
  function SkipSpaces(t: string, i: nat): (j: nat)
    requires i <= |t|
    ensures i <= j <= |t|
    ensures forall x {:trigger IsSpace(t[x])} :: i <= x < j ==> IsSpace(t[x])
    ensures j == |t| || !IsSpace(t[j])
    decreases |t| - i
  {
    if i < |t| && IsSpace(t[i]) then SkipSpaces(t, i + 1) else i
  }

  /** Greedy `\d*` from `i`. */
  function SkipDigits(t: string, i: nat): (j: nat)
    requires i <= |t|
    ensures i <= j <= |t|
    ensures forall x {:trigger IsDigit(t[x])} :: i <= x < j ==> IsDigit(t[x])
    ensures j == |t| || !IsDigit(t[j])
    decreases |t| - i
  {
    if i < |t| && IsDigit(t[i]) then SkipDigits(t, i + 1) else i
  }

  /** Index of the first newline at or after `i`, or `|t|`. */
  function LineEnd(t: string, i: nat): (e: nat)
    requires i <= |t|
    ensures i <= e <= |t|
    ensures forall x {:trigger NotNewline(t[x])} :: i <= x < e ==> NotNewline(t[x])
    ensures e < |t| ==> t[e] == '\n'
    decreases |t| - i
  {
    if i < |t| && t[i] != '\n' then LineEnd(t, i + 1) else i
  }

  lemma SpacesInSub(t: string, lo: nat, hi: nat, a: nat, b: nat)
    requires SpacesIn(t, lo, hi) && lo <= a <= b <= hi
    ensures SpacesIn(t, a, b)
  {
  }

  lemma NoNewlineInSub(t: string, lo: nat, hi: nat, a: nat, b: nat)
    requires NoNewlineIn(t, lo, hi) && lo <= a <= b <= hi
    ensures NoNewlineIn(t, a, b)
  {
  }

  /** The greedy whitespace run from `i` stops exactly at `j` when
      `t[i..j]` is whitespace and `t[j]` is not. */
  lemma SkipSpacesExact(t: string, i: nat, j: nat)
    ensures SpacesIn(t, i, j) && (j == |t| || !IsSpace(t[j])) ==> SkipSpaces(t, i) == j
    decreases j - i
  {
    if SpacesIn(t, i, j) && i < j {
      assert IsSpace(t[i]);
      SkipSpacesExact(t, i + 1, j);
    }
  }

  /** The greedy whitespace run from `i` reaches at least `j` when
      `t[i..j]` is whitespace. */
  lemma SkipSpacesCovers(t: string, i: nat, j: nat)
    requires SpacesIn(t, i, j)
    ensures j <= SkipSpaces(t, i)
    decreases j - i
  {
    if i < j {
      assert IsSpace(t[i]);
      SkipSpacesCovers(t, i + 1, j);
    }
  }

  lemma SkipDigitsExact(t: string, i: nat, j: nat)
    ensures DigitsIn(t, i, j) && (j == |t| || !IsDigit(t[j])) ==> SkipDigits(t, i) == j
    decreases j - i
  {
    if DigitsIn(t, i, j) && i < j {
      assert IsDigit(t[i]);
      SkipDigitsExact(t, i + 1, j);
    }
  }

  lemma LineEndExact(t: string, i: nat, e: nat)
    requires NoNewlineIn(t, i, e) && e < |t| && t[e] == '\n'
    ensures LineEnd(t, i) == e
    decreases e - i
  {
    if i < e {
      assert NotNewline(t[i]);
      LineEndExact(t, i + 1, e);
    }
  }

  /** Positions of one header match: `start` is the first `#`, the id is
      `[idStart, idEnd)`, `dash` the separating hyphen and the title
      `[titleStart, titleEnd)`; the match ends at `titleEnd`, a newline. */
  datatype HeaderMatch = HeaderMatch(
    start: nat, idStart: nat, idEnd: nat, dash: nat, titleStart: nat, titleEnd: nat)

  /** The text at `m` has the form the header expression describes:
      `##`, whitespace, `DQ-`, digits, optional whitespace, `-`, optional
      whitespace, a non-empty title without newline, then a newline. */
  predicate HeaderShape(t: string, m: HeaderMatch) {
    HeaderMarks(t, m) && HeaderRuns(t, m)
  }

  /** The fixed characters of a header and the order of its positions. */
  predicate HeaderMarks(t: string, m: HeaderMatch) {
    && m.start + 2 < m.idStart
    && m.idStart + 3 < m.idEnd
    && m.idEnd <= m.dash
    && m.dash < m.titleStart
    && m.titleStart < m.titleEnd < |t|
    && t[m.start] == '#' && t[m.start + 1] == '#'
    && t[m.idStart] == 'D' && t[m.idStart + 1] == 'Q' && t[m.idStart + 2] == '-'
    && t[m.dash] == '-'
    && t[m.titleEnd] == '\n'
  }

  /** The runs between the fixed characters of a header. */
  predicate HeaderRuns(t: string, m: HeaderMatch) {
    && SpacesIn(t, m.start + 2, m.idStart)
    && DigitsIn(t, m.idStart + 3, m.idEnd)
    && SpacesIn(t, m.idEnd, m.dash)
    && SpacesIn(t, m.dash + 1, m.titleStart)
    && NoNewlineIn(t, m.titleStart, m.titleEnd)
  }

  /** The lazy title `.+?(?=\n)` can start at `q`. */
  predicate TitleFits(t: string, q: nat) {
    q < |t| && t[q] != '\n' && LineEnd(t, q + 1) < |t|
  }

  /** Where the title starts once the greedy `\s*` before it has taken the
      whitespace up to `q` and gives it back one character at a time: the
      last position in `[c, q]` at which the title fits. */
  function TitleStart(t: string, c: nat, q: nat): (r: Option<nat>)
    requires c <= q <= |t|
    ensures r.Some? ==> c <= r.value <= q && TitleFits(t, r.value)
    ensures r.Some? ==> forall x :: r.value < x <= q ==> !TitleFits(t, x)
    ensures r.None? ==> forall x :: c <= x <= q ==> !TitleFits(t, x)
    decreases q - c
  {
    if TitleFits(t, q) then Some(q)
    else if q == c then None
    else TitleStart(t, c, q - 1)
  }

  /** `re.match` of the header expression at index `i`. The greedy runs
      before `DQ-`, after the digits and before `-` cannot usefully give
      characters back (the next character would not match), so only the
      whitespace before the title backtracks. The match proceeds in
      stages: `##`, then the id, then the hyphen, then the title. */
  function MatchHeaderAt(t: string, i: nat): (r: Option<HeaderMatch>)
    ensures r.Some? ==> i == r.value.start < r.value.titleEnd < |t|
  {
    if i + 2 > |t| || t[i] != '#' || t[i + 1] != '#' then None
    else MatchId(t, i, SkipSpaces(t, i + 2))
  }

  /** Every match found has the header's shape. */
  lemma MatchHeaderSound(t: string, i: nat)
    ensures MatchHeaderAt(t, i).Some? ==> HeaderShape(t, MatchHeaderAt(t, i).value)
  {
    if i + 2 <= |t| && t[i] == '#' && t[i + 1] == '#' {
      MatchIdSound(t, i, SkipSpaces(t, i + 2));
    }
  }

  /** `DQ-` and the digits, at `a` after the whitespace following `##`. */
  function MatchId(t: string, i: nat, a: nat): (r: Option<HeaderMatch>)
    requires i + 2 <= |t| && t[i] == '#' && t[i + 1] == '#'
    requires a == SkipSpaces(t, i + 2)
    ensures r.Some? ==> i == r.value.start < r.value.titleEnd < |t|
  {
    if a == i + 2 || a + 3 > |t| || t[a] != 'D' || t[a + 1] != 'Q' || t[a + 2] != '-' then None
    else MatchDash(t, i, a, SkipDigits(t, a + 3))
  }

  /** The hyphen after the id, past optional whitespace. */
  function MatchDash(t: string, i: nat, a: nat, b: nat): (r: Option<HeaderMatch>)
    requires i + 2 <= |t| && t[i] == '#' && t[i + 1] == '#'
    requires a == SkipSpaces(t, i + 2) && a != i + 2
    requires a + 3 <= |t| && t[a] == 'D' && t[a + 1] == 'Q' && t[a + 2] == '-'
    requires b == SkipDigits(t, a + 3)
    ensures r.Some? ==> i == r.value.start < r.value.titleEnd < |t|
  {
    if b == a + 3 then None
    else MatchTitle(t, i, a, b, SkipSpaces(t, b))
  }

  /** The lazy title after the hyphen: the last start the backtracking
      whitespace allows. */
  function MatchTitle(t: string, i: nat, a: nat, b: nat, dash: nat): (r: Option<HeaderMatch>)
    requires i + 2 <= |t| && t[i] == '#' && t[i + 1] == '#'
    requires a == SkipSpaces(t, i + 2) && a != i + 2
    requires a + 3 <= |t| && t[a] == 'D' && t[a + 1] == 'Q' && t[a + 2] == '-'
    requires b == SkipDigits(t, a + 3) && b != a + 3
    requires dash == SkipSpaces(t, b)
    ensures r.Some? ==> i == r.value.start < r.value.titleEnd < |t|
  {
    if dash == |t| || t[dash] != '-' then None
    else
      match TitleStart(t, dash + 1, SkipSpaces(t, dash + 1))
      case None => None
      case Some(q) => Some(HeaderMatch(i, a, b, dash, q, LineEnd(t, q + 1)))
  }

  lemma MatchIdSound(t: string, i: nat, a: nat)
    requires i + 2 <= |t| && t[i] == '#' && t[i + 1] == '#'
    requires a == SkipSpaces(t, i + 2)
    ensures MatchId(t, i, a).Some? ==> HeaderShape(t, MatchId(t, i, a).value)
  {
    if MatchId(t, i, a).Some? {
      MatchDashSound(t, i, a, SkipDigits(t, a + 3));
    }
  }

  lemma MatchDashSound(t: string, i: nat, a: nat, b: nat)
    requires i + 2 <= |t| && t[i] == '#' && t[i + 1] == '#'
    requires a == SkipSpaces(t, i + 2) && a != i + 2
    requires a + 3 <= |t| && t[a] == 'D' && t[a + 1] == 'Q' && t[a + 2] == '-'
    requires b == SkipDigits(t, a + 3)
    ensures MatchDash(t, i, a, b).Some? ==> HeaderShape(t, MatchDash(t, i, a, b).value)
  {
    if MatchDash(t, i, a, b).Some? {
      MatchTitleSound(t, i, a, b, SkipSpaces(t, b));
    }
  }

  lemma MatchTitleSound(t: string, i: nat, a: nat, b: nat, dash: nat)
    requires i + 2 <= |t| && t[i] == '#' && t[i + 1] == '#'
    requires a == SkipSpaces(t, i + 2) && a != i + 2
    requires a + 3 <= |t| && t[a] == 'D' && t[a + 1] == 'Q' && t[a + 2] == '-'
    requires b == SkipDigits(t, a + 3) && b != a + 3
    requires dash == SkipSpaces(t, b)
    ensures MatchTitle(t, i, a, b, dash).Some? ==> HeaderShape(t, MatchTitle(t, i, a, b, dash).value)
  {
    if MatchTitle(t, i, a, b, dash).Some? {
      var q := TitleStart(t, dash + 1, SkipSpaces(t, dash + 1)).value;
      ShapeOfMatch(t, i, a, b, dash, q);
    }
  }

  /** The positions the matcher settles on have the header's shape. */
  lemma ShapeOfMatch(t: string, i: nat, a: nat, b: nat, dash: nat, q: nat)
    requires i + 2 <= |t| && t[i] == '#' && t[i + 1] == '#'
    requires a == SkipSpaces(t, i + 2) && a != i + 2
    requires a + 3 <= |t| && t[a] == 'D' && t[a + 1] == 'Q' && t[a + 2] == '-'
    requires b == SkipDigits(t, a + 3) && b != a + 3
    requires dash == SkipSpaces(t, b) && dash < |t| && t[dash] == '-'
    requires dash + 1 <= q <= SkipSpaces(t, dash + 1) && TitleFits(t, q)
    ensures HeaderShape(t, HeaderMatch(i, a, b, dash, q, LineEnd(t, q + 1)))
  {
    SpacesInSub(t, dash + 1, SkipSpaces(t, dash + 1), dash + 1, q);
    var e := LineEnd(t, q + 1);
    assert NoNewlineIn(t, q, e) by {
      assert NotNewline(t[q]);
    }
  }

  /** The matcher misses no header: wherever the text has the header form,
      a match is reported at that index. */
  lemma MatchHeaderComplete(t: string, m: HeaderMatch)
    requires HeaderShape(t, m)
    ensures MatchHeaderAt(t, m.start).Some?
  {
    MatchHeaderAtUnfold(t, m.start);
    SkipSpacesExact(t, m.start + 2, m.idStart);
    MatchIdComplete(t, m);
  }

  lemma MatchHeaderAtUnfold(t: string, i: nat)
    ensures (i + 2 <= |t| && t[i] == '#' && t[i + 1] == '#') ==>
      MatchHeaderAt(t, i) == MatchId(t, i, SkipSpaces(t, i + 2))
  {
  }

  lemma MatchIdComplete(t: string, m: HeaderMatch)
    ensures HeaderShape(t, m) && SkipSpaces(t, m.start + 2) == m.idStart ==>
      MatchId(t, m.start, m.idStart).Some?
  {
    if HeaderShape(t, m) && SkipSpaces(t, m.start + 2) == m.idStart {
      assert !IsDigit(t[m.idEnd]) by {
        if m.idEnd < m.dash {
          assert IsSpace(t[m.idEnd]);
        }
      }
      SkipDigitsExact(t, m.idStart + 3, m.idEnd);
      MatchIdUnfold(t, m.start, m.idStart);
      MatchDashComplete(t, m);
    }
  }

  lemma MatchIdUnfold(t: string, i: nat, a: nat)
    ensures (i + 2 <= |t| && t[i] == '#' && t[i + 1] == '#' && a == SkipSpaces(t, i + 2)
      && a != i + 2 && a + 3 <= |t| && t[a] == 'D' && t[a + 1] == 'Q' && t[a + 2] == '-') ==>
      MatchId(t, i, a) == MatchDash(t, i, a, SkipDigits(t, a + 3))
  {
  }

  lemma MatchDashComplete(t: string, m: HeaderMatch)
    ensures (HeaderShape(t, m) && SkipSpaces(t, m.start + 2) == m.idStart
      && SkipDigits(t, m.idStart + 3) == m.idEnd) ==>
      MatchDash(t, m.start, m.idStart, m.idEnd).Some?
  {
    if HeaderShape(t, m) && SkipSpaces(t, m.start + 2) == m.idStart
      && SkipDigits(t, m.idStart + 3) == m.idEnd
    {
      SkipSpacesExact(t, m.idEnd, m.dash);
      MatchTitleComplete(t, m);
    }
  }

  lemma MatchTitleComplete(t: string, m: HeaderMatch)
    ensures (HeaderShape(t, m) && SkipSpaces(t, m.start + 2) == m.idStart
      && SkipDigits(t, m.idStart + 3) == m.idEnd && SkipSpaces(t, m.idEnd) == m.dash) ==>
      MatchTitle(t, m.start, m.idStart, m.idEnd, m.dash).Some?
  {
    if HeaderShape(t, m) && SkipSpaces(t, m.start + 2) == m.idStart
      && SkipDigits(t, m.idStart + 3) == m.idEnd && SkipSpaces(t, m.idEnd) == m.dash
    {
      SkipSpacesCovers(t, m.dash + 1, m.titleStart);
      assert NotNewline(t[m.titleStart]);
      NoNewlineInSub(t, m.titleStart, m.titleEnd, m.titleStart + 1, m.titleEnd);
      LineEndExact(t, m.titleStart + 1, m.titleEnd);
      assert TitleFits(t, m.titleStart);
    }
  }

  function FirstStart(ms: seq<HeaderMatch>, limit: nat): nat {
    if |ms| == 0 then limit else ms[0].start
  }

  function NextStart(ms: seq<HeaderMatch>, k: nat, limit: nat): nat {
    if k + 1 < |ms| then ms[k + 1].start else limit
  }

  /** Where no match is reported, the text has no header form. */
  lemma NoShapeWithoutMatch(t: string, j: nat)
    requires MatchHeaderAt(t, j).None?
    ensures forall m :: HeaderShape(t, m) ==> m.start != j
  {
    forall m | HeaderShape(t, m)
      ensures m.start != j
    {
      MatchHeaderComplete(t, m);
    }
  }

  /** `re.finditer` from `pos`: the leftmost match, then the scan resumes
      where that match ends. */
  function FindHeaders(t: string, pos: nat): (ms: seq<HeaderMatch>)
    requires pos <= |t|
    ensures forall k :: 0 <= k < |ms| ==> pos <= ms[k].start < ms[k].titleEnd < |t|
    ensures forall k :: 0 <= k < |ms| - 1 ==> ms[k].titleEnd <= ms[k + 1].start
    decreases |t| - pos
  {
    if pos == |t| then []
    else
      match MatchHeaderAt(t, pos)
      case Some(m) => [m] + FindHeaders(t, m.titleEnd)
      case None => FindHeaders(t, pos + 1)
  }

  /** Each element of the scan is the regular-expression match at its own
      start. */
  lemma {:induction false} FindHeadersMatch(t: string, pos: nat, k: nat)
    requires pos <= |t| && k < |FindHeaders(t, pos)|
    ensures MatchHeaderAt(t, FindHeaders(t, pos)[k].start) == Some(FindHeaders(t, pos)[k])
    decreases |t| - pos
  {
    match MatchHeaderAt(t, pos)
    case Some(m) =>
      if k > 0 {
        FindHeadersMatch(t, m.titleEnd, k - 1);
      }
    case None =>
      FindHeadersMatch(t, pos + 1, k);
  }

  lemma FindHeadersShapes(t: string, pos: nat)
    requires pos <= |t|
    ensures forall k :: 0 <= k < |FindHeaders(t, pos)| ==> HeaderShape(t, FindHeaders(t, pos)[k])
  {
    forall k | 0 <= k < |FindHeaders(t, pos)|
      ensures HeaderShape(t, FindHeaders(t, pos)[k])
    {
      FindHeadersMatch(t, pos, k);
      MatchHeaderSound(t, FindHeaders(t, pos)[k].start);
    }
  }

  /** The scan skips no header before its first match. */
  lemma {:induction false} FindHeadersFirstGap(t: string, pos: nat)
    requires pos <= |t|
    ensures forall m :: HeaderShape(t, m) && pos <= m.start ==> FirstStart(FindHeaders(t, pos), |t|) <= m.start
    decreases |t| - pos
  {
    if pos < |t| && MatchHeaderAt(t, pos).None? {
      NoShapeWithoutMatch(t, pos);
      FindHeadersFirstGap(t, pos + 1);
    }
  }

  /** The scan skips no header between the end of its `k`-th match and the
      start of the next one (or the end of the text). */
  lemma {:induction false} FindHeadersGap(t: string, pos: nat, k: nat)
    requires pos <= |t| && k < |FindHeaders(t, pos)|
    ensures forall m :: HeaderShape(t, m) && FindHeaders(t, pos)[k].titleEnd <= m.start ==>
      NextStart(FindHeaders(t, pos), k, |t|) <= m.start
    decreases |t| - pos
  {
    var ms := FindHeaders(t, pos);
    match MatchHeaderAt(t, pos)
    case Some(m0) =>
      var rest := FindHeaders(t, m0.titleEnd);
      assert ms == [m0] + rest;
      if k == 0 {
        FindHeadersFirstGap(t, m0.titleEnd);
        assert NextStart(ms, 0, |t|) == FirstStart(rest, |t|);
      } else {
        FindHeadersGap(t, m0.titleEnd, k - 1);
        assert ms[k] == rest[k - 1];
        assert NextStart(ms, k, |t|) == NextStart(rest, k - 1, |t|);
      }
    case None =>
      FindHeadersGap(t, pos + 1, k);
  }

  // ---------------------------------------------------------------------
  // Severity snippets
  // ---------------------------------------------------------------------

  /** `word` occurs at `i`, ignoring the case of ASCII letters. */
  predicate OccursAtNoCase(word: string, t: string, i: nat) {
    i + |word| <= |t| && forall x :: 0 <= x < |word| ==> LowerChar(t[i + x]) == LowerChar(word[x])
  }

  predicate IsSeparator(c: char) {
    c == ':' || IsSpace(c)
  }

  /** Greedy `[:\s]*` from `i`. */
  function SkipSeparators(t: string, i: nat): (j: nat)
    requires i <= |t|
    ensures i <= j <= |t|
    ensures forall x :: i <= x < j ==> IsSeparator(t[x])
    ensures j == |t| || !IsSeparator(t[j])
    decreases |t| - i
  {
    if i < |t| && IsSeparator(t[i]) then SkipSeparators(t, i + 1) else i
  }

  /** The lookahead `(?=STOP|$)` holds at `k`: the stop word follows, or
      `k` is the end of the text or just before a final newline. */
  predicate SnippetStop(stop: string, t: string, k: nat) {
    k == |t| || (k + 1 == |t| && t[k] == '\n') || OccursAtNoCase(stop, t, k)
  }

  /** The first index at or after `k` where the lookahead holds. */
  function StopFrom(stop: string, t: string, k: nat): (e: nat)
    requires k <= |t|
    ensures k <= e <= |t| && SnippetStop(stop, t, e)
    ensures forall x :: k <= x < e ==> !SnippetStop(stop, t, x)
    decreases |t| - k
  {
    if SnippetStop(stop, t, k) then k else StopFrom(stop, t, k + 1)
  }

  datatype Span = Span(lo: nat, hi: nat)

  /** The group span of `WORD[:\s]+(.+?)(?=STOP|$)` matched at `i`, with
      dot matching newlines. The lazy group takes at least one character;
      when the separators run to the end of the text, the run gives its
      last character to the group. */
  function SnippetAt(word: string, stop: string, t: string, i: nat): (r: Option<Span>)
    requires i <= |t|
    ensures r.Some? ==> OccursAtNoCase(word, t, i)
    ensures r.Some? ==> i + |word| < r.value.lo < r.value.hi <= |t|
    ensures r.Some? ==> forall x :: i + |word| <= x < r.value.lo ==> IsSeparator(t[x])
    ensures r.Some? ==> SnippetStop(stop, t, r.value.hi)
  {
    if !OccursAtNoCase(word, t, i) then None
    else
      var j := SkipSeparators(t, i + |word|);
      if j == i + |word| then None
      else if j < |t| then Some(Span(j, StopFrom(stop, t, j + 1)))
      else if j - 1 > i + |word| then Some(Span(j - 1, |t|))
      else None
  }

  /** `re.search`: the match at the leftmost index from `i` on. */
  function SnippetSearch(word: string, stop: string, t: string, i: nat): (r: Option<Span>)
    requires i <= |t|
    ensures r.Some? ==> exists x :: i <= x <= |t| && SnippetAt(word, stop, t, x) == r
    ensures r.None? ==> forall x :: i <= x <= |t| ==> SnippetAt(word, stop, t, x).None?
    decreases |t| - i
  {
    var here := SnippetAt(word, stop, t, i);
    if here.Some? then here
    else if i == |t| then None
    else SnippetSearch(word, stop, t, i + 1)
  }

  /** The condition text after `word` in a rule body, stripped and cut to
      200 characters; `None` when the body has no such match. */
  function SeveritySnippet(word: string, stop: string, body: string): (r: Option<string>)
    ensures r.Some? ==> |r.value| <= 200
    ensures r.Some? <==> exists x :: 0 <= x <= |body| && SnippetAt(word, stop, body, x).Some?
    ensures r.Some? ==> exists x :: 0 <= x <= |body| && OccursAtNoCase(word, body, x)
  {
    match SnippetSearch(word, stop, body, 0)
    case None => None
    case Some(span) =>
      var x :| 0 <= x <= |body| && SnippetAt(word, stop, body, x) == Some(span);
      Some(Take(Strip(body[span.lo..span.hi]), 200))
  }

  // ---------------------------------------------------------------------
  // Parsing
  // ---------------------------------------------------------------------

  /** `DQ-` followed by one or more digits. */
  predicate IsRuleId(id: string) {
    |id| > 3 && id[..3] == "DQ-" && AllDigits(id[3..])
  }

  predicate HasNoNewline(s: string) {
    forall x :: 0 <= x < |s| ==> s[x] != '\n'
  }

  /** A well-ordered list of matches within `t`, as `FindHeaders` returns. */
  predicate MatchesWithin(t: string, ms: seq<HeaderMatch>) {
    && (forall k :: 0 <= k < |ms| ==> HeaderShape(t, ms[k]))
    && (forall k :: 0 <= k < |ms| - 1 ==> ms[k].titleEnd <= ms[k + 1].start)
  }

  /** The body of the `k`-th rule: the text from the end of its header to
      the start of the next header or the end of the text. */
  function BodySpan(t: string, ms: seq<HeaderMatch>, k: nat): (r: string)
    requires MatchesWithin(t, ms) && k < |ms|
  {
    t[ms[k].titleEnd..NextStart(ms, k, |t|)]
  }

  lemma IdOfShape(t: string, m: HeaderMatch)
    requires HeaderShape(t, m)
    ensures IsRuleId(t[m.idStart..m.idEnd])
  {
    var id := t[m.idStart..m.idEnd];
    assert id[..3] == [t[m.idStart], t[m.idStart + 1], t[m.idStart + 2]];
    forall x | 0 <= x < |id[3..]| ensures IsDigit(id[3..][x]) {
      assert id[3..][x] == t[m.idStart + 3 + x];
    }
  }

  lemma TitleOfShape(t: string, m: HeaderMatch)
    requires HeaderShape(t, m)
    ensures HasNoNewline(Strip(t[m.titleStart..m.titleEnd]))
  {
    var line := t[m.titleStart..m.titleEnd];
    var title := Strip(line);
    var i := StripStart(line);
    forall x | 0 <= x < |title| ensures title[x] != '\n' {
      assert title[x] == line[i + x] == t[m.titleStart + i + x];
      assert NotNewline(t[m.titleStart + i + x]);
    }
  }

  /** Rule `r` is what the `k`-th header of `t` yields: the header's `DQ-`
      id, its title stripped, the text up to the next header stripped, and
      the WARNING and REJECT snippets of that text. */
  predicate RuleOfHeader(t: string, ms: seq<HeaderMatch>, k: nat, r: Rule)
    requires MatchesWithin(t, ms) && k < |ms|
  {
    && r.id == t[ms[k].idStart..ms[k].idEnd]
    && r.title == Strip(t[ms[k].titleStart..ms[k].titleEnd])
    && r.content == Strip(BodySpan(t, ms, k))
    && r.severityWarning == SeveritySnippet("WARNING", "REJECT", r.content)
    && r.severityReject == SeveritySnippet("REJECT", "WARNING", r.content)
  }

  function RuleAt(t: string, ms: seq<HeaderMatch>, k: nat): (r: Rule)
    requires MatchesWithin(t, ms) && k < |ms|
    ensures RuleOfHeader(t, ms, k, r)
    ensures IsRuleId(r.id)
    ensures HasNoNewline(r.title)
    ensures r.severityWarning.Some? ==> |r.severityWarning.value| <= 200
    ensures r.severityReject.Some? ==> |r.severityReject.value| <= 200
  {
    var m := ms[k];
    IdOfShape(t, m);
    TitleOfShape(t, m);
    var id := t[m.idStart..m.idEnd];
    var body := Strip(BodySpan(t, ms, k));
    Rule(
      id,
      Strip(t[m.titleStart..m.titleEnd]),
      body,
      SeveritySnippet("WARNING", "REJECT", body),
      SeveritySnippet("REJECT", "WARNING", body))
  }

  /** `_parse_rules_from_content`: one rule per header match of the
      dash-normalised text, in textual order. */
  function ParseRules(content: string): (rules: seq<Rule>)
    ensures |rules| == |FindHeaders(NormalizeDashes(content), 0)|
    ensures MatchesWithin(NormalizeDashes(content), FindHeaders(NormalizeDashes(content), 0))
    ensures forall k :: 0 <= k < |rules| ==>
      RuleOfHeader(NormalizeDashes(content), FindHeaders(NormalizeDashes(content), 0), k, rules[k])
    ensures forall k :: 0 <= k < |rules| ==> IsRuleId(rules[k].id)
    ensures forall k :: 0 <= k < |rules| ==> HasNoNewline(rules[k].title)
    ensures forall k :: 0 <= k < |rules| ==>
      (rules[k].severityWarning.Some? ==> |rules[k].severityWarning.value| <= 200) &&
      (rules[k].severityReject.Some? ==> |rules[k].severityReject.value| <= 200)
  {
    var t := NormalizeDashes(content);
    var ms := FindHeaders(t, 0);
    FindHeadersShapes(t, 0);
    seq(|ms|, k requires 0 <= k < |ms| => RuleAt(t, ms, k))
  }

  // ---------------------------------------------------------------------
  // Loading a rules directory
  // ---------------------------------------------------------------------

  /** The rules of several files, each file's text parsed on its own and the
      results concatenated in file order. */
  function ParseFiles(files: seq<string>): seq<Rule> {
    Flatten(seq(|files|, i requires 0 <= i < |files| => ParseRules(files[i])))
  }

  /** A rule is loaded from a list of files iff it is parsed from one of them. */
  lemma ParseFilesMembers(files: seq<string>)
    ensures forall r :: r in ParseFiles(files) <==>
      exists i :: 0 <= i < |files| && r in ParseRules(files[i])
  {
    var per := seq(|files|, i requires 0 <= i < |files| => ParseRules(files[i]));
    FlattenMembers(per);
    assert forall i :: 0 <= i < |files| ==> per[i] == ParseRules(files[i]);
  }

  /** Files are parsed independently: no header or body reaches across the
      boundary between two files, whatever the files hold. */
  lemma ParseFilesAppend(fs: seq<string>, gs: seq<string>)
    ensures ParseFiles(fs + gs) == ParseFiles(fs) + ParseFiles(gs)
  {
    var pf := seq(|fs|, i requires 0 <= i < |fs| => ParseRules(fs[i]));
    var pg := seq(|gs|, i requires 0 <= i < |gs| => ParseRules(gs[i]));
    var all := fs + gs;
    var pa := seq(|all|, i requires 0 <= i < |all| => ParseRules(all[i]));
    assert pa == pf + pg;
    FlattenAppend(pf, pg);
  }

  datatype LoadError = RulesDirNotFound(dir: string)

  /** What `load_rules` hands back, and the loader's rule list afterwards. */
  datatype Loaded = Loaded(returned: seq<Rule>, rules: seq<Rule>)

  /** `load_rules` on a loader that already holds `loaded`. `files` is `None`
      when the directory does not exist, and otherwise the texts of its `*.md`
      files followed by its `*.txt` files, in glob order. The loader's list is
      never cleared, so every call appends; with no rule file the call returns
      an empty list while the loader keeps what it held. */
  function LoadRules(dir: string, loaded: seq<Rule>, files: Option<seq<string>>): (r: Result<Loaded, LoadError>)
    ensures files.None? <==> r.Failure?
    ensures files.None? ==> r.error == RulesDirNotFound(dir)
    ensures r.Success? ==> |loaded| <= |r.value.rules| && r.value.rules[..|loaded|] == loaded
    ensures r.Success? ==> |loaded| <= |r.value.rules| && forall x :: x in r.value.rules[|loaded|..] <==>
      exists i :: 0 <= i < |files.value| && x in ParseRules(files.value[i])
    ensures r.Success? && |files.value| == 0 ==> r.value.returned == [] && r.value.rules == loaded
    ensures r.Success? && |files.value| > 0 ==> r.value.returned == r.value.rules
  {
    match files
    case None => Failure(RulesDirNotFound(dir))
    case Some(fs) =>
      ParseFilesMembers(fs);
      var all := loaded + ParseFiles(fs);
      assert all[..|loaded|] == loaded && all[|loaded|..] == ParseFiles(fs);
      if |fs| == 0 then Success(Loaded([], loaded)) else Success(Loaded(all, all))
  }

  /** Loading the same directory twice into a fresh loader holds every rule
      twice: the second call appends rather than replaces. */
  lemma LoadTwiceDuplicates(dir: string, fs: seq<string>)
    requires |fs| > 0
    ensures var first := LoadRules(dir, [], Some(fs)).value.rules;
      LoadRules(dir, first, Some(fs)).value.rules == ParseFiles(fs) + ParseFiles(fs)
  {
  }

  function Shift(m: HeaderMatch, d: nat): HeaderMatch {
    HeaderMatch(m.start + d, m.idStart + d, m.idEnd + d, m.dash + d, m.titleStart + d, m.titleEnd + d)
  }

  lemma SpacesInShift(t: string, lo: nat, hi: nat, a: nat, b: nat)
    requires lo <= hi <= |t| && SpacesIn(t[lo..hi], a, b)
    ensures SpacesIn(t, a + lo, b + lo)
  {
    forall x | a + lo <= x < b + lo ensures IsSpace(t[x]) {
      assert t[x] == t[lo..hi][x - lo];
      assert IsSpace(t[lo..hi][x - lo]);
    }
  }

  lemma DigitsInShift(t: string, lo: nat, hi: nat, a: nat, b: nat)
    requires lo <= hi <= |t| && DigitsIn(t[lo..hi], a, b)
    ensures DigitsIn(t, a + lo, b + lo)
  {
    forall x | a + lo <= x < b + lo ensures IsDigit(t[x]) {
      assert t[x] == t[lo..hi][x - lo];
      assert IsDigit(t[lo..hi][x - lo]);
    }
  }

  lemma NoNewlineInShift(t: string, lo: nat, hi: nat, a: nat, b: nat)
    requires lo <= hi <= |t| && NoNewlineIn(t[lo..hi], a, b)
    ensures NoNewlineIn(t, a + lo, b + lo)
  {
    forall x | a + lo <= x < b + lo ensures NotNewline(t[x]) {
      assert t[x] == t[lo..hi][x - lo];
      assert NotNewline(t[lo..hi][x - lo]);
    }
  }

  /** A header shape inside a slice is a header shape in the whole text. */
  lemma ShapeInSlice(t: string, lo: nat, hi: nat, m: HeaderMatch)
    requires lo <= hi <= |t|
    ensures HeaderShape(t[lo..hi], m) ==> HeaderShape(t, Shift(m, lo)) && m.start + lo < hi
  {
    if HeaderShape(t[lo..hi], m) {
      MarksInSlice(t, lo, hi, m);
      RunsInSlice(t, lo, hi, m);
    }
  }

  lemma MarksInSlice(t: string, lo: nat, hi: nat, m: HeaderMatch)
    requires lo <= hi <= |t| && HeaderMarks(t[lo..hi], m)
    ensures HeaderMarks(t, Shift(m, lo)) && m.start + lo < hi
  {
    var s := t[lo..hi];
    var n := Shift(m, lo);
    assert t[n.start] == s[m.start] && t[n.start + 1] == s[m.start + 1];
    assert t[n.idStart] == s[m.idStart] && t[n.idStart + 1] == s[m.idStart + 1];
    assert t[n.idStart + 2] == s[m.idStart + 2];
    assert t[n.dash] == s[m.dash] && t[n.titleEnd] == s[m.titleEnd];
  }

  lemma RunsInSlice(t: string, lo: nat, hi: nat, m: HeaderMatch)
    requires lo <= hi <= |t| && HeaderRuns(t[lo..hi], m)
    ensures HeaderRuns(t, Shift(m, lo))
  {
    SpacesInShift(t, lo, hi, m.start + 2, m.idStart);
    DigitsInShift(t, lo, hi, m.idStart + 3, m.idEnd);
    SpacesInShift(t, lo, hi, m.idEnd, m.dash);
    SpacesInShift(t, lo, hi, m.dash + 1, m.titleStart);
    NoNewlineInShift(t, lo, hi, m.titleStart, m.titleEnd);
  }

  /** No position of `u` starts text of header form. */
  ghost predicate NoHeaderIn(u: string) {
    forall m :: !HeaderShape(u, m)
  }

  /** A slice in which no header of the whole text starts has no header
      of its own. */
  lemma SliceHasNoHeader(t: string, lo: nat, hi: nat, a: nat, b: nat)
    requires lo <= a <= b <= hi <= |t|
    requires forall m :: HeaderShape(t, m) && lo <= m.start ==> hi <= m.start
    ensures NoHeaderIn(t[a..b])
  {
    forall m
      ensures !HeaderShape(t[a..b], m)
    {
      ShapeInSlice(t, a, b, m);
    }
  }

  lemma SliceOfSlice(t: string, lo: nat, hi: nat, a: nat, b: nat)
    requires lo <= hi <= |t| && a <= b <= hi - lo
    ensures t[lo..hi][a..b] == t[lo + a..lo + b]
  {
    assert forall x :: 0 <= x < b - a ==> t[lo..hi][a..b][x] == t[lo + a + x];
  }

  lemma StrippedSliceHasNoHeader(t: string, lo: nat, hi: nat)
    requires lo <= hi <= |t|
    requires forall m :: HeaderShape(t, m) && lo <= m.start ==> hi <= m.start
    ensures NoHeaderIn(Strip(t[lo..hi]))
  {
    var a, b := StripOfSlice(t, lo, hi);
    SliceHasNoHeader(t, lo, hi, a, b);
  }

  /** The stripped slice is itself a slice of `t`. */
  lemma StripOfSlice(t: string, lo: nat, hi: nat) returns (a: nat, b: nat)
    requires lo <= hi <= |t|
    ensures lo <= a <= b <= hi && Strip(t[lo..hi]) == t[a..b]
  {
    var span := t[lo..hi];
    var s0 := StripStart(span);
    var s1 := StripEnd(span, s0);
    SliceOfSlice(t, lo, hi, s0, s1);
    a, b := lo + s0, lo + s1;
  }

  /** A rule's body contains no text of header form, so the scan would have
      stopped inside it otherwise. */
  lemma BodyHasNoHeader(content: string, k: nat)
    requires k < |ParseRules(content)|
    ensures NoHeaderIn(ParseRules(content)[k].content)
  {
    var t := NormalizeDashes(content);
    var ms := FindHeaders(t, 0);
    FindHeadersShapes(t, 0);
    FindHeadersGap(t, 0, k);
    StrippedSliceHasNoHeader(t, ms[k].titleEnd, NextStart(ms, k, |t|));
    assert ParseRules(content)[k].content == Strip(BodySpan(t, ms, k));
  }

  // ---------------------------------------------------------------------
  // Lookups
  // ---------------------------------------------------------------------

  /** Index `k` holds the first rule whose id is `id`. */
  predicate FirstWithId(rules: seq<Rule>, id: string, k: int) {
    0 <= k < |rules| && rules[k].id == id && forall j :: 0 <= j < k ==> rules[j].id != id
  }

  /** `get_rule_by_id`: the first rule with the given id. */
  function GetRuleById(rules: seq<Rule>, id: string): (r: Option<Rule>)
    ensures r.None? <==> forall k :: 0 <= k < |rules| ==> rules[k].id != id
    ensures forall k {:trigger FirstWithId(rules, id, k)} :: FirstWithId(rules, id, k) ==> r == Some(rules[k])
  {
    if |rules| == 0 then None
    else if rules[0].id == id then Some(rules[0])
    else
      var r := GetRuleById(rules[1..], id);
      assert forall k :: 1 <= k < |rules| ==> rules[k] == rules[1..][k - 1];
      assert forall k {:trigger FirstWithId(rules, id, k)} :: FirstWithId(rules, id, k) ==>
        k >= 1 && FirstWithId(rules[1..], id, k - 1);
      r
  }

  /** The keyword test of `search_rules`, with the keyword already lowered. */
  predicate RuleMentions(rule: Rule, keywordLower: string) {
    Contains(ToLower(rule.content), keywordLower) || Contains(ToLower(rule.title), keywordLower)
  }

  /** `search_rules`: the rules whose lowered body or title contains the
      lowered keyword, in catalogue order. */
  function SearchRules(rules: seq<Rule>, keyword: string): (r: seq<Rule>)
    ensures IsSubsequence(r, rules)
    ensures forall rule :: rule in r <==> rule in rules && RuleMentions(rule, ToLower(keyword))
    ensures |r| == Count(rules, (rule: Rule) => RuleMentions(rule, ToLower(keyword)))
  {
    var p := (rule: Rule) => RuleMentions(rule, ToLower(keyword));
    FilterIsSubsequence(rules, p);
    Filter(rules, p)
  }

  /** One row of `get_rules_summary`. */
  datatype RuleSummary = RuleSummary(id: string, title: string)

  function GetRulesSummary(rules: seq<Rule>): (s: seq<RuleSummary>)
    ensures |s| == |rules|
    ensures forall k :: 0 <= k < |rules| ==> s[k] == RuleSummary(rules[k].id, rules[k].title)
  {
    seq(|rules|, k requires 0 <= k < |rules| => RuleSummary(rules[k].id, rules[k].title))
  }

  /** Every id listed in the summary resolves with `GetRuleById`, to the
      first rule carrying it; with distinct ids that is the listed rule. */
  lemma SummaryIdsResolve(rules: seq<Rule>, k: nat)
    requires k < |rules|
    ensures GetRuleById(rules, GetRulesSummary(rules)[k].id).Some?
    ensures Distinct(seq(|rules|, i requires 0 <= i < |rules| => rules[i].id)) ==>
      GetRuleById(rules, GetRulesSummary(rules)[k].id) == Some(rules[k])
  {
    var id := GetRulesSummary(rules)[k].id;
    var ids := seq(|rules|, i requires 0 <= i < |rules| => rules[i].id);
    assert rules[k].id == id;
    if Distinct(ids) {
      forall j | 0 <= j < k ensures rules[j].id != id {
        assert ids[j] != ids[k];
      }
      assert FirstWithId(rules, id, k);
    }
  }
}
