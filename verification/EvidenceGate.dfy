/** The gate over untagged evidence records: `evaluate` and `match_report`
    (crates/spike-contracts/src/matrix.rs). */
module EvidenceGate {
  import opened Prelude
  import opened Proofs
  import opened MatrixKeys

  datatype Verdict = Pass | Conditional | Fail | Skipped

  datatype Value = Text(text: string) | Number(number: u64) | Flag(flag: bool) | Other

  datatype Report = Report(spike: SpikeId, target: TargetId, verdict: Option<Verdict>, measurements: map<string, Value>)

  datatype EvidenceError =
    | UnmatchedEvidence
    | WrongBackend
    | MissingActualBackend
    | DuplicateEvidence
    | UnfinishedVerdict
    | RequiredVerdict(verdict: Verdict)
    | Requirement(what: string)
    | MissingEvidence(key: string)

  /** The threshold checks of `validate_requirements`, whatever they are. */
  type Thresholds = (RequiredEvidence, Report) -> Option<EvidenceError>

  /** `measurement_str`. */
  function TextOf(report: Report, name: string): Option<string> {
    if name in report.measurements && report.measurements[name].Text? then Some(report.measurements[name].text)
    else None
  }

  /** The row a report speaks about. */
  function RowOf(report: Report): RequiredEvidence {
    RequiredEvidence(report.spike, report.target, TextOf(report, "session"), TextOf(report, "requested_backend"))
  }

  predicate Candidate(row: RequiredEvidence, report: Report) {
    row.id == report.spike && row.target == report.target
  }

  function Matched(rows: seq<RequiredEvidence>, report: Report): Result<RequiredEvidence, EvidenceError> {
    var row := RowOf(report);
    if !exists i :: 0 <= i < |rows| && Candidate(rows[i], report) then Err(UnmatchedEvidence)
    else if row !in rows then Err(if row.id.Media? && row.backend.Some? then WrongBackend else UnmatchedEvidence)
    else if row.backend.Some? && TextOf(report, "actual_backend").None? then Err(MissingActualBackend)
    else Ok(row)
  }

  /** `match_report`. */
  method MatchReport(rows: seq<RequiredEvidence>, report: Report) returns (r: Result<RequiredEvidence, EvidenceError>)
    ensures r == Matched(rows, report)
  {
    var requestedBackend := TextOf(report, "requested_backend");
    var session := TextOf(report, "session");
    hide TextOf;
    var candidates: seq<RequiredEvidence> := [];
    for i := 0 to |rows|
      invariant forall row :: row in candidates <==> row in rows[..i] && Candidate(row, report)
    {
      if rows[i].id == report.spike && rows[i].target == report.target {
        candidates := candidates + [rows[i]];
      }
    }
    assert rows[..|rows|] == rows;
    if candidates == [] {
      assert forall i :: 0 <= i < |rows| ==> rows[i] in rows;
      return Err(UnmatchedEvidence);
    }
    assert candidates[0] in rows;
    for k := 0 to |candidates|
      invariant RowOf(report) !in candidates[..k]
    {
      var entry := candidates[k];
      if entry.session == session && entry.backend == requestedBackend {
        assert entry in candidates && entry == RowOf(report);
        if entry.backend.Some? && TextOf(report, "actual_backend").None? {
          return Err(MissingActualBackend);
        }
        return Ok(entry);
      }
    }
    assert RowOf(report) !in candidates;
    if report.spike == Media && requestedBackend.Some? {
      return Err(WrongBackend);
    }
    return Err(UnmatchedEvidence);
  }

  /** The first loop: the first fault in input order, or the keys seen. */
  function Scan(rows: seq<RequiredEvidence>, reports: seq<Report>,
                seen: set<string>): Result<set<string>, EvidenceError>
    decreases |reports|
  {
    if reports == [] then Ok(seen)
    else
      var report := reports[0];
      match Matched(rows, report)
      case Err(e) => Err(e)
      case Ok(row) =>
        if RequiredKey(row) in seen then Err(DuplicateEvidence)
        else if report.verdict.None? then Err(UnfinishedVerdict)
        else if report.verdict != Some(Pass) then Err(RequiredVerdict(report.verdict.value))
        else Scan(rows, reports[1..], seen + {RequiredKey(row)})
  }

  /** The second loop: the first threshold not met. */
  function FirstUnmet(reports: seq<Report>, thresholds: Thresholds): Option<EvidenceError>
    decreases |reports|
  {
    if reports == [] then None
    else if thresholds(RowOf(reports[0]), reports[0]).Some? then thresholds(RowOf(reports[0]), reports[0])
    else FirstUnmet(reports[1..], thresholds)
  }

  /** The third loop: the first row without a report. */
  function FirstUncovered(rows: seq<RequiredEvidence>, seen: set<string>): Option<string>
    decreases |rows|
  {
    if rows == [] then None
    else if RequiredKey(rows[0]) !in seen then Some(RequiredKey(rows[0]))
    else FirstUncovered(rows[1..], seen)
  }

  function EvaluateVerdict(rows: seq<RequiredEvidence>, reports: seq<Report>,
                           thresholds: Thresholds): Result<(), EvidenceError> {
    match Scan(rows, reports, {})
    case Err(e) => Err(e)
    case Ok(seen) =>
      match FirstUnmet(reports, thresholds)
      case Some(e) => Err(e)
      case None =>
        match FirstUncovered(rows, seen)
        case Some(key) => Err(MissingEvidence(key))
        case None => Ok(())
  }

  /** `evaluate`. */
  method Evaluate(required: seq<RequiredEvidence>, reports: seq<Report>, thresholds: Thresholds)
    returns (r: Result<(), EvidenceError>)
    ensures r == EvaluateVerdict(required, reports, thresholds)
  {
    hide RequiredKey, Matched, RowOf;
    var seen: set<string> := {};
    var matched: seq<(RequiredEvidence, Report)> := [];
    for i := 0 to |reports|
      invariant Scan(required, reports, {}) == Scan(required, reports[i..], seen)
      invariant |matched| == i && forall k :: 0 <= k < i ==> matched[k] == (RowOf(reports[k]), reports[k])
    {
      var report := reports[i];
      assert reports[i..][1..] == reports[i + 1..];
      var row := MatchReport(required, report);
      if row.Err? {
        return Err(row.error);
      }
      MatchedIsClaimed(required, report);
      var key := RequiredKey(row.value);
      if key in seen {
        return Err(DuplicateEvidence);
      }
      if report.verdict.None? {
        return Err(UnfinishedVerdict);
      }
      if report.verdict.value != Pass {
        return Err(RequiredVerdict(report.verdict.value));
      }
      seen := seen + {key};
      matched := matched + [(row.value, report)];
    }
    for i := 0 to |matched|
      invariant FirstUnmet(reports, thresholds) == FirstUnmet(reports[i..], thresholds)
    {
      assert reports[i..][1..] == reports[i + 1..];
      var fault := thresholds(matched[i].0, matched[i].1);
      if fault.Some? {
        return Err(fault.value);
      }
    }
    for i := 0 to |required|
      invariant FirstUncovered(required, seen) == FirstUncovered(required[i..], seen)
    {
      assert required[i..][1..] == required[i + 1..];
      if RequiredKey(required[i]) !in seen {
        return Err(MissingEvidence(RequiredKey(required[i])));
      }
    }
    return Ok(());
  }

  lemma MatchedIsClaimed(rows: seq<RequiredEvidence>, report: Report)
    ensures Matched(rows, report).Ok? ==> Matched(rows, report).value == RowOf(report)
    ensures Matched(rows, report).Ok? <==>
            RowOf(report) in rows && (RowOf(report).backend.Some? ==> TextOf(report, "actual_backend").Some?)
  {
    if RowOf(report) in rows {
      var i :| 0 <= i < |rows| && rows[i] == RowOf(report);
      assert Candidate(rows[i], report);
    }
  }

  // ---- what is accepted ------------------------------------------------------------------

  function Rows(reports: seq<Report>): seq<RequiredEvidence> {
    seq(|reports|, i requires 0 <= i < |reports| => RowOf(reports[i]))
  }

  /** A report that is fine on its own. */
  ghost predicate Acceptable(report: Report, thresholds: Thresholds) {
    && (RowOf(report).backend.Some? ==> TextOf(report, "actual_backend").Some?)
    && report.verdict == Some(Pass)
    && thresholds(RowOf(report), report) == None
  }

  lemma {:induction false} DistinctCounts<T>(s: seq<T>)
    ensures Distinct(s) <==> forall x :: x in s ==> multiset(s)[x] == 1
    decreases |s|
  {
    if s != [] {
      var init, last := s[..|s| - 1], s[|s| - 1];
      DistinctCounts(init);
      assert s == init + [last];
      assert multiset(s) == multiset(init) + multiset{last};
      if last in init {
        var i :| 0 <= i < |init| && init[i] == last;
        assert s[i] == s[|s| - 1];
        assert multiset(init)[last] >= 1 && last in s && multiset(s)[last] >= 2;
      } else {
        assert multiset(init)[last] == 0;
        assert Distinct(s) <==> Distinct(init) by {
          assert forall i :: 0 <= i < |init| ==> s[i] == init[i] && init[i] in init;
        }
        assert forall x :: x in init ==> multiset(s)[x] == multiset(init)[x];
      }
    }
  }

  /** Two lists without repetitions and with the same members are rearrangements of one
      another, and every rearrangement of such a list is such a list. */
  lemma SameMultiset<T>(a: seq<T>, b: seq<T>)
    requires Distinct(b)
    ensures multiset(a) == multiset(b) <==> Distinct(a) && forall x :: x in a <==> x in b
  {
    DistinctCounts(a);
    DistinctCounts(b);
    if multiset(a) == multiset(b) {
      forall x ensures x in a <==> x in b {
        assert x in a <==> x in multiset(a);
        assert x in b <==> x in multiset(b);
      }
    }
    if Distinct(a) && forall x :: x in a <==> x in b {
      forall x ensures multiset(a)[x] == multiset(b)[x] {
        assert x !in a ==> multiset(a)[x] == 0;
        assert x !in b ==> multiset(b)[x] == 0;
      }
    }
  }

  ghost predicate KeysOf(seen: set<string>, filled: set<RequiredEvidence>) {
    forall row | row in CANONICAL :: RequiredKey(row) in seen <==> row in filled
  }

  /** The report passes the checks of the first loop. */
  ghost predicate Scans(report: Report) {
    && RowOf(report) in CANONICAL
    && (RowOf(report).backend.Some? ==> TextOf(report, "actual_backend").Some?)
    && report.verdict == Some(Pass)
  }

  ghost predicate AllScan(reports: seq<Report>, filled: set<RequiredEvidence>) {
    forall i :: 0 <= i < |reports| ==> Scans(reports[i]) && RowOf(reports[i]) !in filled
  }

  ghost function RowSet(reports: seq<Report>): set<RequiredEvidence> { set row | row in Rows(reports) }

  lemma {:induction false} ScanIsExact(reports: seq<Report>, seen: set<string>, filled: set<RequiredEvidence>)
    requires KeysOf(seen, filled)
    ensures Scan(CANONICAL, reports, seen).Ok? <==> AllScan(reports, filled) && Distinct(Rows(reports))
    ensures Scan(CANONICAL, reports, seen).Ok? ==>
              KeysOf(Scan(CANONICAL, reports, seen).value, filled + RowSet(reports))
    decreases |reports|
  {
    hide CANONICAL, RequiredKey, RowOf, TextOf, Matched, RowSet, Rows;
    if reports == [] {
      NothingScanned(filled);
    } else {
      var head, tail := reports[0], reports[1..];
      var row := RowOf(head);
      MatchedIsClaimed(CANONICAL, head);
      assert reports == [head] + tail;
      ConsScan(head, tail, filled);
      if row in CANONICAL {
        assert RequiredKey(row) in seen <==> row in filled;
        ExtendKeys(seen, filled, row);
        hide KeysOf, AllScan, Distinct;
        ScanIsExact(tail, seen + {RequiredKey(row)}, filled + {row});
      }
    }
  }

  lemma NothingScanned(filled: set<RequiredEvidence>)
    ensures filled + RowSet([]) == filled && Distinct(Rows([])) && AllScan([], filled)
  {
  }

  lemma ConsScan(head: Report, tail: seq<Report>, filled: set<RequiredEvidence>)
    ensures filled + RowSet([head] + tail) == filled + {RowOf(head)} + RowSet(tail)
    ensures AllScan([head] + tail, filled) && Distinct(Rows([head] + tail)) <==>
            && Scans(head) && RowOf(head) !in filled
            && AllScan(tail, filled + {RowOf(head)}) && Distinct(Rows(tail))
  {
    hide Scans, RowOf, Distinct, Rows, AllScan;
    var all := [head] + tail;
    assert all[0] == head && all[1..] == tail;
    ConsRows(all);
    ConsAllScan(head, tail, filled);
    ScanApart(tail, filled, RowOf(head));
    assert Rows(all) == [RowOf(head)] + Rows(tail);
  }

  lemma ConsAllScan(head: Report, tail: seq<Report>, filled: set<RequiredEvidence>)
    ensures AllScan([head] + tail, filled) <==> Scans(head) && RowOf(head) !in filled && AllScan(tail, filled)
  {
    hide Scans, RowOf;
    var all := [head] + tail;
    if AllScan(all, filled) {
      assert all[0] == head;
      forall i | 0 <= i < |tail| ensures Scans(tail[i]) && RowOf(tail[i]) !in filled {
        assert all[i + 1] == tail[i];
      }
    }
  }

  lemma ScanApart(reports: seq<Report>, filled: set<RequiredEvidence>, row: RequiredEvidence)
    ensures AllScan(reports, filled + {row}) <==> AllScan(reports, filled) && row !in Rows(reports)
  {
    hide Scans, RowOf;
    assert forall i :: 0 <= i < |reports| ==> Rows(reports)[i] == RowOf(reports[i]);
  }

  lemma ConsRows(reports: seq<Report>)
    requires reports != []
    ensures Rows(reports) == [RowOf(reports[0])] + Rows(reports[1..])
    ensures Distinct(Rows(reports)) <==> Distinct(Rows(reports[1..])) && RowOf(reports[0]) !in Rows(reports[1..])
  {
    hide RowOf;
    assert Rows(reports) == [RowOf(reports[0])] + Rows(reports[1..]);
    hide Rows;
    ConsDistinct(RowOf(reports[0]), Rows(reports[1..]));
  }

  lemma ExtendKeys(seen: set<string>, filled: set<RequiredEvidence>, row: RequiredEvidence)
    requires KeysOf(seen, filled) && row in CANONICAL
    ensures KeysOf(seen + {RequiredKey(row)}, filled + {row})
  {
    hide CANONICAL, RequiredKey;
    forall other | other in CANONICAL
      ensures RequiredKey(other) in seen + {RequiredKey(row)} <==> other in filled + {row}
    {
      if RequiredKey(other) == RequiredKey(row) {
        CanonicalKeysAreInjective(other, row);
      }
    }
  }

  lemma {:induction false} UnmetIsExact(reports: seq<Report>, thresholds: Thresholds)
    ensures FirstUnmet(reports, thresholds).None? <==>
            forall i :: 0 <= i < |reports| ==> thresholds(RowOf(reports[i]), reports[i]) == None
    decreases |reports|
  {
    hide RowOf;
    if reports != [] {
      UnmetIsExact(reports[1..], thresholds);
      assert reports == [reports[0]] + reports[1..];
    }
  }

  lemma {:induction false} CoveredIsExact(rows: seq<RequiredEvidence>, seen: set<string>)
    ensures FirstUncovered(rows, seen).None? <==> forall row :: row in rows ==> RequiredKey(row) in seen
    decreases |rows|
  {
    hide RequiredKey;
    if rows != [] {
      CoveredIsExact(rows[1..], seen);
      assert rows == [rows[0]] + rows[1..];
    }
  }

  /** The reports match the matrix one to one, and each is fine on its own. */
  ghost predicate OneToOne(reports: seq<Report>, thresholds: Thresholds) {
    && multiset(Rows(reports)) == multiset(CANONICAL)
    && forall i :: 0 <= i < |reports| ==> Acceptable(reports[i], thresholds)
  }

  /** `evaluate` accepts exactly the lists of passing reports that match the matrix rows one
      to one: no row without its report, no second report for a row, no report besides. */
  lemma AcceptsExactlyOneToOne(reports: seq<Report>, thresholds: Thresholds)
    ensures EvaluateVerdict(CANONICAL, reports, thresholds).Ok? <==> OneToOne(reports, thresholds)
  {
    hide *;
    CanonicalIsDistinct();
    NothingSeen();
    SameMultiset(Rows(reports), CANONICAL);
    ScanIsExact(reports, {}, {});
    UnmetIsExact(reports, thresholds);
    Judged(reports, thresholds);
    if Scan(CANONICAL, reports, {}).Ok? {
      var seen := Scan(CANONICAL, reports, {}).value;
      CoveredIsExact(CANONICAL, seen);
      KeysCover(seen, reports);
    }
    Unfolded(reports, thresholds);
  }

  lemma NothingSeen()
    ensures KeysOf({}, {})
  {
    hide CANONICAL, RequiredKey;
  }

  /** The pieces of the verdict and of its meaning. */
  lemma Unfolded(reports: seq<Report>, thresholds: Thresholds)
    ensures EvaluateVerdict(CANONICAL, reports, thresholds).Ok? <==>
            && Scan(CANONICAL, reports, {}).Ok?
            && FirstUnmet(reports, thresholds).None?
            && FirstUncovered(CANONICAL, Scan(CANONICAL, reports, {}).value).None?
    ensures OneToOne(reports, thresholds) <==>
            && multiset(Rows(reports)) == multiset(CANONICAL)
            && forall i :: 0 <= i < |reports| ==> Acceptable(reports[i], thresholds)
  {
    hide CANONICAL, Scan, FirstUnmet, FirstUncovered, Rows, Acceptable;
  }

  /** The two loops over the reports ask of each what makes it acceptable, and that its row exists. */
  lemma Judged(reports: seq<Report>, thresholds: Thresholds)
    ensures (&& AllScan(reports, {})
             && forall i :: 0 <= i < |reports| ==> thresholds(RowOf(reports[i]), reports[i]) == None) <==>
            (&& (forall row :: row in Rows(reports) ==> row in CANONICAL)
             && forall i :: 0 <= i < |reports| ==> Acceptable(reports[i], thresholds))
  {
    hide CANONICAL, RowOf, TextOf;
    var rows := Rows(reports);
    assert forall i :: 0 <= i < |reports| ==> rows[i] == RowOf(reports[i]) && rows[i] in rows;
  }

  lemma KeysCover(seen: set<string>, reports: seq<Report>)
    requires KeysOf(seen, {} + RowSet(reports))
    ensures (forall row :: row in CANONICAL ==> RequiredKey(row) in seen) <==>
            forall row :: row in CANONICAL ==> row in Rows(reports)
  {
    hide CANONICAL, RequiredKey, Rows;
  }

  /** An accepted list has a report for each of the 33 rows and none besides. */
  lemma AcceptanceMeansThirtyThree(reports: seq<Report>, thresholds: Thresholds)
    requires EvaluateVerdict(CANONICAL, reports, thresholds).Ok?
    ensures |reports| == |CANONICAL| == 33
  {
    AcceptsExactlyOneToOne(reports, thresholds);
    hide RowOf, Acceptable;
    assert |reports| == |multiset(Rows(reports))| == |multiset(CANONICAL)|;
  }

  /** Some report speaks about the row and is fine. */
  ghost predicate Satisfiable(row: RequiredEvidence, thresholds: Thresholds) {
    exists report :: RowOf(report) == row && Acceptable(report, thresholds)
  }

  /** The gate can be passed exactly when every row can have an acceptable report. */
  lemma AcceptanceIsPossibleExactly(thresholds: Thresholds)
    ensures (exists reports :: EvaluateVerdict(CANONICAL, reports, thresholds).Ok?) <==>
            forall i :: 0 <= i < |CANONICAL| ==> Satisfiable(CANONICAL[i], thresholds)
  {
    hide RowOf, Acceptable, EvaluateVerdict, CANONICAL;
    if forall i :: 0 <= i < |CANONICAL| ==> Satisfiable(CANONICAL[i], thresholds) {
      var reports: seq<Report> := [];
      for i := 0 to |CANONICAL|
        invariant Rows(reports) == CANONICAL[..i]
        invariant forall k :: 0 <= k < |reports| ==> Acceptable(reports[k], thresholds)
      {
        var report :| RowOf(report) == CANONICAL[i] && Acceptable(report, thresholds);
        RowsAppend(reports, [report]);
        assert Rows([report]) == [CANONICAL[i]];
        reports := reports + [report];
      }
      assert CANONICAL[..|CANONICAL|] == CANONICAL;
      AcceptsExactlyOneToOne(reports, thresholds);
    }
    forall reports, i | EvaluateVerdict(CANONICAL, reports, thresholds).Ok? && 0 <= i < |CANONICAL|
      ensures Satisfiable(CANONICAL[i], thresholds)
    {
      AcceptsExactlyOneToOne(reports, thresholds);
      assert CANONICAL[i] in multiset(Rows(reports));
      var k :| 0 <= k < |Rows(reports)| && Rows(reports)[k] == CANONICAL[i];
      assert Acceptable(reports[k], thresholds);
    }
  }

  /** A passing report about a row, with nothing measured besides. */
  function ReportFor(row: RequiredEvidence): Report {
    Report(row.id, row.target, Some(Pass),
           (if row.session.Some? then map["session" := Text(row.session.value)] else map[])
                 + (if row.backend.Some? then map["requested_backend" := Text(row.backend.value),
                                                  "actual_backend" := Text(row.backend.value)] else map[]))
  }

  /** Thresholds that ask nothing of such reports can be met. */
  lemma ReportForIsAcceptable(row: RequiredEvidence, thresholds: Thresholds)
    requires thresholds(row, ReportFor(row)) == None
    ensures Satisfiable(row, thresholds)
  {
    assert "session"[0] == 's' && "requested_backend"[0] == 'r' && "actual_backend"[0] == 'a';
    assert RowOf(ReportFor(row)) == row;
  }

  /** Reordering the reports never changes whether they are accepted. */
  lemma AcceptanceIgnoresOrder(a: seq<Report>, b: seq<Report>, thresholds: Thresholds)
    requires multiset(a) == multiset(b)
    ensures EvaluateVerdict(CANONICAL, a, thresholds).Ok? <==> EvaluateVerdict(CANONICAL, b, thresholds).Ok?
  {
    hide CANONICAL, RowOf, Acceptable;
    AcceptsExactlyOneToOne(a, thresholds);
    AcceptsExactlyOneToOne(b, thresholds);
    RowsOfReordered(a, b);
    SameReports(a, b, thresholds);
    SameReports(b, a, thresholds);
  }

  lemma SameReports(a: seq<Report>, b: seq<Report>, thresholds: Thresholds)
    requires multiset(a) == multiset(b)
    ensures (forall i :: 0 <= i < |a| ==> Acceptable(a[i], thresholds)) ==>
              forall i :: 0 <= i < |b| ==> Acceptable(b[i], thresholds)
  {
    hide Acceptable;
    if forall i :: 0 <= i < |a| ==> Acceptable(a[i], thresholds) {
      forall i | 0 <= i < |b| ensures Acceptable(b[i], thresholds) {
        assert b[i] in multiset(b);
        assert b[i] in a;
      }
    }
  }

  lemma {:induction false} RowsOfReordered(a: seq<Report>, b: seq<Report>)
    requires multiset(a) == multiset(b)
    ensures multiset(Rows(a)) == multiset(Rows(b))
    decreases |a|
  {
    hide RowOf, Rows;
    if a == [] {
      assert |b| == |multiset(b)| == 0;
    } else {
      var k := SameHead(a, b);
      RowsOfReordered(a[1..], b[..k] + b[k + 1..]);
      RowsRemoved(a, 0);
      RowsRemoved(b, k);
      assert a[..0] + a[1..] == a[1..];
    }
  }

  /** Where the first report of one order stands in another. */
  lemma SameHead(a: seq<Report>, b: seq<Report>) returns (k: nat)
    requires multiset(a) == multiset(b) && a != []
    ensures k < |b| && b[k] == a[0] && multiset(a[1..]) == multiset(b[..k] + b[k + 1..])
  {
    assert a[0] in multiset(b);
    k :| 0 <= k < |b| && b[k] == a[0];
    Removed(a, 0);
    Removed(b, k);
  }

  lemma RowsRemoved(s: seq<Report>, k: nat)
    requires k < |s|
    ensures multiset(Rows(s)) == multiset(Rows(s[..k] + s[k + 1..])) + multiset{RowOf(s[k])}
  {
    hide RowOf;
    assert s == s[..k] + [s[k]] + s[k + 1..];
    assert Rows([s[k]]) == [RowOf(s[k])];
    RowsAppend(s[..k] + [s[k]], s[k + 1..]);
    RowsAppend(s[..k], [s[k]]);
    RowsAppend(s[..k], s[k + 1..]);
    hide Rows;
  }

  lemma Removed<T>(s: seq<T>, k: nat)
    requires k < |s|
    ensures s == s[..k] + [s[k]] + s[k + 1..]
    ensures multiset(s[..k] + s[k + 1..]) == multiset(s) - multiset{s[k]}
    ensures k == 0 ==> s == [s[0]] + s[1..] && s[..k] + s[k + 1..] == s[1..]
  {
    assert s == s[..k] + [s[k]] + s[k + 1..];
  }

  lemma RowsAppend(a: seq<Report>, b: seq<Report>)
    ensures Rows(a + b) == Rows(a) + Rows(b)
  {
    hide RowOf;
  }

  // ---- what a report says, and what is wrong with it ---------------------------------------

  /** The report names the row: its measurements give the session and the requested backend of
      the row, each as text exactly if the row has one. */
  predicate SpeaksAbout(report: Report, row: RequiredEvidence) {
    && report.spike == row.id && report.target == row.target
    && (row.session.Some? ==> Measured(report, "session", row.session.value))
    && (row.session.None? ==> !HasText(report, "session"))
    && (row.backend.Some? ==> Measured(report, "requested_backend", row.backend.value))
    && (row.backend.None? ==> !HasText(report, "requested_backend"))
  }

  predicate HasText(report: Report, name: string) {
    name in report.measurements && report.measurements[name].Text?
  }

  predicate Measured(report: Report, name: string, text: string) {
    name in report.measurements && report.measurements[name] == Text(text)
  }

  lemma RowIsSpokenAbout(report: Report, row: RequiredEvidence)
    ensures RowOf(report) == row <==> SpeaksAbout(report, row)
    ensures TextOf(report, "actual_backend").Some? <==> HasText(report, "actual_backend")
  {
  }

  /** An accepted list, in terms of what the reports say: each row has exactly one that speaks
      about it, and that one passes, names the backend it really ran on if the row has one, and
      meets the thresholds. */
  lemma AcceptedReportsSay(reports: seq<Report>, thresholds: Thresholds, row: RequiredEvidence) returns (i: nat)
    requires EvaluateVerdict(CANONICAL, reports, thresholds).Ok? && row in CANONICAL
    ensures i < |reports| && SpeaksAbout(reports[i], row) && reports[i].verdict == Some(Pass)
    ensures row.backend.Some? ==> HasText(reports[i], "actual_backend")
    ensures thresholds(row, reports[i]) == None
    ensures forall j :: 0 <= j < |reports| && SpeaksAbout(reports[j], row) ==> j == i
  {
    hide *;
    AcceptsExactlyOneToOne(reports, thresholds);
    i := OneReport(reports, thresholds, row);
    RowIsSpokenAbout(reports[i], row);
    IsAcceptable(reports[i], thresholds);
    forall j | 0 <= j < |reports| && SpeaksAbout(reports[j], row) ensures j == i {
      RowIsSpokenAbout(reports[j], row);
    }
  }

  lemma IsAcceptable(report: Report, thresholds: Thresholds)
    requires Acceptable(report, thresholds)
    ensures report.verdict == Some(Pass) && thresholds(RowOf(report), report) == None
    ensures RowOf(report).backend.Some? ==> TextOf(report, "actual_backend").Some?
  {
    hide RowOf, TextOf;
  }

  lemma OneReport(reports: seq<Report>, thresholds: Thresholds, row: RequiredEvidence) returns (i: nat)
    requires OneToOne(reports, thresholds) && row in CANONICAL
    ensures i < |reports| && RowOf(reports[i]) == row && Acceptable(reports[i], thresholds)
    ensures forall j :: 0 <= j < |reports| && RowOf(reports[j]) == row ==> j == i
  {
    hide CANONICAL, RowOf, Acceptable, Distinct;
    CanonicalIsDistinct();
    SameMultiset(Rows(reports), CANONICAL);
    assert row in multiset(CANONICAL);
    assert row in Rows(reports) by { assert row in multiset(Rows(reports)); }
    i :| 0 <= i < |reports| && Rows(reports)[i] == row;
    forall j | 0 <= j < |reports| && RowOf(reports[j]) == row ensures j == i {
      AtOnePlace(Rows(reports), i, j);
    }
  }

  lemma AtOnePlace<T>(s: seq<T>, i: nat, j: nat)
    requires Distinct(s) && i < |s| && j < |s| && s[i] == s[j]
    ensures i == j
  {
  }

  /** What is wrong with a report behind those about these rows, looked for in this order. */
  ghost function FaultOf(report: Report, filled: set<RequiredEvidence>): Option<EvidenceError> {
    var row := RowOf(report);
    if !exists other :: other in CANONICAL && other.id == report.spike && other.target == report.target then
      Some(UnmatchedEvidence)
    else if row !in CANONICAL then
      Some(if report.spike == Media && HasText(report, "requested_backend") then WrongBackend else UnmatchedEvidence)
    else if row.backend.Some? && !HasText(report, "actual_backend") then Some(MissingActualBackend)
    else if row in filled then Some(DuplicateEvidence)
    else if report.verdict.None? then Some(UnfinishedVerdict)
    else if report.verdict.value != Pass then Some(RequiredVerdict(report.verdict.value))
    else None
  }

  /** The error is that of the first report with a fault, whatever the thresholds are. */
  lemma FirstFaultIsReported(reports: seq<Report>, thresholds: Thresholds, i: nat)
    requires i < |reports| && FaultOf(reports[i], RowSet(reports[..i])).Some?
    requires forall j :: 0 <= j < i ==> FaultOf(reports[j], RowSet(reports[..j])) == None
    ensures EvaluateVerdict(CANONICAL, reports, thresholds) == Err(FaultOf(reports[i], RowSet(reports[..i])).value)
  {
    hide Scan, FaultOf, CANONICAL, KeysOf, RowSet;
    NothingSeen();
    assert forall j :: 0 <= j <= i ==> {} + RowSet(reports[..j]) == RowSet(reports[..j]);
    ScanStopsAt(reports, {}, {}, i);
  }

  lemma {:induction false} ScanStopsAt(reports: seq<Report>, seen: set<string>, filled: set<RequiredEvidence>, i: nat)
    requires i < |reports| && KeysOf(seen, filled)
    requires forall j :: 0 <= j < i ==> FaultOf(reports[j], filled + RowSet(reports[..j])) == None
    requires FaultOf(reports[i], filled + RowSet(reports[..i])).Some?
    ensures Scan(CANONICAL, reports, seen) == Err(FaultOf(reports[i], filled + RowSet(reports[..i])).value)
    decreases i
  {
    hide RequiredKey, CANONICAL, RowSet, RowOf, Matched;
    var head, tail := reports[0], reports[1..];
    var row := RowOf(head);
    assert filled + RowSet(reports[..0]) == filled by { NoRows(reports); }
    MatchedFault(head);
    assert row in CANONICAL ==> (RequiredKey(row) in seen <==> row in filled);
    if i > 0 {
      assert FaultOf(reports[0], filled + RowSet(reports[..0])) == None;
      ExtendKeys(seen, filled, row);
      forall j | 0 <= j <= i - 1 ensures filled + {row} + RowSet(tail[..j]) == filled + RowSet(reports[..j + 1]) {
        RowsOfCons(reports, j);
      }
      forall j | 0 <= j < i - 1 ensures FaultOf(tail[j], filled + {row} + RowSet(tail[..j])) == None {
        assert tail[j] == reports[j + 1];
      }
      assert tail[i - 1] == reports[i];
      hide KeysOf, FaultOf;
      ScanStopsAt(tail, seen + {RequiredKey(row)}, filled + {row}, i - 1);
    }
  }

  lemma NoRows(reports: seq<Report>)
    ensures RowSet(reports[..0]) == {}
  {
  }

  /** Matching a report fails exactly for the first three faults. */
  lemma MatchedFault(report: Report)
    ensures Matched(CANONICAL, report).Ok? ==> Matched(CANONICAL, report).value == RowOf(report)
    ensures Matched(CANONICAL, report).Ok? <==>
            RowOf(report) in CANONICAL && (RowOf(report).backend.Some? ==> HasText(report, "actual_backend"))
    ensures Matched(CANONICAL, report).Err? ==>
              forall filled :: FaultOf(report, filled) == Some(Matched(CANONICAL, report).error)
    ensures Matched(CANONICAL, report).Ok? ==>
              forall filled ::
                FaultOf(report, filled) ==
                if RowOf(report) in filled then Some(DuplicateEvidence)
                else if report.verdict.None? then Some(UnfinishedVerdict)
                else if report.verdict.value != Pass then Some(RequiredVerdict(report.verdict.value))
                else None
  {
    hide CANONICAL;
    if RowOf(report) in CANONICAL {
      var i :| 0 <= i < |CANONICAL| && CANONICAL[i] == RowOf(report);
      assert Candidate(CANONICAL[i], report);
    }
    if i :| 0 <= i < |CANONICAL| && Candidate(CANONICAL[i], report) {
      assert CANONICAL[i] in CANONICAL;
    }
    if other :| other in CANONICAL && other.id == report.spike && other.target == report.target {
      var i :| 0 <= i < |CANONICAL| && CANONICAL[i] == other;
      assert Candidate(CANONICAL[i], report);
    }
  }

  lemma RowsOfCons(reports: seq<Report>, j: nat)
    requires j < |reports|
    ensures RowSet(reports[..j + 1]) == {RowOf(reports[0])} + RowSet(reports[1..][..j])
  {
    assert reports[..j + 1] == [reports[0]] + reports[1..][..j];
    RowsAppend([reports[0]], reports[1..][..j]);
    assert Rows([reports[0]]) == [RowOf(reports[0])];
    hide Rows, RowOf;
  }

  /** If no report has a fault, the first threshold not met is reported, and if all are met the
      first row without a report. */
  lemma FirstUnmetIsReported(reports: seq<Report>, thresholds: Thresholds, i: nat)
    requires Scan(CANONICAL, reports, {}).Ok? && i < |reports| && thresholds(RowOf(reports[i]), reports[i]).Some?
    requires forall j :: 0 <= j < i ==> thresholds(RowOf(reports[j]), reports[j]) == None
    ensures EvaluateVerdict(CANONICAL, reports, thresholds) == Err(thresholds(RowOf(reports[i]), reports[i]).value)
  {
    hide Scan, RowOf, CANONICAL;
    FirstUnmetIs(reports, thresholds, i);
  }

  lemma {:induction false} FirstUnmetIs(reports: seq<Report>, thresholds: Thresholds, i: nat)
    requires i < |reports| && thresholds(RowOf(reports[i]), reports[i]).Some?
    requires forall j :: 0 <= j < i ==> thresholds(RowOf(reports[j]), reports[j]) == None
    ensures FirstUnmet(reports, thresholds) == thresholds(RowOf(reports[i]), reports[i])
    decreases i
  {
    hide RowOf;
    if i > 0 {
      assert thresholds(RowOf(reports[0]), reports[0]) == None;
      assert forall j :: 0 <= j < |reports| - 1 ==> reports[1..][j] == reports[j + 1];
      FirstUnmetIs(reports[1..], thresholds, i - 1);
    }
  }

  lemma FirstGapIsReported(reports: seq<Report>, thresholds: Thresholds, k: nat)
    requires Scan(CANONICAL, reports, {}).Ok? && FirstUnmet(reports, thresholds).None?
    requires k < |CANONICAL| && CANONICAL[k] !in Rows(reports)
    requires forall j :: 0 <= j < k ==> CANONICAL[j] in Rows(reports)
    ensures EvaluateVerdict(CANONICAL, reports, thresholds) == Err(MissingEvidence(RequiredKey(CANONICAL[k])))
  {
    NothingSeen();
    ScanIsExact(reports, {}, {});
    var seen := Scan(CANONICAL, reports, {}).value;
    assert forall row :: row in {} + RowSet(reports) <==> row in Rows(reports);
    hide Scan, CANONICAL, RequiredKey, Rows, RowSet, FirstUnmet;
    assert forall j :: 0 <= j < |CANONICAL| ==> (RequiredKey(CANONICAL[j]) in seen <==> CANONICAL[j] in Rows(reports));
    FirstUncoveredIs(CANONICAL, seen, k);
  }

  lemma {:induction false} FirstUncoveredIs(rows: seq<RequiredEvidence>, seen: set<string>, k: nat)
    requires k < |rows| && RequiredKey(rows[k]) !in seen && forall j :: 0 <= j < k ==> RequiredKey(rows[j]) in seen
    ensures FirstUncovered(rows, seen) == Some(RequiredKey(rows[k]))
    decreases k
  {
    hide RequiredKey;
    if k > 0 {
      assert RequiredKey(rows[0]) in seen;
      assert forall j :: 0 <= j < |rows| - 1 ==> rows[1..][j] == rows[j + 1];
      FirstUncoveredIs(rows[1..], seen, k - 1);
    }
  }
}
