/**
  The boot-event log. A heartbeat repeats its machine's last report every few minutes; the
  log bumps the latest row instead of adding one, and is still the whole story.
*/
module BootLog {
  import opened Options

  type Mac = string

  datatype Row = Row(id: nat, mac: Mac, state: string, detail: Option<string>, at: int)

  // A report as it arrived.
  datatype Report = Report(mac: Mac, state: string, detail: Option<string>, at: int)

  // What a row says about a run of equal reports.
  datatype Run = Run(state: string, detail: Option<string>, at: int)

  // Equal reports: a missing detail is an empty one.
  predicate Same(state: string, detail: Option<string>, other: string, otherDetail: Option<string>) {
    state == other && OrEmpty(detail) == OrEmpty(otherDetail)
  }

  // Equal details: no detail and an empty one are the same.
  ghost predicate SameDetail(a: Option<string>, b: Option<string>) {
    a == b || (a in {None, Some("")} && b in {None, Some("")})
  }

  lemma SameIff(state: string, detail: Option<string>, other: string, otherDetail: Option<string>)
    ensures Same(state, detail, other, otherDetail) <==> state == other && SameDetail(detail, otherDetail)
  {
  }

  // The two reports say different things.
  ghost predicate Differ(a: Report, b: Report) {
    a.state != b.state || !SameDetail(a.detail, b.detail)
  }

  // ---- One machine's part ----------------------------------------------------

  function RowsOf(rows: seq<Row>, mac: Mac): seq<Row> {
    if rows == [] then []
    else
      var last := rows[|rows| - 1];
      RowsOf(rows[..|rows| - 1], mac) + if last.mac == mac then [last] else []
  }

  function StreamOf(reports: seq<Report>, mac: Mac): seq<Report> {
    if reports == [] then []
    else
      var last := reports[|reports| - 1];
      StreamOf(reports[..|reports| - 1], mac) + if last.mac == mac then [last] else []
  }

  function Shown(rows: seq<Row>): (runs: seq<Run>)
    ensures |runs| == |rows|
  {
    seq(|rows|, i requires 0 <= i < |rows| => Run(rows[i].state, rows[i].detail, rows[i].at))
  }

  // ---- What the log should say -----------------------------------------------

  // A report that differs from the one before it.
  predicate Changes(stream: seq<Report>, i: nat)
    requires i < |stream|
  {
    i == 0 || !Same(stream[i - 1].state, stream[i - 1].detail, stream[i].state, stream[i].detail)
  }

  // The runs of equal reports: what the first of each said, when the last of it came.
  function Runs(stream: seq<Report>): (runs: seq<Run>)
    ensures stream != [] ==> runs != []
  {
    if stream == [] then []
    else
      var n := |stream| - 1;
      var before := Runs(stream[..n]);
      if Changes(stream, n) then before + [Run(stream[n].state, stream[n].detail, stream[n].at)]
      else before[|before| - 1 := before[|before| - 1].(at := stream[n].at)]
  }

  // The positions where runs start.
  function Starts(stream: seq<Report>): (starts: seq<nat>)
    ensures forall i :: 0 <= i < |starts| ==> starts[i] < |stream|
  {
    if stream == [] then []
    else
      var n := |stream| - 1;
      var before := Starts(stream[..n]);
      if Changes(stream, n) then before + [n] else before
  }

  lemma ChangesBefore(stream: seq<Report>, i: nat)
    requires i + 1 < |stream|
    ensures Changes(stream, i) <==> Changes(stream[..|stream| - 1], i)
  {
  }

  lemma StartsAre(stream: seq<Report>)
    requires stream != []
    ensures Starts(stream) == Starts(stream[..|stream| - 1]) + if Changes(stream, |stream| - 1) then [|stream| - 1] else []
  {
  }

  lemma LastAdded(before: seq<nat>, n: nat, added: bool, i: nat)
    requires i <= n && forall k :: 0 <= k < |before| ==> before[k] < n
    ensures i in before + (if added then [n] else []) <==> if i < n then i in before else added
  {
  }

  lemma ChangesIff(stream: seq<Report>, i: nat)
    requires i < |stream|
    ensures Changes(stream, i) <==> i == 0 || Differ(stream[i - 1], stream[i])
  {
    if i > 0 {
      SameIff(stream[i - 1].state, stream[i - 1].detail, stream[i].state, stream[i].detail);
    }
  }

  // A run starts exactly where a report differs from the one before it.
  lemma StartsAreChanges(stream: seq<Report>)
    ensures forall i :: 0 <= i < |stream| ==> (i in Starts(stream) <==> i == 0 || Differ(stream[i - 1], stream[i]))
    ensures forall i, j :: 0 <= i < j < |Starts(stream)| ==> Starts(stream)[i] < Starts(stream)[j]
    ensures stream != [] ==> Starts(stream) != [] && Starts(stream)[0] == 0
  {
    StartsAscend(stream);
    forall i | 0 <= i < |stream|
      ensures i in Starts(stream) <==> i == 0 || Differ(stream[i - 1], stream[i])
    {
      StartsMember(stream, i);
      ChangesIff(stream, i);
    }
  }

  lemma {:induction false} StartsAscend(stream: seq<Report>)
    ensures forall i, j :: 0 <= i < j < |Starts(stream)| ==> Starts(stream)[i] < Starts(stream)[j]
    ensures stream != [] ==> Starts(stream) != [] && Starts(stream)[0] == 0
  {
    if stream == [] {
    } else {
      StartsAscend(stream[..|stream| - 1]);
    }
  }

  lemma {:induction false} StartsMember(stream: seq<Report>, i: nat)
    requires i < |stream|
    ensures i in Starts(stream) <==> Changes(stream, i)
    decreases |stream|
  {
    var n := |stream| - 1;
    StartsAre(stream);
    LastAdded(Starts(stream[..n]), n, Changes(stream, n), i);
    if i < n {
      StartsMember(stream[..n], i);
      ChangesBefore(stream, i);
    }
  }

  function End(stream: seq<Report>, k: nat): int
    requires k < |Starts(stream)|
  {
    if k + 1 < |Starts(stream)| then Starts(stream)[k + 1] - 1 else |stream| - 1
  }

  lemma {:induction false} AsManyRuns(stream: seq<Report>)
    ensures |Runs(stream)| == |Starts(stream)|
  {
    if stream == [] {
    } else {
      AsManyRuns(stream[..|stream| - 1]);
      StartsAreChanges(stream[..|stream| - 1]);
    }
  }

  // Run `k` has the text of its first report and the time of its last one.
  ghost predicate RunIs(stream: seq<Report>, k: nat) {
    && k < |Runs(stream)| && k < |Starts(stream)| && 0 <= End(stream, k) < |stream|
    && Runs(stream)[k] == Run(stream[Starts(stream)[k]].state, stream[Starts(stream)[k]].detail, stream[End(stream, k)].at)
  }

  // Row by row: the text of the first report of the run, the time of its last one.
  lemma {:induction false} RunsAre(stream: seq<Report>, k: nat)
    requires k < |Runs(stream)|
    ensures |Runs(stream)| == |Starts(stream)|
    ensures 0 <= End(stream, k) < |stream|
    ensures Runs(stream)[k] == Run(stream[Starts(stream)[k]].state, stream[Starts(stream)[k]].detail, stream[End(stream, k)].at)
  {
    AsManyRuns(stream);
    var n := |stream| - 1;
    AsManyRuns(stream[..n]);
    if k < |Runs(stream[..n])| {
      RunsAre(stream[..n], k);
      RunGoesOn(stream, k);
    } else {
      assert RunIs(stream, k);
    }
  }

  lemma RunGoesOn(stream: seq<Report>, k: nat)
    requires stream != [] && RunIs(stream[..|stream| - 1], k)
    requires |Runs(stream[..|stream| - 1])| == |Starts(stream[..|stream| - 1])|
    ensures RunIs(stream, k)
  {
    EarlierStart(stream, k);
  }

  lemma EarlierStart(stream: seq<Report>, k: nat)
    requires stream != [] && k < |Starts(stream[..|stream| - 1])|
    ensures k < |Starts(stream)| && Starts(stream)[k] == Starts(stream[..|stream| - 1])[k]
    ensures stream[Starts(stream)[k]] == stream[..|stream| - 1][Starts(stream)[k]]
  {
  }

  // Within a run every report says what the first does.
  lemma {:induction false} RunIsConstant(stream: seq<Report>, i: nat, j: nat)
    requires i <= j < |stream| && forall k :: i < k <= j ==> k !in Starts(stream)
    ensures !Differ(stream[i], stream[j])
  {
    if i == j {
    } else {
      RunIsConstant(stream, i, j - 1);
      StartsAreChanges(stream);
      assert j !in Starts(stream);
    }
  }

  lemma {:induction false} LastRun(stream: seq<Report>)
    requires stream != []
    ensures var last, run := stream[|stream| - 1], Runs(stream)[|Runs(stream)| - 1];
            Same(run.state, run.detail, last.state, last.detail) && run.at == last.at
  {
    var n := |stream| - 1;
    if !Changes(stream, n) {
      LastRun(stream[..n]);
    }
  }

  // ---- The invariant ---------------------------------------------------------

  ghost predicate Ascending(rows: seq<Row>) {
    forall i, j :: 0 <= i < j < |rows| ==> rows[i].id < rows[j].id && rows[i].at <= rows[j].at
  }

  // Ids are given out in order, and no row is later than now.
  ghost predicate Bounded(rows: seq<Row>, nextId: nat, now: int) {
    && NumberedInOrder(rows)
    && forall i :: 0 <= i < |rows| ==> rows[i].id < nextId && rows[i].at <= now
  }

  ghost predicate NumberedInOrder(rows: seq<Row>) {
    forall i, j :: 0 <= i < j < |rows| ==> rows[i].id < rows[j].id
  }

  // The order the rows were inserted in is the order of their times.
  ghost predicate InTimeOrder(rows: seq<Row>) {
    forall i, j :: 0 <= i < j < |rows| ==> rows[i].at <= rows[j].at
  }

  // The report inserts a row, or bumps one with no earlier time behind it.
  ghost predicate KeepsTimeOrder(rows: seq<Row>, mac: Mac, state: string, detail: Option<string>, now: int) {
    Repeats(rows, mac, state, detail) ==> forall j :: LatestOf(rows, mac).value < j < |rows| ==> rows[j].at >= now
  }

  // Exactly those reports leave a log in time order in time order.
  lemma InsertInTimeOrder(rows: seq<Row>, nextId: nat, row: Row)
    requires InTimeOrder(rows) && Bounded(rows, nextId, row.at)
    ensures InTimeOrder(rows + [row])
  {
  }

  lemma BumpInTimeOrder(rows: seq<Row>, nextId: nat, k: nat, now: int)
    requires InTimeOrder(rows) && Bounded(rows, nextId, now) && k < |rows|
    ensures InTimeOrder(rows[k := rows[k].(at := now)]) <==> forall j :: k < j < |rows| ==> rows[j].at >= now
  {
    var bumped := rows[k := rows[k].(at := now)];
    if InTimeOrder(bumped) {
      forall j | k < j < |rows|
        ensures rows[j].at >= now
      {
        assert bumped[j] == rows[j] && bumped[k].at == now;
      }
    }
  }

  ghost predicate FaithfulFor(rows: seq<Row>, reports: seq<Report>, mac: Mac) {
    Shown(RowsOf(rows, mac)) == Runs(StreamOf(reports, mac)) && Ascending(RowsOf(rows, mac))
  }

  ghost predicate Faithful(rows: seq<Row>, reports: seq<Report>) {
    forall mac :: FaithfulFor(rows, reports, mac)
  }

  // ---- The statements --------------------------------------------------------

  // The row the log looks at: the machine's latest.
  function LatestOf(rows: seq<Row>, mac: Mac): (k: Option<nat>)
    ensures k.Some? ==> k.value < |rows| && rows[k.value].mac == mac && forall j :: k.value < j < |rows| ==> rows[j].mac != mac
    ensures k.None? ==> forall j :: 0 <= j < |rows| ==> rows[j].mac != mac
  {
    if rows == [] then None
    else if rows[|rows| - 1].mac == mac then Some(|rows| - 1)
    else LatestOf(rows[..|rows| - 1], mac)
  }

  lemma {:induction false} RowsOfMembers(rows: seq<Row>, mac: Mac)
    ensures forall r :: r in RowsOf(rows, mac) ==> r in rows && r.mac == mac
    ensures RowsOf(rows, mac) == [] <==> forall j :: 0 <= j < |rows| ==> rows[j].mac != mac
  {
    if rows == [] {
    } else {
      RowsOfMembers(rows[..|rows| - 1], mac);
    }
  }

  lemma AppendRow(rows: seq<Row>, row: Row, mac: Mac)
    ensures RowsOf(rows + [row], mac) == RowsOf(rows, mac) + if row.mac == mac then [row] else []
  {
  }

  lemma AppendReport(reports: seq<Report>, report: Report, mac: Mac)
    ensures StreamOf(reports + [report], mac) == StreamOf(reports, mac) + if report.mac == mac then [report] else []
  {
  }

  // Bumping a machine's latest row bumps the last of its rows and no other machine's.
  lemma {:induction false} BumpRow(rows: seq<Row>, k: nat, row: Row, mac: Mac)
    requires k < |rows| && row.mac == rows[k].mac && forall j :: k < j < |rows| ==> rows[j].mac != row.mac
    ensures mac != row.mac ==> RowsOf(rows[k := row], mac) == RowsOf(rows, mac)
    ensures mac == row.mac ==> RowsOf(rows, mac) != [] && RowsOf(rows, mac)[|RowsOf(rows, mac)| - 1] == rows[k]
                               && RowsOf(rows[k := row], mac) == RowsOf(rows, mac)[|RowsOf(rows, mac)| - 1 := row]
  {
    var n := |rows| - 1;
    if k < n {
      BumpRow(rows[..n], k, row, mac);
      assert rows[k := row][..n] == rows[..n][k := row];
    } else {
      assert rows[k := row][..n] == rows[..n];
    }
  }

  // A new row for a changed report, seen from its machine.
  lemma {:induction false} NewRun(mine: seq<Row>, stream: seq<Report>, row: Row, report: Report)
    requires Shown(mine) == Runs(stream) && Ascending(mine)
    requires forall r :: r in mine ==> r.id < row.id && r.at <= row.at
    requires row.state == report.state && row.detail == report.detail && row.at == report.at
    requires stream != [] ==> !Same(stream[|stream| - 1].state, stream[|stream| - 1].detail, report.state, report.detail)
    ensures Shown(mine + [row]) == Runs(stream + [report]) && Ascending(mine + [row])
  {
  }

  // A repeated report bumps the last row of its machine.
  lemma {:induction false} SameRun(mine: seq<Row>, stream: seq<Report>, report: Report)
    requires Shown(mine) == Runs(stream) && Ascending(mine) && mine != [] && stream != []
    requires forall r :: r in mine ==> r.at <= report.at
    requires Same(stream[|stream| - 1].state, stream[|stream| - 1].detail, report.state, report.detail)
    ensures var n := |mine| - 1;
            var bumped := mine[n := mine[n].(at := report.at)];
            Shown(bumped) == Runs(stream + [report]) && Ascending(bumped)
  {
  }

  // The row the log compares with is its machine's last, and says what the machine last
  // reported.
  lemma LastRow(rows: seq<Row>, mac: Mac)
    ensures RowsOf(rows, mac) == [] <==> LatestOf(rows, mac).None?
    ensures LatestOf(rows, mac).Some? ==> RowsOf(rows, mac)[|RowsOf(rows, mac)| - 1] == rows[LatestOf(rows, mac).value]
  {
    RowsOfMembers(rows, mac);
    var k := LatestOf(rows, mac);
    if k.Some? {
      BumpRow(rows, k.value, rows[k.value], mac);
    }
  }

  lemma LastSays(mine: seq<Row>, stream: seq<Report>)
    requires Shown(mine) == Runs(stream)
    ensures mine == [] <==> stream == []
    ensures mine != [] ==> Same(mine[|mine| - 1].state, mine[|mine| - 1].detail,
                                stream[|stream| - 1].state, stream[|stream| - 1].detail)
  {
    if stream != [] {
      LastRun(stream);
      assert Shown(mine)[|mine| - 1] == Run(mine[|mine| - 1].state, mine[|mine| - 1].detail, mine[|mine| - 1].at);
    }
  }

  predicate Repeats(rows: seq<Row>, mac: Mac, state: string, detail: Option<string>) {
    var k := LatestOf(rows, mac);
    k.Some? && Same(rows[k.value].state, rows[k.value].detail, state, detail)
  }

  // Row `k` is the machine's latest and says what is reported.
  ghost predicate RepeatedBy(rows: seq<Row>, k: nat, mac: Mac, state: string, detail: Option<string>) {
    && k < |rows| && rows[k].mac == mac && (forall j :: k < j < |rows| ==> rows[j].mac != mac)
    && rows[k].state == state && SameDetail(rows[k].detail, detail)
  }

  lemma RepeatsIff(rows: seq<Row>, mac: Mac, state: string, detail: Option<string>)
    ensures Repeats(rows, mac, state, detail) <==> exists k: nat :: RepeatedBy(rows, k, mac, state, detail)
    ensures forall k: nat :: RepeatedBy(rows, k, mac, state, detail) ==> LatestOf(rows, mac) == Some(k)
  {
    var latest := LatestOf(rows, mac);
    if latest.Some? {
      SameIff(rows[latest.value].state, rows[latest.value].detail, state, detail);
      assert Repeats(rows, mac, state, detail) ==> RepeatedBy(rows, latest.value, mac, state, detail);
    }
  }

  lemma InsertKeepsFor(rows: seq<Row>, reports: seq<Report>, nextId: nat, report: Report, mac: Mac)
    requires FaithfulFor(rows, reports, mac) && Bounded(rows, nextId, report.at)
    requires !Repeats(rows, report.mac, report.state, report.detail)
    ensures FaithfulFor(rows + [Row(nextId, report.mac, report.state, report.detail, report.at)], reports + [report], mac)
  {
    if mac == report.mac {
      InsertKeepsOwn(rows, reports, nextId, report);
    } else {
      AppendRow(rows, Row(nextId, report.mac, report.state, report.detail, report.at), mac);
      AppendReport(reports, report, mac);
      assert RowsOf(rows, mac) + [] == RowsOf(rows, mac) && StreamOf(reports, mac) + [] == StreamOf(reports, mac);
    }
  }

  lemma InsertKeepsOwn(rows: seq<Row>, reports: seq<Report>, nextId: nat, report: Report)
    requires FaithfulFor(rows, reports, report.mac) && Bounded(rows, nextId, report.at)
    requires !Repeats(rows, report.mac, report.state, report.detail)
    ensures FaithfulFor(rows + [Row(nextId, report.mac, report.state, report.detail, report.at)], reports + [report], report.mac)
  {
    var row, mac := Row(nextId, report.mac, report.state, report.detail, report.at), report.mac;
    AppendRow(rows, row, mac);
    AppendReport(reports, report, mac);
    RowsOfMembers(rows, mac);
    LastRow(rows, mac);
    LastSays(RowsOf(rows, mac), StreamOf(reports, mac));
    NewRun(RowsOf(rows, mac), StreamOf(reports, mac), row, report);
  }

  lemma BumpKeepsFor(rows: seq<Row>, reports: seq<Report>, nextId: nat, report: Report, mac: Mac)
    requires FaithfulFor(rows, reports, mac) && Bounded(rows, nextId, report.at)
    requires Repeats(rows, report.mac, report.state, report.detail)
    ensures var k := LatestOf(rows, report.mac).value;
            FaithfulFor(rows[k := rows[k].(at := report.at)], reports + [report], mac)
  {
    var k := LatestOf(rows, report.mac).value;
    BumpRow(rows, k, rows[k].(at := report.at), mac);
    AppendReport(reports, report, mac);
    if mac == report.mac {
      RowsOfMembers(rows, mac);
      LastRow(rows, mac);
      LastSays(RowsOf(rows, mac), StreamOf(reports, mac));
      SameRun(RowsOf(rows, mac), StreamOf(reports, mac), report);
    } else {
      assert StreamOf(reports, mac) + [] == StreamOf(reports, mac);
    }
  }

  lemma InsertKeeps(rows: seq<Row>, reports: seq<Report>, nextId: nat, report: Report)
    requires Faithful(rows, reports) && Bounded(rows, nextId, report.at)
    requires !Repeats(rows, report.mac, report.state, report.detail)
    ensures Faithful(rows + [Row(nextId, report.mac, report.state, report.detail, report.at)], reports + [report])
    ensures Bounded(rows + [Row(nextId, report.mac, report.state, report.detail, report.at)], nextId + 1, report.at)
  {
    forall mac ensures FaithfulFor(rows + [Row(nextId, report.mac, report.state, report.detail, report.at)], reports + [report], mac) {
      InsertKeepsFor(rows, reports, nextId, report, mac);
    }
  }

  lemma BumpKeeps(rows: seq<Row>, reports: seq<Report>, nextId: nat, report: Report)
    requires Faithful(rows, reports) && Bounded(rows, nextId, report.at)
    requires Repeats(rows, report.mac, report.state, report.detail)
    ensures var k := LatestOf(rows, report.mac).value;
            && Faithful(rows[k := rows[k].(at := report.at)], reports + [report])
            && Bounded(rows[k := rows[k].(at := report.at)], nextId, report.at)
  {
    var bumped := rows[LatestOf(rows, report.mac).value := rows[LatestOf(rows, report.mac).value].(at := report.at)];
    forall mac ensures FaithfulFor(bumped, reports + [report], mac) {
      BumpKeepsFor(rows, reports, nextId, report, mac);
    }
  }

  // Deleting a machine's rows leaves the others' part of the log.
  lemma RemovalKeeps(rows: seq<Row>, reports: seq<Report>, nextId: nat, now: int, gone: Mac)
    requires Faithful(rows, reports) && Bounded(rows, nextId, now)
    ensures Faithful(OthersThan(rows, gone), ReportsOthersThan(reports, gone))
    ensures Bounded(OthersThan(rows, gone), nextId, now)
  {
    OthersBounded(rows, gone, nextId, now);
    forall mac ensures FaithfulFor(OthersThan(rows, gone), ReportsOthersThan(reports, gone), mac) {
      OthersRows(rows, gone, mac);
      OthersReports(reports, gone, mac);
      assert FaithfulFor(rows, reports, mac);
    }
  }

  // ---- Forgetting a machine --------------------------------------------------

  function OthersThan(rows: seq<Row>, mac: Mac): seq<Row> {
    if rows == [] then []
    else
      var last := rows[|rows| - 1];
      OthersThan(rows[..|rows| - 1], mac) + if last.mac == mac then [] else [last]
  }

  function ReportsOthersThan(reports: seq<Report>, mac: Mac): seq<Report> {
    if reports == [] then []
    else
      var last := reports[|reports| - 1];
      ReportsOthersThan(reports[..|reports| - 1], mac) + if last.mac == mac then [] else [last]
  }

  lemma {:induction false} OthersRows(rows: seq<Row>, mac: Mac, m: Mac)
    ensures RowsOf(OthersThan(rows, mac), m) == if m == mac then [] else RowsOf(rows, m)
  {
    if rows == [] {
    } else {
      var front, last := rows[..|rows| - 1], rows[|rows| - 1];
      OthersRows(front, mac, m);
      if last.mac != mac {
        AppendRow(OthersThan(front, mac), last, m);
      } else {
        assert OthersThan(rows, mac) == OthersThan(front, mac);
      }
    }
  }

  lemma {:induction false} OthersReports(reports: seq<Report>, mac: Mac, m: Mac)
    ensures StreamOf(ReportsOthersThan(reports, mac), m) == if m == mac then [] else StreamOf(reports, m)
  {
    if reports == [] {
    } else {
      var front, last := reports[..|reports| - 1], reports[|reports| - 1];
      OthersReports(front, mac, m);
      if last.mac != mac {
        AppendReport(ReportsOthersThan(front, mac), last, m);
      } else {
        assert ReportsOthersThan(reports, mac) == ReportsOthersThan(front, mac);
      }
    }
  }

  lemma {:induction false} OthersMembers(rows: seq<Row>, mac: Mac)
    ensures forall r :: r in OthersThan(rows, mac) ==> r in rows
  {
    if rows == [] {
    } else {
      OthersMembers(rows[..|rows| - 1], mac);
    }
  }

  lemma {:induction false} OthersAre(rows: seq<Row>, mac: Mac)
    ensures forall r :: r in OthersThan(rows, mac) <==> r in rows && r.mac != mac
  {
    if rows == [] {
    } else {
      OthersAre(rows[..|rows| - 1], mac);
      assert rows == rows[..|rows| - 1] + [rows[|rows| - 1]];
    }
  }

  lemma BoundedSnoc(kept: seq<Row>, front: seq<Row>, last: Row, nextId: nat, now: int)
    requires Bounded(kept, nextId, now) && Bounded(front + [last], nextId, now)
    requires forall r :: r in kept ==> r in front
    ensures Bounded(kept + [last], nextId, now)
  {
    var rows := front + [last];
    forall r | r in kept
      ensures r.id < last.id
    {
      var i :| 0 <= i < |front| && front[i] == r;
      assert rows[i] == r && rows[|front|] == last;
    }
    assert forall i :: 0 <= i < |kept| ==> kept[i] in kept;
    assert rows[|front|] == last;
  }

  lemma {:induction false} OthersBounded(rows: seq<Row>, mac: Mac, nextId: nat, now: int)
    requires Bounded(rows, nextId, now)
    ensures Bounded(OthersThan(rows, mac), nextId, now)
  {
    if rows == [] {
    } else {
      var front, last := rows[..|rows| - 1], rows[|rows| - 1];
      OthersBounded(front, mac, nextId, now);
      OthersMembers(front, mac);
      assert rows == front + [last];
      BoundedSnoc(OthersThan(front, mac), front, last, nextId, now);
      assert last.mac == mac ==> OthersThan(rows, mac) == OthersThan(front, mac);
    }
  }

  // ---- The view --------------------------------------------------------------

  // ORDER BY occurred_at DESC, id DESC
  predicate Newer(a: Row, b: Row) {
    a.at > b.at || (a.at == b.at && a.id > b.id)
  }

  function Insert(row: Row, sorted: seq<Row>): seq<Row> {
    if sorted == [] || Newer(row, sorted[0]) then [row] + sorted else [sorted[0]] + Insert(row, sorted[1..])
  }

  function NewestFirst(rows: seq<Row>): seq<Row> {
    if rows == [] then [] else Insert(rows[|rows| - 1], NewestFirst(rows[..|rows| - 1]))
  }

  function Reversed(rows: seq<Row>): seq<Row> {
    if rows == [] then [] else [rows[|rows| - 1]] + Reversed(rows[..|rows| - 1])
  }

  // LIMIT ?, where a negative limit is none.
  function Limited(rows: seq<Row>, limit: int): seq<Row> {
    if 0 <= limit < |rows| then rows[..limit] else rows
  }

  ghost predicate Ordered(rows: seq<Row>) {
    forall i, j :: 0 <= i < j < |rows| ==> !Newer(rows[j], rows[i])
  }

  lemma OrderedCons(first: Row, rest: seq<Row>)
    requires Ordered(rest) && forall r :: r in rest ==> !Newer(r, first)
    ensures Ordered([first] + rest) && multiset([first] + rest) == multiset{first} + multiset(rest)
  {
  }

  lemma {:induction false} InsertMembers(row: Row, sorted: seq<Row>)
    ensures forall r :: r in Insert(row, sorted) ==> r == row || r in sorted
  {
    if sorted != [] && !Newer(row, sorted[0]) {
      InsertMembers(row, sorted[1..]);
    }
  }

  lemma {:induction false} InsertOrdered(row: Row, sorted: seq<Row>)
    requires Ordered(sorted)
    ensures Ordered(Insert(row, sorted)) && multiset(Insert(row, sorted)) == multiset{row} + multiset(sorted)
  {
    if sorted == [] {
      OrderedCons(row, sorted);
    } else if Newer(row, sorted[0]) {
      assert forall i :: 0 <= i < |sorted| ==> !Newer(sorted[i], row);
      OrderedCons(row, sorted);
    } else {
      InsertOrdered(row, sorted[1..]);
      InsertMembers(row, sorted[1..]);
      assert sorted == [sorted[0]] + sorted[1..];
      OrderedCons(sorted[0], Insert(row, sorted[1..]));
    }
  }

  // The view holds every row once, newest first.
  lemma {:induction false} NewestFirstSorts(rows: seq<Row>)
    ensures Ordered(NewestFirst(rows)) && multiset(NewestFirst(rows)) == multiset(rows)
  {
    if rows == [] {
    } else {
      var n := |rows| - 1;
      NewestFirstSorts(rows[..n]);
      InsertOrdered(rows[n], NewestFirst(rows[..n]));
      MultisetSnoc(rows, n);
    }
  }

  lemma MultisetSnoc(rows: seq<Row>, n: nat)
    requires |rows| == n + 1
    ensures multiset(rows) == multiset{rows[n]} + multiset(rows[..n])
  {
    assert rows == rows[..n] + [rows[n]];
  }

  // At most `limit` of the rows, of the one machine if any, newest first; a row is left out
  // only where `limit` newer ones are shown.
  ghost predicate NewestOf(events: seq<Row>, rows: seq<Row>, mac: Option<Mac>, limit: int) {
    && Ordered(events) && multiset(events) <= multiset(rows) && (0 <= limit ==> |events| <= limit)
    && (forall e :: e in events ==> mac.None? || e.mac == mac.value)
    && forall r :: r in rows && (mac.None? || r.mac == mac.value) && r !in events ==>
         |events| == limit && forall e :: e in events ==> Newer(e, r)
  }

  lemma {:induction false} RowsOfIff(rows: seq<Row>, mac: Mac, r: Row)
    ensures r in RowsOf(rows, mac) <==> r in rows && r.mac == mac
  {
    if rows == [] {
    } else {
      RowsOfIff(rows[..|rows| - 1], mac, r);
      assert rows == rows[..|rows| - 1] + [rows[|rows| - 1]];
    }
  }

  lemma {:induction false} RowsOfAreRows(rows: seq<Row>, mac: Mac)
    ensures multiset(RowsOf(rows, mac)) <= multiset(rows)
  {
    if rows == [] {
    } else {
      var n := |rows| - 1;
      RowsOfAreRows(rows[..n], mac);
      MultisetSnoc(rows, n);
      AppendRow(rows[..n], rows[n], mac);
      assert rows[..n] + [rows[n]] == rows;
    }
  }

  lemma OnlyOneRow(rows: seq<Row>, a: Row, b: Row)
    requires NumberedInOrder(rows) && a in rows && b in rows && a.id == b.id
    ensures a == b
  {
  }

  lemma LimitedIsNewest(rows: seq<Row>, mac: Option<Mac>, limit: int)
    requires NumberedInOrder(rows)
    ensures NewestOf(Limited(NewestFirst(if mac.Some? then RowsOf(rows, mac.value) else rows), limit), rows, mac, limit)
  {
    var source := if mac.Some? then RowsOf(rows, mac.value) else rows;
    if mac.Some? {
      RowsOfAreRows(rows, mac.value);
    }
    forall r
      ensures r in source <==> r in rows && (mac.None? || r.mac == mac.value)
    {
      if mac.Some? {
        RowsOfIff(rows, mac.value, r);
      }
    }
    NewestFirstSorts(source);
    PrefixIsNewest(rows, source, NewestFirst(source), limit);
  }

  lemma EarlierIsNewer(rows: seq<Row>, view: seq<Row>, i: nat, j: nat)
    requires NumberedInOrder(rows) && Ordered(view) && i < j < |view|
    requires view[i] in rows && view[j] in rows && view[i] != view[j]
    ensures Newer(view[i], view[j])
  {
    assert !Newer(view[j], view[i]);
    if view[i].id == view[j].id {
      OnlyOneRow(rows, view[i], view[j]);
    }
  }

  lemma ElementOf(view: seq<Row>, rows: seq<Row>, i: nat)
    requires multiset(view) <= multiset(rows) && i < |view|
    ensures view[i] in rows
  {
    assert view[i] in multiset(view);
    assert view[i] in multiset(rows);
  }

  lemma LeftOutIsOlder(rows: seq<Row>, shown: seq<Row>, hidden: seq<Row>, e: Row, r: Row)
    requires NumberedInOrder(rows) && Ordered(shown + hidden) && multiset(shown + hidden) <= multiset(rows)
    requires e in shown && r in hidden && r !in shown
    ensures Newer(e, r)
  {
    var view := shown + hidden;
    var i :| 0 <= i < |shown| && shown[i] == e;
    var k :| 0 <= k < |hidden| && hidden[k] == r;
    assert view[i] == e && view[|shown| + k] == r;
    ElementOf(view, rows, i);
    ElementOf(view, rows, |shown| + k);
    EarlierIsNewer(rows, view, i, |shown| + k);
  }

  lemma PrefixIsNewest(rows: seq<Row>, source: seq<Row>, view: seq<Row>, limit: int)
    requires NumberedInOrder(rows) && multiset(source) <= multiset(rows)
    requires Ordered(view) && multiset(view) == multiset(source)
    ensures var events := Limited(view, limit);
            && Ordered(events) && multiset(events) <= multiset(rows) && (0 <= limit ==> |events| <= limit)
            && (forall e :: e in events ==> e in source)
            && forall r :: r in source && r !in events ==> |events| == limit && forall e :: e in events ==> Newer(e, r)
  {
    var n := if 0 <= limit < |view| then limit else |view|;
    assert view == view[..n] + view[n..] && Limited(view, limit) == view[..n];
    forall r
      ensures r in source <==> r in view
    {
      assert r in multiset(source) <==> r in multiset(view);
    }
    forall r | r in source && r !in view[..n]
      ensures n == limit && forall e :: e in view[..n] ==> Newer(e, r)
    {
      forall e | e in view[..n]
        ensures Newer(e, r)
      {
        LeftOutIsOlder(rows, view[..n], view[n..], e, r);
      }
    }
  }

  // Rows whose times follow their ids: sorting by time is reversing.
  lemma {:induction false} AscendingReverses(rows: seq<Row>)
    requires Ascending(rows)
    ensures NewestFirst(rows) == Reversed(rows)
  {
    if rows == [] {
    } else {
      var n := |rows| - 1;
      AscendingReverses(rows[..n]);
      if n > 0 {
        assert Reversed(rows[..n])[0] == rows[n - 1];
      }
    }
  }

  lemma {:induction false} ReversedAt(rows: seq<Row>, i: nat)
    requires i < |rows|
    ensures |Reversed(rows)| == |rows| && Reversed(rows)[i] == rows[|rows| - 1 - i]
  {
    if |rows| > 1 {
      ReversedAt(rows[..|rows| - 1], if i > 0 then i - 1 else 0);
    } else {
      assert Reversed(rows[..0]) == [];
    }
  }

  lemma ReversedFrom(rows: seq<Row>, i: nat)
    requires i < |rows|
    ensures |Reversed(rows)| == |rows| && Reversed(rows)[|rows| - 1 - i] == rows[i]
  {
    ReversedAt(rows, |rows| - 1 - i);
  }

  // Two numbered rows that an ordered view shows the other way round are in time order.
  lemma OrderedPair(view: seq<Row>, a: nat, b: nat)
    requires Ordered(view) && a < b < |view| && view[b].id < view[a].id
    ensures view[b].at <= view[a].at
  {
    assert !Newer(view[b], view[a]);
  }

  // The fleet's view is in reverse insertion order exactly when no row is older than one
  // inserted before it.
  lemma FleetViewIff(rows: seq<Row>)
    requires NumberedInOrder(rows)
    ensures NewestFirst(rows) == Reversed(rows) <==> InTimeOrder(rows)
  {
    if InTimeOrder(rows) {
      assert Ascending(rows);
      AscendingReverses(rows);
    }
    if NewestFirst(rows) == Reversed(rows) {
      NewestFirstSorts(rows);
      forall i, j | 0 <= i < j < |rows|
        ensures rows[i].at <= rows[j].at
      {
        ReversedFrom(rows, i);
        ReversedFrom(rows, j);
        OrderedPair(Reversed(rows), |rows| - 1 - j, |rows| - 1 - i);
      }
    }
  }

  // A heartbeat that lifts an older row above another machine's: two machines report, and
  // the first of them again.
  lemma HeartbeatBreaksOrder(a: Mac, b: Mac, state: string, detail: Option<string>, from: int)
    requires a != b
    ensures var rows := [Row(1, a, state, detail, from + 2), Row(2, b, state, detail, from + 1)];
            var reports := [Report(a, state, detail, from), Report(b, state, detail, from + 1), Report(a, state, detail, from + 2)];
            && Faithful(rows, reports) && Bounded(rows, 3, from + 2)
            && !InTimeOrder(rows) && NewestFirst(rows) != Reversed(rows)
  {
    var first, second, again := Report(a, state, detail, from), Report(b, state, detail, from + 1), Report(a, state, detail, from + 2);
    var ra, rb := Row(1, a, state, detail, from), Row(2, b, state, detail, from + 1);
    var bumped := ra.(at := from + 2);
    TwoMachines(first, second);
    LatestOfTwo(ra, rb);
    BumpKeeps([ra, rb], [first, second], 3, again);
    assert [ra, rb][0 := bumped] == [bumped, rb];
    assert [first, second] + [again] == [first, second, again];
    FleetViewIff([bumped, rb]);
    assert [bumped, rb][0].at > [bumped, rb][1].at;
  }

  lemma LatestOfTwo(first: Row, second: Row)
    requires first.mac != second.mac
    ensures LatestOf([first, second], first.mac) == Some(0) && LatestOf([first], second.mac) == None
  {
    assert [first, second][..1] == [first] && [first][..0] == [];
  }

  lemma FirstReport(report: Report)
    ensures var rows := [Row(1, report.mac, report.state, report.detail, report.at)];
            Faithful(rows, [report]) && Bounded(rows, 2, report.at)
  {
    forall mac ensures FaithfulFor([], [], mac) {
    }
    InsertKeeps([], [], 1, report);
    var row := Row(1, report.mac, report.state, report.detail, report.at);
    assert [] + [row] == [row] && [] + [report] == [report];
  }

  lemma TwoMachines(first: Report, second: Report)
    requires first.mac != second.mac && first.at <= second.at
    ensures var rows := [Row(1, first.mac, first.state, first.detail, first.at), Row(2, second.mac, second.state, second.detail, second.at)];
            Faithful(rows, [first, second]) && Bounded(rows, 3, second.at)
  {
    var ra, rb := Row(1, first.mac, first.state, first.detail, first.at), Row(2, second.mac, second.state, second.detail, second.at);
    FirstReport(first);
    LatestOfTwo(ra, rb);
    InsertKeeps([ra], [first], 2, second);
    assert [ra] + [rb] == [ra, rb] && [first] + [second] == [first, second];
  }

  // ---- The log itself --------------------------------------------------------

  class Log {
    var rows: seq<Row>
    var nextId: nat
    var now: int
    // Every report of the machines now known, since each was last removed.
    ghost var reports: seq<Report>

    ghost predicate Valid()
      reads this
    {
      Faithful(rows, reports) && Bounded(rows, nextId, now)
    }

    constructor (start: int)
      ensures Valid() && rows == [] && reports == [] && now == start
    {
      rows, nextId, now, reports := [], 1, start, [];
    }

    // `wait` and `pause` are the time that passes before and between the two statements.
    method LogBootEvent(mac: Mac, state: string, detail: Option<string>, wait: nat, pause: nat)
      requires Valid()
      modifies this
      ensures Valid() && now == old(now) + wait + pause
      ensures reports == old(reports) + [Report(mac, state, detail, now)]
      ensures forall k: nat :: RepeatedBy(old(rows), k, mac, state, detail) ==> rows == old(rows)[k := old(rows)[k].(at := now)]
      ensures (forall k: nat :: !RepeatedBy(old(rows), k, mac, state, detail)) ==>
                rows == old(rows) + [Row(old(nextId), mac, state, detail, now)]
      ensures InTimeOrder(old(rows)) ==> (InTimeOrder(rows) <==> KeepsTimeOrder(old(rows), mac, state, detail, now))
    {
      RepeatsIff(rows, mac, state, detail);
      now := now + wait;
      var latest := LatestOf(rows, mac);
      now := now + pause;
      ghost var report := Report(mac, state, detail, now);
      assert Bounded(rows, nextId, now);
      if latest.Some? && Same(rows[latest.value].state, rows[latest.value].detail, state, detail) {
        BumpKeeps(rows, reports, nextId, report);
        if InTimeOrder(rows) {
          BumpInTimeOrder(rows, nextId, latest.value, now);
        }
        rows := rows[latest.value := rows[latest.value].(at := now)];
      } else {
        InsertKeeps(rows, reports, nextId, report);
        if InTimeOrder(rows) {
          InsertInTimeOrder(rows, nextId, Row(nextId, mac, state, detail, now));
        }
        rows := rows + [Row(nextId, mac, state, detail, now)];
        nextId := nextId + 1;
      }
      reports := reports + [report];
    }

    // DELETE FROM boot_events WHERE mac = ?, part of removing a machine.
    method RemoveEvents(mac: Mac)
      requires Valid()
      modifies this`rows, this`reports
      ensures Valid()
      ensures rows == OthersThan(old(rows), mac) && reports == ReportsOthersThan(old(reports), mac)
      ensures forall r :: r in rows <==> r in old(rows) && r.mac != mac
    {
      RemovalKeeps(rows, reports, nextId, now, mac);
      OthersAre(rows, mac);
      rows := OthersThan(rows, mac);
      reports := ReportsOthersThan(reports, mac);
    }

    // The newest events of one machine, in reverse insertion order; or those of all of
    // them, which are in that order exactly when the log is in time order.
    method RecentBootEvents(limit: int, mac: Option<Mac>) returns (events: seq<Row>)
      requires Valid()
      ensures NewestOf(events, rows, mac, limit)
      ensures mac.Some? ==> events == Limited(Reversed(RowsOf(rows, mac.value)), limit)
      ensures mac.None? ==> (NewestFirst(rows) == Reversed(rows) <==> InTimeOrder(rows))
      ensures mac.None? && InTimeOrder(rows) ==> events == Limited(Reversed(rows), limit)
      ensures mac.Some? ==> Shown(RowsOf(rows, mac.value)) == Runs(StreamOf(reports, mac.value))
    {
      if mac.Some? {
        assert FaithfulFor(rows, reports, mac.value);
        AscendingReverses(RowsOf(rows, mac.value));
      } else {
        FleetViewIff(rows);
      }
      LimitedIsNewest(rows, mac, limit);
      events := Limited(NewestFirst(if mac.Some? then RowsOf(rows, mac.value) else rows), limit);
    }
  }
}
