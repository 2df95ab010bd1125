/** The benchmark gate: two summaries of one workload matrix that must reach the same verdict. */
module Gates {
  import opened Bytes
  import opened Sequences

  /** Baselines in the order the matrix lists them. */
  datatype Baseline = Baseline(impl: string, names: seq<string>)
  datatype Workload = Workload(name: string, pbz: seq<string>, baselines: seq<Baseline>)

  /** The parsed log: nanoseconds per operation by benchmark name. */
  type Results = map<string, real>

  datatype Timing = Timing(name: string, ns: real)

  /** `available`: the named benchmarks that were run, in order. */
  function Available(results: Results, names: seq<string>): (ts: seq<Timing>)
    ensures ts == [] <==> forall n :: n in names ==> n !in results
  {
    if names == [] then []
    else (if names[0] in results then [Timing(names[0], results[names[0]])] else []) + Available(results, names[1..])
  }

  /** `min` by time; the first of equals. */
  function Min(ts: seq<Timing>): Timing
    requires ts != []
  {
    if |ts| == 1 then ts[0]
    else
      var m := Min(ts[1..]);
      if ts[0].ns <= m.ns then ts[0] else m
  }

  function Best(results: Results, names: seq<string>): Option<Timing> {
    var available := Available(results, names);
    if available == [] then None else Some(Min(available))
  }

  lemma {:induction false} AvailableMeans(results: Results, names: seq<string>, t: Timing)
    ensures t in Available(results, names) <==> t.name in names && t.name in results && results[t.name] == t.ns
  {
    if names != [] {
      AvailableMeans(results, names[1..], t);
    }
  }

  lemma {:induction false} MinMeans(ts: seq<Timing>)
    requires ts != []
    ensures Min(ts) in ts
    ensures forall t :: t in ts ==> Min(ts).ns <= t.ns
  {
    if |ts| > 1 {
      MinMeans(ts[1..]);
    }
  }

  predicate Measured(results: Results, names: seq<string>) {
    exists n :: n in names && n in results
  }

  /** `best` fails exactly when nothing was measured; otherwise it is a measured candidate no other beats. */
  lemma {:induction false} BestMeans(results: Results, names: seq<string>)
    ensures Best(results, names).Some? <==> Measured(results, names)
    ensures Best(results, names).Some? ==>
              var t := Best(results, names).value;
              && t.name in names && t.name in results && results[t.name] == t.ns
              && forall n :: n in names && n in results ==> t.ns <= results[n]
  {
    var ts := Available(results, names);
    if ts != [] {
      MinMeans(ts);
      AvailableMeans(results, names, Min(ts));
      forall n | n in names && n in results
        ensures Min(ts).ns <= results[n]
      {
        AvailableMeans(results, names, Timing(n, results[n]));
      }
    }
  }

  /** The timing `min` picks: of the least measured candidates the one that is listed first. */
  ghost predicate Least(results: Results, names: seq<string>, t: Timing) {
    exists i: nat :: LeastAt(results, names, t, i)
  }

  predicate LeastAt(results: Results, names: seq<string>, t: Timing, i: nat) {
    && i < |names| && names[i] == t.name && t.name in results && results[t.name] == t.ns
    && (forall j :: 0 <= j < |names| && names[j] in results ==> t.ns <= results[names[j]])
    && (forall j :: 0 <= j < i && names[j] in results ==> t.ns < results[names[j]])
  }

  lemma {:induction false} BestHead(results: Results, names: seq<string>)
    requires names != []
    ensures Best(results, names)
         == if names[0] !in results then Best(results, names[1..])
            else
              var t := Timing(names[0], results[names[0]]);
              match Best(results, names[1..])
              case None => Some(t)
              case Some(m) => Some(if t.ns <= m.ns then t else m)
  {
    ConcatNil(Available(results, names[1..]));
    if names[0] in results {
      HeadTail(Timing(names[0], results[names[0]]), Available(results, names[1..]));
    }
  }

  lemma {:induction false} LeastIndex(results: Results, names: seq<string>) returns (i: nat)
    requires Best(results, names).Some?
    ensures LeastAt(results, names, Best(results, names).value, i)
  {
    var t, rest := Best(results, names).value, names[1..];
    BestHead(results, names);
    BestMeans(results, names);
    if names[0] in results && t == Timing(names[0], results[names[0]]) {
      assert forall j :: 0 <= j < |names| ==> names[j] in names;
      return 0;
    }
    var k := LeastIndex(results, rest);
    i := k + 1;
    forall j | 0 <= j < |names| && names[j] in results
      ensures t.ns <= results[names[j]] && (j < i ==> t.ns < results[names[j]])
    {
      if j > 0 {
        assert names[j] == rest[j - 1];
      }
    }
  }

  lemma {:induction false} LeastIsMeasured(results: Results, names: seq<string>, t: Timing)
    requires Least(results, names, t)
    ensures Measured(results, names)
  {
    var i: nat :| LeastAt(results, names, t, i);
    assert names[i] in names;
  }

  /** `best` picks it, and it alone qualifies. */
  lemma {:induction false} BestIsLeast(results: Results, names: seq<string>, t: Timing)
    ensures Least(results, names, t) <==> Best(results, names) == Some(t)
  {
    BestMeans(results, names);
    if Best(results, names).Some? {
      var k := LeastIndex(results, names);
    }
    if Least(results, names, t) {
      LeastIsMeasured(results, names, t);
      LeastOne(results, names, t, Best(results, names).value);
    }
  }

  lemma {:induction false} LeastOne(results: Results, names: seq<string>, s: Timing, t: Timing)
    requires Least(results, names, s) && Least(results, names, t)
    ensures s == t
  {
    var i: nat :| LeastAt(results, names, s, i);
    var k: nat :| LeastAt(results, names, t, k);
    assert names[i] in results && names[k] in results;
    assert s.ns <= results[names[k]] && t.ns <= results[names[i]];
  }

  // ------------------------------------------------------------------ summarize

  /** One compared cell. The ratio is absent where the code divides by zero and writes infinity. */
  datatype Row = Row(workload: string, impl: string, pbz: Timing, baseline: Timing, ratio: Option<real>, win: bool)

  datatype Uncovered = Uncovered(workload: string, impl: string, names: seq<string>)

  function Ratio(baseline: real, pbz: real): Option<real> {
    if pbz != 0.0 then Some(baseline / pbz) else None
  }

  function RowFor(w: Workload, impl: string, pbz: Timing, baseline: Timing): Row {
    Row(w.name, impl, pbz, baseline, Ratio(baseline.ns, pbz.ns), pbz.ns < baseline.ns)
  }

  /** The row of one cell, if its baseline was measured, and the hole if it was not. */
  function CellRow(results: Results, w: Workload, pbz: Timing, b: Baseline): seq<Row> {
    match Best(results, b.names)
    case None => []
    case Some(t) => [RowFor(w, b.impl, pbz, t)]
  }

  function CellHole(results: Results, w: Workload, b: Baseline): seq<Uncovered> {
    if Best(results, b.names).None? then [Uncovered(w.name, b.impl, b.names)] else []
  }

  function CellRows(results: Results, w: Workload, pbz: Timing, bs: seq<Baseline>): seq<Row> {
    if bs == [] then [] else CellRow(results, w, pbz, bs[0]) + CellRows(results, w, pbz, bs[1..])
  }

  function CellHoles(results: Results, w: Workload, bs: seq<Baseline>): seq<Uncovered> {
    if bs == [] then [] else CellHole(results, w, bs[0]) + CellHoles(results, w, bs[1..])
  }

  /** The rows and the holes of one workload; a workload without a pbz timing is one hole. */
  function WorkloadRows(results: Results, w: Workload): seq<Row> {
    match Best(results, w.pbz)
    case None => []
    case Some(pbz) => CellRows(results, w, pbz, w.baselines)
  }

  function WorkloadHoles(results: Results, w: Workload): seq<Uncovered> {
    match Best(results, w.pbz)
    case None => [Uncovered(w.name, "pbz", w.pbz)]
    case Some(_) => CellHoles(results, w, w.baselines)
  }

  function RowsOf(results: Results, ws: seq<Workload>): seq<Row> {
    if ws == [] then [] else WorkloadRows(results, ws[0]) + RowsOf(results, ws[1..])
  }

  function HolesOf(results: Results, ws: seq<Workload>): seq<Uncovered> {
    if ws == [] then [] else WorkloadHoles(results, ws[0]) + HolesOf(results, ws[1..])
  }

  predicate HasLoss(rows: seq<Row>) {
    exists r :: r in rows && !r.win
  }

  /** A hole or a loss. */
  predicate Gap(rows: seq<Row>, holes: seq<Uncovered>) {
    holes != [] || HasLoss(rows)
  }

  /** The text that is returned, section by section. */
  datatype Report =
    | NoRows(uncovered: seq<Uncovered>)
    | Table(rows: seq<Row>, losses: seq<Row>, uncovered: seq<Uncovered>, allWins: bool)

  function Losses(rows: seq<Row>): (ls: seq<Row>)
    ensures ls == [] <==> !HasLoss(rows)
  {
    if rows == [] then []
    else
      assert forall r :: r in rows <==> r == rows[0] || r in rows[1..];
      (if !rows[0].win then [rows[0]] else []) + Losses(rows[1..])
  }

  /** One cell of the inner loop of `summarize`. */
  method SummarizeCell(results: Results, w: Workload, pbz: Timing, b: Baseline)
      returns (rows: seq<Row>, uncovered: seq<Uncovered>, gap: bool)
    ensures rows == CellRow(results, w, pbz, b)
    ensures uncovered == CellHole(results, w, b)
    ensures gap <==> Gap(rows, uncovered)
  {
    match Best(results, b.names) {
      case None =>
        return [], [Uncovered(w.name, b.impl, b.names)], true;
      case Some(baseline) =>
        var ratio := if pbz.ns != 0.0 then Some(baseline.ns / pbz.ns) else None;
        var win := pbz.ns < baseline.ns;
        rows := [Row(w.name, b.impl, pbz, baseline, ratio, win)];
        LossSplit([], rows);
        return rows, [], !win;
    }
  }

  /** The inner loop of `summarize`. */
  method SummarizeCells(results: Results, w: Workload, pbz: Timing)
      returns (rows: seq<Row>, uncovered: seq<Uncovered>, gap: bool)
    ensures rows == CellRows(results, w, pbz, w.baselines)
    ensures uncovered == CellHoles(results, w, w.baselines)
    ensures gap <==> Gap(rows, uncovered)
  {
    rows, uncovered, gap := [], [], false;
    for i := 0 to |w.baselines|
      invariant rows + CellRows(results, w, pbz, w.baselines[i..]) == CellRows(results, w, pbz, w.baselines)
      invariant uncovered + CellHoles(results, w, w.baselines[i..]) == CellHoles(results, w, w.baselines)
      invariant gap <==> Gap(rows, uncovered)
    {
      var row, hole, g := SummarizeCell(results, w, pbz, w.baselines[i]);
      NextCell(results, w, pbz, i, rows, uncovered);
      GapSplit(rows, uncovered, row, hole);
      rows, uncovered, gap := rows + row, uncovered + hole, gap || g;
    }
    ConcatNil(rows);
    ConcatNil(uncovered);
  }

  /** One turn of the inner loop: what it appends, and what is left to append. */
  lemma {:induction false} NextCell(results: Results, w: Workload, pbz: Timing, i: nat,
                                    rows: seq<Row>, holes: seq<Uncovered>)
    requires i < |w.baselines|
    ensures rows + CellRow(results, w, pbz, w.baselines[i]) + CellRows(results, w, pbz, w.baselines[i + 1..])
         == rows + CellRows(results, w, pbz, w.baselines[i..])
    ensures holes + CellHole(results, w, w.baselines[i]) + CellHoles(results, w, w.baselines[i + 1..])
         == holes + CellHoles(results, w, w.baselines[i..])
  {
    Tail(w.baselines, i);
    Concat2(rows, CellRow(results, w, pbz, w.baselines[i]), CellRows(results, w, pbz, w.baselines[i + 1..]));
    Concat2(holes, CellHole(results, w, w.baselines[i]), CellHoles(results, w, w.baselines[i + 1..]));
  }

  /** One turn of the outer loop. */
  lemma {:induction false} NextWorkload(results: Results, ws: seq<Workload>, i: nat,
                                        rows: seq<Row>, holes: seq<Uncovered>)
    requires i < |ws|
    ensures rows + WorkloadRows(results, ws[i]) + RowsOf(results, ws[i + 1..]) == rows + RowsOf(results, ws[i..])
    ensures holes + WorkloadHoles(results, ws[i]) + HolesOf(results, ws[i + 1..]) == holes + HolesOf(results, ws[i..])
  {
    Tail(ws, i);
    Concat2(rows, WorkloadRows(results, ws[i]), RowsOf(results, ws[i + 1..]));
    Concat2(holes, WorkloadHoles(results, ws[i]), HolesOf(results, ws[i + 1..]));
  }

  lemma {:induction false} LossSplit(a: seq<Row>, b: seq<Row>)
    ensures HasLoss(a + b) <==> HasLoss(a) || HasLoss(b)
    ensures |b| == 1 ==> (HasLoss(b) <==> !b[0].win)
  {
    assert forall r :: r in a + b <==> r in a || r in b;
    if |b| == 1 {
      assert b[0] in b;
    }
  }

  lemma {:induction false} GapSplit(rows: seq<Row>, holes: seq<Uncovered>, row: seq<Row>, hole: seq<Uncovered>)
    ensures Gap(rows + row, holes + hole) <==> Gap(rows, holes) || Gap(row, hole)
  {
    LossSplit(rows, row);
  }

  /** `summarize`: the loop over the matrix, then the report. */
  method Summarize(results: Results, ws: seq<Workload>) returns (report: Report, hasGap: bool)
    ensures report == ReportOf(RowsOf(results, ws), HolesOf(results, ws))
    ensures hasGap == SummaryGap(results, ws)
    ensures ReportShows(results, ws, report)
  {
    ReportMeans(results, ws);
    var rows, uncovered, gap := SummarizeAll(results, ws);
    if rows == [] {
      return NoRows(uncovered), true;
    }
    var losses := Losses(rows);
    return Table(rows, losses, uncovered, losses == [] && uncovered == []), gap;
  }

  method SummarizeAll(results: Results, ws: seq<Workload>)
      returns (rows: seq<Row>, uncovered: seq<Uncovered>, hasGap: bool)
    ensures rows == RowsOf(results, ws) && uncovered == HolesOf(results, ws)
    ensures hasGap <==> Gap(rows, uncovered)
  {
    rows, uncovered, hasGap := [], [], false;
    for i := 0 to |ws|
      invariant rows + RowsOf(results, ws[i..]) == RowsOf(results, ws)
      invariant uncovered + HolesOf(results, ws[i..]) == HolesOf(results, ws)
      invariant hasGap <==> Gap(rows, uncovered)
    {
      var cellRows, cellHoles, gap := SummarizeWorkload(results, ws[i]);
      NextWorkload(results, ws, i, rows, uncovered);
      GapSplit(rows, uncovered, cellRows, cellHoles);
      rows, uncovered, hasGap := rows + cellRows, uncovered + cellHoles, hasGap || gap;
    }
    ConcatNil(rows);
    ConcatNil(uncovered);
  }

  /** One turn of the outer loop of `summarize`. */
  method SummarizeWorkload(results: Results, w: Workload) returns (rows: seq<Row>, uncovered: seq<Uncovered>, gap: bool)
    ensures rows == WorkloadRows(results, w)
    ensures uncovered == WorkloadHoles(results, w)
    ensures gap <==> Gap(rows, uncovered)
  {
    match Best(results, w.pbz) {
      case None =>
        return [], [Uncovered(w.name, "pbz", w.pbz)], true;
      case Some(pbz) =>
        rows, uncovered, gap := SummarizeCells(results, w, pbz);
    }
  }

  function ReportOf(rows: seq<Row>, uncovered: seq<Uncovered>): Report {
    if rows == [] then NoRows(uncovered)
    else Table(rows, Losses(rows), uncovered, Losses(rows) == [] && uncovered == [])
  }

  predicate SummaryGap(results: Results, ws: seq<Workload>) {
    RowsOf(results, ws) == [] || Gap(RowsOf(results, ws), HolesOf(results, ws))
  }

  // ----------------------------------------------------- what the report shows

  /** A workload and one of its baselines. */
  datatype Cell = Cell(w: Workload, b: Baseline)

  /** What keeps a cell, or all cells of a workload, out of the table. */
  datatype Missing = NoPbz(w: Workload) | NoBaseline(w: Workload, b: Baseline)

  /** The cells with both timings, in the order of the matrix. */
  function MeasuredCells(results: Results, ws: seq<Workload>): seq<Cell> {
    if ws == [] then []
    else
      (if Measured(results, ws[0].pbz) then MeasuredBaselines(results, ws[0], ws[0].baselines) else [])
      + MeasuredCells(results, ws[1..])
  }

  function MeasuredBaselines(results: Results, w: Workload, bs: seq<Baseline>): seq<Cell> {
    if bs == [] then []
    else (if Measured(results, bs[0].names) then [Cell(w, bs[0])] else []) + MeasuredBaselines(results, w, bs[1..])
  }

  function MissingCells(results: Results, ws: seq<Workload>): seq<Missing> {
    if ws == [] then []
    else
      (if Measured(results, ws[0].pbz) then MissingBaselines(results, ws[0], ws[0].baselines) else [NoPbz(ws[0])])
      + MissingCells(results, ws[1..])
  }

  function MissingBaselines(results: Results, w: Workload, bs: seq<Baseline>): seq<Missing> {
    if bs == [] then []
    else (if Measured(results, bs[0].names) then [] else [NoBaseline(w, bs[0])]) + MissingBaselines(results, w, bs[1..])
  }

  /** A row: the two names, the two least timings, their ratio and the strict comparison. */
  ghost predicate RowShows(results: Results, c: Cell, r: Row) {
    && r.workload == c.w.name && r.impl == c.b.impl
    && Least(results, c.w.pbz, r.pbz) && Least(results, c.b.names, r.baseline)
    && RatioShows(r.baseline.ns, r.pbz.ns, r.ratio)
    && (r.win <==> r.pbz.ns < r.baseline.ns)
  }

  predicate RatioShows(baseline: real, pbz: real, ratio: Option<real>) {
    && (ratio.Some? <==> pbz != 0.0)
    && (ratio.Some? ==> ratio.value * pbz == baseline)
  }

  ghost predicate RowsShow(results: Results, cells: seq<Cell>, rows: seq<Row>) {
    |cells| == |rows| && forall i :: 0 <= i < |rows| ==> RowShows(results, cells[i], rows[i])
  }

  /** A hole: the names that were expected, under `pbz` or under the baseline. */
  predicate HoleShows(m: Missing, u: Uncovered) {
    match m
    case NoPbz(w) => u.workload == w.name && u.impl == "pbz" && u.names == w.pbz
    case NoBaseline(w, b) => u.workload == w.name && u.impl == b.impl && u.names == b.names
  }

  predicate HolesShow(missing: seq<Missing>, holes: seq<Uncovered>) {
    |missing| == |holes| && forall i :: 0 <= i < |holes| ==> HoleShows(missing[i], holes[i])
  }

  /** The rows that are lost: all of them, as often as they occur, in their order. */
  ghost predicate LossesShow(rows: seq<Row>, losses: seq<Row>) {
    && (forall r :: multiset(losses)[r] == if r.win then 0 else multiset(rows)[r])
    && exists at: seq<nat> :: Picks(rows, losses, at)
  }

  /** The positions of a subsequence. */
  predicate Picks(rows: seq<Row>, some: seq<Row>, at: seq<nat>) {
    && |at| == |some|
    && (forall i :: 0 <= i < |at| ==> at[i] < |rows| && rows[at[i]] == some[i])
    && (forall i, j :: 0 <= i < j < |at| ==> at[i] < at[j])
  }

  /** The report of `summarize`, told from the log and the matrix alone. */
  ghost predicate ReportShows(results: Results, ws: seq<Workload>, report: Report) {
    && HolesShow(MissingCells(results, ws), report.uncovered)
    && match report
       case NoRows(_) => MeasuredCells(results, ws) == []
       case Table(rows, losses, uncovered, allWins) =>
         && rows != [] && RowsShow(results, MeasuredCells(results, ws), rows)
         && LossesShow(rows, losses)
         && (allWins <==> losses == [] && uncovered == [])
  }

  lemma {:induction false} RatioMeans(baseline: real, pbz: real)
    ensures RatioShows(baseline, pbz, Ratio(baseline, pbz))
  {
    if pbz != 0.0 {
      Divides(baseline, pbz);
    }
  }

  lemma {:induction false} Divides(a: real, b: real)
    requires b != 0.0
    ensures a / b * b == a
  {
  }

  lemma {:induction false} CellMeans(results: Results, w: Workload, pbz: Timing, b: Baseline)
    requires Best(results, w.pbz) == Some(pbz)
    ensures RowsShow(results, if Measured(results, b.names) then [Cell(w, b)] else [], CellRow(results, w, pbz, b))
    ensures HolesShow(if Measured(results, b.names) then [] else [NoBaseline(w, b)], CellHole(results, w, b))
  {
    BestMeans(results, b.names);
    BestIsLeast(results, w.pbz, pbz);
    if Best(results, b.names).Some? {
      BestIsLeast(results, b.names, Best(results, b.names).value);
      RatioMeans(Best(results, b.names).value.ns, pbz.ns);
    }
  }

  lemma {:induction false} RowsShowAppend(results: Results, a: seq<Cell>, x: seq<Row>, b: seq<Cell>, y: seq<Row>)
    requires RowsShow(results, a, x) && RowsShow(results, b, y)
    ensures RowsShow(results, a + b, x + y)
  {
  }

  lemma {:induction false} HolesShowAppend(a: seq<Missing>, x: seq<Uncovered>, b: seq<Missing>, y: seq<Uncovered>)
    requires HolesShow(a, x) && HolesShow(b, y)
    ensures HolesShow(a + b, x + y)
  {
  }

  lemma {:induction false} WorkloadMeans(results: Results, w: Workload, pbz: Timing, bs: seq<Baseline>)
    requires Best(results, w.pbz) == Some(pbz)
    ensures RowsShow(results, MeasuredBaselines(results, w, bs), CellRows(results, w, pbz, bs))
    ensures HolesShow(MissingBaselines(results, w, bs), CellHoles(results, w, bs))
  {
    if bs != [] {
      var measured := Measured(results, bs[0].names);
      CellMeans(results, w, pbz, bs[0]);
      WorkloadMeans(results, w, pbz, bs[1..]);
      RowsShowAppend(results, if measured then [Cell(w, bs[0])] else [], CellRow(results, w, pbz, bs[0]),
                     MeasuredBaselines(results, w, bs[1..]), CellRows(results, w, pbz, bs[1..]));
      HolesShowAppend(if measured then [] else [NoBaseline(w, bs[0])], CellHole(results, w, bs[0]),
                      MissingBaselines(results, w, bs[1..]), CellHoles(results, w, bs[1..]));
    }
  }

  lemma {:induction false} MatrixMeans(results: Results, ws: seq<Workload>)
    ensures RowsShow(results, MeasuredCells(results, ws), RowsOf(results, ws))
    ensures HolesShow(MissingCells(results, ws), HolesOf(results, ws))
  {
    if ws != [] {
      var w := ws[0];
      BestMeans(results, w.pbz);
      MatrixMeans(results, ws[1..]);
      if Best(results, w.pbz).Some? {
        WorkloadMeans(results, w, Best(results, w.pbz).value, w.baselines);
      }
      var measured := Measured(results, w.pbz);
      RowsShowAppend(results, if measured then MeasuredBaselines(results, w, w.baselines) else [],
                     WorkloadRows(results, w), MeasuredCells(results, ws[1..]), RowsOf(results, ws[1..]));
      HolesShowAppend(if measured then MissingBaselines(results, w, w.baselines) else [NoPbz(w)],
                      WorkloadHoles(results, w), MissingCells(results, ws[1..]), HolesOf(results, ws[1..]));
    }
  }

  function Shifted(at: seq<nat>): (s: seq<nat>)
    ensures |s| == |at|
  {
    seq(|at|, i requires 0 <= i < |at| => at[i] + 1)
  }

  lemma {:induction false} PicksTail(rows: seq<Row>, some: seq<Row>, at: seq<nat>)
    requires rows != [] && Picks(rows[1..], some, at)
    ensures Picks(rows, some, Shifted(at)) && Picks(rows, [rows[0]] + some, [0] + Shifted(at))
  {
  }

  lemma {:induction false} LossPositions(rows: seq<Row>) returns (at: seq<nat>)
    ensures Picks(rows, Losses(rows), at)
  {
    if rows == [] {
      return [];
    }
    var rest := LossPositions(rows[1..]);
    PicksTail(rows, Losses(rows[1..]), rest);
    ConcatNil(Losses(rows[1..]));
    at := if rows[0].win then Shifted(rest) else [0] + Shifted(rest);
  }

  lemma {:induction false} LossCount(rows: seq<Row>, r: Row)
    ensures multiset(Losses(rows))[r] == if r.win then 0 else multiset(rows)[r]
  {
    if rows != [] {
      LossCount(rows[1..], r);
      CountHead(rows[0], rows[1..], r);
      CountHead(rows[0], Losses(rows[1..]), r);
      assert rows == [rows[0]] + rows[1..];
      ConcatNil(Losses(rows[1..]));
    }
  }

  lemma {:induction false} CountHead(x: Row, s: seq<Row>, r: Row)
    ensures multiset([x] + s)[r] == multiset(s)[r] + if x == r then 1 else 0
  {
  }

  /** The loss section lists exactly the lost rows. */
  lemma {:induction false} LossesMean(rows: seq<Row>)
    ensures LossesShow(rows, Losses(rows))
  {
    forall r
      ensures multiset(Losses(rows))[r] == if r.win then 0 else multiset(rows)[r]
    {
      LossCount(rows, r);
    }
    var at := LossPositions(rows);
  }

  /** The report shows what it should, for every log and matrix. */
  lemma {:induction false} ReportMeans(results: Results, ws: seq<Workload>)
    ensures ReportShows(results, ws, ReportOf(RowsOf(results, ws), HolesOf(results, ws)))
  {
    MatrixMeans(results, ws);
    LossesMean(RowsOf(results, ws));
  }

  // -------------------------------------------------------------- the pivot table

  /** One workload a row; a baseline that was not measured has no cell. */
  datatype PivotRow = PivotRow(name: string, pbz: real, cells: map<string, (real, Option<real>)>)

  function Cells(results: Results, pbz: real, bs: seq<Baseline>): map<string, (real, Option<real>)> {
    if bs == [] then map[]
    else
      WithCell(results, pbz, Cells(results, pbz, bs[..|bs| - 1]), bs[|bs| - 1])
  }

  function WithCell(results: Results, pbz: real, before: map<string, (real, Option<real>)>, b: Baseline)
      : map<string, (real, Option<real>)>
  {
    match Best(results, b.names)
    case None => before
    case Some(t) => before[b.impl := (t.ns, Ratio(t.ns, pbz))]
  }

  function PivotRowOf(results: Results, w: Workload): seq<PivotRow> {
    match Best(results, w.pbz)
    case None => []
    case Some(pbz) => [PivotRow(w.name, pbz.ns, Cells(results, pbz.ns, w.baselines))]
  }

  function PivotRows(results: Results, ws: seq<Workload>): seq<PivotRow> {
    if ws == [] then [] else PivotRowOf(results, ws[0]) + PivotRows(results, ws[1..])
  }

  /** Every measured cell a strict win and nothing unmeasured. */
  predicate CleanCells(results: Results, pbz: Timing, bs: seq<Baseline>) {
    forall b :: b in bs ==> CellClean(results, pbz, b)
  }

  predicate CellClean(results: Results, pbz: Timing, b: Baseline) {
    Best(results, b.names).Some? && pbz.ns < Best(results, b.names).value.ns
  }

  predicate CleanWorkload(results: Results, w: Workload) {
    Best(results, w.pbz).Some? && CleanCells(results, Best(results, w.pbz).value, w.baselines)
  }

  predicate Clean(results: Results, ws: seq<Workload>) {
    forall w :: w in ws ==> CleanWorkload(results, w)
  }

  /** `summarize_pivot`: it looks at the comparisons only, and keeps a row for every measured workload. */
  method SummarizePivot(results: Results, ws: seq<Workload>) returns (rows: seq<PivotRow>, hasGap: bool)
    ensures rows == PivotRows(results, ws)
    ensures hasGap == PivotGap(results, ws)
    ensures PivotRowsShow(results, MeasuredWorkloads(results, ws), rows)
  {
    PivotMeans(results, ws);
    rows, hasGap := [], false;
    for i := 0 to |ws|
      invariant rows + PivotRows(results, ws[i..]) == PivotRows(results, ws)
      invariant hasGap <==> !Clean(results, ws[..i])
    {
      var row, gap := PivotWorkload(results, ws[i]);
      Tail(ws, i);
      Concat2(rows, row, PivotRows(results, ws[i + 1..]));
      Front(ws, i);
      CleanSnoc(results, ws[..i], ws[i]);
      rows, hasGap := rows + row, hasGap || gap;
    }
    ConcatNil(rows);
    assert ws[..|ws|] == ws;
    if rows == [] {
      hasGap := true;
    }
  }

  /** One turn of the outer loop of `summarize_pivot`. */
  method PivotWorkload(results: Results, w: Workload) returns (row: seq<PivotRow>, gap: bool)
    ensures row == PivotRowOf(results, w)
    ensures gap <==> !CleanWorkload(results, w)
  {
    match Best(results, w.pbz) {
      case None =>
        return [], true;
      case Some(pbz) =>
        var cells: map<string, (real, Option<real>)>;
        cells, gap := PivotCells(results, w, pbz);
        row := [PivotRow(w.name, pbz.ns, cells)];
    }
  }

  lemma {:induction false} CleanSnoc(results: Results, ws: seq<Workload>, w: Workload)
    ensures Clean(results, ws + [w]) <==> Clean(results, ws) && CleanWorkload(results, w)
  {
    assert w in ws + [w];
    assert forall v :: v in ws + [w] <==> v in ws || v == w;
  }

  method PivotCells(results: Results, w: Workload, pbz: Timing)
      returns (cells: map<string, (real, Option<real>)>, gap: bool)
    ensures cells == Cells(results, pbz.ns, w.baselines)
    ensures gap <==> !CleanCells(results, pbz, w.baselines)
  {
    cells, gap := map[], false;
    for i := 0 to |w.baselines|
      invariant cells == Cells(results, pbz.ns, w.baselines[..i])
      invariant gap <==> !CleanCells(results, pbz, w.baselines[..i])
    {
      var missed;
      cells, missed := PivotCell(results, pbz, w.baselines[i], cells);
      gap := gap || missed;
      SnocCells(results, pbz, w.baselines[..i], w.baselines[i]);
      Front(w.baselines, i);
    }
    assert w.baselines[..|w.baselines|] == w.baselines;
  }

  /** One turn of the inner loop of `summarize_pivot`. */
  method PivotCell(results: Results, pbz: Timing, b: Baseline, before: map<string, (real, Option<real>)>)
      returns (cells: map<string, (real, Option<real>)>, gap: bool)
    ensures cells == WithCell(results, pbz.ns, before, b)
    ensures gap <==> !CellClean(results, pbz, b)
  {
    match Best(results, b.names) {
      case None =>
        return before, true;
      case Some(baseline) =>
        var ratio := if pbz.ns != 0.0 then Some(baseline.ns / pbz.ns) else None;
        return before[b.impl := (baseline.ns, ratio)], pbz.ns >= baseline.ns;
    }
  }

  lemma {:induction false} SnocCells(results: Results, pbz: Timing, bs: seq<Baseline>, b: Baseline)
    ensures Cells(results, pbz.ns, bs + [b]) == WithCell(results, pbz.ns, Cells(results, pbz.ns, bs), b)
    ensures CleanCells(results, pbz, bs + [b]) <==> CleanCells(results, pbz, bs) && CellClean(results, pbz, b)
  {
    assert (bs + [b])[..|bs|] == bs;
    assert b in bs + [b];
    assert forall c :: c in bs + [b] <==> c in bs || c == b;
  }

  predicate PivotGap(results: Results, ws: seq<Workload>) {
    PivotRows(results, ws) == [] || !Clean(results, ws)
  }

  /** The workloads the pivot has a row for, in the order of the matrix. */
  function MeasuredWorkloads(results: Results, ws: seq<Workload>): seq<Workload> {
    if ws == [] then []
    else (if Measured(results, ws[0].pbz) then [ws[0]] else []) + MeasuredWorkloads(results, ws[1..])
  }

  /** The baselines are a dictionary: no implementation twice. */
  predicate Keyed(bs: seq<Baseline>) {
    forall i, j :: 0 <= i < j < |bs| ==> bs[i].impl != bs[j].impl
  }

  ghost predicate CellShows(results: Results, pbz: real, b: Baseline, cell: (real, Option<real>)) {
    && (exists t :: Least(results, b.names, t) && t.ns == cell.0)
    && RatioShows(cell.0, pbz, cell.1)
  }

  /** A cell for every measured baseline, and for no other. */
  ghost predicate CellsShow(results: Results, pbz: real, bs: seq<Baseline>, cells: map<string, (real, Option<real>)>) {
    && (forall impl :: impl in cells ==> exists b :: b in bs && b.impl == impl && Measured(results, b.names))
    && (forall b :: b in bs && Measured(results, b.names) ==>
          b.impl in cells && CellShows(results, pbz, b, cells[b.impl]))
  }

  /** A pivot row, told from the log and the workload alone. */
  ghost predicate PivotShows(results: Results, w: Workload, row: PivotRow) {
    && row.name == w.name
    && (exists t :: Least(results, w.pbz, t) && t.ns == row.pbz)
    && (Keyed(w.baselines) ==> CellsShow(results, row.pbz, w.baselines, row.cells))
  }

  ghost predicate PivotRowsShow(results: Results, ws: seq<Workload>, rows: seq<PivotRow>) {
    |ws| == |rows| && forall i :: 0 <= i < |rows| ==> PivotShows(results, ws[i], rows[i])
  }

  lemma {:induction false} OneCellMeans(results: Results, pbz: real, b: Baseline,
                                        before: map<string, (real, Option<real>)>)
    ensures var cells := WithCell(results, pbz, before, b);
            if Measured(results, b.names)
            then && b.impl in cells && CellShows(results, pbz, b, cells[b.impl])
                 && cells == before[b.impl := cells[b.impl]]
            else cells == before
  {
    BestMeans(results, b.names);
    if Best(results, b.names).Some? {
      var t := Best(results, b.names).value;
      BestIsLeast(results, b.names, t);
      RatioMeans(t.ns, pbz);
    }
  }

  lemma {:induction false} CellsAreShown(results: Results, pbz: real, bs: seq<Baseline>)
    requires Keyed(bs)
    ensures CellsShow(results, pbz, bs, Cells(results, pbz, bs))
  {
    if bs != [] {
      var front, last := bs[..|bs| - 1], bs[|bs| - 1];
      CellsAreShown(results, pbz, front);
      assert bs == front + [last];
      assert forall b :: b in front ==> b.impl != last.impl;
      OneMoreCell(results, pbz, front, last, Cells(results, pbz, front));
    }
  }

  lemma {:induction false} OneMoreCell(results: Results, pbz: real, bs: seq<Baseline>, b: Baseline,
                                       before: map<string, (real, Option<real>)>)
    requires CellsShow(results, pbz, bs, before) && forall c :: c in bs ==> c.impl != b.impl
    ensures CellsShow(results, pbz, bs + [b], WithCell(results, pbz, before, b))
  {
    OneCellMeans(results, pbz, b, before);
    assert forall c :: c in bs + [b] <==> c in bs || c == b;
  }

  lemma {:induction false} PivotRowMeans(results: Results, w: Workload)
    ensures PivotRowsShow(results, if Measured(results, w.pbz) then [w] else [], PivotRowOf(results, w))
  {
    BestMeans(results, w.pbz);
    if Best(results, w.pbz).Some? {
      var t := Best(results, w.pbz).value;
      BestIsLeast(results, w.pbz, t);
      if Keyed(w.baselines) {
        CellsAreShown(results, t.ns, w.baselines);
      }
    }
  }

  /** The pivot shows the measured workloads in order, each with its own name, time and cells. */
  lemma {:induction false} PivotMeans(results: Results, ws: seq<Workload>)
    ensures PivotRowsShow(results, MeasuredWorkloads(results, ws), PivotRows(results, ws))
  {
    if ws != [] {
      PivotRowMeans(results, ws[0]);
      PivotMeans(results, ws[1..]);
    }
  }

  // ------------------------------------------------------------------- verdicts

  lemma {:induction false} CellsClean(results: Results, w: Workload, pbz: Timing, bs: seq<Baseline>)
    ensures CellHoles(results, w, bs) == [] && !HasLoss(CellRows(results, w, pbz, bs)) <==> CleanCells(results, pbz, bs)
    ensures |CellRows(results, w, pbz, bs)| + |CellHoles(results, w, bs)| == |bs|
  {
    if bs != [] {
      CellsClean(results, w, pbz, bs[1..]);
      assert CleanCells(results, pbz, bs) <==> CellClean(results, pbz, bs[0]) && CleanCells(results, pbz, bs[1..]) by {
        assert forall b :: b in bs <==> b == bs[0] || b in bs[1..];
      }
      LossSplit([], CellRow(results, w, pbz, bs[0]));
      LossSplit(CellRow(results, w, pbz, bs[0]), CellRows(results, w, pbz, bs[1..]));
    }
  }

  /** What a listing of the matrix expects of one workload. */
  function CellsExpected(results: Results, w: Workload): nat {
    if Best(results, w.pbz).Some? then |w.baselines| else 1
  }

  function TotalExpected(results: Results, ws: seq<Workload>): nat {
    if ws == [] then 0 else CellsExpected(results, ws[0]) + TotalExpected(results, ws[1..])
  }

  lemma {:induction false} CleanHead(results: Results, ws: seq<Workload>)
    requires ws != []
    ensures Clean(results, ws) <==> CleanWorkload(results, ws[0]) && Clean(results, ws[1..])
  {
    assert ws[0] in ws;
    assert forall w :: w in ws <==> w == ws[0] || w in ws[1..];
  }

  lemma {:induction false} MatrixClean(results: Results, ws: seq<Workload>)
    ensures HolesOf(results, ws) == [] && !HasLoss(RowsOf(results, ws)) <==> Clean(results, ws)
    ensures |RowsOf(results, ws)| + |HolesOf(results, ws)| == TotalExpected(results, ws)
  {
    if ws != [] {
      MatrixClean(results, ws[1..]);
      CleanHead(results, ws);
      LossSplit([], WorkloadRows(results, ws[0]));
      LossSplit(WorkloadRows(results, ws[0]), RowsOf(results, ws[1..]));
      if Best(results, ws[0].pbz).Some? {
        CellsClean(results, ws[0], Best(results, ws[0].pbz).value, ws[0].baselines);
      }
    }
  }

  /** Conservation: every cell of the matrix is either a row or listed as uncovered. */
  lemma {:induction false} Conservation(results: Results, ws: seq<Workload>)
    ensures |RowsOf(results, ws)| + |HolesOf(results, ws)| == TotalExpected(results, ws)
  {
    MatrixClean(results, ws);
  }

  /** The cell (workload, baseline) is won: both were measured, and some pbz path beats every measured candidate. */
  predicate Won(results: Results, w: Workload, b: Baseline) {
    && Measured(results, b.names)
    && forall n :: n in b.names && n in results ==> exists p :: p in w.pbz && p in results && results[p] < results[n]
  }

  predicate AllWon(results: Results, ws: seq<Workload>) {
    forall w :: w in ws ==> Measured(results, w.pbz) && forall b :: b in w.baselines ==> Won(results, w, b)
  }

  lemma {:induction false} CellWon(results: Results, w: Workload, b: Baseline)
    requires Best(results, w.pbz).Some?
    ensures Won(results, w, b)
       <==> CellClean(results, Best(results, w.pbz).value, b)
  {
    BestMeans(results, w.pbz);
    BestMeans(results, b.names);
  }

  lemma {:induction false} CleanMeans(results: Results, ws: seq<Workload>)
    ensures Clean(results, ws) <==> AllWon(results, ws)
  {
    forall w
      ensures CleanWorkload(results, w)
         <==> Measured(results, w.pbz) && forall b :: b in w.baselines ==> Won(results, w, b)
    {
      WorkloadWon(results, w);
    }
  }

  lemma {:induction false} WorkloadWon(results: Results, w: Workload)
    ensures CleanWorkload(results, w)
       <==> Measured(results, w.pbz) && forall b :: b in w.baselines ==> Won(results, w, b)
  {
    BestMeans(results, w.pbz);
    if Best(results, w.pbz).Some? {
      forall b
        ensures Won(results, w, b)
           <==> CellClean(results, Best(results, w.pbz).value, b)
      {
        CellWon(results, w, b);
      }
    }
  }

  predicate SomeBaseline(ws: seq<Workload>) {
    exists w :: w in ws && w.baselines != []
  }

  lemma {:induction false} CleanRows(results: Results, ws: seq<Workload>)
    requires Clean(results, ws)
    ensures RowsOf(results, ws) == [] <==> !SomeBaseline(ws)
    ensures PivotRows(results, ws) == [] <==> ws == []
  {
    if ws != [] {
      assert ws[0] in ws;
      assert forall w :: w in ws <==> w == ws[0] || w in ws[1..];
      CleanRows(results, ws[1..]);
      var pbz := Best(results, ws[0].pbz).value;
      CellsClean(results, ws[0], pbz, ws[0].baselines);
      assert CellHoles(results, ws[0], ws[0].baselines) == [];
    }
  }

  /** Soundness: the gate opens exactly when the matrix compares something and every cell is won. */
  lemma {:induction false} GateSound(results: Results, ws: seq<Workload>)
    ensures !SummaryGap(results, ws) <==> SomeBaseline(ws) && AllWon(results, ws)
  {
    MatrixClean(results, ws);
    CleanMeans(results, ws);
    if Clean(results, ws) {
      CleanRows(results, ws);
    }
  }

  /** The pivot's gate opens exactly when the matrix is not empty and every cell it lists is won. */
  lemma {:induction false} PivotSound(results: Results, ws: seq<Workload>)
    ensures !PivotGap(results, ws) <==> ws != [] && AllWon(results, ws)
  {
    CleanMeans(results, ws);
    if Clean(results, ws) {
      CleanRows(results, ws);
    }
  }

  /** The closing line "all rows are wins" appears exactly when the gate opens. */
  lemma {:induction false} AllWinsLine(results: Results, ws: seq<Workload>)
    ensures var report := ReportOf(RowsOf(results, ws), HolesOf(results, ws));
            (report.Table? && report.allWins) <==> !SummaryGap(results, ws)
  {
  }

  /**
   The two gates disagree exactly on a non-empty matrix that lists no baseline at all and whose
   workloads were all measured: the table has no rows to compare, the pivot has nothing to lose.
   */
  lemma {:induction false} GatesDisagree(results: Results, ws: seq<Workload>)
    ensures SummaryGap(results, ws) != PivotGap(results, ws)
       <==> ws != [] && !SomeBaseline(ws) && forall w :: w in ws ==> Measured(results, w.pbz)
  {
    MatrixClean(results, ws);
    CleanMeans(results, ws);
    if Clean(results, ws) {
      CleanRows(results, ws);
    }
  }

  /** A matrix on which they do disagree. */
  lemma {:induction false} GatesDisagreeOnce()
    ensures var ws := [Workload("w", ["p"], [])];
            var results: Results := map["p" := 1.0];
            SummaryGap(results, ws) && !PivotGap(results, ws)
  {
    var ws := [Workload("w", ["p"], [])];
    var results: Results := map["p" := 1.0];
    GatesDisagree(results, ws);
    assert "p" in ws[0].pbz && "p" in results;
    GateSound(results, ws);
  }

  /** The pivot shows what the table compares: a cell for each measured baseline, with the row's time and ratio. */
  lemma {:induction false} CellsMean(results: Results, w: Workload, pbz: Timing, bs: seq<Baseline>, b: Baseline)
    requires Keyed(bs)
    requires b in bs
    ensures b.impl in Cells(results, pbz.ns, bs) <==> CellRow(results, w, pbz, b) != []
    ensures CellRow(results, w, pbz, b) != [] ==>
              var row := CellRow(results, w, pbz, b)[0];
              b.impl in Cells(results, pbz.ns, bs) && Cells(results, pbz.ns, bs)[b.impl] == (row.baseline.ns, row.ratio)
  {
    var before, last := bs[..|bs| - 1], bs[|bs| - 1];
    if b == last {
      OnlyListed(results, pbz, before, b.impl);
    } else {
      assert b in before;
      CellsMean(results, w, pbz, before, b);
    }
  }

  lemma {:induction false} OnlyListed(results: Results, pbz: Timing, bs: seq<Baseline>, impl: string)
    requires forall i :: 0 <= i < |bs| ==> bs[i].impl != impl
    ensures impl !in Cells(results, pbz.ns, bs)
  {
    if bs != [] {
      OnlyListed(results, pbz, bs[..|bs| - 1], impl);
    }
  }

  // ----------------------------------------------------------------- validation

  /** `len(set(s)) == len(s)`. */
  predicate NoRepeats(s: seq<string>) {
    |(set x | x in s)| == |s|
  }

  function Occurrences(s: seq<string>, x: string): nat {
    if s == [] then 0 else (if s[0] == x then 1 else 0) + Occurrences(s[1..], x)
  }

  function Names(ws: seq<Workload>): seq<string> {
    if ws == [] then [] else [ws[0].name] + Names(ws[1..])
  }

  /** `validate_workloads`, given the two counts it checks the matrix against. */
  predicate ValidWorkloads(ws: seq<Workload>, expected: nat, coverage: nat) {
    && |ws| == expected && coverage == expected
    && (forall name :: name in Names(ws) ==> Occurrences(Names(ws), name) <= 1)
    && forall w :: w in ws ==> ValidWorkload(w)
  }

  predicate ValidWorkload(w: Workload) {
    && w.pbz != [] && NoRepeats(w.pbz) && w.baselines != []
    && forall b :: b in w.baselines ==> ValidBaseline(b)
  }

  predicate ValidBaseline(b: Baseline) {
    b.impl != "" && b.names != [] && NoRepeats(b.names)
  }

  /** `validate_workloads`, its assertions one after the other. */
  method ValidateWorkloads(ws: seq<Workload>, expected: nat, coverage: nat) returns (ok: bool)
    ensures ok == ValidWorkloads(ws, expected, coverage)
  {
    if |ws| != expected || coverage != expected {
      return false;
    }
    var names := Names(ws);
    if exists name | name in names :: Occurrences(names, name) > 1 {
      return false;
    }
    for i := 0 to |ws|
      invariant forall w :: w in ws[..i] ==> ValidWorkload(w)
    {
      var valid := ValidateWorkload(ws[i]);
      if !valid {
        assert ws[i] in ws;
        return false;
      }
      Front(ws, i);
    }
    assert ws[..|ws|] == ws;
    return true;
  }

  method ValidateWorkload(w: Workload) returns (ok: bool)
    ensures ok == ValidWorkload(w)
  {
    if w.pbz == [] || !NoRepeats(w.pbz) || w.baselines == [] {
      return false;
    }
    for i := 0 to |w.baselines|
      invariant forall b :: b in w.baselines[..i] ==> ValidBaseline(b)
    {
      var b := w.baselines[i];
      if b.impl == "" || b.names == [] || !NoRepeats(b.names) {
        assert b in w.baselines;
        return false;
      }
      Front(w.baselines, i);
    }
    assert w.baselines[..|w.baselines|] == w.baselines;
    return true;
  }

  predicate Distinct(s: seq<string>) {
    forall i, j :: 0 <= i < j < |s| ==> s[i] != s[j]
  }

  lemma {:induction false} OccurrencesMean(s: seq<string>, x: string)
    ensures Occurrences(s, x) > 0 <==> x in s
  {
    if s != [] {
      OccurrencesMean(s[1..], x);
    }
  }

  lemma {:induction false} DistinctMeans(s: seq<string>)
    ensures Distinct(s) <==> forall x :: x in s ==> Occurrences(s, x) <= 1
  {
    if s != [] {
      var rest := s[1..];
      DistinctMeans(rest);
      OccurrencesMean(rest, s[0]);
      assert Distinct(s) <==> Distinct(rest) && s[0] !in rest by {
        assert forall j :: 1 <= j < |s| ==> s[j] == rest[j - 1];
        assert forall j :: 0 <= j < |rest| ==> rest[j] == s[j + 1];
      }
      assert forall x :: x in s <==> x == s[0] || x in rest;
      forall x
        ensures Occurrences(s, x) == Occurrences(rest, x) + if x == s[0] then 1 else 0
      {
      }
    }
  }

  lemma {:induction false} NamesAt(ws: seq<Workload>, i: nat)
    requires i < |ws|
    ensures |Names(ws)| == |ws| && Names(ws)[i] == ws[i].name
  {
    if |ws| > 1 {
      NamesAt(ws[1..], if i == 0 then 0 else i - 1);
    }
  }

  /** What validation establishes, said by position: it accepts exactly these matrices. */
  lemma {:induction false} ValidMeans(ws: seq<Workload>, expected: nat, coverage: nat)
    ensures ValidWorkloads(ws, expected, coverage)
       <==> && |ws| == expected == coverage
            && (forall i, j :: 0 <= i < j < |ws| ==> ws[i].name != ws[j].name)
            && forall w :: w in ws ==>
                 && w.pbz != [] && Distinct(w.pbz) && w.baselines != []
                 && forall b :: b in w.baselines ==> b.impl != "" && b.names != [] && Distinct(b.names)
  {
    DistinctMeans(Names(ws));
    forall i | 0 <= i < |ws|
      ensures |Names(ws)| == |ws| && Names(ws)[i] == ws[i].name
    {
      NamesAt(ws, i);
    }
    forall s
      ensures NoRepeats(s) <==> Distinct(s)
    {
      NoRepeatsMeans(s);
    }
  }

  /** On a validated matrix the gates agree for every log. */
  lemma {:induction false} ValidatedGatesAgree(results: Results, ws: seq<Workload>, expected: nat, coverage: nat)
    requires ValidWorkloads(ws, expected, coverage)
    ensures SummaryGap(results, ws) == PivotGap(results, ws)
  {
    GatesDisagree(results, ws);
    if ws != [] {
      assert ws[0] in ws;
    }
  }

  lemma {:induction false} NextElement(s: seq<string>)
    requires s != []
    ensures (set x | x in s) == (set x | x in s[1..]) + {s[0]}
  {
  }

  /** The length comparison detects repetition. */
  lemma {:induction false} NoRepeatsMeans(s: seq<string>)
    ensures |(set x | x in s)| <= |s|
    ensures NoRepeats(s) <==> forall i, j :: 0 <= i < j < |s| ==> s[i] != s[j]
  {
    if s != [] {
      var rest := s[1..];
      NoRepeatsMeans(rest);
      NextElement(s);
      if s[0] in rest {
        var j :| 0 <= j < |rest| && rest[j] == s[0];
        assert s[j + 1] == s[0];
        assert (set x | x in s) == (set x | x in rest);
      } else {
        assert forall j :: 1 <= j < |s| ==> s[j] == rest[j - 1];
      }
    }
  }
}
