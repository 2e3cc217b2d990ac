/** The progress reports of a file download: DownloadThread in services/engine/src/progress_thread.cpp. */
module DownloadProgress {
  import opened Common

  const DOWNLOAD_FINISH_PERCENT: nat := 100
  const DOWNLOAD_PERIOD_PERCENT: nat := 1

  datatype UpgradeStatus = INIT | DOWNLOADING | DOWNLOAD_CANCEL | DOWNLOAD_FAIL | DOWNLOAD_SUCCESS

  datatype EndReason = NoReason | CheckFailed | OpenFailed | InitFailed | CurlError | NetNotAvailable | Cancelled

  datatype Progress = Progress(percent: nat, status: UpgradeStatus, endReason: EndReason)

  /** The shared flags as one callback loads them. Other threads change them at any time, so the repeated
      loads of isNoNet_ and isCancel_ need not agree. */
  datatype Flags = Flags(exit: bool, noNet: bool, cancel: bool, noNetForReason: bool, noNetForStatus: bool,
    cancelToClear: bool)

  predicate Quiet(flags: Flags) {
    !flags.exit && !flags.noNet && !flags.cancel
  }

  /** One call of DownloadProgress by curl, with the length that the local file has by then. */
  datatype Tick = Tick(dlTotal: real, dlNow: real, fileLength: nat, flags: Flags)

  /** How the request ends if no callback aborts it. */
  datatype End = End(ok: bool, flags: Flags)

  // ---------- The percentage ----------

  /** The count includes the local file, which holds what was there before the request and what has been
      written since. */
  function Percent(dlTotal: real, dlNow: real, fileLength: nat): int
    requires dlTotal > 0.0
  {
    var curr := fileLength as real;
    ((dlNow + curr) / (curr + dlTotal) * DOWNLOAD_FINISH_PERCENT as real).Floor
  }

  /** The percentage p is the largest whole number with p/100 of the total at most what was received. */
  lemma PercentIs(dlTotal: real, dlNow: real, fileLength: nat, p: int)
    requires dlTotal > 0.0
    ensures var curr := fileLength as real;
            p <= Percent(dlTotal, dlNow, fileLength) <==> p as real * (curr + dlTotal) <= 100.0 * (dlNow + curr)
  {
    var curr := fileLength as real;
    var whole := curr + dlTotal;
    var x := (dlNow + curr) / whole * 100.0;
    assert x * whole == 100.0 * (dlNow + curr) by {
      assert (dlNow + curr) / whole * whole == dlNow + curr;
    }
    assert p <= x.Floor <==> p as real <= x;
  }

  /** The conversion to an unsigned percentage is defined. */
  predicate Countable(t: Tick) {
    t.dlTotal > 0.0 ==> Percent(t.dlTotal, t.dlNow, t.fileLength) >= 0
  }

  ghost predicate AllCountable(ticks: seq<Tick>) {
    forall i | 0 <= i < |ticks| :: Countable(ticks[i])
  }

  /** No more is received than was announced. */
  predicate Sensible(t: Tick) {
    t.dlTotal > 0.0 ==> 0.0 <= t.dlNow <= t.dlTotal
  }

  lemma PercentBound(t: Tick)
    requires t.dlTotal > 0.0 && Sensible(t)
    ensures 0 <= Percent(t.dlTotal, t.dlNow, t.fileLength) <= 100
    ensures Percent(t.dlTotal, t.dlNow, t.fileLength) == 100 <==> t.dlNow == t.dlTotal
  {
    PercentIs(t.dlTotal, t.dlNow, t.fileLength, 0);
    PercentIs(t.dlTotal, t.dlNow, t.fileLength, 100);
    PercentIs(t.dlTotal, t.dlNow, t.fileLength, 101);
  }

  lemma Grow(p: real, curr: real, dlTotal: real, dlNow: real, more: real, later: real)
    requires p * (curr + dlTotal) <= 100.0 * (dlNow + curr)
    requires p <= 100.0 && more >= 0.0 && later >= dlNow
    ensures p * ((curr + more) + dlTotal) <= 100.0 * (later + (curr + more))
  {
    assert 0.0 <= (100.0 - p) * more;
    assert p * ((curr + more) + dlTotal) == p * (curr + dlTotal) + p * more;
  }

  /** More received and a longer file never give a smaller percentage. In particular the growing file makes
      the percentage at least what the length at the start would give. */
  lemma PercentMonotone(dlTotal: real, dlNow: real, fileLength: nat, later: real, longer: nat)
    requires 0.0 <= dlNow <= later <= dlTotal && dlTotal > 0.0 && fileLength <= longer
    ensures Percent(dlTotal, dlNow, fileLength) <= Percent(dlTotal, later, longer)
  {
    var p := Percent(dlTotal, dlNow, fileLength);
    PercentIs(dlTotal, dlNow, fileLength, p);
    PercentIs(dlTotal, dlNow, fileLength, 101);
    Grow(p as real, fileLength as real, dlTotal, dlNow, (longer - fileLength) as real, later);
    PercentIs(dlTotal, later, longer, p);
  }

  // ---------- What one callback does ----------

  /** report is what the callback function is called with, if it is; code is what curl gets back; removes says
      that the file is removed. */
  datatype Outcome = Outcome(code: int, progress: Progress, report: Option<Progress>, removes: bool)

  function Abnormal(percent: nat, flags: Flags): Progress {
    Progress(percent, if flags.noNetForStatus then DOWNLOAD_FAIL else DOWNLOAD_CANCEL,
      if flags.noNetForReason then NetNotAvailable else Cancelled)
  }

  /** A failure and the end are shown once; between them only a whole step forward below the end. */
  predicate Shown(last: Progress, percent: nat, status: UpgradeStatus) {
    && !(last.status == status && last.percent == percent)
    && match status
       case DOWNLOAD_FAIL => true
       case DOWNLOADING => last.percent < percent != DOWNLOAD_FINISH_PERCENT
       case _ => last.percent < percent || percent == DOWNLOAD_FINISH_PERCENT
  }

  function Callback(last: Progress, percent: nat, status: UpgradeStatus, error: EndReason, flags: Flags): Outcome {
    var abnormal := Abnormal(percent, flags);
    var next := Progress(percent, status, error);
    if flags.exit then Outcome(-1, last, None, false)
    else if flags.noNet || flags.cancel then Outcome(-1, abnormal, Some(abnormal), false)
    else if Shown(last, percent, status) then Outcome(0, next, Some(next), status == DOWNLOAD_FAIL)
    else Outcome(0, last, None, false)
  }

  function OnTick(last: Progress, t: Tick): Outcome {
    if t.dlTotal <= 0.0 then Outcome(0, last, None, false)
    else
      var percent := Percent(t.dlTotal, t.dlNow, t.fileLength);
      Callback(last, if percent >= 0 then percent else 0, DOWNLOADING, NoReason, t.flags)
  }

  // ---------- One download ----------

  /** What has been reported; aborted says that a callback told curl to stop, removed that the file is gone. */
  datatype Trace = Trace(progress: Progress, reports: seq<Progress>, aborted: bool, removed: bool)

  function Reported(t: Trace, o: Outcome): Trace {
    Trace(o.progress, t.reports + (if o.report.Some? then [o.report.value] else []), o.code != 0,
      t.removed || o.removes)
  }

  function Run(start: Progress, ticks: seq<Tick>): Trace {
    if ticks == [] then Trace(start, [], false, false)
    else
      var before := Run(start, ticks[..|ticks| - 1]);
      if before.aborted then before else Reported(before, OnTick(before.progress, ticks[|ticks| - 1]))
  }

  /** The last callback, as it follows a run that was not aborted. */
  function Ending(last: Progress, end: End): Outcome {
    if end.ok then Callback(last, DOWNLOAD_FINISH_PERCENT, DOWNLOAD_SUCCESS, NoReason, end.flags)
    else Callback(last, 0, DOWNLOAD_FAIL, CurlError, end.flags)
  }

  function Finish(t: Trace, end: End): Trace {
    if t.aborted then t else Reported(t, Ending(t.progress, end))
  }

  function Download(start: Progress, ticks: seq<Tick>, end: End): Trace {
    Finish(Run(start, ticks), end)
  }

  // ---------- The life of one object ----------

  const FRESH := Progress(0, INIT, NoReason)

  /** An execution that ends before curl is started; the worker goes on and may execute again. */
  datatype Failure = Failure(reason: EndReason, flags: Flags)

  function Failed(last: Progress, f: Failure): Outcome {
    Callback(last, 0, DOWNLOAD_FAIL, f.reason, f.flags)
  }

  /** Where a download can start: a new object after any number of such executions. A download that has
      begun ends the worker, so no other execution follows it. */
  function StartAfter(failures: seq<Failure>): Progress {
    if failures == [] then FRESH
    else Failed(StartAfter(failures[..|failures| - 1]), failures[|failures| - 1]).progress
  }

  predicate IsStart(p: Progress) {
    p.percent == 0 && (p.status == INIT || p.status == DOWNLOAD_FAIL || p.status == DOWNLOAD_CANCEL)
  }

  /** Every download starts at percentage 0, and without a successful or running status. */
  lemma {:induction false} StartsAtZero(failures: seq<Failure>)
    ensures IsStart(StartAfter(failures))
  {
    if failures != [] {
      StartsAtZero(failures[..|failures| - 1]);
    }
  }

  // ---------- The order of the reports ----------

  predicate Increasing(reports: seq<Progress>) {
    && (forall i | 0 <= i < |reports| ::
          reports[i].status == DOWNLOADING && 0 < reports[i].percent < DOWNLOAD_FINISH_PERCENT)
    && forall i, j | 0 <= i < j < |reports| :: reports[i].percent < reports[j].percent
  }

  predicate IsEnd(p: Progress) {
    (p.status == DOWNLOAD_CANCEL || p.status == DOWNLOAD_FAIL || p.status == DOWNLOAD_SUCCESS)
    && p.percent <= DOWNLOAD_FINISH_PERCENT
  }

  /** Below the end the reports rise; the last may be the end, and nothing follows it. */
  predicate WellFormed(reports: seq<Progress>) {
    Increasing(reports)
    || (reports != [] && Increasing(reports[..|reports| - 1]) && IsEnd(reports[|reports| - 1]))
  }

  predicate Running(start: Progress, t: Trace) {
    !t.aborted && !t.removed && Increasing(t.reports)
    && t.progress == if t.reports == [] then start else t.reports[|t.reports| - 1]
  }

  /** Success is reported only with 100, and only if curl has succeeded. */
  predicate TrueSuccess(reports: seq<Progress>, ok: bool) {
    forall i | 0 <= i < |reports| && reports[i].status == DOWNLOAD_SUCCESS ::
      ok && reports[i].percent == DOWNLOAD_FINISH_PERCENT
  }

  /** What an aborted download leaves behind. */
  predicate Aborted(t: Trace) {
    t.aborted && !t.removed && WellFormed(t.reports) && TrueSuccess(t.reports, false)
  }

  /** The next report goes up, or it ends the download. */
  predicate Goes(last: Progress, o: Outcome) {
    !o.removes
    && match o.report
    case None => o.progress == last
    case Some(p) =>
      o.progress == p
      && if o.code == 0 then p.status == DOWNLOADING && last.percent < p.percent < DOWNLOAD_FINISH_PERCENT
         else IsEnd(p) && p.status != DOWNLOAD_SUCCESS
  }

  lemma AppendUp(reports: seq<Progress>, p: Progress)
    requires Increasing(reports) && p.status == DOWNLOADING && 0 < p.percent < DOWNLOAD_FINISH_PERCENT
    requires reports != [] ==> reports[|reports| - 1].percent < p.percent
    ensures Increasing(reports + [p])
  {
  }

  lemma AppendEnd(reports: seq<Progress>, p: Progress, ok: bool)
    requires Increasing(reports) && IsEnd(p)
    requires p.status == DOWNLOAD_SUCCESS ==> ok && p.percent == DOWNLOAD_FINISH_PERCENT
    ensures WellFormed(reports + [p]) && TrueSuccess(reports + [p], ok)
  {
    assert (reports + [p])[..|reports|] == reports;
    assert forall i | 0 <= i < |reports| :: (reports + [p])[i] == reports[i];
  }

  lemma StepKeepsOrder(start: Progress, t: Trace, o: Outcome)
    requires start.percent == 0 && Running(start, t) && Goes(t.progress, o)
    ensures Running(start, Reported(t, o)) || Aborted(Reported(t, o))
  {
    match o.report
    case None =>
      assert Reported(t, o).reports == t.reports;
    case Some(p) =>
      if o.code == 0 {
        AppendUp(t.reports, p);
      } else {
        AppendEnd(t.reports, p, false);
      }
  }

  lemma TickGoes(last: Progress, tick: Tick)
    requires Sensible(tick)
    ensures Goes(last, OnTick(last, tick))
  {
    if tick.dlTotal > 0.0 {
      PercentBound(tick);
    }
  }

  ghost predicate AllSensible(ticks: seq<Tick>) {
    forall i | 0 <= i < |ticks| :: Sensible(ticks[i])
  }

  lemma {:induction false} RunKeepsOrder(start: Progress, ticks: seq<Tick>)
    requires IsStart(start) && AllSensible(ticks)
    ensures Running(start, Run(start, ticks)) || Aborted(Run(start, ticks))
  {
    if ticks != [] {
      var n := |ticks| - 1;
      RunKeepsOrder(start, ticks[..n]);
      var before := Run(start, ticks[..n]);
      if !before.aborted {
        TickGoes(before.progress, ticks[n]);
        StepKeepsOrder(start, before, OnTick(before.progress, ticks[n]));
      }
    }
  }

  /** The failure of curl that is not reported: the object has reported a failure before, and nothing since. */
  ghost predicate Silent(start: Progress, ticks: seq<Tick>, end: End) {
    start.status == DOWNLOAD_FAIL && Run(start, ticks).reports == [] && !end.ok && Quiet(end.flags)
  }

  lemma FinishKeepsOrder(start: Progress, t: Trace, end: End)
    requires IsStart(start) && Running(start, t)
    ensures var r := Finish(t, end);
            var silent := start.status == DOWNLOAD_FAIL && t.reports == [] && !end.ok && Quiet(end.flags);
            && WellFormed(r.reports) && TrueSuccess(r.reports, end.ok)
            && ((r.reports != [] && IsEnd(r.reports[|r.reports| - 1])) <==> !end.flags.exit && !silent)
            && (r.removed <==> !end.ok && Quiet(end.flags) && !silent)
  {
    var report := Ending(t.progress, end).report;
    if report.None? {
      assert Finish(t, end).reports == t.reports;
    } else {
      AppendEnd(t.reports, report.value, end.ok);
    }
  }

  /** One download, from every start and whatever the flags do: the percentages rise strictly from 1 to at
      most 99, then comes at most one end, and that is the last report. Success is reported only when curl has
      succeeded, and then with 100. When no callback aborts it, its end is reported exactly if the exit has not
      been seen and the failure is not a silent one. The file is removed exactly when curl has failed
      undisturbed and not silently; after a lost network or a cancellation it stays, to be resumed. */
  lemma {:induction false} OneDownload(start: Progress, ticks: seq<Tick>, end: End)
    requires IsStart(start) && AllSensible(ticks)
    ensures var aborted, reports := Run(start, ticks).aborted, Download(start, ticks, end).reports;
            && WellFormed(reports) && TrueSuccess(reports, !aborted && end.ok)
            && (!aborted ==> ((reports != [] && IsEnd(reports[|reports| - 1]))
                              <==> !end.flags.exit && !Silent(start, ticks, end)))
            && (Download(start, ticks, end).removed
                <==> !aborted && !end.ok && Quiet(end.flags) && !Silent(start, ticks, end))
  {
    RunKeepsOrder(start, ticks);
    if !Run(start, ticks).aborted {
      FinishKeepsOrder(start, Run(start, ticks), end);
    }
  }

  // ---------- What is reported ----------

  /** The percentage of a call; 0 as long as no total is known. */
  ghost function PercentOf(t: Tick): int {
    if t.dlTotal > 0.0 then Percent(t.dlTotal, t.dlNow, t.fileLength) else 0
  }

  lemma ProgressStep(start: Progress, ticks: seq<Tick>)
    requires IsStart(start) && ticks != [] && AllSensible(ticks) && !Run(start, ticks).aborted
    ensures var before, p := Run(start, ticks[..|ticks| - 1]), PercentOf(ticks[|ticks| - 1]);
            if before.progress.percent < p < DOWNLOAD_FINISH_PERCENT
            then Run(start, ticks).progress == Progress(p, DOWNLOADING, NoReason)
                 && Run(start, ticks).reports == before.reports + [Progress(p, DOWNLOADING, NoReason)]
            else Run(start, ticks).progress == before.progress && Run(start, ticks).reports == before.reports
  {
    var t := ticks[|ticks| - 1];
    RunKeepsOrder(start, ticks[..|ticks| - 1]);
    if t.dlTotal > 0.0 {
      PercentBound(t);
    }
  }

  ghost function LastOf(start: Progress, reports: seq<Progress>): Progress {
    if reports == [] then start else reports[|reports| - 1]
  }

  lemma TickRecords(last: Progress, t: Tick)
    ensures OnTick(last, t).progress == if OnTick(last, t).report.Some? then OnTick(last, t).report.value else last
  {
  }

  lemma {:induction false} RunRecords(start: Progress, ticks: seq<Tick>)
    ensures Run(start, ticks).progress == LastOf(start, Run(start, ticks).reports)
  {
    if ticks != [] {
      var n := |ticks| - 1;
      var before := Run(start, ticks[..n]);
      RunRecords(start, ticks[..n]);
      if !before.aborted {
        TickRecords(before.progress, ticks[n]);
      }
    }
  }

  /** When curl has reported nothing: every call came without a total, or at percentage 0 or 100. */
  lemma {:induction false} NothingReportedIff(start: Progress, ticks: seq<Tick>)
    requires IsStart(start) && AllSensible(ticks) && !Run(start, ticks).aborted
    ensures Run(start, ticks).reports == []
            <==> forall i | 0 <= i < |ticks| && ticks[i].dlTotal > 0.0 ::
                   Percent(ticks[i].dlTotal, ticks[i].dlNow, ticks[i].fileLength) in {0, 100}
  {
    if ticks != [] {
      var n := |ticks| - 1;
      assert forall i | 0 <= i < n :: ticks[..n][i] == ticks[i];
      NothingReportedIff(start, ticks[..n]);
      RunRecords(start, ticks[..n]);
      ProgressStep(start, ticks);
      if ticks[n].dlTotal > 0.0 {
        PercentBound(ticks[n]);
      }
    }
  }

  /** A silent failure can happen: the file cannot be opened, and in the next execution curl fails. */
  lemma RetryIsSilent(quiet: Flags)
    requires Quiet(quiet)
    ensures var start := StartAfter([Failure(OpenFailed, quiet)]);
            && Silent(start, [], End(false, quiet))
            && Download(start, [], End(false, quiet)) == Trace(start, [], false, false)
  {
    var failures := [Failure(OpenFailed, quiet)];
    assert failures[..0] == [];
    assert StartAfter(failures) == Failed(FRESH, failures[0]).progress;
  }

  /** After a call that no flag disturbs, the last report is as far as the call, except that 100 waits for
      the end. */
  lemma {:induction false} UpToDate(start: Progress, ticks: seq<Tick>)
    requires IsStart(start) && ticks != [] && AllSensible(ticks) && !Run(start, ticks).aborted
    ensures var t := ticks[|ticks| - 1];
            t.dlTotal > 0.0 && t.dlNow < t.dlTotal
            ==> Percent(t.dlTotal, t.dlNow, t.fileLength) <= Run(start, ticks).progress.percent < 100
  {
    var t := ticks[|ticks| - 1];
    RunKeepsOrder(start, ticks);
    if t.dlTotal > 0.0 {
      PercentBound(t);
    }
  }

  ghost predicate IsFurthest(ticks: seq<Tick>, p: int) {
    && (p == 0 || exists i | 0 <= i < |ticks| :: PercentOf(ticks[i]) == p)
    && forall i | 0 <= i < |ticks| && PercentOf(ticks[i]) < DOWNLOAD_FINISH_PERCENT :: PercentOf(ticks[i]) <= p
  }

  /** While nothing disturbs the download, the recorded progress is that of the furthest call below 100. */
  lemma {:induction false} ProgressIsFurthest(start: Progress, ticks: seq<Tick>)
    requires IsStart(start) && AllSensible(ticks) && !Run(start, ticks).aborted
    ensures IsFurthest(ticks, Run(start, ticks).progress.percent)
  {
    if ticks != [] {
      var n := |ticks| - 1;
      ProgressIsFurthest(start, ticks[..n]);
      ProgressStep(start, ticks);
      assert forall i | 0 <= i < n :: ticks[..n][i] == ticks[i];
    }
  }

  /** A call that is below 100 and beyond all calls before it. */
  ghost predicate IsRecord(ticks: seq<Tick>, i: nat) {
    && i < |ticks| && 0 < PercentOf(ticks[i]) < DOWNLOAD_FINISH_PERCENT
    && forall j | 0 <= j < i && PercentOf(ticks[j]) < DOWNLOAD_FINISH_PERCENT ::
         PercentOf(ticks[j]) < PercentOf(ticks[i])
  }

  ghost function Records(ticks: seq<Tick>): set<int> {
    set i | 0 <= i < |ticks| && IsRecord(ticks, i) :: PercentOf(ticks[i])
  }

  lemma RecordsStep(ticks: seq<Tick>, furthest: int)
    requires ticks != [] && IsFurthest(ticks[..|ticks| - 1], furthest) && 0 <= furthest < DOWNLOAD_FINISH_PERCENT
    ensures var p := PercentOf(ticks[|ticks| - 1]);
            Records(ticks) == Records(ticks[..|ticks| - 1])
                              + if furthest < p < DOWNLOAD_FINISH_PERCENT then {p} else {}
  {
    var n := |ticks| - 1;
    assert forall i | 0 <= i < n :: ticks[..n][i] == ticks[i];
    forall i: nat | i < n ensures IsRecord(ticks, i) <==> IsRecord(ticks[..n], i) {
    }
    assert IsRecord(ticks, n) <==> furthest < PercentOf(ticks[n]) < DOWNLOAD_FINISH_PERCENT;
  }

  ghost function Percents(reports: seq<Progress>): set<int> {
    set r | r in reports :: r.percent as int
  }

  /** What has been reported are exactly the records, in the order of RunKeepsOrder. */
  lemma {:induction false} ReportsAreRecords(start: Progress, ticks: seq<Tick>)
    requires IsStart(start) && AllSensible(ticks) && !Run(start, ticks).aborted
    ensures Percents(Run(start, ticks).reports) == Records(ticks)
  {
    if ticks != [] {
      var n := |ticks| - 1;
      var before, p := Run(start, ticks[..n]), PercentOf(ticks[n]);
      ReportsAreRecords(start, ticks[..n]);
      ProgressIsFurthest(start, ticks[..n]);
      RunKeepsOrder(start, ticks[..n]);
      ProgressStep(start, ticks);
      RecordsStep(ticks, before.progress.percent);
    }
  }

  /** The loads of isNoNet_ agree. */
  predicate Steady(flags: Flags) {
    flags.noNetForReason == flags.noNet && flags.noNetForStatus == flags.noNet
  }

  /** What a disturbed callback reports: a lost network is a failure, a cancellation is not, each with its reason. */
  ghost predicate TellsAbnormal(p: Progress, percent: int, flags: Flags) {
    && p.percent == percent
    && (p.status == DOWNLOAD_FAIL || p.status == DOWNLOAD_CANCEL)
    && (p.endReason == NetNotAvailable || p.endReason == Cancelled)
    && (Steady(flags) && flags.noNet ==> p.status == DOWNLOAD_FAIL && p.endReason == NetNotAvailable)
    && (Steady(flags) && !flags.noNet ==> p.status == DOWNLOAD_CANCEL && p.endReason == Cancelled)
    && (p.status == DOWNLOAD_FAIL <==> flags.noNetForStatus)
    && (p.endReason == NetNotAvailable <==> flags.noNetForReason)
  }

  /** The call that aborts a download has a total and is the first that a flag disturbs; unless it has seen the exit
      it reports its percentage with the cause. */
  lemma {:induction false} AbortTells(start: Progress, ticks: seq<Tick>) returns (i: nat)
    requires IsStart(start) && AllSensible(ticks) && Run(start, ticks).aborted
    ensures i < |ticks| && !Run(start, ticks[..i]).aborted && ticks[i].dlTotal > 0.0 && !Quiet(ticks[i].flags)
    ensures var before, reports := Run(start, ticks[..i]).reports, Run(start, ticks).reports;
            if ticks[i].flags.exit then reports == before
            else |reports| == |before| + 1 && reports[..|before|] == before
                 && TellsAbnormal(reports[|before|], PercentOf(ticks[i]), ticks[i].flags)
  {
    var n := |ticks| - 1;
    if Run(start, ticks[..n]).aborted {
      i := AbortTells(start, ticks[..n]);
      assert ticks[..n][..i] == ticks[..i];
    } else {
      i := n;
      if ticks[n].dlTotal > 0.0 {
        PercentBound(ticks[n]);
      }
    }
  }

  /** A download aborts exactly when some call with a total is disturbed by a flag. */
  lemma {:induction false} AbortedIff(start: Progress, ticks: seq<Tick>)
    ensures Run(start, ticks).aborted
            <==> exists i | 0 <= i < |ticks| :: ticks[i].dlTotal > 0.0 && !Quiet(ticks[i].flags)
  {
    if ticks != [] {
      var n := |ticks| - 1;
      AbortedIff(start, ticks[..n]);
      assert forall i | 0 <= i < n :: ticks[..n][i] == ticks[i];
    }
  }

  /** What the end of a download that nothing aborted reports, when it reports something: success with 100, failure
      with 0 and the error of curl, or the cause of the disturbance. */
  lemma EndTells(start: Progress, ticks: seq<Tick>, end: End)
    requires IsStart(start) && AllSensible(ticks) && !Run(start, ticks).aborted
    requires !end.flags.exit && !Silent(start, ticks, end)
    ensures var before, reports := Run(start, ticks).reports, Download(start, ticks, end).reports;
            && |reports| == |before| + 1 && reports[..|before|] == before
            && var p := reports[|before|];
               if !Quiet(end.flags) then TellsAbnormal(p, if end.ok then 100 else 0, end.flags)
               else if end.ok then p == Progress(100, DOWNLOAD_SUCCESS, NoReason)
               else p == Progress(0, DOWNLOAD_FAIL, CurlError)
  {
    RunKeepsOrder(start, ticks);
  }

  lemma CallbackRecords(last: Progress, percent: nat, status: UpgradeStatus, error: EndReason, flags: Flags)
    ensures var o := Callback(last, percent, status, error, flags);
            o.progress == if o.report.Some? then o.report.value else last
  {
  }

  /** The recorded progress is always the last that was reported, or the one at the start. */
  lemma ProgressIsReported(start: Progress, ticks: seq<Tick>, end: End)
    ensures Run(start, ticks).progress == LastOf(start, Run(start, ticks).reports)
    ensures Download(start, ticks, end).progress == LastOf(start, Download(start, ticks, end).reports)
  {
    var t := Run(start, ticks);
    RunRecords(start, ticks);
    if !t.aborted {
      CallbackRecords(t.progress, DOWNLOAD_FINISH_PERCENT, DOWNLOAD_SUCCESS, NoReason, end.flags);
      CallbackRecords(t.progress, 0, DOWNLOAD_FAIL, CurlError, end.flags);
    }
  }

  /** An execution that fails before curl reports its reason at percentage 0 and removes the file, unless it sees the
      exit, is disturbed, or follows an execution that has reported a failure. */
  lemma FailureTells(failures: seq<Failure>, f: Failure)
    ensures var start := StartAfter(failures);
            var o := Failed(start, f);
            if f.flags.exit then o.report.None? && !o.removes
            else if !Quiet(f.flags) then o.report.Some? && TellsAbnormal(o.report.value, 0, f.flags) && !o.removes
            else if start.status == DOWNLOAD_FAIL then o.report.None? && !o.removes
            else o.report == Some(Progress(0, DOWNLOAD_FAIL, f.reason)) && o.removes
    ensures var o := Failed(StartAfter(failures), f);
            o.progress == if o.report.Some? then o.report.value else StartAfter(failures)
  {
    StartsAtZero(failures);
  }

  /** Once exitDownload_ is set, nothing more is reported, not even the end, whatever calls still come. */
  lemma {:induction false} NothingAfterExit(start: Progress, ticks: seq<Tick>, end: End, i: nat)
    requires i <= |ticks| && (forall j | i <= j < |ticks| :: ticks[j].flags.exit) && end.flags.exit
    ensures Run(start, ticks).reports == Run(start, ticks[..i]).reports
    ensures Download(start, ticks, end).reports == Run(start, ticks[..i]).reports
    decreases |ticks|
  {
    var n := |ticks| - 1;
    if i == |ticks| {
      assert ticks[..i] == ticks;
    } else {
      assert ticks[..n][..i] == ticks[..i];
      NothingAfterExit(start, ticks[..n], end, i);
    }
  }

  /** A call with a known total that sees the flag ends the download, even if the flag is cleared again. */
  lemma {:induction false} ExitAborts(start: Progress, ticks: seq<Tick>, end: End, i: nat)
    requires i < |ticks| && ticks[i].flags.exit && ticks[i].dlTotal > 0.0
    ensures Run(start, ticks).aborted
    ensures Download(start, ticks, end).reports == Run(start, ticks[..i]).reports
    decreases |ticks|
  {
    var n := |ticks| - 1;
    if i < n {
      assert ticks[..n][..i] == ticks[..i];
      ExitAborts(start, ticks[..n], end, i);
    }
  }

  // ---------- The code ----------

  class DownloadThread {
    /** downloadProgress_ */
    var downloadProgress: Progress
    /** The arguments of the calls of callback_, in order. */
    var reports: seq<Progress>
    /** The file downloadFileName_ is there. */
    var fileExists: bool

    constructor (fileExists: bool)
      ensures downloadProgress == FRESH && reports == [] && this.fileExists == fileExists
    {
      downloadProgress, reports, this.fileExists := FRESH, [], fileExists;
    }

    method DealAbnormal(percent: nat, flags: Flags) returns (dealResult: bool, clearsCancel: bool)
      modifies this`downloadProgress, this`reports
      ensures dealResult == (flags.noNet || flags.cancel)
      ensures clearsCancel == (dealResult && flags.cancelToClear)
      ensures !dealResult ==> downloadProgress == old(downloadProgress) && reports == old(reports)
      ensures dealResult
              ==> downloadProgress == Abnormal(percent, flags) && reports == old(reports) + [downloadProgress]
    {
      dealResult, clearsCancel := false, false;
      if flags.noNet || flags.cancel {
        downloadProgress := downloadProgress.(endReason := if flags.noNetForReason then NetNotAvailable else Cancelled);
        downloadProgress := downloadProgress.(percent := percent);
        downloadProgress :=
          downloadProgress.(status := if flags.noNetForStatus then DOWNLOAD_FAIL else DOWNLOAD_CANCEL);
        if flags.cancelToClear {
          clearsCancel := true;
        }
        dealResult := true;
        reports := reports + [downloadProgress];
      }
    }

    /** A failure that is shown also removes the file. */
    method DownloadCallback(percent: nat, status: UpgradeStatus, error: EndReason, flags: Flags) returns (code: int)
      modifies this
      ensures var o := Callback(old(downloadProgress), percent, status, error, flags);
              && code == o.code && downloadProgress == o.progress
              && reports == old(reports) + (if o.report.Some? then [o.report.value] else [])
              && fileExists == (old(fileExists) && !o.removes)
    {
      if flags.exit {
        return -1;
      }
      var abnormal, _ := DealAbnormal(percent, flags);
      if abnormal {
        return -1;
      }
      if downloadProgress.status == status && downloadProgress.percent == percent {
        return 0;
      }
      if status == DOWNLOAD_FAIL {
        if fileExists {
          fileExists := false;
        }
      } else if percent != DOWNLOAD_FINISH_PERCENT && percent < downloadProgress.percent + DOWNLOAD_PERIOD_PERCENT {
        return 0;
      }
      if percent == DOWNLOAD_FINISH_PERCENT && status == DOWNLOADING {
        return 0;
      }
      downloadProgress := Progress(percent, status, error);
      reports := reports + [downloadProgress];
      return 0;
    }

    method OnDownloadProgress(t: Tick) returns (code: int)
      requires Countable(t)
      modifies this
      ensures var o := OnTick(old(downloadProgress), t);
              && code == o.code && downloadProgress == o.progress
              && reports == old(reports) + (if o.report.Some? then [o.report.value] else [])
              && fileExists == (old(fileExists) && !o.removes)
    {
      if !(t.dlTotal > 0.0) {
        return 0;
      }
      var curr := t.fileLength as real;
      var percent := ((t.dlNow + curr) / (curr + t.dlTotal) * DOWNLOAD_FINISH_PERCENT as real).Floor;
      code := DownloadCallback(percent, DOWNLOADING, NoReason, t.flags);
    }

    /** curl_easy_perform calls back until it is done or a callback answers something other than 0, and the
        end is reported unless the callback ended it. The worker goes on only when the request never began. */
    method ProcessThreadExecute(findDot: bool, fileOpens: bool, curlInits: bool, ticks: seq<Tick>, end: End)
      returns (goOn: bool)
      requires AllCountable(ticks)
      modifies this
      ensures goOn <==> findDot || !fileOpens || !curlInits
      ensures !goOn ==> var r := Download(old(downloadProgress), ticks, end);
                        && downloadProgress == r.progress && reports == old(reports) + r.reports
                        && fileExists == (old(fileExists) && !r.removed)
      ensures goOn ==> var reason := if findDot then CheckFailed else if !fileOpens then OpenFailed else InitFailed;
                       var o := Failed(old(downloadProgress), Failure(reason, end.flags));
                       && downloadProgress == o.progress && fileExists == (old(fileExists) && !o.removes)
                       && reports == old(reports) + (if o.report.Some? then [o.report.value] else [])
    {
      if findDot {
        var _ := DownloadCallback(0, DOWNLOAD_FAIL, CheckFailed, end.flags);
        return true;
      }
      if !fileOpens {
        var _ := DownloadCallback(0, DOWNLOAD_FAIL, OpenFailed, end.flags);
        return true;
      }
      if !curlInits {
        var _ := DownloadCallback(0, DOWNLOAD_FAIL, InitFailed, end.flags);
        return true;
      }
      ghost var start := downloadProgress;
      var aborted := Perform(ticks);
      ghost var t := Run(start, ticks);
      if aborted {
        return false;
      }
      if end.ok {
        var _ := DownloadCallback(DOWNLOAD_FINISH_PERCENT, DOWNLOAD_SUCCESS, NoReason, end.flags);
      } else {
        var _ := DownloadCallback(0, DOWNLOAD_FAIL, CurlError, end.flags);
      }
      return false;
    }

    method Perform(ticks: seq<Tick>) returns (aborted: bool)
      requires AllCountable(ticks)
      modifies this
      ensures var r := Run(old(downloadProgress), ticks);
              && aborted == r.aborted && downloadProgress == r.progress && reports == old(reports) + r.reports
              && fileExists == (old(fileExists) && !r.removed)
    {
      aborted := false;
      ghost var start, before := downloadProgress, reports;
      for i := 0 to |ticks|
        invariant var r := Run(start, ticks[..i]);
                  && fileExists == (old(fileExists) && !r.removed)
                  && aborted == r.aborted && downloadProgress == r.progress && reports == before + r.reports
      {
        assert ticks[..i + 1][..i] == ticks[..i];
        if !aborted {
          var code := OnDownloadProgress(ticks[i]);
          aborted := code != 0;
        }
      }
      assert ticks[..|ticks|] == ticks;
    }
  }
}
