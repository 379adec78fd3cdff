/** Results that nodes report, and the one audit event per run for denied capabilities. */
module Results {
  import opened Text

  /** `denial` is the target and text of the event if the payload lists denials. */
  datatype Result = Result(node: string, run: string, spec: string, status: string, payload: string,
                           denial: Option<Denial>)

  datatype Denial = Denial(target: string, detail: string)

  datatype DenialEvent = DenialEvent(node: string, run: string, denial: Denial)

  datatype Stored = Stored(results: seq<Result>, events: seq<DenialEvent>)

  predicate Recorded(events: seq<DenialEvent>, node: string, run: string) {
    exists i :: 0 <= i < |events| && events[i].node == node && events[i].run == run
  }

  function AfterReport(s: Stored, r: Result): Stored {
    Stored(s.results + [r],
           if r.denial.Some? && !Recorded(s.events, r.node, r.run)
           then s.events + [DenialEvent(r.node, r.run, r.denial.value)] else s.events)
  }

  class ResultStore {
    var results: seq<Result>
    var events: seq<DenialEvent>

    ghost function View(): Stored
      reads this
    {
      Stored(results, events)
    }

    constructor ()
      ensures View() == Stored([], [])
    {
      results, events := [], [];
    }

    /** Every report adds a result row, also for a run that has one. */
    method StoreReported(r: Result)
      modifies this
      ensures View() == AfterReport(old(View()), r)
    {
      results := results + [r];
      if r.denial.None? {
        return;
      }
      if !Recorded(events, r.node, r.run) {
        events := events + [DenialEvent(r.node, r.run, r.denial.value)];
      }
    }
  }

  function AfterAll(reports: seq<Result>): Stored {
    if reports == [] then Stored([], []) else AfterReport(AfterAll(reports[..|reports| - 1]), reports[|reports| - 1])
  }

  predicate FirstDenial(reports: seq<Result>, k: nat, e: DenialEvent) {
    && k < |reports| && reports[k].denial == Some(e.denial) && reports[k].node == e.node && reports[k].run == e.run
    && (forall j :: 0 <= j < k && reports[j].node == e.node && reports[j].run == e.run ==> reports[j].denial.None?)
  }

  /** A run of a node has an event exactly when some report of it lists denials; then it has one, and
      that is of the first such report. */
  lemma {:induction false} OneDenialEventPerRun(reports: seq<Result>)
    ensures var s := AfterAll(reports);
      && s.results == reports
      && (forall i, j :: 0 <= i < j < |s.events| ==> s.events[i].node != s.events[j].node || s.events[i].run != s.events[j].run)
      && (forall e :: e in s.events ==> exists k :: FirstDenial(reports, k, e))
      && (forall r :: r in reports && r.denial.Some? ==> Recorded(s.events, r.node, r.run))
    decreases |reports|
  {
    if reports != [] {
      var front, last := reports[..|reports| - 1], reports[|reports| - 1];
      OneDenialEventPerRun(front);
      var s, t := AfterAll(front), AfterAll(reports);
      assert reports == front + [last];
      forall e | e in s.events ensures exists k :: FirstDenial(reports, k, e) {
        var k :| FirstDenial(front, k, e);
        assert FirstDenial(reports, k, e);
      }
      if t.events != s.events {
        NotReportedBefore(front, last, s);
        assert FirstDenial(reports, |front|, t.events[|s.events|]);
      }
      RecordedStays(s, last);
    }
  }

  lemma NotReportedBefore(front: seq<Result>, last: Result, s: Stored)
    requires forall r :: r in front && r.denial.Some? ==> Recorded(s.events, r.node, r.run)
    requires !Recorded(s.events, last.node, last.run)
    ensures forall j :: 0 <= j < |front| && front[j].node == last.node && front[j].run == last.run ==> front[j].denial.None?
  {
    forall j | 0 <= j < |front| && front[j].node == last.node && front[j].run == last.run ensures front[j].denial.None? {
      assert front[j] in front;
    }
  }

  lemma RecordedStays(s: Stored, r: Result)
    ensures forall node, run :: Recorded(s.events, node, run) ==> Recorded(AfterReport(s, r).events, node, run)
    ensures r.denial.Some? ==> Recorded(AfterReport(s, r).events, r.node, r.run)
  {
    var t := AfterReport(s, r);
    forall node, run | Recorded(s.events, node, run) ensures Recorded(t.events, node, run) {
      var i :| 0 <= i < |s.events| && s.events[i].node == node && s.events[i].run == run;
      assert t.events[i].node == node && t.events[i].run == run;
    }
    if t.events != s.events {
      assert t.events[|s.events|].node == r.node;
    }
  }
}
