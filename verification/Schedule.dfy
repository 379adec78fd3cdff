/** The due decision, its per-minute latch, and what they give over a run of ticks. */
module Schedule {
  import opened Text
  import opened Calendar
  import opened Cron

  datatype Schedule = Schedule(specId: string, intervalSecs: Option<nat>, cron: Option<string>, enabled: bool)

  function Max(a: nat, b: nat): nat {
    if a >= b then a else b
  }

  /** The interval has passed since `last`; a clock behind `last` has not passed anything. */
  ghost predicate IntervalDue(s: Schedule, last: nat, now: nat) {
    s.intervalSecs.Some? && last + Max(s.intervalSecs.value, 1) <= now
  }

  /** A matching minute that is later than the minute of `last`; 0 stands for never run. */
  ghost predicate CronDue(s: Schedule, last: nat, now: nat) {
    s.cron.Some? && CronMatches(s.cron.value, now) && (last / 60 < now / 60 || last == 0)
  }

  ghost predicate Due(s: Schedule, last: nat, now: nat) {
    IntervalDue(s, last, now) || CronDue(s, last, now)
  }

  function LastRun(lastRun: map<string, nat>, specId: string): nat {
    if specId in lastRun then lastRun[specId] else 0
  }

  lemma BlankHasNoFields(expr: string)
    requires Trim(expr, IsSpace) == ""
    ensures SplitSpaces(expr) == []
  {
    TrimmedAway(expr);
    AllSpace(expr);
  }

  lemma {:induction false} TrimmedAway(expr: string)
    requires Trim(expr, IsSpace) == ""
    ensures forall c :: c in expr ==> IsSpace(c)
    decreases |expr|
  {
    if expr != "" {
      if IsSpace(expr[0]) {
        TrimmedAway(expr[1..]);
      } else {
        KeepsFirst(expr);
      }
    }
  }

  lemma {:induction false} KeepsFirst(s: string)
    requires s != "" && !IsSpace(s[0])
    ensures TrimRight(s, IsSpace) != ""
    decreases |s|
  {
    if IsSpace(s[|s| - 1]) {
      KeepsFirst(s[..|s| - 1]);
    }
  }

  lemma {:induction false} AllSpace(expr: string)
    requires forall c :: c in expr ==> IsSpace(c)
    ensures SplitSpaces(expr) == []
  {
    if expr != "" {
      assert expr[0] in expr;
      AllSpace(expr[1..]);
    }
  }

  method ScheduleDue(s: Schedule, lastRun: map<string, nat>, nowSecs: nat) returns (due: bool)
    ensures due <==> Due(s, LastRun(lastRun, s.specId), nowSecs)
  {
    var last := LastRun(lastRun, s.specId);
    due := false;
    if s.intervalSecs.Some? {
      var interval := Max(s.intervalSecs.value, 1);
      var elapsed: nat := if nowSecs >= last then nowSecs - last else 0;
      if elapsed >= interval {
        due := true;
      }
    }
    if s.cron.Some? {
      var hit := CronMatch(s.cron.value, nowSecs);
      if hit {
        var minuteBucket, lastBucket := nowSecs / 60, last / 60;
        if minuteBucket > lastBucket || last == 0 {
          due := true;
        }
      }
    }
    if s.intervalSecs.None? && (s.cron.None? || Trim(s.cron.value, IsSpace) == "") {
      if s.cron.Some? {
        BlankHasNoFields(s.cron.value);
      }
      return false;
    }
  }

  ghost predicate Ascending(picks: seq<nat>) {
    forall i, j :: 0 <= i < j < |picks| ==> picks[i] < picks[j]
  }

  /** `picks` are the positions of the schedules that are enabled and due. */
  ghost predicate PicksDue(schedules: seq<Schedule>, lastRun: map<string, nat>, now: nat, picks: seq<nat>) {
    && Ascending(picks)
    && (forall i: nat :: i in picks <==> i < |schedules| && schedules[i].enabled && Due(schedules[i], LastRun(lastRun, schedules[i].specId), now))
  }

  lemma PickOne(schedules: seq<Schedule>, lastRun: map<string, nat>, now: nat, picks: seq<nat>, i: nat)
    requires i < |schedules| && PicksDue(schedules[..i], lastRun, now, picks)
    ensures var due := schedules[i].enabled && Due(schedules[i], LastRun(lastRun, schedules[i].specId), now);
      PicksDue(schedules[..i + 1], lastRun, now, if due then picks + [i] else picks)
  {
    forall k | 0 <= k < |picks| ensures picks[k] < i {
      assert picks[k] in picks;
    }
    forall k: nat ensures k in picks <==> k < i && schedules[k].enabled && Due(schedules[k], LastRun(lastRun, schedules[k].specId), now) {
      assert k < i ==> schedules[..i][k] == schedules[k];
    }
  }

  /** The spec ids of exactly the schedules that are enabled and due, in their order. */
  method DueSpecs(schedules: seq<Schedule>, lastRun: map<string, nat>, nowSecs: nat) returns (out: seq<string>, ghost picks: seq<nat>)
    ensures PicksDue(schedules, lastRun, nowSecs, picks)
    ensures |out| == |picks| && forall k :: 0 <= k < |picks| ==> picks[k] < |schedules| && out[k] == schedules[picks[k]].specId
  {
    out, picks := [], [];
    for i := 0 to |schedules|
      invariant PicksDue(schedules[..i], lastRun, nowSecs, picks)
      invariant |out| == |picks|
      invariant forall k :: 0 <= k < |picks| ==> picks[k] < i && out[k] == schedules[picks[k]].specId
    {
      PickOne(schedules, lastRun, nowSecs, picks, i);
      var s := schedules[i];
      if !s.enabled {
        continue;
      }
      var due := ScheduleDue(s, lastRun, nowSecs);
      if due {
        out, picks := out + [s.specId], picks + [i];
      }
    }
    assert schedules[..|schedules|] == schedules;
  }

  // ---------------------------------------------------------------- runs of ticks

  /** `last_run` of the spec before tick `n`, when `s` is the only schedule on it. */
  ghost function LastBefore(s: Schedule, ticks: seq<nat>, n: nat): nat
    requires n <= |ticks|
    decreases n, 0
  {
    if n == 0 then 0
    else if Fires(s, ticks, n - 1) then ticks[n - 1]
    else LastBefore(s, ticks, n - 1)
  }

  ghost predicate Fires(s: Schedule, ticks: seq<nat>, n: nat)
    requires n < |ticks|
    decreases n, 1
  {
    s.enabled && Due(s, LastBefore(s, ticks, n), ticks[n])
  }

  ghost predicate Nondecreasing(ticks: seq<nat>) {
    forall i, j :: 0 <= i <= j < |ticks| ==> ticks[i] <= ticks[j]
  }

  /** `LastBefore` is the time of the latest earlier firing, or 0 when there is none. */
  lemma {:induction false} LastBeforeIsLatestFiring(s: Schedule, ticks: seq<nat>, n: nat) returns (k: int)
    requires n <= |ticks|
    ensures -1 <= k < n
    ensures k == -1 ==> LastBefore(s, ticks, n) == 0
    ensures k >= 0 ==> Fires(s, ticks, k) && LastBefore(s, ticks, n) == ticks[k]
    ensures forall j :: k < j < n ==> !Fires(s, ticks, j)
  {
    if n == 0 {
      k := -1;
    } else {
      LastBeforeStep(s, ticks, n);
      if Fires(s, ticks, n - 1) {
        k := n - 1;
      } else {
        k := LastBeforeIsLatestFiring(s, ticks, n - 1);
      }
    }
  }

  lemma LastBeforeStep(s: Schedule, ticks: seq<nat>, n: nat)
    requires 0 < n <= |ticks|
    ensures LastBefore(s, ticks, n) == if Fires(s, ticks, n - 1) then ticks[n - 1] else LastBefore(s, ticks, n - 1)
  {
  }

  ghost predicate CronOnly(s: Schedule) {
    s.enabled && s.intervalSecs.None? && s.cron.Some?
  }

  /** At most one firing in each UTC minute. */
  ghost predicate OncePerMinute(s: Schedule, ticks: seq<nat>) {
    forall i, j :: 0 <= i < j < |ticks| && Fires(s, ticks, i) && Fires(s, ticks, j) ==> ticks[i] / 60 != ticks[j] / 60
  }

  /** A tick at second 0 leaves `last_run` at 0, which reads as never run. */
  ghost predicate EpochRepeat(s: Schedule, ticks: seq<nat>) {
    |ticks| >= 2 && ticks[0] == 0 && ticks[1] < 60 && s.cron.Some? && CronMatches(s.cron.value, 0)
  }

  /** The latch holds for every tick sequence but one that repeats the epoch minute after second 0. */
  lemma CronOncePerMinute(s: Schedule, ticks: seq<nat>)
    requires CronOnly(s) && Nondecreasing(ticks)
    ensures OncePerMinute(s, ticks) <==> !EpochRepeat(s, ticks)
  {
    if EpochRepeat(s, ticks) {
      CronMatchesByMinute(s.cron.value, 0, ticks[1]);
      assert LastBefore(s, ticks, 0) == 0;
      assert Fires(s, ticks, 0);
      assert LastBefore(s, ticks, 1) == 0;
      assert Fires(s, ticks, 1);
    } else {
      forall i, j | 0 <= i < j < |ticks| && Fires(s, ticks, i) && Fires(s, ticks, j)
        ensures ticks[i] / 60 != ticks[j] / 60
      {
        LaterFiringLaterMinute(s, ticks, i, j);
      }
    }
  }

  /** `* * * * *`, ticked at seconds 0 and 30 of the epoch, fires twice in that minute. */
  lemma EpochMinuteFiresTwice(specId: string)
    ensures var s, ticks := Schedule(specId, None, Some("* * * * *"), true), [0, 30];
      CronOnly(s) && Nondecreasing(ticks) && EpochRepeat(s, ticks)
      && Fires(s, ticks, 0) && Fires(s, ticks, 1) && ticks[0] / 60 == ticks[1] / 60
  {
    var s, ticks := Schedule(specId, None, Some("* * * * *"), true), [0, 30];
    EveryMinuteMatches(0);
    EveryMinuteMatches(30);
    FiresAtBoth(s, ticks);
  }

  lemma FiresAtBoth(s: Schedule, ticks: seq<nat>)
    requires CronOnly(s) && ticks == [0, 30]
    requires CronMatches(s.cron.value, 0) && CronMatches(s.cron.value, 30)
    ensures Fires(s, ticks, 0) && Fires(s, ticks, 1)
  {
    assert LastBefore(s, ticks, 0) == 0;
    assert Fires(s, ticks, 0);
    assert LastBefore(s, ticks, 1) == 0;
  }

  lemma EveryMinuteMatches(unixSecs: nat)
    ensures CronMatches("* * * * *", unixSecs)
  {
    StarFields();
    var date, second := UtcPartsExact(unixSecs);
    var p := UtcParts(unixSecs);
    WeekdayInWeek(unixSecs / 86_400);
    assert p.day >= 0 && p.month >= 0 && p.weekday >= 0;
  }

  lemma WeekdayInWeek(days: nat)
    ensures 0 <= Weekday(days) < 7
  {
  }

  lemma StarFields()
    ensures SplitSpaces("* * * * *") == ["*", "*", "*", "*", "*"]
  {
    OneStar();
    StarThen("* *", "*");
    StarThen("* * *", "* *");
    StarThen("* * * *", "* * *");
    StarThen("* * * * *", "* * * *");
  }

  lemma OneStar()
    ensures SplitSpaces("*") == ["*"]
  {
    assert "*"[1..] == "";
  }

  lemma StarThen(s: string, rest: string)
    requires s == "* " + rest
    ensures SplitSpaces(s) == ["*"] + SplitSpaces(rest)
  {
    assert s[1..] == " " + rest && s[1..][1..] == rest;
  }

  lemma LaterFiringLaterMinute(s: Schedule, ticks: seq<nat>, i: nat, j: nat)
    requires CronOnly(s) && Nondecreasing(ticks)
    requires i < j < |ticks| && Fires(s, ticks, i) && Fires(s, ticks, j)
    ensures ticks[i] / 60 < ticks[j] / 60 || EpochRepeat(s, ticks)
  {
    var k := LastBeforeIsLatestFiring(s, ticks, j);
    assert i <= k;
    assert ticks[i] <= ticks[k] <= ticks[j] && ticks[0] <= ticks[k] && ticks[1] <= ticks[j];
    if ticks[k] == 0 && ticks[j] / 60 == 0 {
      CronMatchesByMinute(s.cron.value, 0, ticks[j]);
    }
  }

  lemma SameMinuteSameFiring(s: Schedule, ticks: seq<nat>, i: nat, j: nat)
    requires CronOnly(s) && Nondecreasing(ticks) && !EpochRepeat(s, ticks)
    requires i < |ticks| && j < |ticks| && Fires(s, ticks, i) && Fires(s, ticks, j)
    requires ticks[i] / 60 == ticks[j] / 60
    ensures i == j
  {
    if i < j {
      LaterFiringLaterMinute(s, ticks, i, j);
    } else if j < i {
      LaterFiringLaterMinute(s, ticks, j, i);
    }
  }

  /** Every matching minute that has a tick has a firing, so with the latch it has exactly one. */
  lemma CronFiresInEveryMatchingMinute(s: Schedule, ticks: seq<nat>, n: nat) returns (i: nat)
    requires CronOnly(s) && Nondecreasing(ticks) && n < |ticks| && CronMatches(s.cron.value, ticks[n])
    ensures i <= n && Fires(s, ticks, i) && ticks[i] / 60 == ticks[n] / 60
    ensures !EpochRepeat(s, ticks) ==>
      forall j :: 0 <= j < |ticks| && Fires(s, ticks, j) && ticks[j] / 60 == ticks[n] / 60 ==> j == i
  {
    if Fires(s, ticks, n) {
      i := n;
    } else {
      var k := LastBeforeIsLatestFiring(s, ticks, n);
      assert k >= 0;
      i := k;
      assert ticks[k] <= ticks[n];
      assert LastBefore(s, ticks, n) / 60 >= ticks[n] / 60;
    }
    if !EpochRepeat(s, ticks) {
      forall j | 0 <= j < |ticks| && Fires(s, ticks, j) && ticks[j] / 60 == ticks[n] / 60 ensures j == i {
        SameMinuteSameFiring(s, ticks, i, j);
      }
    }
  }

  /** Nothing fires in a minute the expression does not match. */
  lemma CronFiresOnlyWhenMatching(s: Schedule, ticks: seq<nat>, n: nat)
    requires CronOnly(s) && n < |ticks| && Fires(s, ticks, n)
    ensures CronMatches(s.cron.value, 60 * (ticks[n] / 60))
  {
    CronMatchesByMinute(s.cron.value, ticks[n], 60 * (ticks[n] / 60));
  }

  ghost function Firings(s: Schedule, ticks: seq<nat>, i: nat, j: nat): nat
    requires i <= j <= |ticks|
    decreases j - i
  {
    if i == j then 0 else Firings(s, ticks, i, j - 1) + (if Fires(s, ticks, j - 1) then 1 else 0)
  }

  /** Firings of an interval schedule are spaced by the interval, in whatever order ticks come. */
  lemma {:induction false} IntervalSpacing(s: Schedule, ticks: seq<nat>, i: nat, j: nat)
    requires s.enabled && s.intervalSecs.Some? && s.cron.None?
    requires i < j < |ticks| && Fires(s, ticks, i) && Fires(s, ticks, j)
    ensures ticks[j] >= ticks[i] + Firings(s, ticks, i, j) * Max(s.intervalSecs.value, 1)
    ensures Firings(s, ticks, i, j) >= 1
    decreases j
  {
    var k := LastBeforeIsLatestFiring(s, ticks, j);
    assert i <= k;
    NoFirings(s, ticks, i, k, j);
    if i < k {
      IntervalSpacing(s, ticks, i, k);
    } else {
      assert Firings(s, ticks, i, i) == 0;
    }
    assert (Firings(s, ticks, i, k) + 1) * Max(s.intervalSecs.value, 1)
        == Firings(s, ticks, i, k) * Max(s.intervalSecs.value, 1) + Max(s.intervalSecs.value, 1);
  }

  lemma {:induction false} NoFirings(s: Schedule, ticks: seq<nat>, i: nat, k: nat, j: nat)
    requires i <= k < j <= |ticks| && Fires(s, ticks, k)
    requires forall m :: k < m < j ==> !Fires(s, ticks, m)
    ensures Firings(s, ticks, i, j) == Firings(s, ticks, i, k) + 1
    decreases j
  {
    if k + 1 < j {
      NoFirings(s, ticks, i, k, j - 1);
    }
  }
}
