/** Implicit rollback, repeated: it walks down the eligible versions and stops. */
module Rollback {
  import opened Text
  import opened Tables
  import opened Desired

  /** What one rollback of one node depends on and keeps. */
  datatype Setting = Setting(rank: string -> Option<Rank>, node: LiveNode, skill: string,
                             versions: seq<VersionRecord>, connected: set<string>)

  function PlanOf(x: Setting, s: Sets): NodePlan {
    ClassifyRollback(x.rank, Node(x.node), s, x.skill, None, x.versions, x.connected)
  }

  function Next(x: Setting, s: Sets): Sets {
    ApplyPlan(s, x.skill, PlanOf(x, s))
  }

  /** `n` implicit rollbacks of the node, one after the other. */
  function After(x: Setting, s: Sets, n: nat): Sets {
    if n == 0 then s else Next(x, After(x, s, n - 1))
  }

  function VersionAt(x: Setting, s: Sets): Option<Rank> {
    match Lookup(s.desired, x.node.id, x.skill)
    case None => None
    case Some(snap) => x.rank(snap.version)
  }

  /** How many catalog versions are eligible below `current`. */
  function CountBelow(rank: string -> Option<Rank>, versions: seq<VersionRecord>, current: Rank): nat {
    if versions == [] then 0
    else CountBelow(rank, versions[..|versions| - 1], current)
         + (if Eligible(rank, versions[|versions| - 1], current) then 1 else 0)
  }

  lemma {:induction false} CountDrops(rank: string -> Option<Rank>, versions: seq<VersionRecord>, low: Rank, high: Rank)
    requires low <= high
    ensures CountBelow(rank, versions, low) <= CountBelow(rank, versions, high) <= |versions|
    ensures (exists v :: v in versions && Eligible(rank, v, high) && !Eligible(rank, v, low))
            ==> CountBelow(rank, versions, low) < CountBelow(rank, versions, high)
    ensures (exists v :: v in versions && !Eligible(rank, v, high)) ==> CountBelow(rank, versions, high) < |versions|
    decreases |versions|
  {
    if versions != [] {
      CountDrops(rank, versions[..|versions| - 1], low, high);
      assert versions == versions[..|versions| - 1] + [versions[|versions| - 1]];
    }
  }

  lemma CountZero(rank: string -> Option<Rank>, versions: seq<VersionRecord>, v: VersionRecord, current: Rank)
    requires v in versions && Eligible(rank, v, current)
    ensures CountBelow(rank, versions, current) > 0
    decreases |versions|
  {
    if v != versions[|versions| - 1] {
      CountZero(rank, versions[..|versions| - 1], v, current);
    }
  }

  /** The one write a rollback may do: to an eligible version with no eligible version in between. */
  ghost predicate StepsDown(x: Setting, from: Rank, to: Rank) {
    && to < from
    && (exists v :: v in x.versions && Eligible(x.rank, v, from) && x.rank(v.version) == Some(to))
    && (forall v :: v in x.versions && Eligible(x.rank, v, from) ==> x.rank(v.version).value <= to)
  }

  predicate Held(o: Outcome) {
    o == NodeTooOld || o == PlatformUnsupported
  }

  /** One implicit rollback steps down by one version, is held back, or has nowhere to go. */
  lemma OneRollback(x: Setting, s: Sets)
    requires VersionAt(x, s).Some?
    ensures var from, plan, t := VersionAt(x, s).value, PlanOf(x, s), Next(x, s);
      && (Wrote(plan.outcome) || Held(plan.outcome) || plan.outcome == NoPreviousVersion)
      && (plan.outcome == NoPreviousVersion <==> CountBelow(x.rank, x.versions, from) == 0)
      && (Wrote(plan.outcome) ==>
            && VersionAt(x, t).Some? && StepsDown(x, from, VersionAt(x, t).value)
            && CountBelow(x.rank, x.versions, VersionAt(x, t).value) < CountBelow(x.rank, x.versions, from))
      && (!Wrote(plan.outcome) ==> t == s)
  {
    var from := VersionAt(x, s).value;
    var keep := v => Eligible(x.rank, v, from);
    HighestIsGreatest(x.rank, x.versions, keep);
    var best := Highest(x.rank, x.versions, keep);
    assert PreviousVersion(x.rank, x.versions, from) == best;
    if best.None? {
      NoneBelow(x.rank, x.versions, from);
    } else {
      assert keep(best.value);
      CountZero(x.rank, x.versions, best.value, from);
      var to := x.rank(best.value.version).value;
      forall v | v in x.versions && Eligible(x.rank, v, from) ensures x.rank(v.version).value <= to {
        assert keep(v);
      }
      assert StepsDown(x, from, to);
      CountDrops(x.rank, x.versions, to, from);
    }
  }

  lemma NoneBelow(rank: string -> Option<Rank>, versions: seq<VersionRecord>, current: Rank)
    requires forall v :: v in versions ==> !Eligible(rank, v, current)
    ensures CountBelow(rank, versions, current) == 0
    decreases |versions|
  {
    if versions != [] {
      NoneBelow(rank, versions[..|versions| - 1], current);
    }
  }

  /** The first `n` rollbacks all wrote. */
  ghost predicate AllWrote(x: Setting, s: Sets, n: nat) {
    forall k :: 0 <= k < n ==> Wrote(PlanOf(x, After(x, s, k)).outcome)
  }

  function RankAfter(x: Setting, s: Sets, n: nat): Option<Rank> {
    VersionAt(x, After(x, s, n))
  }

  function LeftAfter(x: Setting, s: Sets, n: nat): nat {
    match RankAfter(x, s, n)
    case None => 0
    case Some(r) => CountBelow(x.rank, x.versions, r)
  }

  lemma StepFrom(x: Setting, s: Sets, n: nat)
    requires RankAfter(x, s, n).Some? && Wrote(PlanOf(x, After(x, s, n)).outcome)
    ensures RankAfter(x, s, n + 1).Some? && StepsDown(x, RankAfter(x, s, n).value, RankAfter(x, s, n + 1).value)
    ensures LeftAfter(x, s, n + 1) < LeftAfter(x, s, n)
  {
    OneRollback(x, After(x, s, n));
  }

  lemma {:induction false} WroteSoFar(x: Setting, s: Sets, n: nat)
    requires RankAfter(x, s, 0).Some? && AllWrote(x, s, n)
    ensures RankAfter(x, s, n).Some?
    ensures LeftAfter(x, s, n) + n <= LeftAfter(x, s, 0)
    ensures n > 0 ==> RankAfter(x, s, n - 1).Some? && StepsDown(x, RankAfter(x, s, n - 1).value, RankAfter(x, s, n).value)
  {
    if n > 0 {
      WroteSoFar(x, s, n - 1);
      StepFrom(x, s, n - 1);
    }
  }

  /** The versions the node wants before, between and after `|ranks| - 1` rollbacks. */
  ghost predicate Traces(x: Setting, s: Sets, ranks: seq<Rank>) {
    forall k :: 0 <= k < |ranks| ==> RankAfter(x, s, k) == Some(ranks[k])
  }

  ghost predicate Stairs(x: Setting, ranks: seq<Rank>) {
    forall k :: 0 < k < |ranks| ==> StepsDown(x, ranks[k - 1], ranks[k])
  }

  lemma {:induction false} Descent(x: Setting, s: Sets, n: nat) returns (ranks: seq<Rank>)
    requires RankAfter(x, s, 0).Some? && AllWrote(x, s, n)
    ensures |ranks| == n + 1 && Traces(x, s, ranks) && Stairs(x, ranks)
  {
    WroteSoFar(x, s, n);
    var last := RankAfter(x, s, n).value;
    if n == 0 {
      ranks := [last];
    } else {
      var front := Descent(x, s, n - 1);
      assert RankAfter(x, s, n - 1) == Some(front[n - 1]);
      TraceExtends(x, s, front, last);
      ranks := front + [last];
      StairsExtend(x, front, last);
    }
  }

  lemma TraceExtends(x: Setting, s: Sets, front: seq<Rank>, last: Rank)
    requires Traces(x, s, front) && RankAfter(x, s, |front|) == Some(last)
    ensures Traces(x, s, front + [last])
  {
    forall k | 0 <= k < |front| ensures RankAfter(x, s, k) == Some(front[k]) {
    }
  }

  lemma StairsExtend(x: Setting, front: seq<Rank>, last: Rank)
    requires front != [] && Stairs(x, front) && StepsDown(x, front[|front| - 1], last)
    ensures Stairs(x, front + [last])
  {
  }

  /** Going down, the versions fall strictly. */
  lemma {:induction false} StairsFall(x: Setting, ranks: seq<Rank>, i: nat, j: nat)
    requires Stairs(x, ranks) && i < j < |ranks|
    ensures ranks[j] < ranks[i]
    decreases j
  {
    assert StepsDown(x, ranks[j - 1], ranks[j]);
    if i < j - 1 {
      StairsFall(x, ranks, i, j - 1);
    }
  }

  /** No eligible version below the start is skipped: it has been visited or is still below. */
  lemma {:induction false} NoneSkipped(x: Setting, ranks: seq<Rank>, v: VersionRecord)
    requires ranks != [] && Stairs(x, ranks) && v in x.versions && Eligible(x.rank, v, ranks[0])
    ensures x.rank(v.version).value in ranks[1..] || Eligible(x.rank, v, ranks[|ranks| - 1])
    decreases |ranks|
  {
    var n := |ranks| - 1;
    if n > 0 {
      var front := ranks[..n];
      NoneSkipped(x, front, v);
      assert ranks[1..] == front[1..] + [ranks[n]];
      assert StepsDown(x, ranks[n - 1], ranks[n]);
    }
  }

  ghost predicate StopsAfter(x: Setting, s: Sets, n: nat) {
    var o := PlanOf(x, After(x, s, n)).outcome;
    AllWrote(x, s, n) && (o == NoPreviousVersion || Held(o))
  }

  /** Rolling back from a catalog version stops within as many rollbacks as there are versions. */
  lemma RollbackEnds(x: Setting, s: Sets)
    requires VersionAt(x, s).Some?
    requires exists v :: v in x.versions && x.rank(v.version) == VersionAt(x, s)
    ensures exists n :: 0 <= n < |x.versions| && StopsAfter(x, s, n)
  {
    CountDrops(x.rank, x.versions, VersionAt(x, s).value, VersionAt(x, s).value);
    assert After(x, s, 0) == s;
    var n := EndsFrom(x, s, 0);
  }

  lemma {:induction false} EndsFrom(x: Setting, s: Sets, k: nat) returns (n: nat)
    requires RankAfter(x, s, 0).Some? && AllWrote(x, s, k)
    ensures n <= LeftAfter(x, s, 0) && StopsAfter(x, s, n)
    decreases LeftAfter(x, s, 0) - k
  {
    WroteSoFar(x, s, k);
    var o := PlanOf(x, After(x, s, k)).outcome;
    OutcomeOfRollback(x, After(x, s, k));
    if Wrote(o) {
      assert AllWrote(x, s, k + 1);
      WroteSoFar(x, s, k + 1);
      n := EndsFrom(x, s, k + 1);
    } else {
      n := k;
    }
  }

  lemma OutcomeOfRollback(x: Setting, s: Sets)
    requires VersionAt(x, s).Some?
    ensures var o := PlanOf(x, s).outcome; Wrote(o) || Held(o) || o == NoPreviousVersion
  {
    OneRollback(x, s);
  }

  /** When no previous version is left, every eligible version below the start has been visited. */
  lemma DescentIsComplete(x: Setting, s: Sets, n: nat, v: VersionRecord) returns (ranks: seq<Rank>)
    requires RankAfter(x, s, 0).Some? && AllWrote(x, s, n)
    requires PlanOf(x, After(x, s, n)).outcome == NoPreviousVersion
    requires v in x.versions && Eligible(x.rank, v, RankAfter(x, s, 0).value)
    ensures |ranks| == n + 1 && Traces(x, s, ranks) && Stairs(x, ranks)
    ensures x.rank(v.version).value in ranks[1..]
  {
    ranks := Descent(x, s, n);
    assert RankAfter(x, s, 0) == Some(ranks[0]) && RankAfter(x, s, n) == Some(ranks[n]);
    NoneSkipped(x, ranks, v);
    NothingBelow(x, After(x, s, n), v);
  }

  lemma NothingBelow(x: Setting, s: Sets, v: VersionRecord)
    requires VersionAt(x, s).Some? && PlanOf(x, s).outcome == NoPreviousVersion && v in x.versions
    ensures !Eligible(x.rank, v, VersionAt(x, s).value)
  {
    OneRollback(x, s);
    if Eligible(x.rank, v, VersionAt(x, s).value) {
      CountZero(x.rank, x.versions, v, VersionAt(x, s).value);
    }
  }
}
