/** What install, rollback and uninstall do to a single node, targeted or not. */
module Effects {
  import opened Text
  import opened Tables
  import opened Desired
  import opened Changes
  import Rollback

  /** The node's row for the skill is the one its own plan leaves. */
  lemma SlotRow(s: Sets, skill: string, slots: seq<Slot>, plans: seq<NodePlan>, i: nat)
    requires SlotsUnique(slots) && |plans| == |slots| && i < |slots| && PlansFit(s, skill, plans)
    requires forall j :: 0 <= j < |slots| ==> plans[j].nodeId == slots[j].Id()
    ensures Lookup(ApplyPlans(s, skill, plans).desired, slots[i].Id(), skill)
            == Lookup(ApplyPlan(s, skill, plans[i]).desired, slots[i].Id(), skill)
  {
    ChangedIsSlot(slots, plans, i);
    ApplyPlansOnNode(s, skill, plans, slots[i].Id());
    assert plans[i] in plans;
  }

  /** Nothing about the node differs but the one row and the generation that counts it. */
  ghost predicate OnlyRow(s: Sets, t: Sets, node: string, skill: string) {
    && (forall other :: other != skill ==> Lookup(t.desired, node, other) == Lookup(s.desired, node, other))
    && Counted(s, t, node)
  }

  ghost predicate Untouched(s: Sets, t: Sets, node: string) {
    && (forall skill :: Lookup(t.desired, node, skill) == Lookup(s.desired, node, skill))
    && Current(t.generations, node) == Current(s.generations, node)
  }

  lemma AppliedOnlyRow(s: Sets, skill: string, plans: seq<NodePlan>, node: string)
    requires PlansFit(s, skill, plans)
    ensures OnlyRow(s, ApplyPlans(s, skill, plans), node, skill)
    ensures (forall i :: 0 <= i < |plans| ==> plans[i].nodeId != node) ==> Untouched(s, ApplyPlans(s, skill, plans), node)
  {
    ApplyPlansOnNode(s, skill, plans, node);
    AppliedIsCounted(s, skill, plans, node);
  }

  predicate Targets(slots: seq<Slot>, node: string) {
    exists i :: 0 <= i < |slots| && slots[i].Id() == node
  }

  // ---------------------------------------------------------------- install

  /** Told pending, queued or already installed, the node wants the version; told anything else it is left alone. */
  lemma InstallEffect(libs: Libs, st: Store, slots: seq<Slot>, plan: InstallPlan, connected: set<string>, id: string, i: nat)
    requires SlotsUnique(slots) && i < |slots|
    ensures var s, t, node := SetsOf(st), SetsOf(OneInstalled(libs, st, slots, plan, connected, id)), slots[i].Id();
      var outcome := ClassifyInstall(libs.rank, slots[i], s, plan, connected, true).outcome;
      && OnlyRow(s, t, node, plan.skill)
      && Lookup(t.desired, node, plan.skill)
           == (if Wrote(outcome) || outcome == AlreadyInstalled then Some(Snap(plan.version, plan.sha))
               else Lookup(s.desired, node, plan.skill))
      && (outcome == NodeUnknown <==> slots[i].Missing?)
      && (slots[i].Node? ==> Told(libs.rank, slots[i].node, Lookup(s.desired, node, plan.skill), plan.version, plan.sha,
                                  plan.minNode, plan.platforms, connected, outcome))
  {
    var s := SetsOf(st);
    if slots[i].Node? {
      InstallOutcome(libs.rank, slots[i].node, s, plan, connected, true);
    }
    var plans := InstallPlans(libs.rank, slots, s, plan, connected, true);
    OneInstalledSets(libs, st, slots, plan, connected, id);
    InstallPlansFit(libs.rank, slots, s, plan, connected);
    InstallPlanIds(libs.rank, slots, s, plan, connected, true);
    SlotRow(s, plan.skill, slots, plans, i);
    AppliedOnlyRow(s, plan.skill, plans, slots[i].Id());
    InstallRow(libs.rank, slots[i], s, plan, connected);
  }

  lemma InstallRow(rank: string -> Option<Rank>, slot: Slot, s: Sets, plan: InstallPlan, connected: set<string>)
    ensures var p := ClassifyInstall(rank, slot, s, plan, connected, true);
      && Lookup(ApplyPlan(s, plan.skill, p).desired, slot.Id(), plan.skill)
           == (if Wrote(p.outcome) || p.outcome == AlreadyInstalled then Some(Snap(plan.version, plan.sha))
               else Lookup(s.desired, slot.Id(), plan.skill))
      && (p.outcome == NodeUnknown <==> slot.Missing?)
  {
  }

  // ---------------------------------------------------------------- uninstall

  /** After an uninstall that is not refused no target wants the skill. */
  lemma UninstallEffect(libs: Libs, st: Store, slots: seq<Slot>, skill: string, force: bool, inUse: bool,
                        connected: set<string>, id: string, i: nat)
    requires SlotsUnique(slots) && i < |slots| && slots[i].Node?
    requires Uninstalled(libs, st, slots, skill, force, inUse, connected, id).1.Ok?
    ensures var s, t, node := SetsOf(st), SetsOf(Uninstalled(libs, st, slots, skill, force, inUse, connected, id).0), slots[i].Id();
      OnlyRow(s, t, node, skill) && Lookup(t.desired, node, skill) == None
  {
    var s := SetsOf(st);
    var plans := UninstallPlans(slots, s, skill, connected);
    UninstallPlansFit(slots, s, skill, connected);
    forall j | 0 <= j < |slots| ensures plans[j].nodeId == slots[j].Id() {
    }
    SlotRow(s, skill, slots, plans, i);
    AppliedOnlyRow(s, skill, plans, slots[i].Id());
  }

  // ---------------------------------------------------------------- rollback

  /** A rollback of many nodes does to each what a rollback of that node alone would. */
  lemma RollbackEffect(libs: Libs, st: Store, slots: seq<Slot>, skill: string, versions: seq<VersionRecord>,
                       connected: set<string>, id: string, i: nat)
    requires SlotsUnique(slots) && i < |slots| && slots[i].Node?
    requires RolledBack(libs, st, slots, skill, None, versions, connected, id).1.Ok?
    ensures var s, t, node := SetsOf(st), SetsOf(RolledBack(libs, st, slots, skill, None, versions, connected, id).0), slots[i].Id();
      var alone := Rollback.Next(Rollback.Setting(libs.rank, slots[i].node, skill, versions, connected), s);
      OnlyRow(s, t, node, skill) && Lookup(t.desired, node, skill) == Lookup(alone.desired, node, skill)
  {
    RolledBackRow(libs, st, slots, skill, None, versions, connected, id, i);
  }

  lemma RollbackPlanIds(rank: string -> Option<Rank>, slots: seq<Slot>, s: Sets, skill: string,
                        explicit: Option<VersionRecord>, versions: seq<VersionRecord>, connected: set<string>)
    ensures var plans := RollbackPlans(rank, slots, s, skill, explicit, versions, connected);
      |plans| == |slots| && forall j :: 0 <= j < |slots| ==> plans[j].nodeId == slots[j].Id()
  {
  }

  lemma RolledBackSets(libs: Libs, st: Store, slots: seq<Slot>, skill: string, explicit: Option<VersionRecord>,
                       versions: seq<VersionRecord>, connected: set<string>, id: string)
    ensures var r := RolledBack(libs, st, slots, skill, explicit, versions, connected, id);
      SetsOf(r.0) == if AllMissing(slots) || r.1.Err? then SetsOf(st)
                     else ApplyPlans(SetsOf(st), skill, RollbackPlans(libs.rank, slots, SetsOf(st), skill, explicit, versions, connected))
  {
  }

  lemma RolledBackRow(libs: Libs, st: Store, slots: seq<Slot>, skill: string, explicit: Option<VersionRecord>,
                      versions: seq<VersionRecord>, connected: set<string>, id: string, i: nat)
    requires SlotsUnique(slots) && i < |slots| && slots[i].Node?
    requires RolledBack(libs, st, slots, skill, explicit, versions, connected, id).1.Ok?
    ensures var s, t, node := SetsOf(st), SetsOf(RolledBack(libs, st, slots, skill, explicit, versions, connected, id).0), slots[i].Id();
      var plan := ClassifyRollback(libs.rank, slots[i], s, skill, explicit, versions, connected);
      OnlyRow(s, t, node, skill) && Lookup(t.desired, node, skill) == Lookup(ApplyPlan(s, skill, plan).desired, node, skill)
  {
    var s := SetsOf(st);
    var plans := RollbackPlans(libs.rank, slots, s, skill, explicit, versions, connected);
    RolledBackSets(libs, st, slots, skill, explicit, versions, connected, id);
    assert !AllMissing(slots);
    RollbackPlansFit(libs.rank, slots, s, skill, explicit, versions, connected);
    RollbackPlanIds(libs.rank, slots, s, skill, explicit, versions, connected);
    SlotRow(s, skill, slots, plans, i);
    AppliedOnlyRow(s, skill, plans, slots[i].Id());
  }

  /** With an explicit version every target that is not held wants exactly that one. */
  lemma ExplicitRollbackEffect(libs: Libs, st: Store, slots: seq<Slot>, skill: string, to: VersionRecord,
                               versions: seq<VersionRecord>, connected: set<string>, id: string, i: nat)
    requires SlotsUnique(slots) && i < |slots| && slots[i].Node?
    ensures var s, r := SetsOf(st), RolledBack(libs, st, slots, skill, Some(to), versions, connected, id);
      var outcome := ClassifyRollback(libs.rank, slots[i], s, skill, Some(to), versions, connected).outcome;
      && r.1.Ok? && OnlyRow(s, SetsOf(r.0), slots[i].Id(), skill)
      && Lookup(r.0.desired, slots[i].Id(), skill)
           == (if outcome == NodeTooOld || outcome == PlatformUnsupported then Lookup(s.desired, slots[i].Id(), skill)
               else Some(Snap(to.version, to.row.sha)))
      && Told(libs.rank, slots[i].node, Lookup(s.desired, slots[i].Id(), skill), to.version, to.row.sha, to.row.minNode,
              to.row.platforms, connected, outcome)
  {
    RollbackOutcome(libs.rank, slots[i].node, SetsOf(st), skill, Some(to), versions, connected, to);
    ExplicitAccepted(libs, st, slots, skill, to, versions, connected, id);
    RolledBackRow(libs, st, slots, skill, Some(to), versions, connected, id, i);
    ExplicitRow(libs.rank, slots[i], SetsOf(st), skill, to, versions, connected);
  }

  lemma ExplicitAccepted(libs: Libs, st: Store, slots: seq<Slot>, skill: string, to: VersionRecord,
                         versions: seq<VersionRecord>, connected: set<string>, id: string)
    ensures RolledBack(libs, st, slots, skill, Some(to), versions, connected, id).1.Ok?
  {
  }

  lemma ExplicitRow(rank: string -> Option<Rank>, slot: Slot, s: Sets, skill: string, to: VersionRecord,
                    versions: seq<VersionRecord>, connected: set<string>)
    requires slot.Node?
    ensures var p := ClassifyRollback(rank, slot, s, skill, Some(to), versions, connected);
      Lookup(ApplyPlan(s, skill, p).desired, slot.Id(), skill)
        == (if p.outcome == NodeTooOld || p.outcome == PlatformUnsupported then Lookup(s.desired, slot.Id(), skill)
            else Some(Snap(to.version, to.row.sha)))
  {
  }

  // ---------------------------------------------------------------- nodes that are not meant

  /** A node that is not among the targets keeps its desired set and generation. */
  lemma OthersUntouched(libs: Libs, st: Store, slots: seq<Slot>, plan: InstallPlan, skill: string, explicit: Option<VersionRecord>,
                        versions: seq<VersionRecord>, force: bool, inUse: bool, connected: set<string>, id: string, node: string)
    requires SlotsUnique(slots) && !Targets(slots, node)
    ensures Untouched(SetsOf(st), SetsOf(OneInstalled(libs, st, slots, plan, connected, id)), node)
    ensures Untouched(SetsOf(st), SetsOf(RolledBack(libs, st, slots, skill, explicit, versions, connected, id).0), node)
    ensures Untouched(SetsOf(st), SetsOf(Uninstalled(libs, st, slots, skill, force, inUse, connected, id).0), node)
  {
    var s := SetsOf(st);
    OneInstalledSets(libs, st, slots, plan, connected, id);
    InstallPlansFit(libs.rank, slots, s, plan, connected);
    InstallPlanIds(libs.rank, slots, s, plan, connected, true);
    AppliedOnlyRow(s, plan.skill, InstallPlans(libs.rank, slots, s, plan, connected, true), node);
    RollbackOthers(libs, st, slots, skill, explicit, versions, connected, id, node);
    UninstallOthers(libs, st, slots, skill, force, inUse, connected, id, node);
  }

  lemma RollbackOthers(libs: Libs, st: Store, slots: seq<Slot>, skill: string, explicit: Option<VersionRecord>,
                       versions: seq<VersionRecord>, connected: set<string>, id: string, node: string)
    requires SlotsUnique(slots) && !Targets(slots, node)
    ensures Untouched(SetsOf(st), SetsOf(RolledBack(libs, st, slots, skill, explicit, versions, connected, id).0), node)
  {
    var plans := RollbackPlans(libs.rank, slots, SetsOf(st), skill, explicit, versions, connected);
    RolledBackSets(libs, st, slots, skill, explicit, versions, connected, id);
    RollbackPlansFit(libs.rank, slots, SetsOf(st), skill, explicit, versions, connected);
    RollbackPlanIds(libs.rank, slots, SetsOf(st), skill, explicit, versions, connected);
    AppliedOnlyRow(SetsOf(st), skill, plans, node);
  }

  lemma UninstallOthers(libs: Libs, st: Store, slots: seq<Slot>, skill: string, force: bool, inUse: bool,
                        connected: set<string>, id: string, node: string)
    requires SlotsUnique(slots) && !Targets(slots, node)
    ensures Untouched(SetsOf(st), SetsOf(Uninstalled(libs, st, slots, skill, force, inUse, connected, id).0), node)
  {
    var plans := UninstallPlans(slots, SetsOf(st), skill, connected);
    UninstallPlansFit(slots, SetsOf(st), skill, connected);
    forall j | 0 <= j < |slots| ensures plans[j].nodeId == slots[j].Id() != node {
    }
    AppliedOnlyRow(SetsOf(st), skill, plans, node);
  }

  // ---------------------------------------------------------------- refusals and events

  /** An implicit rollback is refused exactly when some target is known and no known target has anywhere
      to go; a refused one changes nothing. */
  lemma RollbackRefusedIff(libs: Libs, st: Store, slots: seq<Slot>, skill: string, versions: seq<VersionRecord>,
                           connected: set<string>, id: string)
    ensures var r := RolledBack(libs, st, slots, skill, None, versions, connected, id);
      && (r.1.Err? <==> !AllMissing(slots) && forall i :: 0 <= i < |slots| ==> SlotIsStuck(libs.rank, st, slots[i], skill, versions))
      && (r.1.Err? ==> r == (st, Err(NothingToRollBack)))
  {
    var plans := RollbackPlans(libs.rank, slots, SetsOf(st), skill, None, versions, connected);
    forall i | 0 <= i < |slots|
      ensures plans[i].outcome == NoPreviousVersion || plans[i].outcome == NodeUnknown
        <==> SlotIsStuck(libs.rank, st, slots[i], skill, versions) {
      if slots[i].Node? {
        RollbackTargetIs(libs.rank, Lookup(st.desired, slots[i].node.id, skill), versions);
      }
    }
  }

  ghost predicate SlotIsStuck(rank: string -> Option<Rank>, st: Store, slot: Slot, skill: string, versions: seq<VersionRecord>) {
    slot.Missing? || NowhereToGo(rank, Lookup(st.desired, slot.node.id, skill), versions)
  }

  ghost predicate NowhereToGo(rank: string -> Option<Rank>, have: Option<Snap>, versions: seq<VersionRecord>) {
    have.None? || forall v :: v in versions ==> !Below(rank, v, have.value.version)
  }

  /** Every write of the plans goes to `v`, and there is one. */
  ghost predicate AllGoTo(plans: seq<NodePlan>, v: string) {
    && (exists i :: 0 <= i < |plans| && GoesTo(plans[i], v))
    && (forall i :: 0 <= i < |plans| && plans[i].action.Some? && plans[i].action.value.Upsert? ==> GoesTo(plans[i], v))
  }

  predicate GoesTo(plan: NodePlan, v: string) {
    plan.action.Some? && plan.action.value.Upsert? && plan.action.value.version == v
  }

  lemma {:induction false} UpsertsAre(plans: seq<NodePlan>)
    ensures forall v :: v in UpsertVersions(plans) <==> exists i :: 0 <= i < |plans| && GoesTo(plans[i], v)
    decreases |plans|
  {
    if plans != [] {
      var front, last := plans[..|plans| - 1], plans[|plans| - 1];
      UpsertsAre(front);
      forall v ensures v in UpsertVersions(plans) <==> exists i :: 0 <= i < |plans| && GoesTo(plans[i], v) {
        if i :| 0 <= i < |front| && GoesTo(front[i], v) {
          assert GoesTo(plans[i], v);
        }
        if i :| 0 <= i < |plans| && GoesTo(plans[i], v) {
          assert i < |front| ==> GoesTo(front[i], v);
        }
      }
    }
  }

  /** The version of an implicit rollback operation is the one all its writes share. */
  lemma RollbackVersionIs(plans: seq<NodePlan>, v: string)
    ensures RollbackVersion(None, plans) == Some(v) <==> AllGoTo(plans, v)
  {
    UpsertsAre(plans);
    var found := UpsertVersions(plans);
    if RollbackVersion(None, plans) == Some(v) {
      assert found[0] in found;
      forall i | 0 <= i < |plans| && plans[i].action.Some? && plans[i].action.value.Upsert? ensures GoesTo(plans[i], v) {
        assert GoesTo(plans[i], plans[i].action.value.version);
        assert plans[i].action.value.version in found;
        var k :| 0 <= k < |found| && found[k] == plans[i].action.value.version;
      }
    }
    if AllGoTo(plans, v) {
      assert v in found;
      forall k | 0 <= k < |found| ensures found[k] == v {
        assert found[k] in found;
        var i :| 0 <= i < |plans| && GoesTo(plans[i], found[k]);
      }
    }
  }

  /** `i` is the one plan for a known node. */
  ghost predicate OnlyKnown(plans: seq<NodePlan>, i: nat) {
    i < |plans| && forall j :: 0 <= j < |plans| ==> (plans[j].outcome != NodeUnknown <==> j == i)
  }

  lemma {:induction false} NoneKnown(plans: seq<NodePlan>)
    ensures KnownIds(plans) == [] <==> AllUnknown(plans)
    decreases |plans|
  {
    if plans != [] {
      NoneKnown(plans[..|plans| - 1]);
      if AllUnknown(plans) {
        assert AllUnknown(plans[..|plans| - 1]);
      }
    }
  }

  lemma {:induction false} OnlyKnownIsNamed(plans: seq<NodePlan>, i: nat)
    requires OnlyKnown(plans, i)
    ensures KnownIds(plans) == [plans[i].nodeId]
    decreases |plans|
  {
    var k := |plans| - 1;
    if i < k {
      assert OnlyKnown(plans[..k], i);
      OnlyKnownIsNamed(plans[..k], i);
    } else {
      NoneKnown(plans[..k]);
      assert AllUnknown(plans[..k]);
    }
  }

  lemma {:induction false} NamedIsOnlyKnown(plans: seq<NodePlan>) returns (i: nat)
    requires |KnownIds(plans)| == 1
    ensures OnlyKnown(plans, i)
    decreases |plans|
  {
    var k := |plans| - 1;
    if plans[k].outcome == NodeUnknown {
      i := NamedIsOnlyKnown(plans[..k]);
      assert OnlyKnown(plans[..k], i);
    } else {
      NoneKnown(plans[..k]);
      i := k;
    }
  }

  /** The event names a node exactly when there is just one known target. */
  lemma SingleNodeIs(plans: seq<NodePlan>)
    ensures forall i: nat :: OnlyKnown(plans, i) ==> SingleNode(plans) == Some(plans[i].nodeId)
    ensures SingleNode(plans).Some? ==> exists i :: OnlyKnown(plans, i)
  {
    forall i: nat | OnlyKnown(plans, i) ensures SingleNode(plans) == Some(plans[i].nodeId) {
      OnlyKnownIsNamed(plans, i);
    }
    if SingleNode(plans).Some? {
      var i := NamedIsOnlyKnown(plans);
    }
  }

  predicate HadOtherVersion(s: Sets, slot: Slot, plan: InstallPlan) {
    slot.Node? && Lookup(s.desired, slot.node.id, plan.skill).Some?
    && Lookup(s.desired, slot.node.id, plan.skill).value.version != plan.version
  }

  /** An install without a known target leaves no event; any other leaves one, an upgrade if some target
      had another version. */
  lemma InstallEvent(libs: Libs, st: Store, slots: seq<Slot>, plan: InstallPlan, connected: set<string>, id: string)
    ensures var t := OneInstalled(libs, st, slots, plan, connected, id);
      if AllMissing(slots) then t.audit == st.audit
      else
        && |t.audit| == |st.audit| + 1 && t.audit[..|st.audit|] == st.audit
        && t.audit[|st.audit|].target == plan.skill
        && t.audit[|st.audit|].action
             == (if exists i :: 0 <= i < |slots| && HadOtherVersion(SetsOf(st), slots[i], plan) then "skill.upgrade" else "skill.install")
  {
    var s := SetsOf(st);
    var plans := InstallPlans(libs.rank, slots, s, plan, connected, true);
    forall i | 0 <= i < |slots|
      ensures (plans[i].outcome == NodeUnknown <==> slots[i].Missing?) && (plans[i].otherVersion <==> HadOtherVersion(s, slots[i], plan)) {
    }
    if exists i :: 0 <= i < |slots| && HadOtherVersion(s, slots[i], plan) {
      var i :| 0 <= i < |slots| && HadOtherVersion(s, slots[i], plan);
      assert plans[i].otherVersion;
    }
    if exists i :: 0 <= i < |plans| && plans[i].otherVersion {
      var i :| 0 <= i < |plans| && plans[i].otherVersion;
      assert HadOtherVersion(s, slots[i], plan);
    }
    assert AllUnknown(plans) <==> AllMissing(slots) by {
      if !AllMissing(slots) {
        var i :| 0 <= i < |slots| && slots[i].Node?;
        assert plans[i].outcome != NodeUnknown;
      }
    }
  }

  /** An uninstall is refused exactly when it is not forced, some target is known and the skill is in use. */
  lemma UninstallRefusedIff(libs: Libs, st: Store, slots: seq<Slot>, skill: string, force: bool, inUse: bool,
                            connected: set<string>, id: string)
    ensures var r := Uninstalled(libs, st, slots, skill, force, inUse, connected, id);
      && (r.1.Err? <==> !force && inUse && exists i :: 0 <= i < |slots| && slots[i].Node?)
      && (r.1.Err? ==> r == (st, Err(SkillInUse)))
  {
  }

  predicate OneEventMore(st: Store, t: Store, action: string, target: string) {
    |t.audit| == |st.audit| + 1 && t.audit[..|st.audit|] == st.audit
    && t.audit[|st.audit|].action == action && t.audit[|st.audit|].target == target
  }

  /** A rollback or uninstall that goes ahead for some known target leaves one event of its kind; any other
      leaves the tables as they were. */
  lemma OneEventEach(libs: Libs, st: Store, slots: seq<Slot>, skill: string, explicit: Option<VersionRecord>,
                     versions: seq<VersionRecord>, force: bool, inUse: bool, connected: set<string>, id: string)
    ensures var r := RolledBack(libs, st, slots, skill, explicit, versions, connected, id);
      if r.1.Err? || AllMissing(slots) then r.0 == st else OneEventMore(st, r.0, "skill.rollback", skill)
    ensures var r := Uninstalled(libs, st, slots, skill, force, inUse, connected, id);
      if r.1.Err? || AllMissing(slots) then r.0 == st else OneEventMore(st, r.0, "skill.uninstall", skill)
  {
  }
}
