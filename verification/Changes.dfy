/** Install, rollback and uninstall as changes of the tables, and what a dry run foretells. */
module Changes {
  import opened Text
  import opened Tables
  import opened Desired
  import opened Catalog
  import Audit

  function SetsOf(st: Store): Sets {
    Sets(st.desired, st.generations)
  }

  function PerNodes(plans: seq<NodePlan>): seq<PerNode> {
    seq(|plans|, i requires 0 <= i < |plans| => PerNode(plans[i].nodeId, plans[i].outcome, plans[i].generation))
  }

  predicate AllUnknown(plans: seq<NodePlan>) {
    forall i :: 0 <= i < |plans| ==> plans[i].outcome == NodeUnknown
  }

  function KnownIds(plans: seq<NodePlan>): seq<string> {
    if plans == [] then []
    else
      var last := plans[|plans| - 1];
      KnownIds(plans[..|plans| - 1]) + (if last.outcome == NodeUnknown then [] else [last.nodeId])
  }

  function SingleNode(plans: seq<NodePlan>): Option<string> {
    var ids := KnownIds(plans);
    if |ids| == 1 then Some(ids[0]) else None
  }

  /** One skill change: the rows it writes and its one audit event. */
  function Persisted(libs: Libs, st: Store, skill: string, action: string, target: Option<string>,
                     plans: seq<NodePlan>, id: string): Store
  {
    var s := ApplyPlans(SetsOf(st), skill, plans);
    var detail := libs.json(OperationDetail(id, skill, target, PerNodes(plans)));
    st.(desired := s.desired, generations := s.generations,
        audit := Audit.Appended(libs.line, st.audit, action, skill, detail, SingleNode(plans)))
  }

  // ---------------------------------------------------------------- install

  function InstallPlans(rank: string -> Option<Rank>, slots: seq<Slot>, s: Sets, plan: InstallPlan,
                        connected: set<string>, write: bool): seq<NodePlan>
  {
    seq(|slots|, i requires 0 <= i < |slots| => ClassifyInstall(rank, slots[i], s, plan, connected, write))
  }

  function InstallAction(plans: seq<NodePlan>): string {
    if exists i :: 0 <= i < |plans| && plans[i].otherVersion then "skill.upgrade" else "skill.install"
  }

  function OneInstalled(libs: Libs, st: Store, slots: seq<Slot>, plan: InstallPlan, connected: set<string>, id: string): Store {
    var plans := InstallPlans(libs.rank, slots, SetsOf(st), plan, connected, true);
    if AllUnknown(plans) then st
    else Persisted(libs, st, plan.skill, InstallAction(plans), Some(plan.version), plans, id)
  }

  /** A batch: each plan is classified against what the ones before it wrote. */
  function Installed(libs: Libs, st: Store, slots: seq<Slot>, plans: seq<InstallPlan>, connected: set<string>,
                     ids: nat -> string): Store
  {
    if plans == [] then st
    else
      var k := |plans| - 1;
      OneInstalled(libs, Installed(libs, st, slots, plans[..k], connected, ids), slots, plans[k], connected, ids(k))
  }

  predicate SkillsDistinct(plans: seq<InstallPlan>) {
    forall i, j :: 0 <= i < j < |plans| ==> plans[i].skill != plans[j].skill
  }

  // ---------------------------------------------------------------- rollback and uninstall

  function RollbackPlans(rank: string -> Option<Rank>, slots: seq<Slot>, s: Sets, skill: string,
                         explicit: Option<VersionRecord>, versions: seq<VersionRecord>, connected: set<string>): seq<NodePlan>
  {
    seq(|slots|, i requires 0 <= i < |slots| => ClassifyRollback(rank, slots[i], s, skill, explicit, versions, connected))
  }

  predicate NoneToRollBack(plans: seq<NodePlan>) {
    forall i :: 0 <= i < |plans| ==> plans[i].outcome == NodeUnknown || plans[i].outcome == NoPreviousVersion
  }

  function UpsertVersions(plans: seq<NodePlan>): seq<string> {
    if plans == [] then []
    else
      var last := plans[|plans| - 1].action;
      UpsertVersions(plans[..|plans| - 1]) + (if last.Some? && last.value.Upsert? then [last.value.version] else [])
  }

  /** The explicit version, or the one version all writes share. */
  function RollbackVersion(explicit: Option<VersionRecord>, plans: seq<NodePlan>): Option<string> {
    if explicit.Some? then Some(explicit.value.version)
    else
      var found := UpsertVersions(plans);
      if found != [] && (forall i :: 0 <= i < |found| ==> found[i] == found[0]) then Some(found[0]) else None
  }

  predicate AllMissing(slots: seq<Slot>) {
    forall i :: 0 <= i < |slots| ==> slots[i].Missing?
  }

  datatype Refusal = BuiltinReadOnly | SkillUnknown | VersionUnknown | VersionNotInstallable | CapabilitiesChanged
    | NoTargetNodes | NothingToRollBack | SkillInUse | InvalidBundle | BundleUnknown

  datatype Reply<+T> = Ok(value: T) | Err(refusal: Refusal)

  /** The tables after a rollback, and what each slot was told. */
  function RolledBack(libs: Libs, st: Store, slots: seq<Slot>, skill: string, explicit: Option<VersionRecord>,
                      versions: seq<VersionRecord>, connected: set<string>, id: string): (Store, Reply<seq<PerNode>>)
  {
    var plans := RollbackPlans(libs.rank, slots, SetsOf(st), skill, explicit, versions, connected);
    if AllMissing(slots) then (st, Ok(PerNodes(plans)))
    else if explicit.None? && NoneToRollBack(plans) then (st, Err(NothingToRollBack))
    else (Persisted(libs, st, skill, "skill.rollback", RollbackVersion(explicit, plans), plans, id), Ok(PerNodes(plans)))
  }

  function Uninstalled(libs: Libs, st: Store, slots: seq<Slot>, skill: string, force: bool, inUse: bool,
                       connected: set<string>, id: string): (Store, Reply<seq<PerNode>>)
  {
    var plans := UninstallPlans(slots, SetsOf(st), skill, connected);
    if AllMissing(slots) then (st, Ok(PerNodes(plans)))
    else if !force && inUse then (st, Err(SkillInUse))
    else (Persisted(libs, st, skill, "skill.uninstall", None, plans, id), Ok(PerNodes(plans)))
  }

  function UninstallPlans(slots: seq<Slot>, s: Sets, skill: string, connected: set<string>): seq<NodePlan> {
    seq(|slots|, i requires 0 <= i < |slots| => ClassifyUninstall(slots[i], s, skill, connected))
  }

  // ---------------------------------------------------------------- classifiers fit

  lemma InstallPlansFit(rank: string -> Option<Rank>, slots: seq<Slot>, s: Sets, plan: InstallPlan, connected: set<string>)
    requires SlotsUnique(slots)
    ensures PlansFit(s, plan.skill, InstallPlans(rank, slots, s, plan, connected, true))
  {
    var plans := InstallPlans(rank, slots, s, plan, connected, true);
    forall i | 0 <= i < |plans| ensures PlanFits(s, plan.skill, plans[i]) && plans[i].nodeId == slots[i].Id() {
      InstallFits(rank, slots[i], s, plan, connected);
    }
    IdsUnique(slots, plans);
  }

  lemma InstallFits(rank: string -> Option<Rank>, slot: Slot, s: Sets, plan: InstallPlan, connected: set<string>)
    ensures PlanFits(s, plan.skill, ClassifyInstall(rank, slot, s, plan, connected, true))
  {
  }

  lemma IdsUnique(slots: seq<Slot>, plans: seq<NodePlan>)
    requires SlotsUnique(slots) && |plans| == |slots|
    requires forall i :: 0 <= i < |plans| ==> plans[i].nodeId == slots[i].Id()
    ensures forall i, j :: 0 <= i < j < |plans| ==> plans[i].nodeId != plans[j].nodeId
  {
    forall i, j | 0 <= i < j < |plans| ensures plans[i].nodeId != plans[j].nodeId {
      assert slots[i].Id() != slots[j].Id();
    }
  }

  lemma RollbackPlansFit(rank: string -> Option<Rank>, slots: seq<Slot>, s: Sets, skill: string,
                         explicit: Option<VersionRecord>, versions: seq<VersionRecord>, connected: set<string>)
    requires SlotsUnique(slots)
    ensures PlansFit(s, skill, RollbackPlans(rank, slots, s, skill, explicit, versions, connected))
  {
    var plans := RollbackPlans(rank, slots, s, skill, explicit, versions, connected);
    forall i | 0 <= i < |plans| ensures PlanFits(s, skill, plans[i]) && plans[i].nodeId == slots[i].Id() {
      RollbackFits(rank, slots[i], s, skill, explicit, versions, connected);
    }
    IdsUnique(slots, plans);
  }

  lemma RollbackFits(rank: string -> Option<Rank>, slot: Slot, s: Sets, skill: string, explicit: Option<VersionRecord>,
                     versions: seq<VersionRecord>, connected: set<string>)
    ensures PlanFits(s, skill, ClassifyRollback(rank, slot, s, skill, explicit, versions, connected))
  {
  }

  lemma UninstallPlansFit(slots: seq<Slot>, s: Sets, skill: string, connected: set<string>)
    requires SlotsUnique(slots)
    ensures PlansFit(s, skill, UninstallPlans(slots, s, skill, connected))
  {
    var plans := UninstallPlans(slots, s, skill, connected);
    forall i | 0 <= i < |plans| ensures PlanFits(s, skill, plans[i]) && plans[i].nodeId == slots[i].Id() {
    }
    IdsUnique(slots, plans);
  }

  lemma {:induction false} UnknownWritesNothing(s: Sets, skill: string, plans: seq<NodePlan>)
    requires forall i :: 0 <= i < |plans| ==> plans[i].action.None?
    ensures ApplyPlans(s, skill, plans) == s
    decreases |plans|
  {
    if plans != [] {
      UnknownWritesNothing(s, skill, plans[..|plans| - 1]);
    }
  }

  lemma OneInstalledSets(libs: Libs, st: Store, slots: seq<Slot>, plan: InstallPlan, connected: set<string>, id: string)
    ensures SetsOf(OneInstalled(libs, st, slots, plan, connected, id))
            == ApplyPlans(SetsOf(st), plan.skill, InstallPlans(libs.rank, slots, SetsOf(st), plan, connected, true))
  {
    var plans := InstallPlans(libs.rank, slots, SetsOf(st), plan, connected, true);
    if AllUnknown(plans) {
      forall i | 0 <= i < |plans| ensures plans[i].action.None? {
      }
      UnknownWritesNothing(SetsOf(st), plan.skill, plans);
    }
  }

  // ---------------------------------------------------------------- generations

  /** The skills whose desired row on `node` differs. */
  function Differing(s: Sets, t: Sets, node: string): set<string> {
    set k | k in s.desired.Keys + t.desired.Keys && k.node == node
            && Lookup(s.desired, node, k.skill) != Lookup(t.desired, node, k.skill) :: k.skill
  }

  lemma DifferingIs(s: Sets, t: Sets, node: string, skill: string)
    ensures skill in Differing(s, t, node) <==> Lookup(s.desired, node, skill) != Lookup(t.desired, node, skill)
  {
    if Lookup(s.desired, node, skill) != Lookup(t.desired, node, skill) {
      assert NodeSkill(node, skill) in s.desired.Keys + t.desired.Keys;
    }
  }

  /** The generation of a node rises by one for each of its desired rows that changes. */
  ghost predicate Counted(s: Sets, t: Sets, node: string) {
    Current(t.generations, node) == Current(s.generations, node) + |Differing(s, t, node)|
  }

  lemma NothingDiffers(s: Sets, t: Sets, node: string)
    requires forall skill :: Lookup(s.desired, node, skill) == Lookup(t.desired, node, skill)
    ensures Differing(s, t, node) == {}
  {
    forall skill ensures skill !in Differing(s, t, node) {
      DifferingIs(s, t, node, skill);
    }
  }

  lemma OneDiffers(s: Sets, t: Sets, node: string, skill: string)
    requires forall other :: other != skill ==> Lookup(t.desired, node, other) == Lookup(s.desired, node, other)
    ensures Differing(s, t, node) == if Lookup(t.desired, node, skill) == Lookup(s.desired, node, skill) then {} else {skill}
  {
    forall x ensures x in Differing(s, t, node) <==> x == skill && Lookup(t.desired, node, x) != Lookup(s.desired, node, x) {
      DifferingIs(s, t, node, x);
    }
  }

  lemma AppliedIsCounted(s: Sets, skill: string, plans: seq<NodePlan>, node: string)
    requires PlansFit(s, skill, plans)
    ensures Counted(s, ApplyPlans(s, skill, plans), node)
  {
    ApplyPlansOnNode(s, skill, plans, node);
    OneDiffers(s, ApplyPlans(s, skill, plans), node, skill);
  }

  lemma DifferencesAdd(s: Sets, t: Sets, u: Sets, node: string, skill: string)
    requires Lookup(t.desired, node, skill) == Lookup(s.desired, node, skill)
    requires forall other :: other != skill ==> Lookup(u.desired, node, other) == Lookup(t.desired, node, other)
    ensures Differing(s, u, node) == Differing(s, t, node) + Differing(t, u, node)
    ensures Differing(s, t, node) !! Differing(t, u, node)
  {
    OneDiffers(t, u, node, skill);
    DifferingIs(s, t, node, skill);
    forall x ensures x in Differing(s, u, node) <==> x in Differing(s, t, node) || x in Differing(t, u, node) {
      DifferingIs(s, t, node, x);
      DifferingIs(t, u, node, x);
      DifferingIs(s, u, node, x);
    }
  }

  /** A further change to a skill untouched so far adds to the count. */
  lemma CountsAdd(s: Sets, t: Sets, u: Sets, node: string, skill: string)
    requires Counted(s, t, node) && Counted(t, u, node)
    requires Lookup(t.desired, node, skill) == Lookup(s.desired, node, skill)
    requires forall other :: other != skill ==> Lookup(u.desired, node, other) == Lookup(t.desired, node, other)
    ensures Counted(s, u, node)
  {
    DifferencesAdd(s, t, u, node, skill);
    var a, b := Differing(s, t, node), Differing(t, u, node);
    assert |a + b| == |a| + |b|;
  }

  lemma {:induction false} InstalledIsCounted(libs: Libs, st: Store, slots: seq<Slot>, plans: seq<InstallPlan>,
                                              connected: set<string>, ids: nat -> string, node: string)
    requires SlotsUnique(slots) && SkillsDistinct(plans)
    ensures var t := Installed(libs, st, slots, plans, connected, ids);
      && Counted(SetsOf(st), SetsOf(t), node)
      && (forall skill :: (forall i :: 0 <= i < |plans| ==> plans[i].skill != skill)
            ==> Lookup(t.desired, node, skill) == Lookup(st.desired, node, skill))
    decreases |plans|
  {
    if plans == [] {
      NothingDiffers(SetsOf(st), SetsOf(st), node);
    } else {
      var k := |plans| - 1;
      var before := Installed(libs, st, slots, plans[..k], connected, ids);
      var after := Installed(libs, st, slots, plans, connected, ids);
      InstalledIsCounted(libs, st, slots, plans[..k], connected, ids, node);
      OneInstalledSets(libs, before, slots, plans[k], connected, ids(k));
      InstallPlansFit(libs.rank, slots, SetsOf(before), plans[k], connected);
      var written := InstallPlans(libs.rank, slots, SetsOf(before), plans[k], connected, true);
      ApplyPlansOnNode(SetsOf(before), plans[k].skill, written, node);
      AppliedIsCounted(SetsOf(before), plans[k].skill, written, node);
      CountsAdd(SetsOf(st), SetsOf(before), SetsOf(after), node, plans[k].skill);
    }
  }

  // ---------------------------------------------------------------- dry run

  /** How many of the plans a preview says will change the slot. */
  function CountWrites(rank: string -> Option<Rank>, s: Sets, slot: Slot, plans: seq<InstallPlan>, connected: set<string>): nat {
    if plans == [] then 0
    else
      var k := |plans| - 1;
      CountWrites(rank, s, slot, plans[..k], connected)
      + (if Wrote(ClassifyInstall(rank, slot, s, plans[k], connected, false).outcome) then 1 else 0)
  }

  lemma SameOutcome(rank: string -> Option<Rank>, slot: Slot, s: Sets, t: Sets, plan: InstallPlan, connected: set<string>)
    requires Lookup(s.desired, slot.Id(), plan.skill) == Lookup(t.desired, slot.Id(), plan.skill)
    ensures var p, w := ClassifyInstall(rank, slot, s, plan, connected, false), ClassifyInstall(rank, slot, t, plan, connected, true);
      && w.nodeId == p.nodeId && w.outcome == p.outcome && p.action.None?
      && (w.action.Some? <==> Wrote(p.outcome))
      && (slot.Missing? ==> w.generation == p.generation == 0)
      && (slot.Node? ==> p.generation == Current(s.generations, slot.Id()))
      && (slot.Node? ==> w.generation == Current(t.generations, slot.Id()) + (if Wrote(p.outcome) then 1 else 0))
  {
  }

  lemma ChangedIsSlot(slots: seq<Slot>, plans: seq<NodePlan>, i: nat)
    requires SlotsUnique(slots) && |plans| == |slots| && i < |slots|
    requires forall j :: 0 <= j < |slots| ==> plans[j].nodeId == slots[j].Id()
    ensures Changed(plans, slots[i].Id()) <==> plans[i].action.Some?
  {
    if Changed(plans, slots[i].Id()) {
      var j :| 0 <= j < |plans| && plans[j].nodeId == slots[i].Id() && plans[j].action.Some?;
      assert slots[j].Id() == slots[i].Id();
    }
  }

  lemma SlotGeneration(s: Sets, skill: string, slots: seq<Slot>, plans: seq<NodePlan>, i: nat)
    requires SlotsUnique(slots) && |plans| == |slots| && i < |slots| && PlansFit(s, skill, plans)
    requires forall j :: 0 <= j < |slots| ==> plans[j].nodeId == slots[j].Id()
    ensures Current(ApplyPlans(s, skill, plans).generations, slots[i].Id())
            == Current(s.generations, slots[i].Id()) + (if plans[i].action.Some? then 1 else 0)
  {
    ChangedIsSlot(slots, plans, i);
    ApplyPlansOnNode(s, skill, plans, slots[i].Id());
  }

  lemma InstallPlanIds(rank: string -> Option<Rank>, slots: seq<Slot>, s: Sets, plan: InstallPlan,
                       connected: set<string>, write: bool)
    ensures forall j :: 0 <= j < |slots| ==> InstallPlans(rank, slots, s, plan, connected, write)[j].nodeId == slots[j].Id()
  {
  }

  lemma OneWriteCounts(libs: Libs, st: Store, slots: seq<Slot>, plan: InstallPlan, connected: set<string>, id: string, i: nat)
    requires SlotsUnique(slots) && i < |slots|
    ensures Current(OneInstalled(libs, st, slots, plan, connected, id).generations, slots[i].Id())
            == Current(st.generations, slots[i].Id())
               + (if ClassifyInstall(libs.rank, slots[i], SetsOf(st), plan, connected, true).action.Some? then 1 else 0)
  {
    OneInstalledSets(libs, st, slots, plan, connected, id);
    InstallPlansFit(libs.rank, slots, SetsOf(st), plan, connected);
    InstallPlanIds(libs.rank, slots, SetsOf(st), plan, connected, true);
    var written := InstallPlans(libs.rank, slots, SetsOf(st), plan, connected, true);
    SlotGeneration(SetsOf(st), plan.skill, slots, written, i);
    assert SetsOf(OneInstalled(libs, st, slots, plan, connected, id)).generations
        == OneInstalled(libs, st, slots, plan, connected, id).generations;
  }

  lemma {:induction false} WritesAsForetold(libs: Libs, st: Store, slots: seq<Slot>, plans: seq<InstallPlan>,
                                            connected: set<string>, ids: nat -> string, i: nat)
    requires SlotsUnique(slots) && SkillsDistinct(plans) && i < |slots|
    ensures Current(Installed(libs, st, slots, plans, connected, ids).generations, slots[i].Id())
            == Current(st.generations, slots[i].Id()) + CountWrites(libs.rank, SetsOf(st), slots[i], plans, connected)
    decreases |plans|
  {
    if plans != [] {
      var k := |plans| - 1;
      var before := Installed(libs, st, slots, plans[..k], connected, ids);
      WritesAsForetold(libs, st, slots, plans[..k], connected, ids, i);
      InstalledIsCounted(libs, st, slots, plans[..k], connected, ids, slots[i].Id());
      SameOutcome(libs.rank, slots[i], SetsOf(st), SetsOf(before), plans[k], connected);
      OneWriteCounts(libs, before, slots, plans[k], connected, ids(k), i);
    }
  }

  /** For plan `k` and slot `i`, the write has the previewed outcome, and the previewed generation
      plus the number of plans up to `k` that were previewed to change that node. */
  lemma DryRunForetells(libs: Libs, st: Store, slots: seq<Slot>, plans: seq<InstallPlan>, connected: set<string>,
                        ids: nat -> string, k: nat, i: nat)
    requires SlotsUnique(slots) && SkillsDistinct(plans) && k < |plans| && i < |slots|
    ensures
      var before := Installed(libs, st, slots, plans[..k], connected, ids);
      var previewed := PerNodes(InstallPlans(libs.rank, slots, SetsOf(st), plans[k], connected, false))[i];
      var written := PerNodes(InstallPlans(libs.rank, slots, SetsOf(before), plans[k], connected, true))[i];
      && written.node == previewed.node && written.outcome == previewed.outcome
      && written.generation == previewed.generation + CountWrites(libs.rank, SetsOf(st), slots[i], plans[..k + 1], connected)
  {
    var before := Installed(libs, st, slots, plans[..k], connected, ids);
    assert plans[..k + 1][..k] == plans[..k];
    InstalledIsCounted(libs, st, slots, plans[..k], connected, ids, slots[i].Id());
    SameOutcome(libs.rank, slots[i], SetsOf(st), SetsOf(before), plans[k], connected);
    if slots[i].Node? {
      WritesAsForetold(libs, st, slots, plans[..k], connected, ids, i);
    } else {
      MissingNeverWrites(libs.rank, SetsOf(st), slots[i], plans[..k + 1], connected);
    }
  }

  lemma MissingNeverWrites(rank: string -> Option<Rank>, s: Sets, slot: Slot, plans: seq<InstallPlan>, connected: set<string>)
    requires slot.Missing?
    ensures CountWrites(rank, s, slot, plans, connected) == 0
  {
  }
}
