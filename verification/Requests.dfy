/** The skill requests of the API as functions of the tables. */
module Requests {
  import opened Text
  import opened Tables
  import opened Desired
  import opened Catalog
  import opened Changes
  import opened Bundles

  /** What a request says apart from which skill it is about. `builtin` are the compiled-in skills. */
  datatype Call = Call(libs: Libs, builtin: set<string>, selection: Selection, connected: set<string>, ids: nat -> string)

  predicate Blank(sel: Selection) {
    sel.nodeIds == [] && sel.selector.None?
  }

  /** The slots of a request, or the refusal when it selects none. */
  function Targets(nodes: seq<LiveNode>, sel: Selection): Reply<seq<Slot>> {
    if Blank(sel) then Err(NoTargetNodes)
    else if ResolvedSlots(nodes, sel) == [] then Err(NoTargetNodes)
    else Ok(ResolvedSlots(nodes, sel))
  }

  // ---------------------------------------------------------------- install

  function InstallPlanOf(st: Store, builtin: set<string>, skill: string, version: string, accepted: Option<string>): Reply<InstallPlan> {
    var key := VersionKey(skill, version);
    if skill in builtin then Err(BuiltinReadOnly)
    else if skill !in st.skills then Err(Refusal.SkillUnknown)
    else if key !in st.versions then Err(Refusal.VersionUnknown)
    else if st.versions[key].status != Published then Err(VersionNotInstallable)
    else if AcceptedHash(st.versions[key].capabilities, accepted).None? then Err(CapabilitiesChanged)
    else Ok(PlanFor(skill, VersionRecord(version, st.versions[key])))
  }

  function InstallBatch(call: Call, st: Store, plans: seq<InstallPlan>, dryRun: bool): Store {
    match Targets(st.nodes, call.selection)
    case Err(_) => st
    case Ok(slots) => if dryRun then st else Installed(call.libs, st, slots, plans, call.connected, call.ids)
  }

  /** What plan `k` of a batch tells each slot when it is only previewed. */
  ghost function PreviewedPerNode(call: Call, st: Store, slots: seq<Slot>, plans: seq<InstallPlan>, k: nat): seq<PerNode>
    requires k < |plans|
  {
    PerNodes(InstallPlans(call.libs.rank, slots, SetsOf(st), plans[k], call.connected, false))
  }

  /** What plan `k` of a batch tells each slot after the plans before it were written. */
  ghost function WrittenPerNode(call: Call, st: Store, slots: seq<Slot>, plans: seq<InstallPlan>, k: nat): seq<PerNode>
    requires k < |plans|
  {
    var before := Installed(call.libs, st, slots, plans[..k], call.connected, call.ids);
    PerNodes(InstallPlans(call.libs.rank, slots, SetsOf(before), plans[k], call.connected, true))
  }

  ghost predicate BatchReply(call: Call, st: Store, plans: seq<InstallPlan>, dryRun: bool, r: Reply<seq<seq<PerNode>>>) {
    match Targets(st.nodes, call.selection)
    case Err(e) => r == Err(e)
    case Ok(slots) =>
      r.Ok? && |r.value| == |plans|
      && forall k :: 0 <= k < |plans| ==> r.value[k] == PerNodeOf(call, st, slots, plans, dryRun, k)
  }

  ghost function PerNodeOf(call: Call, st: Store, slots: seq<Slot>, plans: seq<InstallPlan>, dryRun: bool, k: nat): seq<PerNode>
    requires k < |plans|
  {
    if dryRun || AllMissing(slots) then PreviewedPerNode(call, st, slots, plans, k)
    else WrittenPerNode(call, st, slots, plans, k)
  }

  /** What the dry run of a batch said of plan `k` and slot `i`, against what the write then said. */
  ghost predicate Foretold(call: Call, st: Store, slot: Slot, plans: seq<InstallPlan>, k: nat, previewed: PerNode, written: PerNode)
    requires k < |plans|
  {
    && written.node == previewed.node == slot.Id()
    && written.outcome == previewed.outcome
    && written.generation == previewed.generation + CountWrites(call.libs.rank, SetsOf(st), slot, plans[..k + 1], call.connected)
  }

  lemma PerNodeForetold(call: Call, st: Store, slots: seq<Slot>, plans: seq<InstallPlan>, k: nat, i: nat)
    requires SlotsUnique(slots) && SkillsDistinct(plans) && k < |plans| && i < |slots|
    ensures |PerNodeOf(call, st, slots, plans, true, k)| == |PerNodeOf(call, st, slots, plans, false, k)| == |slots|
    ensures Foretold(call, st, slots[i], plans, k, PerNodeOf(call, st, slots, plans, true, k)[i],
                     PerNodeOf(call, st, slots, plans, false, k)[i])
  {
    if AllMissing(slots) {
      MissingNeverWrites(call.libs.rank, SetsOf(st), slots[i], plans[..k + 1], call.connected);
    } else {
      WriteForetold(call, st, slots, plans, k, i);
    }
  }

  lemma DryRunForetellsReply(call: Call, st: Store, plans: seq<InstallPlan>, dry: Reply<seq<seq<PerNode>>>,
                             wet: Reply<seq<seq<PerNode>>>, slots: seq<Slot>, k: nat, i: nat)
    requires NodesUnique(st.nodes) && SkillsDistinct(plans)
    requires BatchReply(call, st, plans, true, dry) && BatchReply(call, st, plans, false, wet)
    requires Targets(st.nodes, call.selection) == Ok(slots) && k < |plans| && i < |slots|
    ensures |dry.value[k]| == |wet.value[k]| == |slots|
    ensures Foretold(call, st, slots[i], plans, k, dry.value[k][i], wet.value[k][i])
  {
    ResolvedOnce(st.nodes, call.selection);
    assert dry.value[k] == PerNodeOf(call, st, slots, plans, true, k);
    assert wet.value[k] == PerNodeOf(call, st, slots, plans, false, k);
    PerNodeForetold(call, st, slots, plans, k, i);
  }

  lemma WriteForetold(call: Call, st: Store, slots: seq<Slot>, plans: seq<InstallPlan>, k: nat, i: nat)
    requires SlotsUnique(slots) && SkillsDistinct(plans) && k < |plans| && i < |slots|
    ensures Foretold(call, st, slots[i], plans, k, PreviewedPerNode(call, st, slots, plans, k)[i],
                     WrittenPerNode(call, st, slots, plans, k)[i])
  {
    DryRunForetells(call.libs, st, slots, plans, call.connected, call.ids, k, i);
  }

  function InstallOne(call: Call, st: Store, skill: string, version: string, accepted: Option<string>, dryRun: bool): Store {
    match InstallPlanOf(st, call.builtin, skill, version, accepted)
    case Err(_) => st
    case Ok(plan) => InstallBatch(call, st, [plan], dryRun)
  }

  predicate ItemsAccepted(call: Call, items: seq<BundleItem>, rows: string -> seq<VersionRecord>, accepted: map<string, string>) {
    AcceptedUpTo(call.libs, call.builtin, items, rows, accepted, |items|)
  }

  function InstallBundle(call: Call, st: Store, bundle: string, rows: string -> seq<VersionRecord>,
                         accepted: map<string, string>, dryRun: bool): Store {
    if bundle !in st.bundles || !ItemsAccepted(call, st.bundles[bundle], rows, accepted) then st
    else InstallBatch(call, st, PlansOf(call.libs, call.builtin, st.bundles[bundle], rows), dryRun)
  }

  /** What a built-in item tells each target, with the generation it has in `s`. */
  function BuiltinPerNode(s: Sets, slots: seq<Slot>): seq<PerNode> {
    seq(|slots|, i requires 0 <= i < |slots| =>
      if slots[i].Missing? then PerNode(slots[i].id, NodeUnknown, 0)
      else PerNode(slots[i].node.id, AlreadyInstalled, Current(s.generations, slots[i].node.id)))
  }

  /** The entry of one item: its own plan's report, or that of a built-in. */
  ghost predicate ItemAnswered(call: Call, st: Store, after: Sets, slots: seq<Slot>, plans: seq<InstallPlan>, dryRun: bool,
                               item: BundleItem, operation: BundleOperation)
  {
    && operation.skill == item.skill
    && (if item.skill in call.builtin then operation.perNode == BuiltinPerNode(after, slots)
        else ReportsPlan(call, st, slots, plans, dryRun, operation))
  }

  ghost predicate ReportsPlan(call: Call, st: Store, slots: seq<Slot>, plans: seq<InstallPlan>, dryRun: bool, operation: BundleOperation) {
    exists k :: 0 <= k < |plans| && plans[k].skill == operation.skill && operation.perNode == PerNodeOf(call, st, slots, plans, dryRun, k)
  }

  /** Refused for the first refused item or for want of targets; else one entry per item, in item order. */
  ghost predicate BundleReply(call: Call, st: Store, after: Store, bundle: string, rows: string -> seq<VersionRecord>,
                              accepted: map<string, string>, dryRun: bool, r: Reply<seq<BundleOperation>>)
  {
    if bundle !in st.bundles then r == Err(BundleUnknown)
    else if !ItemsAccepted(call, st.bundles[bundle], rows, accepted) then
      r.Err? && FirstRefusal(call.libs, call.builtin, st.bundles[bundle], rows, accepted, r.refusal)
    else
      match Targets(st.nodes, call.selection)
      case Err(e) => r == Err(e)
      case Ok(slots) =>
        var items := st.bundles[bundle];
        r.Ok? && |r.value| == |items|
        && forall i :: 0 <= i < |items| ==>
             ItemAnswered(call, st, SetsOf(after), slots, PlansOf(call.libs, call.builtin, items, rows), dryRun, items[i], r.value[i])
  }

  /** The dry run of a bundle foretells its install, item by item and node by node. */
  lemma BundleDryRunForetells(call: Call, st: Store, after: Store, bundle: string, rows: string -> seq<VersionRecord>,
                              accepted: map<string, string>, dry: Reply<seq<BundleOperation>>, wet: Reply<seq<BundleOperation>>,
                              slots: seq<Slot>, n: nat, i: nat) returns (k: nat)
    requires NodesUnique(st.nodes) && bundle in st.bundles && ItemsDistinct(st.bundles[bundle])
    requires BundleReply(call, st, st, bundle, rows, accepted, true, dry)
    requires BundleReply(call, st, after, bundle, rows, accepted, false, wet)
    requires ItemsAccepted(call, st.bundles[bundle], rows, accepted) && Targets(st.nodes, call.selection) == Ok(slots)
    requires n < |st.bundles[bundle]| && st.bundles[bundle][n].skill !in call.builtin && i < |slots|
    ensures var plans := PlansOf(call.libs, call.builtin, st.bundles[bundle], rows);
      && k < |plans| && plans[k].skill == st.bundles[bundle][n].skill
      && |dry.value[n].perNode| == |wet.value[n].perNode| == |slots|
      && Foretold(call, st, slots[i], plans, k, dry.value[n].perNode[i], wet.value[n].perNode[i])
  {
    var items := st.bundles[bundle];
    var plans := PlansOf(call.libs, call.builtin, items, rows);
    AcceptedHaveBest(call, items, rows, accepted);
    PlansCover(call.libs, call.builtin, items, rows);
    assert ItemAnswered(call, st, SetsOf(st), slots, plans, true, items[n], dry.value[n]);
    assert ItemAnswered(call, st, SetsOf(after), slots, plans, false, items[n], wet.value[n]);
    k :| 0 <= k < |plans| && plans[k].skill == dry.value[n].skill && dry.value[n].perNode == PerNodeOf(call, st, slots, plans, true, k);
    var m :| 0 <= m < |plans| && plans[m].skill == wet.value[n].skill && wet.value[n].perNode == PerNodeOf(call, st, slots, plans, false, m);
    assert m == k;
    ResolvedOnce(st.nodes, call.selection);
    PerNodeForetold(call, st, slots, plans, k, i);
  }

  lemma AcceptedHaveBest(call: Call, items: seq<BundleItem>, rows: string -> seq<VersionRecord>, accepted: map<string, string>)
    requires ItemsAccepted(call, items, rows, accepted)
    ensures forall i :: 0 <= i < |items| && items[i].skill !in call.builtin ==> BestOf(call.libs, items[i], rows).Some?
  {
    forall i | 0 <= i < |items| && items[i].skill !in call.builtin ensures BestOf(call.libs, items[i], rows).Some? {
      assert ItemOkToInstall(call.libs, call.builtin, items[i], rows, accepted);
    }
  }

  // ---------------------------------------------------------------- rollback and uninstall

  function FindVersion(versions: seq<VersionRecord>, version: string): Option<VersionRecord> {
    if versions == [] then None
    else if versions[0].version == version then Some(versions[0])
    else FindVersion(versions[1..], version)
  }

  function ExplicitVersion(versions: seq<VersionRecord>, to: Option<string>): Reply<Option<VersionRecord>> {
    if to.None? || Trim(to.value, IsSpace) == "" then Ok(None)
    else
      match FindVersion(versions, Trim(to.value, IsSpace))
      case None => Err(Refusal.VersionUnknown)
      case Some(v) => if v.row.status == Yanked then Err(VersionNotInstallable) else Ok(Some(v))
  }

  /** Why a rollback is refused before any slot is looked at, or its explicit version. */
  function RollbackRefusal(skills: set<string>, call: Call, skill: string, versions: seq<VersionRecord>, to: Option<string>): Reply<Option<VersionRecord>> {
    if skill in call.builtin then Err(BuiltinReadOnly)
    else if skill !in skills then Err(Refusal.SkillUnknown)
    else ExplicitVersion(versions, to)
  }

  function Rollback(call: Call, st: Store, skill: string, versions: seq<VersionRecord>, to: Option<string>): (Store, Reply<seq<PerNode>>) {
    match RollbackRefusal(st.skills, call, skill, versions, to)
    case Err(e) => (st, Err(e))
    case Ok(explicit) =>
      match Targets(st.nodes, call.selection)
      case Err(e) => (st, Err(e))
      case Ok(slots) => RolledBack(call.libs, st, slots, skill, explicit, versions, call.connected, call.ids(0))
  }

  /** `inUse`: the configuration of some target runs the skill. */
  function Uninstall(call: Call, st: Store, skill: string, force: bool, inUse: bool): (Store, Reply<seq<PerNode>>) {
    if skill in call.builtin then (st, Err(BuiltinReadOnly))
    else if skill !in st.skills then (st, Err(Refusal.SkillUnknown))
    else
      match Targets(st.nodes, call.selection)
      case Err(e) => (st, Err(e))
      case Ok(slots) => Uninstalled(call.libs, st, slots, skill, force, inUse, call.connected, call.ids(0))
  }

  // ---------------------------------------------------------------- when a request is refused

  predicate PlansRow(plan: InstallPlan, skill: string, version: string, row: VersionRow) {
    plan.skill == skill && plan.version == version && plan.sha == row.sha && plan.minNode == row.minNode && plan.platforms == row.platforms
  }

  /** A version is installed only if published and with its capabilities accepted, and as the catalog has it. */
  lemma InstallAllowedIff(st: Store, builtin: set<string>, skill: string, version: string, accepted: Option<string>)
    ensures var r, key := InstallPlanOf(st, builtin, skill, version, accepted), VersionKey(skill, version);
      var known := skill !in builtin && skill in st.skills && key in st.versions;
      && (r.Ok? <==> known && st.versions[key].status == Published && AcceptedHash(st.versions[key].capabilities, accepted).Some?)
      && (r.Ok? ==> PlansRow(r.value, skill, version, st.versions[key]))
      && (r == Err(BuiltinReadOnly) <==> skill in builtin)
      && (r == Err(Refusal.SkillUnknown) <==> skill !in builtin && skill !in st.skills)
      && (r == Err(Refusal.VersionUnknown) <==> skill !in builtin && skill in st.skills && key !in st.versions)
      && (r == Err(VersionNotInstallable) <==> known && (st.versions[key].status == Deprecated || st.versions[key].status == Yanked))
  {
    var key := VersionKey(skill, version);
    if key in st.versions {
      var status := st.versions[key].status;
      assert status == Published || status == Deprecated || status == Yanked;
    }
  }

  lemma {:induction false} FindVersionIs(versions: seq<VersionRecord>, version: string)
    ensures FindVersion(versions, version).Some? ==>
      FindVersion(versions, version).value in versions && FindVersion(versions, version).value.version == version
    ensures FindVersion(versions, version).None? <==> forall v :: v in versions ==> v.version != version
    decreases |versions|
  {
    if versions != [] {
      FindVersionIs(versions[1..], version);
      assert versions == [versions[0]] + versions[1..];
    }
  }

  /** A blank version means an implicit rollback; a named one must be in the catalog and not yanked. */
  lemma ExplicitVersionIs(st: Store, skill: string, versions: seq<VersionRecord>, to: Option<string>)
    requires Loaded(st, skill, versions)
    ensures var r := ExplicitVersion(versions, to);
      && (r == Ok(None) <==> to.None? || Trim(to.value, IsSpace) == "")
      && (r.Err? ==> r == Err(Refusal.VersionUnknown) || r == Err(VersionNotInstallable))
      && (to.Some? && Trim(to.value, IsSpace) != "" ==>
            var key := VersionKey(skill, Trim(to.value, IsSpace));
            && (r == Err(Refusal.VersionUnknown) <==> key !in st.versions)
            && (r == Err(VersionNotInstallable) <==> key in st.versions && st.versions[key].status == Yanked)
            && (r.Ok? ==> r.value == Some(VersionRecord(key.version, st.versions[key]))))
  {
    if to.Some? && Trim(to.value, IsSpace) != "" {
      var version := Trim(to.value, IsSpace);
      FindVersionIs(versions, version);
      var key := VersionKey(skill, version);
      if key in st.versions {
        assert VersionRecord(version, st.versions[key]) in versions;
      }
    }
  }

  /** A request with targets goes on exactly when it names an id or a node carries its labels. */
  lemma TargetsIff(nodes: seq<LiveNode>, sel: Selection)
    requires NodesUnique(nodes)
    ensures Targets(nodes, sel).Ok? <==>
      sel.nodeIds != [] || (sel.selector.Some? && exists n :: n in nodes && LabelsMatch(n.labels, sel.selector.value))
  {
    var slots := ResolvedSlots(nodes, sel);
    ResolvedOnce(nodes, sel);
    if sel.nodeIds != [] {
      ResolvedAll(nodes, sel, sel.nodeIds[0]);
    } else if sel.selector.Some? && exists n :: n in nodes && LabelsMatch(n.labels, sel.selector.value) {
      var n :| n in nodes && LabelsMatch(n.labels, sel.selector.value);
      ResolvedAll(nodes, sel, n.id);
    } else if slots != [] {
      assert Targeted(nodes, sel, slots[0]);
    }
  }

  /** A dry run changes nothing, nor does a request that is refused. */
  lemma NothingWritten(call: Call, st: Store, skill: string, version: string, accepted: Option<string>, bundle: string,
                       rows: string -> seq<VersionRecord>, hashes: map<string, string>, plans: seq<InstallPlan>, dryRun: bool)
    ensures InstallBatch(call, st, plans, true) == st
    ensures dryRun || InstallPlanOf(st, call.builtin, skill, version, accepted).Err? || Targets(st.nodes, call.selection).Err?
            ==> InstallOne(call, st, skill, version, accepted, dryRun) == st
    ensures dryRun || bundle !in st.bundles || !ItemsAccepted(call, st.bundles[bundle], rows, hashes) || Targets(st.nodes, call.selection).Err?
            ==> InstallBundle(call, st, bundle, rows, hashes, dryRun) == st
  {
  }

  /** Built-in and unknown skills are refused before anything else. */
  lemma BuiltinAndUnknownRefused(call: Call, st: Store, skill: string, versions: seq<VersionRecord>, to: Option<string>,
                                 force: bool, inUse: bool)
    ensures skill in call.builtin ==> Rollback(call, st, skill, versions, to) == (st, Err(BuiltinReadOnly))
    ensures skill in call.builtin ==> Uninstall(call, st, skill, force, inUse) == (st, Err(BuiltinReadOnly))
    ensures skill !in call.builtin && skill !in st.skills ==> Rollback(call, st, skill, versions, to) == (st, Err(Refusal.SkillUnknown))
    ensures skill !in call.builtin && skill !in st.skills ==> Uninstall(call, st, skill, force, inUse) == (st, Err(Refusal.SkillUnknown))
    ensures Rollback(call, st, skill, versions, to).1.Err? ==> Rollback(call, st, skill, versions, to).0 == st
    ensures Uninstall(call, st, skill, force, inUse).1.Err? ==> Uninstall(call, st, skill, force, inUse).0 == st
  {
  }
}
