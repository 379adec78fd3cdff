/** The center's skill tables as one mutable object, and the requests that change them row by row. */
module Center {
  import opened Text
  import opened Tables
  import opened Desired
  import opened Catalog
  import opened Changes
  import opened Bundles
  import opened Requests
  import opened Delivery
  import Audit

  class Center {
    var nodes: seq<LiveNode>
    var skills: set<string>
    var versions: map<VersionKey, VersionRow>
    var artifacts: map<string, Bytes>
    var bundles: map<string, seq<BundleItem>>
    var desired: map<NodeSkill, Snap>
    var generations: map<string, int>
    var actual: map<NodeSkill, Actual>
    var audit: seq<Audit.Event>

    /** The tables as one value. */
    ghost function View(): Store
      reads this
    {
      Store(nodes, skills, versions, artifacts, bundles, desired, generations, actual, audit)
    }

    constructor (st: Store)
      ensures View() == st
    {
      nodes, skills, versions, artifacts, bundles := st.nodes, st.skills, st.versions, st.artifacts, st.bundles;
      desired, generations, actual, audit := st.desired, st.generations, st.actual, st.audit;
    }

    // -------------------------------------------------------------- catalog

    method PublishPackage(digest: Bytes -> string, pkg: Package) returns (o: CatalogOutcome)
      modifies this`skills, this`versions, this`artifacts
      ensures (View(), o) == Publish(old(View()), digest, pkg)
    {
      var key := VersionKey(pkg.name, pkg.version);
      var sha := digest(pkg.body);
      if pkg.name in skills && key in versions {
        if versions[key].sha != sha {
          return VersionExists;
        }
        if sha !in artifacts {
          artifacts := artifacts[sha := pkg.body];
        }
        return AlreadyPublished;
      }
      if sha in artifacts && |artifacts[sha]| != |pkg.body| {
        return Internal;
      }
      if Uses(versions, sha) {
        return Internal;
      }
      if sha !in artifacts {
        artifacts := artifacts[sha := pkg.body];
      }
      skills := skills + {pkg.name};
      versions := versions[key := RowOf(digest, pkg)];
      return Created;
    }

    method DeleteVersion(key: VersionKey) returns (o: CatalogOutcome)
      modifies this`versions, this`artifacts
      ensures (View(), o) == Delete(old(View()), key)
    {
      if key.skill !in skills {
        return CatalogOutcome.SkillUnknown;
      }
      if key !in versions {
        return CatalogOutcome.VersionUnknown;
      }
      var sha := versions[key].sha;
      var wanted := exists k :: k in desired && k.skill == key.skill && desired[k].version == key.version;
      var reported := exists k :: k in actual && k.skill == key.skill && actual[k].version == key.version;
      var bundled := exists b :: b in bundles && BundleItem(key.skill, key.version) in bundles[b];
      if wanted || reported || bundled {
        return VersionInUse;
      }
      versions := versions - {key};
      if !Uses(versions, sha) {
        artifacts := artifacts - {sha};
      }
      return Deleted;
    }

    // -------------------------------------------------------------- desired sets

    method AppendAudit(libs: Libs, action: string, target: string, detail: string, node: Option<string>)
      modifies this`audit
      ensures audit == Audit.Appended(libs.line, old(audit), action, target, detail, node)
    {
      var prev := if |audit| > 0 then audit[|audit| - 1].hash else "";
      var hash := libs.line(Audit.Material(prev, action, target, detail));
      audit := audit + [Audit.Event(prev, action, target, detail, node, hash)];
    }

    /** Writes the rows of one skill change, then its audit event. */
    method Persist(libs: Libs, skill: string, action: string, target: Option<string>, plans: seq<NodePlan>, id: string)
      modifies this`desired, this`generations, this`audit
      ensures View() == Persisted(libs, old(View()), skill, action, target, plans, id)
    {
      ghost var s := SetsOf(View());
      for i := 0 to |plans|
        invariant Sets(desired, generations) == ApplyPlans(s, skill, plans[..i])
        invariant audit == old(audit)
      {
        assert plans[..i + 1][..i] == plans[..i];
        var plan := plans[i];
        var key := NodeSkill(plan.nodeId, skill);
        match plan.action {
          case Some(Upsert(version, sha)) =>
            generations := generations[plan.nodeId := plan.generation];
            desired := desired[key := Snap(version, sha)];
          case Some(Remove) =>
            var removed := key in desired;
            desired := desired - {key};
            if removed {
              generations := generations[plan.nodeId := plan.generation];
            }
          case None =>
        }
      }
      assert plans[..|plans|] == plans;
      var detail := libs.json(OperationDetail(id, skill, target, PerNodes(plans)));
      AppendAudit(libs, action, skill, detail, SingleNode(plans));
    }

    method PreviewInstalls(call: Call, slots: seq<Slot>, plans: seq<InstallPlan>) returns (changes: seq<seq<PerNode>>)
      ensures |changes| == |plans|
      ensures forall k :: 0 <= k < |plans| ==> changes[k] == PreviewedPerNode(call, View(), slots, plans, k)
    {
      changes := [];
      for k := 0 to |plans|
        invariant |changes| == k
        invariant forall j :: 0 <= j < k ==> changes[j] == PreviewedPerNode(call, View(), slots, plans, j)
      {
        var nodePlans := InstallPlans(call.libs.rank, slots, Sets(desired, generations), plans[k], call.connected, false);
        changes := changes + [PerNodes(nodePlans)];
      }
    }

    /** One plan of a batch; a plan without a known target writes nothing, not even an event. */
    method WriteOne(call: Call, slots: seq<Slot>, plan: InstallPlan, id: string) returns (perNode: seq<PerNode>)
      modifies this`desired, this`generations, this`audit
      ensures View() == OneInstalled(call.libs, old(View()), slots, plan, call.connected, id)
      ensures perNode == PerNodes(InstallPlans(call.libs.rank, slots, SetsOf(old(View())), plan, call.connected, true))
    {
      var plans := InstallPlans(call.libs.rank, slots, Sets(desired, generations), plan, call.connected, true);
      if !AllUnknown(plans) {
        Persist(call.libs, plan.skill, InstallAction(plans), Some(plan.version), plans, id);
      }
      perNode := PerNodes(plans);
    }

    method WriteInstalls(call: Call, slots: seq<Slot>, plans: seq<InstallPlan>) returns (changes: seq<seq<PerNode>>)
      modifies this`desired, this`generations, this`audit
      ensures View() == Installed(call.libs, old(View()), slots, plans, call.connected, call.ids)
      ensures |changes| == |plans|
      ensures forall k :: 0 <= k < |plans| ==> changes[k] == WrittenPerNode(call, old(View()), slots, plans, k)
    {
      changes := [];
      ghost var st := View();
      for k := 0 to |plans|
        invariant View() == Installed(call.libs, st, slots, plans[..k], call.connected, call.ids)
        invariant |changes| == k
        invariant forall j :: 0 <= j < k ==> changes[j] == WrittenPerNode(call, st, slots, plans, j)
      {
        ghost var before := View();
        var perNode := WriteOne(call, slots, plans[k], call.ids(k));
        assert perNode == WrittenPerNode(call, st, slots, plans, k);
        assert View() == Installed(call.libs, st, slots, plans[..k + 1], call.connected, call.ids) by {
          assert plans[..k + 1][..k] == plans[..k] && plans[..k + 1][k] == plans[k];
          assert View() == OneInstalled(call.libs, before, slots, plans[k], call.connected, call.ids(k));
        }
        changes := changes + [perNode];
      }
      assert plans[..|plans|] == plans;
    }

    method FindTargets(sel: Selection) returns (r: Reply<seq<Slot>>)
      requires NodesUnique(nodes)
      ensures r == Targets(nodes, sel)
    {
      if sel.nodeIds == [] && sel.selector.None? {
        return Err(NoTargetNodes);
      }
      var slots := Resolve(nodes, sel);
      if slots == [] {
        return Err(NoTargetNodes);
      }
      return Ok(slots);
    }

    /** A dry run reads only; so does a batch without plans or without a known target. */
    method ApplyInstalls(call: Call, plans: seq<InstallPlan>, dryRun: bool) returns (r: Reply<seq<seq<PerNode>>>)
      requires NodesUnique(nodes)
      modifies this`desired, this`generations, this`audit
      ensures View() == InstallBatch(call, old(View()), plans, dryRun)
      ensures BatchReply(call, old(View()), plans, dryRun, r)
    {
      var targets := FindTargets(call.selection);
      if targets.Err? {
        return Err(targets.refusal);
      }
      var slots := targets.value;
      if dryRun || AllMissing(slots) || plans == [] {
        MissingInstallNothing(call.libs, View(), slots, plans, call.connected, call.ids);
        var changes := PreviewInstalls(call, slots, plans);
        return Ok(changes);
      }
      var changes := WriteInstalls(call, slots, plans);
      return Ok(changes);
    }

    method InstallVersion(call: Call, skill: string, version: string, accepted: Option<string>, dryRun: bool)
      returns (r: Reply<seq<PerNode>>)
      requires NodesUnique(nodes)
      modifies this`desired, this`generations, this`audit
      ensures View() == InstallOne(call, old(View()), skill, version, accepted, dryRun)
      ensures match InstallPlanOf(old(View()), call.builtin, skill, version, accepted)
        case Err(e) => r == Err(e)
        case Ok(plan) => BatchReply(call, old(View()), [plan], dryRun, if r.Ok? then Ok([r.value]) else Err(r.refusal))
    {
      if skill in call.builtin {
        return Err(BuiltinReadOnly);
      }
      if skill !in skills {
        return Err(Refusal.SkillUnknown);
      }
      var key := VersionKey(skill, version);
      if key !in versions {
        return Err(Refusal.VersionUnknown);
      }
      if versions[key].status == Deprecated || versions[key].status == Yanked {
        return Err(VersionNotInstallable);
      }
      if AcceptedHash(versions[key].capabilities, accepted).None? {
        return Err(CapabilitiesChanged);
      }
      var changes := ApplyInstalls(call, [PlanFor(skill, VersionRecord(version, versions[key]))], dryRun);
      if changes.Err? {
        return Err(changes.refusal);
      }
      return Ok(changes.value[0]);
    }

    /** The answer has one entry per item; each batch change is handed out under its skill's name. */
    method InstallBundleItems(call: Call, bundle: string, rows: string -> seq<VersionRecord>, accepted: map<string, string>,
                              dryRun: bool) returns (r: Reply<seq<BundleOperation>>)
      requires NodesUnique(nodes) && (bundle in bundles ==> ItemsDistinct(bundles[bundle]))
      modifies this`desired, this`generations, this`audit
      ensures View() == InstallBundle(call, old(View()), bundle, rows, accepted, dryRun)
      ensures BundleReply(call, old(View()), View(), bundle, rows, accepted, dryRun, r)
    {
      if bundle !in bundles {
        return Err(BundleUnknown);
      }
      ghost var st := View();
      var items := bundles[bundle];
      var plans := BundlePlans(call.libs, call.builtin, items, rows, accepted);
      if plans.Err? {
        return Err(plans.refusal);
      }
      var batch := ApplyInstalls(call, plans.value, dryRun);
      if batch.Err? {
        return Err(batch.refusal);
      }
      var slots := ResolvedSlots(nodes, call.selection);
      AcceptedHaveBest(call, items, rows, accepted);
      PlansCover(call.libs, call.builtin, items, rows);
      var operations := BatchAnswer(call, st, Sets(desired, generations), slots, items, plans.value, dryRun, batch.value);
      return Ok(operations);
    }

    method RollbackVersionOf(plans: seq<NodePlan>, explicit: Option<VersionRecord>) returns (r: Option<string>)
      ensures r == RollbackVersion(explicit, plans)
    {
      if explicit.Some? {
        return Some(explicit.value.version);
      }
      var found: Option<string> := None;
      for i := 0 to |plans|
        invariant found.None? <==> UpsertVersions(plans[..i]) == []
        invariant found.Some? ==> AllEqual(UpsertVersions(plans[..i]), found.value)
      {
        UpsertVersionsGrow(plans, i);
        if plans[i].action.Some? && plans[i].action.value.Upsert? {
          var version := plans[i].action.value.version;
          if found.None? {
            found := Some(version);
          } else if found.value != version {
            TwoVersions(plans, i);
            return None;
          }
        }
      }
      assert plans[..|plans|] == plans;
      return found;
    }

    method RollbackSkill(call: Call, skill: string, rows: seq<VersionRecord>, to: Option<string>) returns (r: Reply<seq<PerNode>>)
      requires NodesUnique(nodes)
      modifies this`desired, this`generations, this`audit
      ensures (View(), r) == Rollback(call, old(View()), skill, rows, to)
    {
      var explicit := RollbackRefusal(skills, call, skill, rows, to);
      if explicit.Err? {
        return Err(explicit.refusal);
      }
      var targets := FindTargets(call.selection);
      if targets.Err? {
        return Err(targets.refusal);
      }
      var slots := targets.value;
      var plans := RollbackPlans(call.libs.rank, slots, Sets(desired, generations), skill, explicit.value, rows, call.connected);
      if AllMissing(slots) {
        return Ok(PerNodes(plans));
      }
      if explicit.value.None? && NoneToRollBack(plans) {
        return Err(NothingToRollBack);
      }
      var version := RollbackVersionOf(plans, explicit.value);
      Persist(call.libs, skill, "skill.rollback", version, plans, call.ids(0));
      return Ok(PerNodes(plans));
    }

    method UninstallSkill(call: Call, skill: string, force: bool, inUse: bool) returns (r: Reply<seq<PerNode>>)
      requires NodesUnique(nodes)
      modifies this`desired, this`generations, this`audit
      ensures (View(), r) == Uninstall(call, old(View()), skill, force, inUse)
    {
      if skill in call.builtin {
        return Err(BuiltinReadOnly);
      }
      if skill !in skills {
        return Err(Refusal.SkillUnknown);
      }
      var targets := FindTargets(call.selection);
      if targets.Err? {
        return Err(targets.refusal);
      }
      var slots := targets.value;
      var plans := UninstallPlans(slots, Sets(desired, generations), skill, call.connected);
      if AllMissing(slots) {
        return Ok(PerNodes(plans));
      }
      if !force && inUse {
        return Err(SkillInUse);
      }
      Persist(call.libs, skill, "skill.uninstall", None, plans, call.ids(0));
      return Ok(PerNodes(plans));
    }

    // -------------------------------------------------------------- reports

    method InsertReported(libs: Libs, prior: ActualRows, r: Report, s: InstalledSkill)
      modifies this`actual, this`audit
      ensures actual == old(actual)[NodeSkill(r.node, s.name) := RowFor(r, s)]
      ensures audit == MaybeAudit(libs, old(audit), prior, r, s)
    {
      actual := actual[NodeSkill(r.node, s.name) := RowFor(r, s)];
      var action := NewsAction(prior, r.node, s);
      if action.Some? {
        AppendAudit(libs, action.value, s.name,
                    libs.json(ReportDetail(s.version, Norm(s.sha), s.state, s.reason, r.generation, s.attempts)),
                    Some(r.node));
      }
    }

    /** Replaces the rows of the node; a key error part way undoes everything. */
    method ApplyReport(libs: Libs, r: Report) returns (o: ReportOutcome)
      modifies this`actual, this`audit
      ensures (View(), o) == Reported(libs, old(View()), r)
    {
      var newest := NewestGeneration(r.node);
      if r.generation < newest {
        return Ignored;
      }
      var prior, priorAudit := actual, audit;
      var known := exists i :: 0 <= i < |nodes| && nodes[i].id == r.node;
      actual := Cleared(actual, r.node);
      ghost var base := actual;
      for i := 0 to |r.skills|
        invariant actual == RowsFrom(base, r, r.skills[..i])
        invariant audit == AuditFrom(libs, priorAudit, prior, r, r.skills[..i])
        invariant i > 0 ==> known
        invariant NamesDistinct(r.skills[..i])
      {
        var s := r.skills[i];
        RowsFromKeys(base, r, r.skills[..i], NodeSkill(r.node, s.name));
        DistinctSoFar(r.skills, i);
        if !known || NodeSkill(r.node, s.name) in actual {
          actual, audit := prior, priorAudit;
          return Failed;
        }
        assert r.skills[..i + 1][..i] == r.skills[..i];
        InsertReported(libs, prior, r, s);
      }
      assert r.skills[..|r.skills|] == r.skills;
      return Applied;
    }

    /** The greatest applied generation among the node's rows, at least 0. */
    method NewestGeneration(node: string) returns (newest: int)
      ensures newest >= 0
      ensures forall k :: k in actual && k.node == node ==> actual[k].appliedGeneration <= newest
      ensures newest == 0 || exists k :: k in actual && k.node == node && actual[k].appliedGeneration == newest
    {
      newest := 0;
      var todo := actual.Keys;
      while todo != {}
        invariant todo <= actual.Keys && newest >= 0
        invariant forall k :: k in actual && k !in todo && k.node == node ==> actual[k].appliedGeneration <= newest
        invariant newest == 0 || exists k :: k in actual && k.node == node && actual[k].appliedGeneration == newest
        decreases |todo|
      {
        var k :| k in todo;
        todo := todo - {k};
        if k.node == node && actual[k].appliedGeneration > newest {
          newest := actual[k].appliedGeneration;
        }
      }
    }
  }

  method BatchAnswer(call: Call, ghost st: Store, after: Sets, slots: seq<Slot>, items: seq<BundleItem>,
                     plans: seq<InstallPlan>, ghost dryRun: bool, perNodes: seq<seq<PerNode>>) returns (operations: seq<BundleOperation>)
    requires ItemsDistinct(items) && SkillsDistinct(plans) && |plans| == |perNodes|
    requires forall i :: 0 <= i < |items| && items[i].skill !in call.builtin ==> HasPlan(plans, items[i].skill)
    requires forall k :: 0 <= k < |plans| ==> plans[k].skill !in call.builtin
    requires forall k :: 0 <= k < |plans| ==> perNodes[k] == PerNodeOf(call, st, slots, plans, dryRun, k)
    ensures |operations| == |items|
    ensures forall i :: 0 <= i < |items| ==> ItemAnswered(call, st, after, slots, plans, dryRun, items[i], operations[i])
  {
    var builtinNodes := BuiltinPerNode(after, slots);
    var changes := ChangesOf(plans, perNodes);
    ChangesCover(items, call.builtin, plans, perNodes);
    operations := Answer(items, call.builtin, changes, builtinNodes);
    forall i | 0 <= i < |items| ensures ItemAnswered(call, st, after, slots, plans, dryRun, items[i], operations[i]) {
      assert Answers(items[i], call.builtin, changes, builtinNodes, operations[i]);
      if items[i].skill !in call.builtin {
        ChangeReports(call, st, slots, plans, dryRun, perNodes, operations[i]);
      }
    }
  }

  function ChangesOf(plans: seq<InstallPlan>, perNodes: seq<seq<PerNode>>): seq<BundleOperation>
    requires |plans| == |perNodes|
  {
    seq(|plans|, k requires 0 <= k < |plans| => BundleOperation(plans[k].skill, perNodes[k]))
  }

  lemma ChangesCover(items: seq<BundleItem>, builtin: set<string>, plans: seq<InstallPlan>, perNodes: seq<seq<PerNode>>)
    requires |plans| == |perNodes|
    requires forall i :: 0 <= i < |items| && items[i].skill !in builtin ==> HasPlan(plans, items[i].skill)
    ensures forall i :: 0 <= i < |items| && items[i].skill !in builtin ==> HasChange(ChangesOf(plans, perNodes), items[i].skill)
  {
    var changes := ChangesOf(plans, perNodes);
    forall i | 0 <= i < |items| && items[i].skill !in builtin ensures HasChange(changes, items[i].skill) {
      var k :| 0 <= k < |plans| && plans[k].skill == items[i].skill;
      assert changes[k].skill == items[i].skill;
    }
  }

  lemma ChangeReports(call: Call, st: Store, slots: seq<Slot>, plans: seq<InstallPlan>, dryRun: bool,
                      perNodes: seq<seq<PerNode>>, operation: BundleOperation)
    requires |plans| == |perNodes| && operation in ChangesOf(plans, perNodes)
    requires forall k :: 0 <= k < |plans| ==> perNodes[k] == PerNodeOf(call, st, slots, plans, dryRun, k)
    ensures ReportsPlan(call, st, slots, plans, dryRun, operation)
  {
    var k :| 0 <= k < |plans| && ChangesOf(plans, perNodes)[k] == operation;
    assert plans[k].skill == operation.skill && operation.perNode == PerNodeOf(call, st, slots, plans, dryRun, k);
  }

  lemma {:induction false} MissingInstallNothing(libs: Libs, st: Store, slots: seq<Slot>, plans: seq<InstallPlan>,
                                                 connected: set<string>, ids: nat -> string)
    ensures AllMissing(slots) || plans == [] ==> Installed(libs, st, slots, plans, connected, ids) == st
    decreases |plans|
  {
    if plans != [] && AllMissing(slots) {
      var k := |plans| - 1;
      MissingInstallNothing(libs, st, slots, plans[..k], connected, ids);
      var nodePlans := InstallPlans(libs.rank, slots, SetsOf(st), plans[k], connected, true);
      assert AllUnknown(nodePlans);
    }
  }

  lemma {:induction false} RowsFromKeys(actual: ActualRows, r: Report, skills: seq<InstalledSkill>, k: NodeSkill)
    ensures k in RowsFrom(actual, r, skills) <==> k in actual || (k.node == r.node && Reports(skills, k.skill))
    decreases |skills|
  {
    if skills != [] {
      RowsFromKeys(actual, r, skills[..|skills| - 1], k);
      ReportsSplit(skills, k.skill);
    }
  }

  lemma DistinctSoFar(skills: seq<InstalledSkill>, i: nat)
    requires i < |skills| && NamesDistinct(skills[..i])
    ensures Reports(skills[..i], skills[i].name) ==> !NamesDistinct(skills)
    ensures !Reports(skills[..i], skills[i].name) ==> NamesDistinct(skills[..i + 1])
  {
    if Reports(skills[..i], skills[i].name) {
      var j :| 0 <= j < i && skills[..i][j].name == skills[i].name;
      assert skills[j].name == skills[i].name;
    } else {
      forall j | 0 <= j < i ensures skills[j].name != skills[i].name {
        assert skills[..i][j].name == skills[j].name;
      }
      forall j, k | 0 <= j < k < i ensures skills[j].name != skills[k].name {
        assert skills[..i][j].name != skills[..i][k].name;
      }
    }
  }

  predicate AllEqual(found: seq<string>, v: string) {
    forall i :: 0 <= i < |found| ==> found[i] == v
  }

  lemma UpsertVersionsGrow(plans: seq<NodePlan>, i: nat)
    requires i < |plans|
    ensures UpsertVersions(plans[..i + 1]) == UpsertVersions(plans[..i])
      + (if plans[i].action.Some? && plans[i].action.value.Upsert? then [plans[i].action.value.version] else [])
  {
    assert plans[..i + 1][..i] == plans[..i];
  }

  lemma UpsertVersionsPrefix(plans: seq<NodePlan>, i: nat)
    requires i <= |plans|
    ensures |UpsertVersions(plans[..i])| <= |UpsertVersions(plans)|
    ensures UpsertVersions(plans)[..|UpsertVersions(plans[..i])|] == UpsertVersions(plans[..i])
    decreases |plans| - i
  {
    if i == |plans| {
      assert plans[..i] == plans;
    } else {
      UpsertVersionsPrefix(plans, i + 1);
      UpsertVersionsGrow(plans, i);
    }
  }

  lemma TwoVersions(plans: seq<NodePlan>, i: nat)
    requires i < |plans| && plans[i].action.Some? && plans[i].action.value.Upsert?
    requires UpsertVersions(plans[..i]) != [] && UpsertVersions(plans[..i])[0] != plans[i].action.value.version
    ensures RollbackVersion(None, plans) == None
  {
    UpsertVersionsGrow(plans, i);
    UpsertVersionsPrefix(plans, i + 1);
    var found, m := UpsertVersions(plans), |UpsertVersions(plans[..i])|;
    assert found[..m + 1] == UpsertVersions(plans[..i]) + [plans[i].action.value.version];
    assert found[0] == found[..m + 1][0] && found[m] == found[..m + 1][m];
  }
}
