/** All runs of the skill tables: what every request, report and outside edit keeps. */
module SkillSystem {
  import opened Text
  import opened Tables
  import opened Desired
  import opened Catalog
  import opened Changes
  import opened Bundles
  import opened Requests
  import opened Delivery
  import Audit

  datatype Action =
    | Publishing(pkg: Package)
    | Deleting(key: VersionKey)
    | Installing(call: Call, skill: string, version: string, accepted: Option<string>, dryRun: bool)
    | InstallingBundle(call: Call, bundle: string, rows: string -> seq<VersionRecord>,
                       hashes: map<string, string>, dryRun: bool)
    | RollingBack(call: Call, skill: string, records: seq<VersionRecord>, to: Option<string>)
    | Uninstalling(call: Call, skill: string, force: bool, inUse: bool)
    | Reporting(report: Report)
    | SettingStatus(key: VersionKey, status: Status)                     // by an operator, outside the program
    | EditingBundle(bundle: string, items: seq<BundleItem>)
    | RemovingBundle(bundle: string)
    | Registering(nodes: seq<LiveNode>)                                  // the node table after a Register
    | Auditing(said: Audit.Said, node: Option<string>)                   // tags, targets and denials

  /** What the database and the callers guarantee of an action. */
  ghost predicate Legal(libs: Libs, st: Store, a: Action) {
    match a
    case Installing(call, _, _, _, _) => call.libs == libs
    case InstallingBundle(call, bundle, rows, _, _) => call.libs == libs && forall skill :: Loaded(st, skill, rows(skill))
    case RollingBack(call, skill, records, _) => call.libs == libs && Loaded(st, skill, records)
    case Uninstalling(call, _, _, _) => call.libs == libs
    case EditingBundle(_, items) => ItemsDistinct(items)
    case Registering(nodes) => NodesUnique(nodes)
    case Auditing(said, _) => Audit.OneLine(said.action) && Audit.OneLine(said.detail)
    case _ => true
  }

  function Step(libs: Libs, st: Store, a: Action): Store {
    match a
    case Publishing(pkg) => Publish(st, libs.digest, pkg).0
    case Deleting(key) => Delete(st, key).0
    case Installing(call, skill, version, accepted, dryRun) => InstallOne(call, st, skill, version, accepted, dryRun)
    case InstallingBundle(call, bundle, rows, hashes, dryRun) => InstallBundle(call, st, bundle, rows, hashes, dryRun)
    case RollingBack(call, skill, records, to) => Rollback(call, st, skill, records, to).0
    case Uninstalling(call, skill, force, inUse) => Uninstall(call, st, skill, force, inUse).0
    case Reporting(report) => Reported(libs, st, report).0
    case SettingStatus(key, status) =>
      if key in st.versions then st.(versions := st.versions[key := st.versions[key].(status := status)]) else st
    case EditingBundle(bundle, items) => st.(bundles := st.bundles[bundle := items])
    case RemovingBundle(bundle) => st.(bundles := st.bundles - {bundle})
    case Registering(nodes) => st.(nodes := nodes)
    case Auditing(said, node) => st.(audit := Audit.Appended(libs.line, st.audit, said.action, said.target, said.detail, node))
  }

  ghost predicate LibsOk(libs: Libs) {
    Audit.HexLike(libs.line) && NormalDigests(libs.digest) && forall d :: Audit.OneLine(libs.json(d))
  }

  ghost predicate AuditOk(libs: Libs, audit: seq<Audit.Event>) {
    Audit.ValidChain(libs.line, audit) && Audit.Clean(audit)
  }

  ghost predicate Inv(libs: Libs, st: Store) {
    && Agreement(st, libs.digest)
    && AuditOk(libs, st.audit)
    && NodesUnique(st.nodes)
    && (forall b :: b in st.bundles ==> ItemsDistinct(st.bundles[b]))
  }

  // ---------------------------------------------------------------- the audit chain

  lemma AppendKeepsAudit(libs: Libs, audit: seq<Audit.Event>, action: string, target: string, detail: string, node: Option<string>)
    requires AuditOk(libs, audit) && Audit.OneLine(action) && Audit.OneLine(detail)
    ensures AuditOk(libs, Audit.Appended(libs.line, audit, action, target, detail, node))
  {
    Audit.AppendKeepsChain(libs.line, audit, action, target, detail, node);
  }

  lemma PersistedKeepsAudit(libs: Libs, st: Store, skill: string, action: string, target: Option<string>,
                            plans: seq<NodePlan>, id: string)
    requires LibsOk(libs) && AuditOk(libs, st.audit) && Audit.OneLine(action)
    ensures AuditOk(libs, Persisted(libs, st, skill, action, target, plans, id).audit)
  {
    var detail := libs.json(OperationDetail(id, skill, target, PerNodes(plans)));
    AppendKeepsAudit(libs, st.audit, action, skill, detail, SingleNode(plans));
  }

  lemma OneInstalledKeepsAudit(libs: Libs, st: Store, slots: seq<Slot>, plan: InstallPlan, connected: set<string>, id: string)
    requires LibsOk(libs) && AuditOk(libs, st.audit)
    ensures AuditOk(libs, OneInstalled(libs, st, slots, plan, connected, id).audit)
  {
    var written := InstallPlans(libs.rank, slots, SetsOf(st), plan, connected, true);
    PersistedKeepsAudit(libs, st, plan.skill, InstallAction(written), Some(plan.version), written, id);
  }

  lemma {:induction false} InstalledKeepsAudit(libs: Libs, st: Store, slots: seq<Slot>, plans: seq<InstallPlan>,
                                               connected: set<string>, ids: nat -> string)
    requires LibsOk(libs) && AuditOk(libs, st.audit)
    ensures AuditOk(libs, Installed(libs, st, slots, plans, connected, ids).audit)
    decreases |plans|
  {
    if plans != [] {
      var k := |plans| - 1;
      InstalledKeepsAudit(libs, st, slots, plans[..k], connected, ids);
      OneInstalledKeepsAudit(libs, Installed(libs, st, slots, plans[..k], connected, ids), slots, plans[k], connected, ids(k));
    }
  }

  lemma {:induction false} ReportKeepsAudit(libs: Libs, audit: seq<Audit.Event>, prior: ActualRows, r: Report, skills: seq<InstalledSkill>)
    requires LibsOk(libs) && AuditOk(libs, audit)
    ensures AuditOk(libs, AuditFrom(libs, audit, prior, r, skills))
    decreases |skills|
  {
    if skills != [] {
      var last := skills[|skills| - 1];
      ReportKeepsAudit(libs, audit, prior, r, skills[..|skills| - 1]);
      var before := AuditFrom(libs, audit, prior, r, skills[..|skills| - 1]);
      var action := NewsAction(prior, r.node, last);
      if action.Some? {
        var detail := libs.json(ReportDetail(last.version, Norm(last.sha), last.state, last.reason, r.generation, last.attempts));
        AppendKeepsAudit(libs, before, action.value, last.name, detail, Some(r.node));
      }
    }
  }

  // ---------------------------------------------------------------- wanted rows name catalog versions

  ghost predicate WritesInCatalog(versions: Versions, skill: string, plans: seq<NodePlan>) {
    forall i :: 0 <= i < |plans| && plans[i].action.Some? && plans[i].action.value.Upsert? ==>
      InCatalog(versions, skill, Snap(plans[i].action.value.version, plans[i].action.value.sha))
  }

  lemma {:induction false} ApplyKeepsCatalog(versions: Versions, s: Sets, skill: string, plans: seq<NodePlan>)
    requires DesiredInCatalog(s.desired, versions) && WritesInCatalog(versions, skill, plans)
    ensures DesiredInCatalog(ApplyPlans(s, skill, plans).desired, versions)
    decreases |plans|
  {
    if plans != [] {
      ApplyKeepsCatalog(versions, s, skill, plans[..|plans| - 1]);
      ApplyOneKeepsCatalog(versions, ApplyPlans(s, skill, plans[..|plans| - 1]), skill, plans[|plans| - 1]);
    }
  }

  lemma ApplyOneKeepsCatalog(versions: Versions, s: Sets, skill: string, plan: NodePlan)
    requires DesiredInCatalog(s.desired, versions)
    requires plan.action.Some? && plan.action.value.Upsert? ==>
      InCatalog(versions, skill, Snap(plan.action.value.version, plan.action.value.sha))
    ensures DesiredInCatalog(ApplyPlan(s, skill, plan).desired, versions)
  {
  }

  ghost predicate PlanInCatalog(st: Store, plan: InstallPlan) {
    InCatalog(st.versions, plan.skill, Snap(plan.version, plan.sha))
  }

  lemma InstallWritesInCatalog(rank: string -> Option<Rank>, slots: seq<Slot>, s: Sets, versions: Versions, plan: InstallPlan, connected: set<string>)
    requires InCatalog(versions, plan.skill, Snap(plan.version, plan.sha))
    ensures WritesInCatalog(versions, plan.skill, InstallPlans(rank, slots, s, plan, connected, true))
  {
  }

  /** Everything but the desired sets and the audit log is as before. */
  predicate SameBeside(st: Store, t: Store) {
    t == st.(desired := t.desired, generations := t.generations, audit := t.audit)
  }

  lemma {:induction false} InstalledKeepsCatalog(libs: Libs, st: Store, slots: seq<Slot>, plans: seq<InstallPlan>,
                                                 connected: set<string>, ids: nat -> string)
    requires DesiredInCatalog(st.desired, st.versions) && forall i :: 0 <= i < |plans| ==> PlanInCatalog(st, plans[i])
    ensures DesiredInCatalog(Installed(libs, st, slots, plans, connected, ids).desired, st.versions)
    ensures SameBeside(st, Installed(libs, st, slots, plans, connected, ids))
    decreases |plans|
  {
    if plans != [] {
      var k := |plans| - 1;
      InstalledKeepsCatalog(libs, st, slots, plans[..k], connected, ids);
      var before := Installed(libs, st, slots, plans[..k], connected, ids);
      OneInstalledSets(libs, before, slots, plans[k], connected, ids(k));
      InstallWritesInCatalog(libs.rank, slots, SetsOf(before), st.versions, plans[k], connected);
      ApplyKeepsCatalog(st.versions, SetsOf(before), plans[k].skill,
                        InstallPlans(libs.rank, slots, SetsOf(before), plans[k], connected, true));
    }
  }

  lemma PreviousIsRow(rank: string -> Option<Rank>, rows: seq<VersionRecord>, current: Rank)
    ensures PreviousVersion(rank, rows, current).Some? ==> PreviousVersion(rank, rows, current).value in rows
  {
    HighestIsGreatest(rank, rows, v => Eligible(rank, v, current));
  }

  lemma RollbackWritesInCatalog(rank: string -> Option<Rank>, slots: seq<Slot>, s: Sets, st: Store, skill: string,
                                explicit: Option<VersionRecord>, rows: seq<VersionRecord>, connected: set<string>)
    requires Loaded(st, skill, rows) && (explicit.Some? ==> explicit.value in rows)
    ensures WritesInCatalog(st.versions, skill, RollbackPlans(rank, slots, s, skill, explicit, rows, connected))
  {
    var plans := RollbackPlans(rank, slots, s, skill, explicit, rows, connected);
    forall i | 0 <= i < |plans| && plans[i].action.Some? && plans[i].action.value.Upsert?
      ensures InCatalog(st.versions, skill, Snap(plans[i].action.value.version, plans[i].action.value.sha)) {
      var have := Lookup(s.desired, slots[i].node.id, skill);
      if explicit.None? {
        PreviousIsRow(rank, rows, rank(have.value.version).value);
      }
      var target := RollbackTarget(rank, have, explicit, rows).value;
      assert target in rows;
    }
  }

  lemma FoundIsRow(rows: seq<VersionRecord>, version: string)
    ensures FindVersion(rows, version).Some? ==> FindVersion(rows, version).value in rows
  {
  }

  // ---------------------------------------------------------------- steps keep the invariant

  lemma BatchKeepsInv(libs: Libs, st: Store, call: Call, plans: seq<InstallPlan>, dryRun: bool)
    requires LibsOk(libs) && Inv(libs, st) && call.libs == libs
    requires forall i :: 0 <= i < |plans| ==> PlanInCatalog(st, plans[i])
    ensures Inv(libs, InstallBatch(call, st, plans, dryRun))
  {
    var targets := Targets(st.nodes, call.selection);
    if targets.Ok? && !dryRun {
      InstalledKeepsAudit(libs, st, targets.value, plans, call.connected, call.ids);
      InstalledKeepsCatalog(libs, st, targets.value, plans, call.connected, call.ids);
    }
  }

  lemma BundlePlansInCatalog(libs: Libs, st: Store, call: Call, bundle: string, rows: string -> seq<VersionRecord>)
    requires Inv(libs, st) && call.libs == libs && bundle in st.bundles
    requires forall skill :: Loaded(st, skill, rows(skill))
    ensures var plans := PlansOf(libs, call.builtin, st.bundles[bundle], rows);
      SkillsDistinct(plans) && forall i :: 0 <= i < |plans| ==> PlanInCatalog(st, plans[i])
  {
    var items := st.bundles[bundle];
    var plans := PlansOf(libs, call.builtin, items, rows);
    PlansAreBest(libs, st, call.builtin, items, rows);
    forall i | 0 <= i < |plans| ensures PlanInCatalog(st, plans[i]) {
      assert PlanIsBest(libs, st, items, plans[i]);
    }
  }

  lemma PersistedKeepsInv(libs: Libs, st: Store, skill: string, action: string, target: Option<string>,
                          plans: seq<NodePlan>, id: string)
    requires LibsOk(libs) && Inv(libs, st) && Audit.OneLine(action) && WritesInCatalog(st.versions, skill, plans)
    ensures Inv(libs, Persisted(libs, st, skill, action, target, plans, id))
  {
    PersistedKeepsAudit(libs, st, skill, action, target, plans, id);
    ApplyKeepsCatalog(st.versions, SetsOf(st), skill, plans);
  }

  lemma RolledBackIs(libs: Libs, st: Store, slots: seq<Slot>, skill: string, explicit: Option<VersionRecord>,
                     rows: seq<VersionRecord>, connected: set<string>, id: string)
    ensures var after, plans := RolledBack(libs, st, slots, skill, explicit, rows, connected, id).0,
                                RollbackPlans(libs.rank, slots, SetsOf(st), skill, explicit, rows, connected);
      after == st || after == Persisted(libs, st, skill, "skill.rollback", RollbackVersion(explicit, plans), plans, id)
  {
  }

  lemma RolledBackKeepsInv(libs: Libs, st: Store, slots: seq<Slot>, skill: string, explicit: Option<VersionRecord>,
                           rows: seq<VersionRecord>, connected: set<string>, id: string)
    requires LibsOk(libs) && Inv(libs, st) && Loaded(st, skill, rows) && (explicit.Some? ==> explicit.value in rows)
    ensures Inv(libs, RolledBack(libs, st, slots, skill, explicit, rows, connected, id).0)
  {
    RollbackWritesInCatalog(libs.rank, slots, SetsOf(st), st, skill, explicit, rows, connected);
    var plans := RollbackPlans(libs.rank, slots, SetsOf(st), skill, explicit, rows, connected);
    PersistedKeepsInv(libs, st, skill, "skill.rollback", RollbackVersion(explicit, plans), plans, id);
    RolledBackIs(libs, st, slots, skill, explicit, rows, connected, id);
  }

  lemma RollbackKeepsInv(libs: Libs, st: Store, call: Call, skill: string, rows: seq<VersionRecord>, to: Option<string>)
    requires LibsOk(libs) && Inv(libs, st) && call.libs == libs && Loaded(st, skill, rows)
    ensures Inv(libs, Rollback(call, st, skill, rows, to).0)
  {
    var explicit := RollbackRefusal(st.skills, call, skill, rows, to);
    var targets := Targets(st.nodes, call.selection);
    if explicit.Ok? && targets.Ok? {
      if explicit.value.Some? {
        FoundIsRow(rows, Trim(to.value, IsSpace));
      }
      RolledBackKeepsInv(libs, st, targets.value, skill, explicit.value, rows, call.connected, call.ids(0));
    }
  }

  lemma UninstallKeepsInv(libs: Libs, st: Store, call: Call, skill: string, force: bool, inUse: bool)
    requires LibsOk(libs) && Inv(libs, st) && call.libs == libs
    ensures Inv(libs, Uninstall(call, st, skill, force, inUse).0)
  {
    var targets := Targets(st.nodes, call.selection);
    if targets.Ok? {
      var plans := UninstallPlans(targets.value, SetsOf(st), skill, call.connected);
      PersistedKeepsInv(libs, st, skill, "skill.uninstall", None, plans, call.ids(0));
    }
  }

  lemma StatusKeepsAgreement(st: Store, digest: Bytes -> string, key: VersionKey, status: Status)
    requires Agreement(st, digest) && key in st.versions
    ensures Agreement(st.(versions := st.versions[key := st.versions[key].(status := status)]), digest)
  {
    var after := st.versions[key := st.versions[key].(status := status)];
    forall sha | sha in st.artifacts ensures Uses(after, sha) {
      var k :| k in st.versions && st.versions[k].sha == sha;
      assert after[k].sha == sha;
    }
  }

  predicate SameBesideCatalog(st: Store, t: Store) {
    t == st.(skills := t.skills, versions := t.versions, artifacts := t.artifacts)
  }

  lemma CatalogStepFrame(libs: Libs, st: Store, a: Action)
    requires a.Publishing? || a.Deleting? || a.SettingStatus?
    ensures SameBesideCatalog(st, Step(libs, st, a))
  {
    match a {
      case Publishing(pkg) => PublishFrame(st, libs.digest, pkg);
      case Deleting(key) => DeleteFrame(st, key);
      case SettingStatus(_, _) =>
    }
  }

  lemma PublishFrame(st: Store, digest: Bytes -> string, pkg: Package)
    ensures SameBesideCatalog(st, Publish(st, digest, pkg).0)
  {
  }

  lemma DeleteFrame(st: Store, key: VersionKey)
    ensures SameBesideCatalog(st, Delete(st, key).0)
  {
  }

  lemma CatalogStepKeepsInv(libs: Libs, st: Store, a: Action)
    requires Inv(libs, st) && (a.Publishing? || a.Deleting? || a.SettingStatus?)
    ensures Inv(libs, Step(libs, st, a))
  {
    CatalogStepFrame(libs, st, a);
    CatalogStepKeepsAgreement(libs, st, a);
  }

  lemma CatalogStepKeepsAgreement(libs: Libs, st: Store, a: Action)
    requires Agreement(st, libs.digest) && (a.Publishing? || a.Deleting? || a.SettingStatus?)
    ensures Agreement(Step(libs, st, a), libs.digest)
  {
    if a.Publishing? {
      PublishKeeps(st, libs.digest, a.pkg);
    } else if a.Deleting? {
      DeleteKeeps(st, libs.digest, a.key);
    } else if a.key in st.versions {
      StatusKeepsAgreement(st, libs.digest, a.key, a.status);
    }
  }

  lemma InstallStepKeepsInv(libs: Libs, st: Store, a: Action)
    requires LibsOk(libs) && Inv(libs, st) && Legal(libs, st, a) && (a.Installing? || a.InstallingBundle?)
    ensures Inv(libs, Step(libs, st, a))
  {
    match a {
      case Installing(call, skill, version, accepted, dryRun) =>
        var plan := InstallPlanOf(st, call.builtin, skill, version, accepted);
        if plan.Ok? {
          BatchKeepsInv(libs, st, call, [plan.value], dryRun);
        }
      case InstallingBundle(call, bundle, rows, hashes, dryRun) =>
        if bundle in st.bundles {
          BundlePlansInCatalog(libs, st, call, bundle, rows);
          BatchKeepsInv(libs, st, call, PlansOf(libs, call.builtin, st.bundles[bundle], rows), dryRun);
        }
    }
  }

  lemma StepKeepsInv(libs: Libs, st: Store, a: Action)
    requires LibsOk(libs) && Inv(libs, st) && Legal(libs, st, a)
    ensures Inv(libs, Step(libs, st, a))
  {
    if a.Publishing? || a.Deleting? || a.SettingStatus? {
      CatalogStepKeepsInv(libs, st, a);
    } else if a.Installing? || a.InstallingBundle? {
      InstallStepKeepsInv(libs, st, a);
    } else if a.RollingBack? {
      RollbackKeepsInv(libs, st, a.call, a.skill, a.records, a.to);
    } else if a.Uninstalling? {
      UninstallKeepsInv(libs, st, a.call, a.skill, a.force, a.inUse);
    } else if a.Reporting? {
      ReportKeepsAudit(libs, st.audit, st.actual, a.report, a.report.skills);
    } else if a.Auditing? {
      AppendKeepsAudit(libs, st.audit, a.said.action, a.said.target, a.said.detail, a.node);
    }
  }

  // ---------------------------------------------------------------- runs

  function Start(): Store {
    Store([], {}, map[], map[], map[], map[], map[], map[], [])
  }

  /** `states[i + 1]` is `states[i]` after `actions[i]`. */
  ghost predicate IsRun(libs: Libs, states: seq<Store>, actions: seq<Action>) {
    && |states| == |actions| + 1 && states[0] == Start()
    && (forall i :: 0 <= i < |actions| ==> IsStep(libs, states[i], actions[i], states[i + 1]))
  }

  ghost predicate IsStep(libs: Libs, st: Store, a: Action, t: Store) {
    Legal(libs, st, a) && t == Step(libs, st, a)
  }

  lemma {:induction false} RunKeepsInv(libs: Libs, states: seq<Store>, actions: seq<Action>, i: nat)
    requires LibsOk(libs) && IsRun(libs, states, actions) && i < |states|
    ensures Inv(libs, states[i])
  {
    if i > 0 {
      RunKeepsInv(libs, states, actions, i - 1);
      assert IsStep(libs, states[i - 1], actions[i - 1], states[i]);
      StepKeepsInv(libs, states[i - 1], actions[i - 1]);
    }
  }

  /** In every state of every run: what a node is sent is complete and can be fetched as described. */
  lemma DeliveryIsComplete(libs: Libs, states: seq<Store>, actions: seq<Action>, i: nat, node: string,
                           names: seq<string>, tickets: seq<string>)
    requires LibsOk(libs) && IsRun(libs, states, actions) && i < |states| && |tickets| == |names|
    requires forall k :: 0 <= k < |names| ==> NodeSkill(node, names[k]) in states[i].desired
    ensures AllMatch(states[i], libs.digest, node, names, RefsOf(states[i], node, names, tickets))
  {
    RunKeepsInv(libs, states, actions, i);
    JoinDropsNothing(states[i], libs.digest, node, names, tickets);
  }

  /** In every run the artifacts are exactly the blobs of the catalog's versions. */
  lemma ArtifactsAreExact(libs: Libs, states: seq<Store>, actions: seq<Action>, i: nat, sha: string)
    requires LibsOk(libs) && IsRun(libs, states, actions) && i < |states|
    ensures sha in states[i].artifacts <==> Uses(states[i].versions, sha)
    ensures sha in states[i].artifacts ==> libs.digest(states[i].artifacts[sha]) == sha
  {
    RunKeepsInv(libs, states, actions, i);
    if k :| k in states[i].versions && states[i].versions[k].sha == sha {
      assert states[i].versions[k].sha in states[i].artifacts;
    }
  }

  /** Two runs that end in the same audit hash tell one story, unless the hash is broken. */
  lemma AuditTellsTampering(libs: Libs, states: seq<Store>, actions: seq<Action>, i: nat, other: seq<Audit.Event>)
    requires LibsOk(libs) && IsRun(libs, states, actions) && i < |states|
    requires AuditOk(libs, other) && Audit.Head(other) == Audit.Head(states[i].audit)
    ensures Audit.Story(other) == Audit.Story(states[i].audit) || Audit.Collision(libs.line, states[i].audit, other)
  {
    RunKeepsInv(libs, states, actions, i);
    Audit.SameHeadSameStory(libs.line, states[i].audit, other);
  }

  // ---------------------------------------------------------------- generations

  lemma UnchangedCounts(s: Sets, node: string)
    ensures Counted(s, s, node)
  {
    NothingDiffers(s, s, node);
  }

  lemma BatchCounts(st: Store, call: Call, plans: seq<InstallPlan>, dryRun: bool, node: string)
    requires NodesUnique(st.nodes) && SkillsDistinct(plans)
    ensures Counted(SetsOf(st), SetsOf(InstallBatch(call, st, plans, dryRun)), node)
  {
    var targets := Targets(st.nodes, call.selection);
    if targets.Ok? && !dryRun {
      ResolvedOnce(st.nodes, call.selection);
      InstalledIsCounted(call.libs, st, targets.value, plans, call.connected, call.ids, node);
    } else {
      UnchangedCounts(SetsOf(st), node);
    }
  }

  lemma RolledBackCounts(libs: Libs, st: Store, slots: seq<Slot>, skill: string, explicit: Option<VersionRecord>,
                         rows: seq<VersionRecord>, connected: set<string>, id: string, node: string)
    requires SlotsUnique(slots)
    ensures Counted(SetsOf(st), SetsOf(RolledBack(libs, st, slots, skill, explicit, rows, connected, id).0), node)
  {
    UnchangedCounts(SetsOf(st), node);
    RollbackPlansFit(libs.rank, slots, SetsOf(st), skill, explicit, rows, connected);
    AppliedIsCounted(SetsOf(st), skill, RollbackPlans(libs.rank, slots, SetsOf(st), skill, explicit, rows, connected), node);
  }

  lemma RollbackCounts(st: Store, call: Call, skill: string, rows: seq<VersionRecord>, to: Option<string>, node: string)
    requires NodesUnique(st.nodes)
    ensures Counted(SetsOf(st), SetsOf(Rollback(call, st, skill, rows, to).0), node)
  {
    var explicit := RollbackRefusal(st.skills, call, skill, rows, to);
    var targets := Targets(st.nodes, call.selection);
    if explicit.Ok? && targets.Ok? {
      ResolvedOnce(st.nodes, call.selection);
      RolledBackCounts(call.libs, st, targets.value, skill, explicit.value, rows, call.connected, call.ids(0), node);
    } else {
      UnchangedCounts(SetsOf(st), node);
    }
  }

  lemma UninstalledCounts(libs: Libs, st: Store, slots: seq<Slot>, skill: string, force: bool, inUse: bool,
                          connected: set<string>, id: string, node: string)
    requires SlotsUnique(slots)
    ensures Counted(SetsOf(st), SetsOf(Uninstalled(libs, st, slots, skill, force, inUse, connected, id).0), node)
  {
    UnchangedCounts(SetsOf(st), node);
    UninstallPlansFit(slots, SetsOf(st), skill, connected);
    AppliedIsCounted(SetsOf(st), skill, UninstallPlans(slots, SetsOf(st), skill, connected), node);
  }

  lemma UninstallCounts(st: Store, call: Call, skill: string, force: bool, inUse: bool, node: string)
    requires NodesUnique(st.nodes)
    ensures Counted(SetsOf(st), SetsOf(Uninstall(call, st, skill, force, inUse).0), node)
  {
    var targets := Targets(st.nodes, call.selection);
    if targets.Ok? {
      ResolvedOnce(st.nodes, call.selection);
      UninstalledCounts(call.libs, st, targets.value, skill, force, inUse, call.connected, call.ids(0), node);
    }
    UnchangedCounts(SetsOf(st), node);
  }

  lemma InstallStepCounts(libs: Libs, st: Store, a: Action, node: string)
    requires Inv(libs, st) && Legal(libs, st, a) && (a.Installing? || a.InstallingBundle?)
    ensures Counted(SetsOf(st), SetsOf(Step(libs, st, a)), node)
  {
    UnchangedCounts(SetsOf(st), node);
    match a {
      case Installing(call, skill, version, accepted, dryRun) =>
        var plan := InstallPlanOf(st, call.builtin, skill, version, accepted);
        if plan.Ok? {
          BatchCounts(st, call, [plan.value], dryRun, node);
        }
      case InstallingBundle(call, bundle, rows, hashes, dryRun) =>
        if bundle in st.bundles {
          BundlePlansInCatalog(libs, st, call, bundle, rows);
          BatchCounts(st, call, PlansOf(libs, call.builtin, st.bundles[bundle], rows), dryRun, node);
        }
    }
  }

  /** Publishing, reports and the rest leave every desired set and generation alone. */
  lemma OtherStepsLeaveSets(libs: Libs, st: Store, a: Action)
    requires !a.Installing? && !a.InstallingBundle? && !a.RollingBack? && !a.Uninstalling?
    ensures SetsOf(Step(libs, st, a)) == SetsOf(st)
  {
  }

  /** Every step raises a node's generation by the number of its desired rows it changes. */
  lemma StepCounts(libs: Libs, st: Store, a: Action, node: string)
    requires Inv(libs, st) && Legal(libs, st, a)
    ensures Counted(SetsOf(st), SetsOf(Step(libs, st, a)), node)
  {
    if a.Installing? || a.InstallingBundle? {
      InstallStepCounts(libs, st, a, node);
    } else if a.RollingBack? {
      RollbackCounts(st, a.call, a.skill, a.records, a.to, node);
    } else if a.Uninstalling? {
      UninstallCounts(st, a.call, a.skill, a.force, a.inUse, node);
    } else {
      OtherStepsLeaveSets(libs, st, a);
      UnchangedCounts(SetsOf(st), node);
    }
  }

  lemma CountedZero(s: Sets, t: Sets, node: string)
    requires Counted(s, t, node) && Current(t.generations, node) == Current(s.generations, node)
    ensures OfNode(t, node) == OfNode(s, node)
  {
    assert Differing(s, t, node) == {};
    forall skill ensures Lookup(s.desired, node, skill) == Lookup(t.desired, node, skill) {
      DifferingIs(s, t, node, skill);
    }
    OfNodeIs(s, t, node);
  }

  lemma OfNodeIs(s: Sets, t: Sets, node: string)
    requires forall skill :: Lookup(s.desired, node, skill) == Lookup(t.desired, node, skill)
    ensures OfNode(t, node) == OfNode(s, node)
  {
    forall skill ensures (skill in OfNode(s, node) <==> skill in OfNode(t, node))
        && (skill in OfNode(s, node) ==> OfNode(s, node)[skill] == OfNode(t, node)[skill]) {
      InOfNode(s, node, skill);
      InOfNode(t, node, skill);
    }
  }

  lemma InOfNode(s: Sets, node: string, skill: string)
    ensures skill in OfNode(s, node) <==> Lookup(s.desired, node, skill).Some?
    ensures skill in OfNode(s, node) ==> OfNode(s, node)[skill] == Lookup(s.desired, node, skill).value
  {
    if Lookup(s.desired, node, skill).Some? {
      assert NodeSkill(node, skill) in s.desired;
    }
  }

  /** The node's generation has not fallen, and if it is the same so is the desired set. */
  ghost predicate Identifies(s: Sets, t: Sets, node: string) {
    && Current(s.generations, node) <= Current(t.generations, node)
    && (Current(s.generations, node) == Current(t.generations, node) ==> OfNode(s, node) == OfNode(t, node))
  }

  lemma StepIdentifies(libs: Libs, st: Store, a: Action, node: string)
    requires Inv(libs, st) && Legal(libs, st, a)
    ensures Identifies(SetsOf(st), SetsOf(Step(libs, st, a)), node)
  {
    var s, t := SetsOf(st), SetsOf(Step(libs, st, a));
    StepCounts(libs, st, a, node);
    if Current(t.generations, node) == Current(s.generations, node) {
      CountedZero(s, t, node);
    }
  }

  lemma IdentifiesOn(s: Sets, t: Sets, u: Sets, node: string)
    requires Identifies(s, t, node) && Identifies(t, u, node)
    ensures Identifies(s, u, node)
  {
  }

  lemma RunStepIdentifies(libs: Libs, states: seq<Store>, actions: seq<Action>, j: nat, node: string)
    requires LibsOk(libs) && IsRun(libs, states, actions) && 0 < j < |states|
    ensures Identifies(SetsOf(states[j - 1]), SetsOf(states[j]), node)
  {
    RunKeepsInv(libs, states, actions, j - 1);
    assert IsStep(libs, states[j - 1], actions[j - 1], states[j]);
    StepIdentifies(libs, states[j - 1], actions[j - 1], node);
  }

  ghost predicate AllIdentify(ss: seq<Sets>, node: string) {
    forall j :: 0 < j < |ss| ==> Identifies(ss[j - 1], ss[j], node)
  }

  lemma {:induction false} ChainIdentifies(ss: seq<Sets>, i: nat, j: nat, node: string)
    requires AllIdentify(ss, node) && i <= j < |ss|
    ensures Identifies(ss[i], ss[j], node)
    decreases j
  {
    if i < j {
      ChainIdentifies(ss, i, j - 1, node);
      assert Identifies(ss[j - 1], ss[j], node);
      IdentifiesOn(ss[i], ss[j - 1], ss[j], node);
    }
  }

  /** Along a run a generation never falls, and equal generations mean equal desired sets. */
  lemma GenerationIdentifiesSet(libs: Libs, states: seq<Store>, actions: seq<Action>, i: nat, j: nat, node: string)
    requires LibsOk(libs) && IsRun(libs, states, actions) && i <= j < |states|
    ensures Identifies(SetsOf(states[i]), SetsOf(states[j]), node)
  {
    var ss := seq(|states|, k requires 0 <= k < |states| => SetsOf(states[k]));
    forall k | 0 < k < |ss| ensures Identifies(ss[k - 1], ss[k], node) {
      RunStepIdentifies(libs, states, actions, k, node);
    }
    ChainIdentifies(ss, i, j, node);
  }
}
