/** Deciding and applying changes to the desired skill sets. */
module Desired {
  import opened Text
  import opened Tables
  import Audit

  datatype Slot = Missing(id: string) | Node(node: LiveNode)
  {
    function Id(): string {
      if Missing? then id else node.id
    }
  }

  datatype Change = Upsert(version: string, sha: string) | Remove

  datatype NodePlan = NodePlan(nodeId: string, outcome: Outcome, generation: int,
                               action: Option<Change>, otherVersion: bool)

  datatype InstallPlan = InstallPlan(skill: string, version: string, sha: string, capabilities: string,
                                     minNode: string, platforms: seq<string>)

  // ---------------------------------------------------------------- target nodes

  predicate LabelsMatch(labels: map<string, string>, want: map<string, string>) {
    forall k :: k in want ==> k in labels && labels[k] == want[k]
  }

  function FindNode(nodes: seq<LiveNode>, id: string): Option<LiveNode> {
    if nodes == [] then None
    else if nodes[|nodes| - 1].id == id then Some(nodes[|nodes| - 1])
    else FindNode(nodes[..|nodes| - 1], id)
  }

  function SlotOf(nodes: seq<LiveNode>, id: string): Slot {
    match FindNode(nodes, id) case Some(n) => Node(n) case None => Missing(id)
  }

  datatype Selection = Selection(nodeIds: seq<string>, selector: Option<map<string, string>>)

  ghost predicate SlotsUnique(slots: seq<Slot>) {
    forall i, j :: 0 <= i < j < |slots| ==> slots[i].Id() != slots[j].Id()
  }

  ghost predicate Targeted(nodes: seq<LiveNode>, sel: Selection, slot: Slot) {
    || (slot.Id() in sel.nodeIds && slot == SlotOf(nodes, slot.Id()))
    || (slot.Node? && sel.selector.Some? && slot.node in nodes && LabelsMatch(slot.node.labels, sel.selector.value))
  }

  lemma {:induction false} FindNodeIsNode(nodes: seq<LiveNode>, id: string)
    ensures FindNode(nodes, id).Some? ==> FindNode(nodes, id).value in nodes && FindNode(nodes, id).value.id == id
    decreases |nodes|
  {
    if nodes != [] {
      FindNodeIsNode(nodes[..|nodes| - 1], id);
    }
  }

  function NamedSlots(nodes: seq<LiveNode>, ids: seq<string>): seq<Slot> {
    if ids == [] then []
    else
      var front, id := ids[..|ids| - 1], ids[|ids| - 1];
      NamedSlots(nodes, front) + (if id in front then [] else [SlotOf(nodes, id)])
  }

  function SelectedSlots(nodes: seq<LiveNode>, ids: seq<string>, labels: map<string, string>): seq<Slot> {
    if nodes == [] then []
    else
      var last := nodes[|nodes| - 1];
      SelectedSlots(nodes[..|nodes| - 1], ids, labels)
      + (if last.id !in ids && LabelsMatch(last.labels, labels) then [Node(last)] else [])
  }

  function ResolvedSlots(nodes: seq<LiveNode>, sel: Selection): seq<Slot> {
    NamedSlots(nodes, sel.nodeIds)
    + (if sel.selector.Some? then SelectedSlots(nodes, sel.nodeIds, sel.selector.value) else [])
  }

  method Resolve(nodes: seq<LiveNode>, sel: Selection) returns (slots: seq<Slot>)
    requires NodesUnique(nodes)
    ensures slots == ResolvedSlots(nodes, sel)
  {
    var seen: set<string> := {};
    slots := [];
    for i := 0 to |sel.nodeIds|
      invariant forall id :: id in seen <==> id in sel.nodeIds[..i]
      invariant slots == NamedSlots(nodes, sel.nodeIds[..i])
    {
      var id := sel.nodeIds[i];
      assert sel.nodeIds[..i + 1][..i] == sel.nodeIds[..i];
      if id in seen {
        continue;
      }
      seen := seen + {id};
      slots := slots + [SlotOf(nodes, id)];
    }
    assert sel.nodeIds[..|sel.nodeIds|] == sel.nodeIds;
    if sel.selector.Some? {
      ghost var named := slots;
      for i := 0 to |nodes|
        invariant slots == named + SelectedSlots(nodes[..i], sel.nodeIds, sel.selector.value)
        invariant forall j :: i <= j < |nodes| ==> (nodes[j].id in seen <==> nodes[j].id in sel.nodeIds)
      {
        var n := nodes[i];
        assert nodes[..i + 1][..i] == nodes[..i];
        if n.id !in seen && LabelsMatch(n.labels, sel.selector.value) {
          seen := seen + {n.id};
          slots := slots + [Node(n)];
        }
      }
      assert nodes[..|nodes|] == nodes;
    }
  }

  ghost predicate HasId(slots: seq<Slot>, id: string) {
    exists i :: 0 <= i < |slots| && slots[i].Id() == id
  }

  /** The slot of `id` is there exactly when `id` is named, and then once. */
  lemma {:induction false} NamedOnce(nodes: seq<LiveNode>, ids: seq<string>)
    ensures SlotsUnique(NamedSlots(nodes, ids))
    ensures forall id :: HasId(NamedSlots(nodes, ids), id) <==> id in ids
    ensures forall slot :: slot in NamedSlots(nodes, ids) ==> slot == SlotOf(nodes, slot.Id())
    decreases |ids|
  {
    if ids != [] {
      var front, id := ids[..|ids| - 1], ids[|ids| - 1];
      var before, after := NamedSlots(nodes, front), NamedSlots(nodes, ids);
      NamedOnce(nodes, front);
      FindNodeIsNode(nodes, id);
      assert ids == front + [id];
      forall x ensures HasId(after, x) <==> x in ids {
        SlotAdded(before, after, SlotOf(nodes, id), x);
      }
    }
  }

  lemma SlotAdded(before: seq<Slot>, after: seq<Slot>, slot: Slot, id: string)
    requires after == before || after == before + [slot]
    ensures HasId(after, id) <==> HasId(before, id) || (after == before + [slot] && slot.Id() == id)
  {
    if HasId(before, id) {
      var i :| 0 <= i < |before| && before[i].Id() == id;
      assert after[i].Id() == id;
    }
    if after == before + [slot] {
      assert after[|before|] == slot;
    }
  }

  lemma {:induction false} SelectedOnce(nodes: seq<LiveNode>, ids: seq<string>, labels: map<string, string>)
    requires NodesUnique(nodes)
    ensures var slots := SelectedSlots(nodes, ids, labels);
      && SlotsUnique(slots)
      && (forall n :: Node(n) in slots <==> n in nodes && n.id !in ids && LabelsMatch(n.labels, labels))
      && (forall slot :: slot in slots ==> slot.Node?)
    decreases |nodes|
  {
    if nodes != [] {
      var front, last := nodes[..|nodes| - 1], nodes[|nodes| - 1];
      SelectedOnce(front, ids, labels);
      assert nodes == front + [last];
      var before := SelectedSlots(front, ids, labels);
      forall i | 0 <= i < |before| ensures before[i].Id() != last.id {
        assert before[i] in before && before[i].node in front;
        var j :| 0 <= j < |front| && front[j] == before[i].node;
        assert nodes[j].id != nodes[|front|].id;
      }
    }
  }

  /** Each target once, and only targets. */
  lemma ResolvedOnce(nodes: seq<LiveNode>, sel: Selection)
    requires NodesUnique(nodes)
    ensures SlotsUnique(ResolvedSlots(nodes, sel))
    ensures forall slot :: slot in ResolvedSlots(nodes, sel) ==> Targeted(nodes, sel, slot)
  {
    var named, slots := NamedSlots(nodes, sel.nodeIds), ResolvedSlots(nodes, sel);
    NamedOnce(nodes, sel.nodeIds);
    forall slot | slot in named ensures Targeted(nodes, sel, slot) {
      var i :| 0 <= i < |named| && named[i] == slot;
      assert HasId(named, slot.Id());
    }
    if sel.selector.Some? {
      SelectedOnce(nodes, sel.nodeIds, sel.selector.value);
      var selected := SelectedSlots(nodes, sel.nodeIds, sel.selector.value);
      forall i, j | 0 <= i < |named| && 0 <= j < |selected| ensures named[i].Id() != selected[j].Id() {
        assert HasId(named, named[i].Id());
        assert selected[j] in selected && Node(selected[j].node) in selected;
      }
      forall slot | slot in selected ensures Targeted(nodes, sel, slot) {
        assert Node(slot.node) in selected;
      }
    }
  }

  /** No named id and no node that carries the labels is left out. */
  lemma ResolvedAll(nodes: seq<LiveNode>, sel: Selection, id: string)
    requires NodesUnique(nodes)
    requires id in sel.nodeIds
      || (sel.selector.Some? && exists n :: n in nodes && n.id == id && LabelsMatch(n.labels, sel.selector.value))
    ensures HasId(ResolvedSlots(nodes, sel), id)
  {
    var named := NamedSlots(nodes, sel.nodeIds);
    if id in sel.nodeIds {
      NamedOnce(nodes, sel.nodeIds);
      var rest := if sel.selector.Some? then SelectedSlots(nodes, sel.nodeIds, sel.selector.value) else [];
      HasIdIn(named, rest, id);
    } else {
      var n :| n in nodes && n.id == id && LabelsMatch(n.labels, sel.selector.value);
      SelectedOnce(nodes, sel.nodeIds, sel.selector.value);
      var selected := SelectedSlots(nodes, sel.nodeIds, sel.selector.value);
      assert Node(n) in selected;
      var i :| 0 <= i < |selected| && selected[i] == Node(n);
      assert selected[i].Id() == id;
      HasIdIn(named, selected, id);
    }
  }

  lemma HasIdIn(a: seq<Slot>, b: seq<Slot>, id: string)
    requires HasId(a, id) || HasId(b, id)
    ensures HasId(a + b, id)
  {
    if HasId(a, id) {
      var i :| 0 <= i < |a| && a[i].Id() == id;
      assert (a + b)[i].Id() == id;
    } else {
      var i :| 0 <= i < |b| && b[i].Id() == id;
      assert (a + b)[|a| + i].Id() == id;
    }
  }

  lemma {:induction false} FindNodeFinds(nodes: seq<LiveNode>, n: LiveNode)
    requires NodesUnique(nodes) && n in nodes
    ensures FindNode(nodes, n.id) == Some(n)
    decreases |nodes|
  {
    var last := |nodes| - 1;
    var i :| 0 <= i < |nodes| && nodes[i] == n;
    if i < last {
      assert nodes[..last][i] == n;
      FindNodeFinds(nodes[..last], n);
    }
  }

  /** A target is missing exactly when no node has its id; otherwise it is that node. */
  lemma MissingIsUnknown(nodes: seq<LiveNode>, sel: Selection, slot: Slot)
    requires NodesUnique(nodes) && slot in ResolvedSlots(nodes, sel)
    ensures slot.Missing? <==> forall n :: n in nodes ==> n.id != slot.Id()
    ensures slot.Node? ==> slot.node in nodes
  {
    ResolvedOnce(nodes, sel);
    FindNodeIsNode(nodes, slot.Id());
    if n :| n in nodes && n.id == slot.Id() {
      FindNodeFinds(nodes, n);
    }
  }

  // ---------------------------------------------------------------- classification

  predicate TooOld(rank: string -> Option<Rank>, agent: string, minNode: string) {
    var have, need := Trim(agent, IsSpace), Trim(minNode, IsSpace);
    need != "" && have != "" && rank(have).Some? && rank(need).Some? && rank(have).value < rank(need).value
  }

  function Label(labels: map<string, string>, key: string): string {
    if key in labels then Trim(labels[key], IsSpace) else ""
  }

  predicate Unsupported(labels: map<string, string>, platforms: seq<string>) {
    var os, arch := Label(labels, "os"), Label(labels, "arch");
    platforms != [] && os != "" && arch != ""
    && os + "/" + arch !in platforms && os + "-" + arch !in platforms
  }

  function HadOther(desired: Option<Snap>, target: string): bool {
    desired.Some? && desired.value.version != target
  }

  function Hold(node: LiveNode, outcome: Outcome, generation: int, desired: Option<Snap>, target: string): NodePlan {
    NodePlan(node.id, outcome, generation, None, HadOther(desired, target))
  }

  /** The only plan that carries an action; a preview keeps the generation. */
  function WritePlan(node: LiveNode, current: int, desired: Option<Snap>, target: string,
                     connected: set<string>, write: bool, action: Change): NodePlan {
    NodePlan(node.id, if node.id in connected then Pending else Queued,
             if write then current + 1 else current,
             if write then Some(action) else None,
             HadOther(desired, target))
  }

  function Lookup(desired: map<NodeSkill, Snap>, node: string, skill: string): Option<Snap> {
    if NodeSkill(node, skill) in desired then Some(desired[NodeSkill(node, skill)]) else None
  }

  function Current(generations: map<string, int>, node: string): int {
    if node in generations then generations[node] else 0
  }

  /** Install and rollback end alike: hold if too old, unsupported or already there, else write. */
  function Place(rank: string -> Option<Rank>, node: LiveNode, current: int, desired: Option<Snap>, version: string,
                 sha: string, minNode: string, platforms: seq<string>, connected: set<string>, write: bool): NodePlan {
    if TooOld(rank, node.agent, minNode) then Hold(node, NodeTooOld, current, desired, version)
    else if Unsupported(node.labels, platforms) then Hold(node, PlatformUnsupported, current, desired, version)
    else if desired == Some(Snap(version, sha)) then Hold(node, AlreadyInstalled, current, desired, version)
    else WritePlan(node, current, desired, version, connected, write, Upsert(version, sha))
  }

  function MissingPlan(id: string): NodePlan {
    NodePlan(id, NodeUnknown, 0, None, false)
  }

  function ClassifyInstall(rank: string -> Option<Rank>, slot: Slot, s: Sets, plan: InstallPlan,
                           connected: set<string>, write: bool): NodePlan {
    match slot
    case Missing(id) => MissingPlan(id)
    case Node(node) =>
      Place(rank, node, Current(s.generations, node.id), Lookup(s.desired, node.id, plan.skill), plan.version, plan.sha,
            plan.minNode, plan.platforms, connected, write)
  }

  function ClassifyUninstall(slot: Slot, s: Sets, skill: string, connected: set<string>): NodePlan {
    match slot
    case Missing(id) => MissingPlan(id)
    case Node(node) =>
      var have, current := Lookup(s.desired, node.id, skill), Current(s.generations, node.id);
      if have.None? then Hold(node, AlreadyInstalled, current, have, "")
      else WritePlan(node, current, have, "", connected, true, Remove)
  }

  function ClassifyRollback(rank: string -> Option<Rank>, slot: Slot, s: Sets, skill: string,
                            explicit: Option<VersionRecord>, versions: seq<VersionRecord>,
                            connected: set<string>): NodePlan {
    match slot
    case Missing(id) => MissingPlan(id)
    case Node(node) =>
      var have, current := Lookup(s.desired, node.id, skill), Current(s.generations, node.id);
      match RollbackTarget(rank, have, explicit, versions)
      case None => Hold(node, NoPreviousVersion, current, have, "")
      case Some(target) =>
        Place(rank, node, current, have, target.version, target.row.sha, target.row.minNode, target.row.platforms,
              connected, true)
  }

  function RollbackTarget(rank: string -> Option<Rank>, have: Option<Snap>, explicit: Option<VersionRecord>,
                          versions: seq<VersionRecord>): Option<VersionRecord> {
    if explicit.Some? then explicit
    else if have.None? || rank(have.value.version).None? then None
    else PreviousVersion(rank, versions, rank(have.value.version).value)
  }

  // ---------------------------------------------------------------- choosing a version

  /** A catalog version as the queries return it. */
  datatype VersionRecord = VersionRecord(version: string, row: VersionRow)

  /** `filter(keep).max_by(rank)`: the last of the greatest kept versions. */
  function Highest(rank: string -> Option<Rank>, versions: seq<VersionRecord>, keep: VersionRecord -> bool): Option<VersionRecord> {
    if versions == [] then None
    else
      var last := versions[|versions| - 1];
      var best := Highest(rank, versions[..|versions| - 1], keep);
      if keep(last) && (best.None? || RankLe(rank(best.value.version), rank(last.version))) then Some(last) else best
  }

  predicate RankLe(a: Option<Rank>, b: Option<Rank>) {
    a.None? || (b.Some? && a.value <= b.value)
  }

  lemma {:induction false} HighestIsGreatest(rank: string -> Option<Rank>, versions: seq<VersionRecord>, keep: VersionRecord -> bool)
    ensures var r := Highest(rank, versions, keep);
      && (r.None? ==> forall v :: v in versions ==> !keep(v))
      && (r.Some? ==> r.value in versions && keep(r.value))
      && (forall v :: r.Some? && v in versions && keep(v) ==> RankLe(rank(v.version), rank(r.value.version)))
    decreases |versions|
  {
    if versions != [] {
      var front := versions[..|versions| - 1];
      HighestIsGreatest(rank, front, keep);
      assert versions == front + [versions[|versions| - 1]];
    }
  }

  predicate Eligible(rank: string -> Option<Rank>, v: VersionRecord, current: Rank) {
    v.row.status != Yanked && rank(v.version).Some? && rank(v.version).value < current
  }

  /** The highest published or deprecated version below `current`. */
  function PreviousVersion(rank: string -> Option<Rank>, versions: seq<VersionRecord>, current: Rank): Option<VersionRecord> {
    Highest(rank, versions, v => Eligible(rank, v, current))
  }

  predicate VersionMatches(libs: Libs, requirement: string, version: Rank) {
    var want := Trim(requirement, IsSpace);
    if want == "" then false
    else if want == "*" then true
    else if libs.rank(want).Some? then version == libs.rank(want).value
    else libs.accepts(want, version)
  }

  predicate Installable(libs: Libs, requirement: string, v: VersionRecord) {
    v.row.status == Published && libs.rank(v.version).Some?
    && VersionMatches(libs, requirement, libs.rank(v.version).value)
  }

  function HighestPublished(libs: Libs, requirement: string, versions: seq<VersionRecord>): Option<VersionRecord> {
    Highest(libs.rank, versions, v => Installable(libs, requirement, v))
  }

  // ---------------------------------------------------------------- when each outcome occurs

  /** The node's own version and the required one are both given and ranked, and the node's is lower. */
  ghost predicate Outranked(rank: string -> Option<Rank>, agent: string, minNode: string) {
    exists have, need ::
      && rank(Trim(agent, IsSpace)) == Some(have) && rank(Trim(minNode, IsSpace)) == Some(need) && have < need
      && Trim(agent, IsSpace) != "" && Trim(minNode, IsSpace) != ""
  }

  predicate SaysLabel(labels: map<string, string>, key: string, value: string) {
    key in labels && Trim(labels[key], IsSpace) == value && value != ""
  }

  /** Platforms are listed, the node says what it is, and neither spelling of that is listed. */
  ghost predicate Excluded(labels: map<string, string>, platforms: seq<string>) {
    platforms != [] && exists os, arch :: ListedNowhere(labels, platforms, os, arch)
  }

  ghost predicate ListedNowhere(labels: map<string, string>, platforms: seq<string>, os: string, arch: string) {
    && SaysLabel(labels, "os", os) && SaysLabel(labels, "arch", arch)
    && (forall p :: p in platforms ==> p != os + "/" + arch && p != os + "-" + arch)
  }

  lemma UnsupportedIsExcluded(labels: map<string, string>, platforms: seq<string>)
    ensures Unsupported(labels, platforms) <==> Excluded(labels, platforms)
  {
    var os, arch := Label(labels, "os"), Label(labels, "arch");
    assert Unsupported(labels, platforms) ==> ListedNowhere(labels, platforms, os, arch);
  }

  /** What a known node is told about one version, by its own version, its labels, what it has and
      whether it is connected. */
  ghost predicate Told(rank: string -> Option<Rank>, node: LiveNode, have: Option<Snap>, version: string, sha: string,
                       minNode: string, platforms: seq<string>, connected: set<string>, o: Outcome)
  {
    var outranked, excluded, there := Outranked(rank, node.agent, minNode), Excluded(node.labels, platforms), have == Some(Snap(version, sha));
    && (o == NodeTooOld <==> outranked)
    && (o == PlatformUnsupported <==> !outranked && excluded)
    && (o == AlreadyInstalled <==> !outranked && !excluded && there)
    && (o == Pending <==> !outranked && !excluded && !there && node.id in connected)
    && (o == Queued <==> !outranked && !excluded && !there && node.id !in connected)
  }

  /** The plan shows the node's generation, after the change if there is one. */
  predicate ShowsGeneration(s: Sets, plan: NodePlan, node: string) {
    plan.nodeId == node && plan.generation == Current(s.generations, node) + (if Wrote(plan.outcome) then 1 else 0)
  }

  lemma InstallOutcome(rank: string -> Option<Rank>, node: LiveNode, s: Sets, plan: InstallPlan, connected: set<string>, write: bool)
    ensures Told(rank, node, Lookup(s.desired, node.id, plan.skill), plan.version, plan.sha, plan.minNode, plan.platforms, connected,
                 ClassifyInstall(rank, Node(node), s, plan, connected, write).outcome)
  {
    UnsupportedIsExcluded(node.labels, plan.platforms);
  }

  lemma RollbackOutcome(rank: string -> Option<Rank>, node: LiveNode, s: Sets, skill: string, explicit: Option<VersionRecord>,
                        versions: seq<VersionRecord>, connected: set<string>, to: VersionRecord)
    requires RollbackTarget(rank, Lookup(s.desired, node.id, skill), explicit, versions) == Some(to)
    ensures Told(rank, node, Lookup(s.desired, node.id, skill), to.version, to.row.sha, to.row.minNode, to.row.platforms, connected,
                 ClassifyRollback(rank, Node(node), s, skill, explicit, versions, connected).outcome)
    ensures ShowsGeneration(s, ClassifyRollback(rank, Node(node), s, skill, explicit, versions, connected), node.id)
  {
    UnsupportedIsExcluded(node.labels, to.row.platforms);
  }

  /** A published or deprecated version below what the node wants. */
  predicate Below(rank: string -> Option<Rank>, v: VersionRecord, wanted: string) {
    (v.row.status == Published || v.row.status == Deprecated)
    && rank(v.version).Some? && rank(wanted).Some? && rank(v.version).value < rank(wanted).value
  }

  /** An implicit rollback has no target exactly when nothing is wanted or nothing lies below it; else its
      target lies below and nothing that does is higher. An explicit one goes where it says. */
  lemma RollbackTargetIs(rank: string -> Option<Rank>, have: Option<Snap>, versions: seq<VersionRecord>)
    ensures var to := RollbackTarget(rank, have, None, versions);
      && (to.None? <==> have.None? || forall v :: v in versions ==> !Below(rank, v, have.value.version))
      && (to.Some? ==> to.value in versions && Below(rank, to.value, have.value.version))
      && (forall v :: to.Some? && v in versions && Below(rank, v, have.value.version) ==> rank(v.version).value <= rank(to.value.version).value)
    ensures forall v :: RollbackTarget(rank, have, Some(v), versions) == Some(v)
  {
    if have.Some? && rank(have.value.version).Some? {
      var current := rank(have.value.version).value;
      HighestIsGreatest(rank, versions, v => Eligible(rank, v, current));
      forall v | v in versions ensures Eligible(rank, v, current) <==> Below(rank, v, have.value.version) {
        assert v.row.status == Published || v.row.status == Deprecated || v.row.status == Yanked;
      }
    }
  }

  lemma UninstallOutcome(node: LiveNode, s: Sets, skill: string, connected: set<string>)
    ensures var o := ClassifyUninstall(Node(node), s, skill, connected).outcome;
      && (o == AlreadyInstalled <==> Lookup(s.desired, node.id, skill).None?)
      && (o == Pending <==> Lookup(s.desired, node.id, skill).Some? && node.id in connected)
      && (o == Queued <==> Lookup(s.desired, node.id, skill).Some? && node.id !in connected)
    ensures ShowsGeneration(s, ClassifyUninstall(Node(node), s, skill, connected), node.id)
  {
  }

  /** The wanted labels are already among the node's. */
  lemma LabelsMatchIsMerge(labels: map<string, string>, want: map<string, string>)
    ensures LabelsMatch(labels, want) <==> labels + want == labels
  {
    if labels + want == labels {
      forall k | k in want ensures k in labels && labels[k] == want[k] {
        assert k in labels + want && (labels + want)[k] == want[k];
      }
    }
  }

  /** A blank requirement matches nothing, a star everything, an exact version only itself. */
  lemma RequirementMeaning(libs: Libs, requirement: string, version: Rank)
    ensures Trim(requirement, IsSpace) == "" ==> !VersionMatches(libs, requirement, version)
    ensures Trim(requirement, IsSpace) == "*" ==> VersionMatches(libs, requirement, version)
    ensures var want := Trim(requirement, IsSpace);
      want != "" && want != "*" ==>
        (VersionMatches(libs, requirement, version) <==>
          (libs.rank(want) == Some(version) || (libs.rank(want).None? && libs.accepts(want, version))))
  {
  }

  // ---------------------------------------------------------------- writing

  /** The outcomes of a change that was, or would be, made. */
  predicate Wrote(o: Outcome) {
    o == Pending || o == Queued
  }

  datatype Sets = Sets(desired: map<NodeSkill, Snap>, generations: map<string, int>)

  function ApplyPlan(s: Sets, skill: string, plan: NodePlan): Sets {
    var key := NodeSkill(plan.nodeId, skill);
    match plan.action
    case None => s
    case Some(Upsert(version, sha)) =>
      Sets(s.desired[key := Snap(version, sha)], s.generations[plan.nodeId := plan.generation])
    case Some(Remove) =>
      if key in s.desired then Sets(s.desired - {key}, s.generations[plan.nodeId := plan.generation]) else s
  }

  function ApplyPlans(s: Sets, skill: string, plans: seq<NodePlan>): Sets {
    if plans == [] then s
    else ApplyPlan(ApplyPlans(s, skill, plans[..|plans| - 1]), skill, plans[|plans| - 1])
  }

  function OfNode(s: Sets, node: string): map<string, Snap> {
    map k | k in s.desired && k.node == node :: k.skill := s.desired[k]
  }

  // ---------------------------------------------------------------- one skill change

  /** What every classifier guarantees of the plan for one slot. */
  ghost predicate PlanFits(s: Sets, skill: string, plan: NodePlan) {
    plan.action.Some? ==>
      && plan.generation == Current(s.generations, plan.nodeId) + 1
      && (plan.action.value.Upsert? ==>
            Lookup(s.desired, plan.nodeId, skill) != Some(Snap(plan.action.value.version, plan.action.value.sha)))
      && (plan.action.value.Remove? ==> Lookup(s.desired, plan.nodeId, skill).Some?)
  }

  ghost predicate PlansFit(s: Sets, skill: string, plans: seq<NodePlan>) {
    && (forall i :: 0 <= i < |plans| ==> PlanFits(s, skill, plans[i]))
    && (forall i, j :: 0 <= i < j < |plans| ==> plans[i].nodeId != plans[j].nodeId)
  }

  function Changed(plans: seq<NodePlan>, node: string): bool {
    exists i :: 0 <= i < |plans| && plans[i].nodeId == node && plans[i].action.Some?
  }

  /** Applying plans touches a node exactly when one of them acts on it. */
  lemma {:induction false} ApplyPlansOnNode(s: Sets, skill: string, plans: seq<NodePlan>, node: string)
    requires PlansFit(s, skill, plans)
    ensures var t := ApplyPlans(s, skill, plans);
      && Current(t.generations, node) == Current(s.generations, node) + (if Changed(plans, node) then 1 else 0)
      && (forall other :: other != skill ==> Lookup(t.desired, node, other) == Lookup(s.desired, node, other))
      && (Changed(plans, node) <==> Lookup(t.desired, node, skill) != Lookup(s.desired, node, skill))
    ensures forall p :: p in plans && p.nodeId == node && p.action.Some? ==>
      Lookup(ApplyPlans(s, skill, plans).desired, node, skill)
        == (if p.action.value.Upsert? then Some(Snap(p.action.value.version, p.action.value.sha)) else None)
    decreases |plans|
  {
    if plans != [] {
      var front, last := plans[..|plans| - 1], plans[|plans| - 1];
      ApplyPlansOnNode(s, skill, front, node);
      if last.nodeId == node {
        assert !Changed(front, node);
        assert PlanFits(s, skill, last);
        assert last.action.Some? ==> Changed(plans, node);
      } else if Changed(front, node) {
        var i :| 0 <= i < |front| && front[i].nodeId == node && front[i].action.Some?;
        assert plans[i] == front[i];
      }
      forall p | p in plans && p.nodeId == node && p.action.Some? ensures p in front || p == last {
      }
    }
  }
}
