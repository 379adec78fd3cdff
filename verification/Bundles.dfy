/** Bundles: item validation, and the install plans and the answer of a bundle install. */
module Bundles {
  import opened Text
  import opened Tables
  import opened Desired
  import opened Catalog
  import opened Changes

  predicate ItemsDistinct(items: seq<BundleItem>) {
    forall i, j :: 0 <= i < j < |items| ==> items[i].skill != items[j].skill
  }

  function TrimItem(item: BundleItem): BundleItem {
    BundleItem(Trim(item.skill, IsSpace), Trim(item.requirement, IsSpace))
  }

  predicate ItemOk(item: BundleItem) {
    1 <= |item.skill| <= 63 && 1 <= |item.requirement| <= 64
  }

  /** Accepted exactly when non-empty, well sized and free of duplicate names. */
  method ValidateItems(items: seq<BundleItem>) returns (r: Reply<seq<BundleItem>>)
    ensures r.Ok? ==> items != [] && |r.value| == |items| && ItemsDistinct(r.value)
    ensures r.Ok? ==> forall i :: 0 <= i < |items| ==> r.value[i] == TrimItem(items[i]) && ItemOk(r.value[i])
    ensures r.Err? ==>
      || items == []
      || (exists i :: 0 <= i < |items| && !ItemOk(TrimItem(items[i])))
      || (exists i, j :: 0 <= i < j < |items| && TrimItem(items[i]).skill == TrimItem(items[j]).skill)
  {
    if items == [] {
      return Err(InvalidBundle);
    }
    var seen: set<string> := {};
    var out: seq<BundleItem> := [];
    for i := 0 to |items|
      invariant |out| == i && ItemsDistinct(out)
      invariant forall k :: 0 <= k < i ==> out[k] == TrimItem(items[k]) && ItemOk(out[k])
      invariant forall s :: s in seen <==> exists k :: 0 <= k < i && out[k].skill == s
    {
      var item := TrimItem(items[i]);
      if item.skill == "" || |item.skill| > 63 || item.requirement == "" || |item.requirement| > 64 {
        return Err(InvalidBundle);
      }
      if item.skill in seen {
        return Err(InvalidBundle);
      }
      seen := seen + {item.skill};
      ghost var before := out;
      out := out + [item];
      assert out[i] == item && forall k :: 0 <= k < i ==> out[k] == before[k];
    }
    return Ok(out);
  }

  /** The operator must name the capability digest of the version being installed. */
  function AcceptedHash(stored: string, provided: Option<string>): Option<string> {
    if provided.Some? && Trim(provided.value, IsSpace) != "" && Norm(provided.value) == Norm(stored)
    then Some(Norm(stored)) else None
  }

  /** The rows of a skill as a query returns them, in whatever order. */
  ghost predicate Loaded(st: Store, skill: string, versions: seq<VersionRecord>) {
    && (forall v :: v in versions ==> VersionKey(skill, v.version) in st.versions && st.versions[VersionKey(skill, v.version)] == v.row)
    && (forall key :: key in st.versions && key.skill == skill ==> VersionRecord(key.version, st.versions[key]) in versions)
  }

  function PlanFor(skill: string, v: VersionRecord): InstallPlan {
    InstallPlan(skill, v.version, v.row.sha, Norm(v.row.capabilities), v.row.minNode, v.row.platforms)
  }

  function BestOf(libs: Libs, item: BundleItem, rows: string -> seq<VersionRecord>): Option<VersionRecord> {
    HighestPublished(libs, item.requirement, rows(item.skill))
  }

  function LookupHash(accepted: map<string, string>, skill: string): Option<string> {
    if skill in accepted then Some(accepted[skill]) else None
  }

  function ItemRefusal(libs: Libs, item: BundleItem, rows: string -> seq<VersionRecord>, accepted: map<string, string>): Option<Refusal> {
    match BestOf(libs, item, rows)
    case None => Some(Refusal.VersionUnknown)
    case Some(v) => if AcceptedHash(v.row.capabilities, LookupHash(accepted, item.skill)).None? then Some(CapabilitiesChanged) else None
  }

  /** One plan per item that is not built in, in item order. */
  function PlansOf(libs: Libs, builtin: set<string>, items: seq<BundleItem>, rows: string -> seq<VersionRecord>): seq<InstallPlan> {
    if items == [] then []
    else
      var last := items[|items| - 1];
      var best := BestOf(libs, last, rows);
      PlansOf(libs, builtin, items[..|items| - 1], rows)
      + (if last.skill in builtin || best.None? then [] else [PlanFor(last.skill, best.value)])
  }

  /** `e` is why the first refused item is refused. */
  ghost predicate FirstRefusal(libs: Libs, builtin: set<string>, items: seq<BundleItem>, rows: string -> seq<VersionRecord>,
                               accepted: map<string, string>, e: Refusal)
  {
    exists i :: 0 <= i < |items| && RefusedAt(libs, builtin, items, rows, accepted, i, e)
  }

  ghost predicate RefusedAt(libs: Libs, builtin: set<string>, items: seq<BundleItem>, rows: string -> seq<VersionRecord>,
                            accepted: map<string, string>, i: nat, e: Refusal)
    requires i < |items|
  {
    && items[i].skill !in builtin && ItemRefusal(libs, items[i], rows, accepted) == Some(e)
    && AcceptedUpTo(libs, builtin, items, rows, accepted, i)
  }

  predicate AcceptedUpTo(libs: Libs, builtin: set<string>, items: seq<BundleItem>, rows: string -> seq<VersionRecord>,
                         accepted: map<string, string>, n: nat)
    requires n <= |items|
  {
    forall k :: 0 <= k < n ==> ItemOkToInstall(libs, builtin, items[k], rows, accepted)
  }

  predicate ItemOkToInstall(libs: Libs, builtin: set<string>, item: BundleItem, rows: string -> seq<VersionRecord>,
                            accepted: map<string, string>)
  {
    item.skill in builtin || ItemRefusal(libs, item, rows, accepted).None?
  }

  /** The plan an item adds, or why it is refused. */
  method ItemPlan(libs: Libs, item: BundleItem, rows: string -> seq<VersionRecord>, accepted: map<string, string>)
    returns (r: Reply<InstallPlan>)
    ensures r.Err? ==> ItemRefusal(libs, item, rows, accepted) == Some(r.refusal)
    ensures r.Ok? ==> ItemRefusal(libs, item, rows, accepted).None?
    ensures r.Ok? ==> r.value == PlanFor(item.skill, BestOf(libs, item, rows).value)
  {
    var best := BestOf(libs, item, rows);
    if best.None? {
      return Err(Refusal.VersionUnknown);
    }
    if AcceptedHash(best.value.row.capabilities, LookupHash(accepted, item.skill)).None? {
      return Err(CapabilitiesChanged);
    }
    return Ok(PlanFor(item.skill, best.value));
  }

  lemma PlansGrow(libs: Libs, builtin: set<string>, items: seq<BundleItem>, rows: string -> seq<VersionRecord>, i: nat)
    requires i < |items|
    ensures items[i].skill in builtin ==> PlansOf(libs, builtin, items[..i + 1], rows) == PlansOf(libs, builtin, items[..i], rows)
    ensures items[i].skill !in builtin && BestOf(libs, items[i], rows).Some? ==>
      PlansOf(libs, builtin, items[..i + 1], rows)
        == PlansOf(libs, builtin, items[..i], rows) + [PlanFor(items[i].skill, BestOf(libs, items[i], rows).value)]
  {
    assert items[..i + 1][..i] == items[..i];
  }

  /** Plans for all items, or the refusal of the first item that is refused. */
  method BundlePlans(libs: Libs, builtin: set<string>, items: seq<BundleItem>, rows: string -> seq<VersionRecord>,
                     accepted: map<string, string>) returns (r: Reply<seq<InstallPlan>>)
    ensures r.Ok? ==> r.value == PlansOf(libs, builtin, items, rows)
    ensures r.Ok? <==> AcceptedUpTo(libs, builtin, items, rows, accepted, |items|)
    ensures r.Err? ==> FirstRefusal(libs, builtin, items, rows, accepted, r.refusal)
  {
    var plans: seq<InstallPlan> := [];
    for i := 0 to |items|
      invariant plans == PlansOf(libs, builtin, items[..i], rows)
      invariant AcceptedUpTo(libs, builtin, items, rows, accepted, i)
    {
      PlansGrow(libs, builtin, items, rows, i);
      if items[i].skill in builtin {
        continue;
      }
      var plan := ItemPlan(libs, items[i], rows, accepted);
      if plan.Err? {
        assert RefusedAt(libs, builtin, items, rows, accepted, i, plan.refusal);
        assert !ItemOkToInstall(libs, builtin, items[i], rows, accepted);
        return Err(plan.refusal);
      }
      plans := plans + [plan.value];
    }
    assert items[..|items|] == items;
    return Ok(plans);
  }

  predicate HasPlan(plans: seq<InstallPlan>, skill: string) {
    exists k :: 0 <= k < |plans| && plans[k].skill == skill
  }

  /** Exactly the items that are not built in have a plan, and one each. */
  lemma PlansCover(libs: Libs, builtin: set<string>, items: seq<BundleItem>, rows: string -> seq<VersionRecord>)
    requires ItemsDistinct(items)
    requires forall i :: 0 <= i < |items| && items[i].skill !in builtin ==> BestOf(libs, items[i], rows).Some?
    ensures var plans := PlansOf(libs, builtin, items, rows);
      && SkillsDistinct(plans)
      && (forall i :: 0 <= i < |items| && items[i].skill !in builtin ==> HasPlan(plans, items[i].skill))
      && (forall k :: 0 <= k < |plans| ==> plans[k].skill !in builtin && NamesSkill(items, plans[k].skill))
  {
    PlansOfItems(libs, builtin, items, rows);
    forall i | 0 <= i < |items| && items[i].skill !in builtin ensures HasPlan(PlansOf(libs, builtin, items, rows), items[i].skill) {
      ItemHasPlan(libs, builtin, items, rows, i);
    }
  }

  lemma {:induction false} ItemHasPlan(libs: Libs, builtin: set<string>, items: seq<BundleItem>, rows: string -> seq<VersionRecord>, i: nat)
    requires i < |items| && items[i].skill !in builtin && BestOf(libs, items[i], rows).Some?
    ensures HasPlan(PlansOf(libs, builtin, items, rows), items[i].skill)
    decreases |items|
  {
    var m := |items| - 1;
    var front, plans := PlansOf(libs, builtin, items[..m], rows), PlansOf(libs, builtin, items, rows);
    if i == m {
      assert plans[|front|].skill == items[i].skill;
    } else {
      ItemHasPlan(libs, builtin, items[..m], rows, i);
      var k :| 0 <= k < |front| && front[k].skill == items[i].skill;
      assert plans[k] == front[k];
    }
  }

  lemma {:induction false} PlansOfItems(libs: Libs, builtin: set<string>, items: seq<BundleItem>, rows: string -> seq<VersionRecord>)
    requires ItemsDistinct(items)
    ensures var plans := PlansOf(libs, builtin, items, rows);
      && SkillsDistinct(plans)
      && (forall k :: 0 <= k < |plans| ==> plans[k].skill !in builtin && NamesSkill(items, plans[k].skill))
    decreases |items|
  {
    if items != [] {
      var m := |items| - 1;
      var front := PlansOf(libs, builtin, items[..m], rows);
      PlansOfItems(libs, builtin, items[..m], rows);
      NamesGrow(items, m);
      forall k | 0 <= k < |front| ensures front[k].skill != items[m].skill && NamesSkill(items, front[k].skill) {
        assert NamesSkill(items[..m], front[k].skill);
      }
    }
  }

  predicate NamesSkill(items: seq<BundleItem>, skill: string) {
    exists i :: 0 <= i < |items| && items[i].skill == skill
  }

  lemma NamesGrow(items: seq<BundleItem>, m: nat)
    requires ItemsDistinct(items) && m == |items| - 1
    ensures NamesSkill(items, items[m].skill)
    ensures forall skill :: NamesSkill(items[..m], skill) ==> NamesSkill(items, skill) && skill != items[m].skill
  {
    forall skill | NamesSkill(items[..m], skill) ensures NamesSkill(items, skill) && skill != items[m].skill {
      var i :| 0 <= i < m && items[..m][i].skill == skill;
      assert items[i].skill == skill;
    }
  }

  /** The plan names a published catalog version that matches, and no higher one does. */
  ghost predicate PlanIsBest(libs: Libs, st: Store, items: seq<BundleItem>, plan: InstallPlan) {
    exists i :: 0 <= i < |items| && items[i].skill == plan.skill && BestForItem(libs, st, items[i], plan)
  }

  ghost predicate BestForItem(libs: Libs, st: Store, item: BundleItem, plan: InstallPlan) {
    var key := VersionKey(plan.skill, plan.version);
    && key in st.versions && st.versions[key].sha == plan.sha && st.versions[key].status == Published
    && plan.minNode == st.versions[key].minNode && plan.platforms == st.versions[key].platforms
    && Installable(libs, item.requirement, VersionRecord(plan.version, st.versions[key]))
    && (forall other :: other in st.versions && other.skill == plan.skill
          && Installable(libs, item.requirement, VersionRecord(other.version, st.versions[other]))
          ==> RankLe(libs.rank(other.version), libs.rank(plan.version)))
  }

  lemma BestIsBest(libs: Libs, st: Store, item: BundleItem, rows: string -> seq<VersionRecord>)
    requires Loaded(st, item.skill, rows(item.skill)) && BestOf(libs, item, rows).Some?
    ensures BestForItem(libs, st, item, PlanFor(item.skill, BestOf(libs, item, rows).value))
  {
    var keep := v => Installable(libs, item.requirement, v);
    var versions := rows(item.skill);
    HighestIsGreatest(libs.rank, versions, keep);
    var best := Highest(libs.rank, versions, keep);
    assert HighestPublished(libs, item.requirement, versions) == best;
    assert keep(best.value);
    forall other | other in st.versions && other.skill == item.skill
        && Installable(libs, item.requirement, VersionRecord(other.version, st.versions[other]))
      ensures RankLe(libs.rank(other.version), libs.rank(best.value.version)) {
      var v := VersionRecord(other.version, st.versions[other]);
      assert v in versions && keep(v);
    }
  }

  /** A bundle's plans are for distinct skills, each for the best version of its item. */
  lemma {:induction false} PlansAreBest(libs: Libs, st: Store, builtin: set<string>, items: seq<BundleItem>,
                                        rows: string -> seq<VersionRecord>)
    requires ItemsDistinct(items) && forall i :: 0 <= i < |items| ==> Loaded(st, items[i].skill, rows(items[i].skill))
    ensures SkillsDistinct(PlansOf(libs, builtin, items, rows))
    ensures forall plan :: plan in PlansOf(libs, builtin, items, rows) ==> PlanIsBest(libs, st, items, plan)
    decreases |items|
  {
    if items != [] {
      var k := |items| - 1;
      var front, plans := PlansOf(libs, builtin, items[..k], rows), PlansOf(libs, builtin, items, rows);
      PlansAreBest(libs, st, builtin, items[..k], rows);
      forall plan | plan in front ensures PlanIsBest(libs, st, items, plan) && plan.skill != items[k].skill {
        var i :| 0 <= i < k && items[..k][i].skill == plan.skill && BestForItem(libs, st, items[..k][i], plan);
        assert items[i] == items[..k][i];
      }
      if plans != front {
        BestIsBest(libs, st, items[k], rows);
        var last := plans[|front|];
        assert plans == front + [last] && last.skill == items[k].skill;
        assert PlanIsBest(libs, st, items, last);
        forall i | 0 <= i < |front| ensures plans[i].skill != last.skill {
          assert front[i] in front;
        }
      }
    }
  }

  // ---------------------------------------------------------------- the answer

  datatype BundleOperation = BundleOperation(skill: string, perNode: seq<PerNode>)

  function ByName(changes: seq<BundleOperation>): map<string, seq<PerNode>> {
    if changes == [] then map[]
    else ByName(changes[..|changes| - 1])[changes[|changes| - 1].skill := changes[|changes| - 1].perNode]
  }

  predicate HasChange(changes: seq<BundleOperation>, skill: string) {
    exists i :: 0 <= i < |changes| && changes[i].skill == skill
  }

  predicate Answers(item: BundleItem, builtin: set<string>, changes: seq<BundleOperation>, builtinNodes: seq<PerNode>,
                    operation: BundleOperation)
  {
    operation.skill == item.skill
    && (if item.skill in builtin then operation.perNode == builtinNodes else operation in changes)
  }

  /** One entry per item and in item order, each change handed out once. */
  method Answer(items: seq<BundleItem>, builtin: set<string>, changes: seq<BundleOperation>, builtinNodes: seq<PerNode>)
    returns (operations: seq<BundleOperation>)
    requires ItemsDistinct(items)
    requires forall j, k :: 0 <= j < k < |changes| ==> changes[j].skill != changes[k].skill
    requires forall i :: 0 <= i < |items| && items[i].skill !in builtin ==> HasChange(changes, items[i].skill)
    requires forall i :: 0 <= i < |changes| ==> changes[i].skill !in builtin
    ensures |operations| == |items|
    ensures forall i :: 0 <= i < |items| ==> Answers(items[i], builtin, changes, builtinNodes, operations[i])
  {
    var byName := ByName(changes);
    operations := [];
    ByNameKeys(changes);
    for n := 0 to |items|
      invariant |operations| == n
      invariant forall i :: 0 <= i < n ==> Answers(items[i], builtin, changes, builtinNodes, operations[i])
      invariant forall skill :: skill in byName ==> BundleOperation(skill, byName[skill]) in changes
      invariant forall skill :: HasChange(changes, skill) && (forall i :: 0 <= i < n ==> items[i].skill != skill) ==> skill in byName
    {
      var skill := items[n].skill;
      if skill in byName {
        operations := operations + [BundleOperation(skill, byName[skill])];
        byName := byName - {skill};
      } else if skill in builtin {
        operations := operations + [BundleOperation(skill, builtinNodes)];
      }
    }
  }

  lemma {:induction false} ByNameKeys(changes: seq<BundleOperation>)
    requires forall j, k :: 0 <= j < k < |changes| ==> changes[j].skill != changes[k].skill
    ensures forall skill :: skill in ByName(changes) <==> HasChange(changes, skill)
    ensures forall skill :: skill in ByName(changes) ==> BundleOperation(skill, ByName(changes)[skill]) in changes
    decreases |changes|
  {
    if changes != [] {
      var front, last := changes[..|changes| - 1], changes[|changes| - 1];
      ByNameKeys(front);
      assert last in changes && last == BundleOperation(last.skill, last.perNode);
      assert forall c :: c in front ==> c in changes;
      forall skill ensures HasChange(changes, skill) <==> HasChange(front, skill) || last.skill == skill {
        HasChangeGrows(front, last, skill);
        assert changes == front + [last];
      }
    }
  }

  lemma HasChangeGrows(front: seq<BundleOperation>, last: BundleOperation, skill: string)
    ensures HasChange(front + [last], skill) <==> HasChange(front, skill) || last.skill == skill
  {
    var changes := front + [last];
    assert changes[|front|] == last;
    if HasChange(front, skill) {
      var i :| 0 <= i < |front| && front[i].skill == skill;
      assert changes[i].skill == skill;
    }
  }

  /** Accepted exactly when a digest is given that is not blank and equals the stored one but for case and
      space around it. */
  lemma AcceptedIff(stored: string, provided: Option<string>)
    ensures AcceptedHash(stored, provided).Some?
      <==> exists p :: provided == Some(p) && Trim(p, IsSpace) != "" && Lower(Trim(p, IsSpace)) == Lower(Trim(stored, IsSpace))
    ensures AcceptedHash(stored, None).None? && AcceptedHash(stored, Some("")).None?
  {
    if provided.Some? {
      assert provided == Some(provided.value);
    }
  }
}
