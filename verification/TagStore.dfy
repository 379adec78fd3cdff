/** The tag tables of all nodes: bulk edits and Register. */
module TagStore {
  import opened Text
  import opened Tags
  import opened TagBulk
  import opened TagRegister
  import Audit

  datatype NodePlan = NodePlan(node: string, found: bool, prod: bool, items: seq<Item>)

  type Tables = map<string, TagTable>

  ghost predicate AllOk(tables: Tables) {
    forall node :: node in tables ==> TableOk(tables[node])
  }

  const UNKNOWN_NODE := [Item("", NotFound, None, None, None, None, None, None, None)]

  /** The plan for one node, unknown or not. */
  ghost predicate PlanIs(tables: Tables, requests: seq<Request>, plan: NodePlan) {
    && (plan.found <==> plan.node in tables)
    && (plan.found ==> Foretells(tables[plan.node], requests, plan.items))
    && (plan.found ==> (plan.prod <==> CountsAsProd(tables[plan.node]) || CountsAsProd(ApplyItems(tables[plan.node], plan.items))))
    && (!plan.found ==> !plan.prod && plan.items == UNKNOWN_NODE)
  }

  // ---------------------------------------------------------------- counts

  datatype Counts = Counts(added: nat, changed: nat, same: nat, removed: nat, bootReported: nat, notFound: nat, error: nat)

  function Tally(items: seq<Item>, a: ItemAction): nat {
    if items == [] then 0 else Tally(items[..|items| - 1], a) + (if items[|items| - 1].action == a then 1 else 0)
  }

  function AllItems(plans: seq<NodePlan>): seq<Item> {
    if plans == [] then [] else AllItems(plans[..|plans| - 1]) + plans[|plans| - 1].items
  }

  function CountsOf(items: seq<Item>): Counts {
    Counts(Tally(items, Added), Tally(items, Changed), Tally(items, Unchanged), Tally(items, Removed),
           Tally(items, BootReported), Tally(items, NotFound), Tally(items, Error))
  }

  lemma {:induction false} CountsSum(items: seq<Item>)
    ensures var c := CountsOf(items);
      c.added + c.changed + c.same + c.removed + c.bootReported + c.notFound + c.error == |items|
    decreases |items|
  {
    if items != [] {
      CountsSum(items[..|items| - 1]);
    }
  }

  method CountItem(counts: Counts, ghost items: seq<Item>, item: Item) returns (next: Counts)
    requires counts == CountsOf(items)
    ensures next == CountsOf(items + [item])
  {
    assert (items + [item])[..|items|] == items;
    match item.action {
      case Added => next := counts.(added := counts.added + 1);
      case Changed => next := counts.(changed := counts.changed + 1);
      case Unchanged => next := counts.(same := counts.same + 1);
      case Removed => next := counts.(removed := counts.removed + 1);
      case BootReported => next := counts.(bootReported := counts.bootReported + 1);
      case NotFound => next := counts.(notFound := counts.notFound + 1);
      case Error => next := counts.(error := counts.error + 1);
    }
  }

  /** The counters of the answer add up to the number of its items. */
  method BulkCounts(plans: seq<NodePlan>) returns (counts: Counts)
    ensures counts == CountsOf(AllItems(plans))
    ensures counts.added + counts.changed + counts.same + counts.removed + counts.bootReported + counts.notFound
            + counts.error == |AllItems(plans)|
  {
    counts := Counts(0, 0, 0, 0, 0, 0, 0);
    for i := 0 to |plans|
      invariant counts == CountsOf(AllItems(plans[..i]))
    {
      ghost var done := AllItems(plans[..i]);
      var items := plans[i].items;
      assert done + items[..0] == done;
      for j := 0 to |items|
        invariant counts == CountsOf(done + items[..j])
      {
        counts := CountItem(counts, done + items[..j], items[j]);
        assert done + items[..j] + [items[j]] == done + items[..j + 1];
      }
      assert items[..|items|] == items;
      assert plans[..i + 1][..i] == plans[..i];
    }
    assert plans[..|plans|] == plans;
    CountsSum(AllItems(plans));
  }

  // ---------------------------------------------------------------- confirmation

  function ProdIds(plans: seq<NodePlan>): seq<string> {
    if plans == [] then []
    else ProdIds(plans[..|plans| - 1]) + (if plans[|plans| - 1].prod then [plans[|plans| - 1].node] else [])
  }

  /** Without production nodes nothing is asked; otherwise their exact number. */
  predicate Confirmed(ids: seq<string>, confirm: Option<nat>) {
    ids == [] || confirm == Some(|ids|)
  }

  /** How many of the plans touch a production node. */
  function ProdCount(plans: seq<NodePlan>): nat {
    |set i | 0 <= i < |plans| && plans[i].prod :: i|
  }

  lemma {:induction false} ProdIdsCount(plans: seq<NodePlan>)
    ensures |ProdIds(plans)| == ProdCount(plans)
    decreases |plans|
  {
    if plans != [] {
      var k := |plans| - 1;
      ProdIdsCount(plans[..k]);
      var before, after := set i | 0 <= i < k && plans[..k][i].prod :: i, set i | 0 <= i < |plans| && plans[i].prod :: i;
      assert after == if plans[k].prod then before + {k} else before;
    }
  }

  /** A write goes ahead exactly if no production node is touched or their exact number is confirmed. */
  lemma ConfirmedIff(plans: seq<NodePlan>, confirm: Option<nat>)
    ensures Confirmed(ProdIds(plans), confirm) <==>
      (forall i :: 0 <= i < |plans| ==> !plans[i].prod) || confirm == Some(ProdCount(plans))
  {
    ProdIdsCount(plans);
    var touched := set i | 0 <= i < |plans| && plans[i].prod :: i;
    if exists i :: 0 <= i < |plans| && plans[i].prod {
      var i :| 0 <= i < |plans| && plans[i].prod;
      assert i in touched;
    } else {
      assert touched == {};
    }
  }

  // ---------------------------------------------------------------- audit

  /** The items that write, in order. */
  function Writes(items: seq<Item>): seq<Item> {
    if items == [] then []
    else
      var last := items[|items| - 1];
      Writes(items[..|items| - 1]) + (if Settled(last) then [] else [last])
  }

  predicate Records(e: Audit.Event, w: Wording, node: string, item: Item) {
    e.target == node && e.node == Some(node) && e.detail == w.item(item)
    && e.action == (if item.action == Removed then "tag.removed" else "tag.set")
  }

  /** The events of a plan record exactly the items that write, in order. */
  lemma {:induction false} PlanRecordsWrites(w: Wording, audit: seq<Audit.Event>, node: string, items: seq<Item>)
    requires forall i :: 0 <= i < |items| && (items[i].action == Added || items[i].action == Changed) ==> items[i].write.Some?
    ensures var after, writes := ItemsAudit(w, audit, node, items), Writes(items);
      && |after| == |audit| + |writes| && after[..|audit|] == audit
      && (forall i :: 0 <= i < |writes| ==> Records(after[|audit| + i], w, node, writes[i]))
    decreases |items|
  {
    if items != [] {
      PlanRecordsWrites(w, audit, node, items[..|items| - 1]);
    }
  }

  datatype Wording = Wording(line: string -> string, item: Item -> string, register: Detail -> string)

  function ItemAudit(w: Wording, audit: seq<Audit.Event>, node: string, item: Item): seq<Audit.Event> {
    if (item.action == Added || item.action == Changed) && item.write.Some? then
      Audit.Appended(w.line, audit, "tag.set", node, w.item(item), Some(node))
    else if item.action == Removed then
      Audit.Appended(w.line, audit, "tag.removed", node, w.item(item), Some(node))
    else audit
  }

  function ItemsAudit(w: Wording, audit: seq<Audit.Event>, node: string, items: seq<Item>): seq<Audit.Event> {
    if items == [] then audit else ItemAudit(w, ItemsAudit(w, audit, node, items[..|items| - 1]), node, items[|items| - 1])
  }

  /** All known nodes' plans applied, one node after the other. */
  function AfterPlans(tables: Tables, plans: seq<NodePlan>): Tables {
    if plans == [] then tables
    else
      var before, last := AfterPlans(tables, plans[..|plans| - 1]), plans[|plans| - 1];
      if last.found && last.node in before then before[last.node := ApplyItems(before[last.node], last.items)] else before
  }

  function PlansAudit(w: Wording, audit: seq<Audit.Event>, plans: seq<NodePlan>): seq<Audit.Event> {
    if plans == [] then audit
    else
      var last := plans[|plans| - 1];
      var before := PlansAudit(w, audit, plans[..|plans| - 1]);
      if last.found then ItemsAudit(w, before, last.node, last.items) else before
  }

  lemma ItemAuditKeepsChain(w: Wording, audit: seq<Audit.Event>, node: string, item: Item)
    requires Audit.ValidChain(w.line, audit)
    ensures Audit.ValidChain(w.line, ItemAudit(w, audit, node, item))
  {
    Audit.AppendKeepsChain(w.line, audit, "tag.set", node, w.item(item), Some(node));
    Audit.AppendKeepsChain(w.line, audit, "tag.removed", node, w.item(item), Some(node));
  }

  lemma {:induction false} ItemsAuditKeepsChain(w: Wording, audit: seq<Audit.Event>, node: string, items: seq<Item>)
    requires Audit.ValidChain(w.line, audit)
    ensures Audit.ValidChain(w.line, ItemsAudit(w, audit, node, items))
    decreases |items|
  {
    if items != [] {
      var front := items[..|items| - 1];
      ItemsAuditKeepsChain(w, audit, node, front);
      ItemAuditKeepsChain(w, ItemsAudit(w, audit, node, front), node, items[|items| - 1]);
    }
  }

  lemma {:induction false} PlansAuditKeepsChain(w: Wording, audit: seq<Audit.Event>, plans: seq<NodePlan>)
    requires Audit.ValidChain(w.line, audit)
    ensures Audit.ValidChain(w.line, PlansAudit(w, audit, plans))
    decreases |plans|
  {
    if plans != [] {
      var front, last := plans[..|plans| - 1], plans[|plans| - 1];
      PlansAuditKeepsChain(w, audit, front);
      ItemsAuditKeepsChain(w, PlansAudit(w, audit, front), last.node, last.items);
    }
  }

  ghost predicate NodesDistinct(plans: seq<NodePlan>) {
    forall i, j :: 0 <= i < j < |plans| ==> plans[i].node != plans[j].node
  }

  predicate Covers(plans: seq<NodePlan>, node: string) {
    exists i :: 0 <= i < |plans| && plans[i].node == node
  }

  /** Each planned node gets its own plan, on the table the plan was made for; other nodes nothing. */
  lemma {:induction false} EachNodeItsPlan(tables: Tables, plans: seq<NodePlan>, node: string)
    requires NodesDistinct(plans) && forall i :: 0 <= i < |plans| ==> (plans[i].found <==> plans[i].node in tables)
    ensures node in AfterPlans(tables, plans) <==> node in tables
    ensures node in tables && !Covers(plans, node) ==> AfterPlans(tables, plans)[node] == tables[node]
    ensures forall i :: 0 <= i < |plans| && plans[i].node == node && node in tables ==>
      AfterPlans(tables, plans)[node] == ApplyItems(tables[node], plans[i].items)
    decreases |plans|
  {
    if plans != [] {
      var k := |plans| - 1;
      EachNodeItsPlan(tables, plans[..k], node);
      EachNodeItsPlan(tables, plans[..k], plans[k].node);
      assert !Covers(plans[..k], plans[k].node);
      if Covers(plans[..k], node) {
        var i :| 0 <= i < k && plans[..k][i].node == node;
        assert plans[i].node == node;
      }
      assert node == plans[k].node ==> Covers(plans, node);
    }
  }

  /** A bulk edit leaves every node with at most 32 center tags. */
  lemma BulkKeepsOk(tables: Tables, requests: seq<Request>, plans: seq<NodePlan>)
    requires AllOk(tables) && NodesDistinct(plans)
    requires forall i :: 0 <= i < |plans| ==> PlanIs(tables, requests, plans[i])
    ensures AllOk(AfterPlans(tables, plans))
  {
    forall i | 0 <= i < |plans| ensures plans[i].found <==> plans[i].node in tables {
      assert PlanIs(tables, requests, plans[i]);
    }
    forall node | node in AfterPlans(tables, plans) ensures TableOk(AfterPlans(tables, plans)[node]) {
      EachNodeItsPlan(tables, plans, node);
      if Covers(plans, node) {
        var i :| 0 <= i < |plans| && plans[i].node == node;
        assert PlanIs(tables, requests, plans[i]);
        CapHolds(tables[node], requests, plans[i].items, |plans[i].items|);
        assert plans[i].items[..|plans[i].items|] == plans[i].items;
      }
    }
  }

  /** So does a Register, whose system tags all have reserved keys. */
  lemma RegisterKeepsOk(t: TagTable, declared: seq<Declared>, system: seq<Pair>)
    requires TableOk(t) && forall i :: 0 <= i < |system| ==> Reserved(system[i].key)
    ensures TableOk(Registered(t, declared, system))
  {
    var after := Registered(t, declared, system);
    RegisterRows(t, declared, system);
    forall k: TagKey ensures k.source == Center ==> TagBulk.SameRow(after, t, k) {
      assert k in CenterRows(after) <==> k in after && k.source == Center;
      assert k in CenterRows(t) <==> k in t && k.source == Center;
      assert k in CenterRows(t) ==> CenterRows(after)[k] == CenterRows(t)[k];
    }
    forall key ensures key in CenterKeys(after) <==> key in CenterKeys(t) {
      CenterKeyIs(after, key);
      CenterKeyIs(t, key);
      assert TagBulk.SameRow(after, t, TagKey(Center, key));
    }
    assert CenterKeys(after) == CenterKeys(t);
    SystemReserved(CenterRows(t), declared, system);
  }

  lemma {:induction false} SystemReserved(t: TagTable, declared: seq<Declared>, system: seq<Pair>)
    requires forall k: TagKey :: k in t ==> k.source == Center
    requires forall i :: 0 <= i < |system| ==> Reserved(system[i].key)
    ensures forall k: TagKey :: k in WithSystem(WithDeclared(t, declared), system) && k.source == System ==> Reserved(k.key)
    decreases |system|
  {
    if system == [] {
      forall k: TagKey | k in WithDeclared(t, declared) ensures k.source != System {
        WithDeclaredRows(t, declared, k);
      }
    } else {
      SystemReserved(t, declared, system[..|system| - 1]);
    }
  }

  class TagStore {
    var tables: Tables
    var audit: seq<Audit.Event>

    constructor ()
      ensures tables == map[] && audit == []
    {
      tables, audit := map[], [];
    }

    method Append(w: Wording, action: string, target: string, detail: string, node: Option<string>)
      modifies this`audit
      ensures audit == Audit.Appended(w.line, old(audit), action, target, detail, node)
    {
      var prev := if |audit| > 0 then audit[|audit| - 1].hash else "";
      audit := audit + [Audit.Event(prev, action, target, detail, node, w.line(Audit.Material(prev, action, target, detail)))];
    }

    method ApplyOne(w: Wording, node: string, item: Item)
      requires node in tables
      modifies this
      ensures tables == old(tables)[node := ApplyItem(old(tables)[node], item)]
      ensures audit == ItemAudit(w, old(audit), node, item)
    {
      var row := TagKey(Center, item.key);
      match item.action {
        case Added | Changed =>
          if item.write.Some? {
            tables := tables[node := tables[node][row := TagRow(item.write.value, true, None)]];
            Append(w, "tag.set", node, w.item(item), Some(node));
          }
        case Removed =>
          tables := tables[node := tables[node] - {row}];
          Append(w, "tag.removed", node, w.item(item), Some(node));
        case _ =>
      }
    }

    /** Writes and deletes row by row, with an audit event for each. */
    method ApplyPlan(w: Wording, plan: NodePlan)
      requires plan.found ==> plan.node in tables
      modifies this
      ensures tables == if plan.found then old(tables)[plan.node := ApplyItems(old(tables)[plan.node], plan.items)] else old(tables)
      ensures audit == if plan.found then ItemsAudit(w, old(audit), plan.node, plan.items) else old(audit)
    {
      if !plan.found {
        return;
      }
      var items := plan.items;
      for i := 0 to |items|
        invariant plan.node in tables
        invariant tables == old(tables)[plan.node := ApplyItems(old(tables)[plan.node], items[..i])]
        invariant audit == ItemsAudit(w, old(audit), plan.node, items[..i])
      {
        assert items[..i + 1][..i] == items[..i] && items[..i + 1][i] == items[i];
        ApplyOne(w, plan.node, items[i]);
      }
      assert items[..|items|] == items;
    }

    method LoadPlans(ids: seq<string>, requests: seq<Request>) returns (plans: seq<NodePlan>)
      requires AllOk(tables) && RequestsOk(requests)
      ensures |plans| == |ids|
      ensures forall i :: 0 <= i < |ids| ==> plans[i].node == ids[i] && PlanIs(tables, requests, plans[i])
    {
      plans := [];
      for i := 0 to |ids|
        invariant |plans| == i
        invariant forall k :: 0 <= k < i ==> plans[k].node == ids[k] && PlanIs(tables, requests, plans[k])
      {
        if ids[i] in tables {
          var items, prod := PlanNode(tables[ids[i]], requests);
          plans := plans + [NodePlan(ids[i], true, prod, items)];
        } else {
          plans := plans + [NodePlan(ids[i], false, false, UNKNOWN_NODE)];
        }
      }
    }

    /** A dry run plans only. A write needs the number of production nodes confirmed, and then does
        what was planned; it is all or nothing. */
    method Bulk(w: Wording, ids: seq<string>, requests: seq<Request>, dryRun: bool, confirm: Option<nat>, id: string, summary: string)
      returns (plans: seq<NodePlan>, done: bool)
      requires AllOk(tables) && RequestsOk(requests)
      requires forall i, j :: 0 <= i < j < |ids| ==> ids[i] != ids[j]
      modifies this
      ensures |plans| == |ids| && forall i :: 0 <= i < |ids| ==> plans[i].node == ids[i] && PlanIs(old(tables), requests, plans[i])
      ensures done <==> !dryRun && ((forall i :: 0 <= i < |plans| ==> !plans[i].prod) || confirm == Some(ProdCount(plans)))
      ensures !done ==> tables == old(tables) && audit == old(audit)
      ensures done ==> tables == AfterPlans(old(tables), plans)
      ensures done ==> audit == Audit.Appended(w.line, PlansAudit(w, old(audit), plans), "tag.bulk_applied", id, summary, None)
    {
      plans := LoadPlans(ids, requests);
      ConfirmedIff(plans, confirm);
      if dryRun || !Confirmed(ProdIds(plans), confirm) {
        return plans, false;
      }
      for i := 0 to |plans|
        invariant tables == AfterPlans(old(tables), plans[..i])
        invariant audit == PlansAudit(w, old(audit), plans[..i])
      {
        assert plans[..i + 1][..i] == plans[..i];
        AfterKeys(old(tables), plans[..i]);
        assert PlanIs(old(tables), requests, plans[i]);
        ApplyPlan(w, plans[i]);
      }
      assert plans[..|plans|] == plans;
      Append(w, "tag.bulk_applied", id, summary, None);
      done := true;
    }

    method ReportChange(w: Wording, node: string, was: Sig, now: Sig)
      modifies this`audit
      ensures audit == RegisterAudit(w, old(audit), node, was, now)
    {
      var detail := NodeReportedDetail(was, now);
      if detail.Some? {
        Append(w, "tag.node_reported_changed", node, w.register(detail.value), Some(node));
      }
    }

    /** Replaces the node's own and the system rows; reports a change of the former. */
    method Register(w: Wording, node: string, declared: seq<Declared>, system: seq<Pair>)
      modifies this
      ensures tables == old(tables)[node := Registered(TableOf(old(tables), node), declared, system)]
      ensures audit == RegisterAudit(w, old(audit), node, NodeSig(TableOf(old(tables), node)), DeclaredSig(declared))
      ensures NodeSig(TableOf(old(tables), node)) == DeclaredSig(declared) ==> audit == old(audit)
      ensures NodeSig(TableOf(old(tables), node)) != DeclaredSig(declared) ==>
        && |audit| == |old(audit)| + 1 && audit[..|old(audit)|] == old(audit)
        && audit[|old(audit)|].action == "tag.node_reported_changed" && audit[|old(audit)|].target == node
    {
      var t := TableOf(tables, node);
      var was := NodeSig(t);
      t := ReplaceRows(t, declared, system);
      tables := tables[node := t];
      ReportChange(w, node, was, DeclaredSig(declared));
    }
  }

  function RegisterAudit(w: Wording, audit: seq<Audit.Event>, node: string, was: Sig, now: Sig): seq<Audit.Event> {
    match Reported(was, now)
    case None => audit
    case Some(detail) =>
      Audit.Appended(w.line, audit, "tag.node_reported_changed", node, w.register(detail), Some(node))
  }

  method ReplaceRows(was: TagTable, declared: seq<Declared>, system: seq<Pair>) returns (t: TagTable)
    ensures t == Registered(was, declared, system)
  {
    var center := CenterRows(was);
    t := center;
    for i := 0 to |declared|
      invariant t == WithDeclared(center, declared[..i])
    {
      assert declared[..i + 1][..i] == declared[..i];
      t := t[TagKey(Node, declared[i].key) := declared[i].row];
    }
    assert declared[..|declared|] == declared;
    ghost var own := t;
    for i := 0 to |system|
      invariant t == WithSystem(own, system[..i])
    {
      assert system[..i + 1][..i] == system[..i];
      t := t[TagKey(System, system[i].key) := TagRow(system[i].value, true, None)];
    }
    assert system[..|system|] == system;
  }

  function TableOf(tables: Tables, node: string): TagTable {
    if node in tables then tables[node] else map[]
  }

  lemma {:induction false} AfterKeys(tables: Tables, plans: seq<NodePlan>)
    ensures AfterPlans(tables, plans).Keys == tables.Keys
    decreases |plans|
  {
    if plans != [] {
      AfterKeys(tables, plans[..|plans| - 1]);
    }
  }
}
