/** Bulk tag edits: the planner foretells what the item by item apply then does. */
module TagBulk {
  import opened Text
  import opened Tags

  datatype Request = Drop(key: string) | Put(key: string, value: string)

  datatype ItemAction = Added | Changed | Unchanged | Removed | BootReported | NotFound | Error

  datatype Item = Item(key: string, action: ItemAction, oldValue: Option<string>, newValue: Option<string>,
                       error: Option<string>, before: Option<string>, after: Option<string>,
                       nodeValue: Option<string>, write: Option<string>)

  predicate Reserved(key: string) {
    key == "sys" || (|key| >= 4 && key[..4] == "sys.")
  }

  /** Center rows are valid and at most 32, and system rows have reserved keys. */
  ghost predicate TableOk(t: TagTable) {
    && CenterValid(t) && |CenterKeys(t)| <= MAX_CENTER_TAGS
    && (forall k :: k in t && k.source == System ==> Reserved(k.key))
  }

  // ---------------------------------------------------------------- apply

  /** What the apply does for one item: an upsert, a delete or nothing. */
  function ApplyItem(t: TagTable, item: Item): TagTable {
    if (item.action == Added || item.action == Changed) && item.write.Some? then
      t[TagKey(Center, item.key) := TagRow(item.write.value, true, None)]
    else if item.action == Removed then t - {TagKey(Center, item.key)}
    else t
  }

  function ApplyItems(t: TagTable, items: seq<Item>): TagTable {
    if items == [] then t else ApplyItem(ApplyItems(t, items[..|items| - 1]), items[|items| - 1])
  }

  // ---------------------------------------------------------------- what an item must say

  function NodeRowValue(t: TagTable, key: string): Option<string> {
    if TagKey(Node, key) in t then Some(t[TagKey(Node, key)].value) else None
  }

  /** The decision for a request against the table as it is when its turn comes. */
  function Decision(cur: TagTable, r: Request): ItemAction {
    var was := CenterValue(cur, r.key);
    match r
    case Drop(_) => if was.Some? then Removed else if NodeRowValue(cur, r.key).Some? then BootReported else NotFound
    case Put(_, value) =>
      if was == Some(value) then Unchanged
      else if was.Some? then Changed
      else if |CenterKeys(cur)| >= MAX_CENTER_TAGS then Error
      else Added
  }

  ghost predicate Decided(cur: TagTable, r: Request, item: Item) {
    && item.key == r.key && item.action == Decision(cur, r)
    && item.nodeValue == ValidNodeValue(cur, r.key)
    && item.oldValue == (if item.action == BootReported then NodeRowValue(cur, r.key) else CenterValue(cur, r.key))
    && item.newValue == (if r.Put? then Some(r.value) else None)
    && item.write == (if item.action == Added || item.action == Changed then item.newValue else None)
    && item.error == (if item.action == Error then Some("tag_limit_exceeded") else None)
  }

  /** The recorded effective values are those right before and right after the item is applied. */
  ghost predicate Observed(cur: TagTable, item: Item) {
    && item.before == EffectiveValue(cur, item.key)
    && item.after == EffectiveValue(ApplyItem(cur, item), item.key)
  }

  ghost predicate DecidedAt(t: TagTable, requests: seq<Request>, items: seq<Item>, k: nat)
    requires k < |items| <= |requests|
  {
    Decided(ApplyItems(t, items[..k]), requests[k], items[k])
  }

  ghost predicate ObservedAt(t: TagTable, items: seq<Item>, k: nat)
    requires k < |items|
  {
    Observed(ApplyItems(t, items[..k]), items[k])
  }

  ghost predicate AllDecided(t: TagTable, requests: seq<Request>, items: seq<Item>) {
    |items| <= |requests| && forall k :: 0 <= k < |items| ==> DecidedAt(t, requests, items, k)
  }

  /** Every item says what happens when the items are applied one after the other. */
  ghost predicate Foretells(t: TagTable, requests: seq<Request>, items: seq<Item>) {
    && |items| == |requests| && AllDecided(t, requests, items)
    && (forall k :: 0 <= k < |items| ==> ObservedAt(t, items, k))
  }

  /** Validated: no key twice, and none reserved. */
  ghost predicate RequestsOk(requests: seq<Request>) {
    && (forall i, j :: 0 <= i < j < |requests| ==> requests[i].key != requests[j].key)
    && (forall i :: 0 <= i < |requests| ==> !Reserved(requests[i].key))
  }

  // ---------------------------------------------------------------- keys that are left alone

  /** The two tables have the same rows for `key`. */
  predicate SameAt(a: TagTable, b: TagTable, key: string) {
    SameRow(a, b, TagKey(Center, key)) && SameRow(a, b, TagKey(Node, key)) && SameRow(a, b, TagKey(System, key))
  }

  predicate SameRow(a: TagTable, b: TagTable, k: TagKey) {
    (k in a <==> k in b) && (k in a ==> a[k] == b[k])
  }

  predicate Mentions(items: seq<Item>, key: string) {
    exists i :: 0 <= i < |items| && items[i].key == key
  }

  lemma {:induction false} Unmentioned(t: TagTable, items: seq<Item>, key: string)
    requires !Mentions(items, key)
    ensures SameAt(t, ApplyItems(t, items), key)
    decreases |items|
  {
    if items != [] {
      var k := |items| - 1;
      assert items[k].key != key;
      assert forall i :: 0 <= i < k ==> items[..k][i] == items[i];
      Unmentioned(t, items[..k], key);
    }
  }

  lemma DecidedGrows(t: TagTable, requests: seq<Request>, items: seq<Item>, item: Item)
    requires AllDecided(t, requests, items) && |items| < |requests|
    requires Decided(ApplyItems(t, items), requests[|items|], item)
    ensures AllDecided(t, requests, items + [item])
  {
    var longer := items + [item];
    forall k | 0 <= k < |longer| ensures DecidedAt(t, requests, longer, k) {
      if k < |items| {
        assert DecidedAt(t, requests, items, k);
        assert longer[..k] == items[..k];
      } else {
        assert longer[..k] == items;
      }
    }
  }

  // ---------------------------------------------------------------- the overlay

  /** The center rows replaced, dropped or added as the overlay says; every other row as it is. */
  function ApplyOverlay(t: TagTable, overlay: map<string, Option<string>>): TagTable {
    map k | k in t.Keys + OverlayKeys(overlay) && Survives(t, overlay, k) :: OverlaidRow(t, overlay, k)
  }

  function OverlayKeys(overlay: map<string, Option<string>>): set<TagKey> {
    set key | key in overlay :: TagKey(Center, key)
  }

  predicate Survives(t: TagTable, overlay: map<string, Option<string>>, k: TagKey) {
    if k.source == Center && k.key in overlay then overlay[k.key].Some? else k in t
  }

  function OverlaidRow(t: TagTable, overlay: map<string, Option<string>>, k: TagKey): TagRow
    requires Survives(t, overlay, k)
  {
    if k.source == Center && k.key in overlay then TagRow(overlay[k.key].value, true, None) else t[k]
  }

  lemma OverlayAt(t: TagTable, overlay: map<string, Option<string>>, k: TagKey)
    ensures k in ApplyOverlay(t, overlay) <==> Survives(t, overlay, k)
    ensures k in ApplyOverlay(t, overlay) ==> ApplyOverlay(t, overlay)[k] == OverlaidRow(t, overlay, k)
  {
    if k.source == Center && k.key in overlay {
      assert k == TagKey(Center, k.key) && k in OverlayKeys(overlay);
    }
  }

  /** One more overlay entry is one more item applied. */
  lemma OverlayGrows(t: TagTable, overlay: map<string, Option<string>>, item: Item)
    requires item.action in {Added, Changed} ==> item.write.Some?
    ensures var next := if item.action in {Added, Changed} then overlay[item.key := item.write]
                        else if item.action == Removed then overlay[item.key := None] else overlay;
      ApplyOverlay(t, next) == ApplyItem(ApplyOverlay(t, overlay), item)
  {
    var next := if item.action in {Added, Changed} then overlay[item.key := item.write]
                else if item.action == Removed then overlay[item.key := None] else overlay;
    var a, b := ApplyOverlay(t, next), ApplyItem(ApplyOverlay(t, overlay), item);
    forall k ensures SameRow(a, b, k) {
      OverlayAt(t, next, k);
      OverlayAt(t, overlay, k);
    }
    SameRowsSameTable(a, b);
  }

  lemma SameRowsSameTable(a: TagTable, b: TagTable)
    requires forall k :: SameRow(a, b, k)
    ensures a == b
  {
    assert forall k :: SameRow(a, b, k) ==> (k in a <==> k in b);
    assert a.Keys == b.Keys;
    forall k | k in a ensures a[k] == b[k] {
      assert SameRow(a, b, k);
    }
  }

  lemma CenterKeysAfter(cur: TagTable, item: Item)
    requires item.action in {Added, Changed} ==> item.write.Some?
    ensures CenterKeys(ApplyItem(cur, item))
      == (if item.action in {Added, Changed} then CenterKeys(cur) + {item.key}
          else if item.action == Removed then CenterKeys(cur) - {item.key} else CenterKeys(cur))
  {
    var next := ApplyItem(cur, item);
    forall key ensures (key in CenterKeys(next) <==> TagKey(Center, key) in next)
        && (key in CenterKeys(cur) <==> TagKey(Center, key) in cur) {
      CenterKeyIs(next, key);
      CenterKeyIs(cur, key);
    }
  }

  lemma CenterKeyIs(t: TagTable, key: string)
    ensures key in CenterKeys(t) <==> TagKey(Center, key) in t
  {
    if TagKey(Center, key) in t {
      assert TagKey(Center, key) in t.Keys;
    }
  }

  // ---------------------------------------------------------------- the planner

  /** One step of the planner, against the original rows, the overlay so far and the center keys so far. */
  method PlanOne(t: TagTable, r: Request, centerKeys: set<string>, before: map<string, Effective>, ghost cur: TagTable)
    returns (item: Item)
    requires forall key :: (key in before <==> Chosen(t, key).Some?) && (key in before ==> before[key] == Chosen(t, key).value)
    requires SameAt(t, cur, r.key) && centerKeys == CenterKeys(cur)
    requires TableOk(t) && !Reserved(r.key)
    ensures Decided(cur, r, item)
    ensures Settled(item) ==> item.before == item.after == EffectiveValue(t, r.key)
  {
    var key := r.key;
    var was := CenterValue(t, key);
    var now := if key in before then Some(before[key].value) else None;
    var node := ValidNodeValue(t, key);
    match r {
      case Drop(_) =>
        if was.Some? {
          item := Item(key, Removed, was, None, None, None, None, node, None);
        } else if TagKey(Node, key) in t {
          item := Item(key, BootReported, Some(t[TagKey(Node, key)].value), None, None, now, now, node, None);
        } else {
          item := Item(key, NotFound, None, None, None, None, None, None, None);
        }
      case Put(_, value) =>
        if was == Some(value) {
          item := Item(key, Unchanged, was, Some(value), None, now, now, node, None);
        } else if was.Some? {
          item := Item(key, Changed, was, Some(value), None, None, None, node, Some(value));
        } else if |centerKeys| >= MAX_CENTER_TAGS {
          item := Item(key, Error, None, Some(value), Some("tag_limit_exceeded"), now, now, node, None);
        } else {
          item := Item(key, Added, None, Some(value), None, None, None, node, Some(value));
        }
    }
  }

  predicate Settled(item: Item) {
    item.action != Added && item.action != Changed && item.action != Removed
  }

  lemma AppliedOneMore(t: TagTable, items: seq<Item>, item: Item)
    ensures ApplyItems(t, items + [item]) == ApplyItem(ApplyItems(t, items), item)
  {
    assert (items + [item])[..|items|] == items;
  }

  /** The planner's working state agrees with the table after the items so far. */
  ghost predicate InStep(t: TagTable, items: seq<Item>, overlay: map<string, Option<string>>, centerKeys: set<string>) {
    && ApplyOverlay(t, overlay) == ApplyItems(t, items)
    && centerKeys == CenterKeys(ApplyItems(t, items))
  }

  /** A settled item already shows its effective value; the others are filled in later. */
  ghost predicate SettledSeen(t: TagTable, items: seq<Item>, k: nat)
    requires k < |items|
  {
    Settled(items[k]) ==> items[k].before == items[k].after == EffectiveValue(t, items[k].key)
  }

  ghost predicate Drafted(t: TagTable, requests: seq<Request>, items: seq<Item>) {
    && AllDecided(t, requests, items)
    && (forall k :: 0 <= k < |items| ==> SettledSeen(t, items, k))
  }

  lemma DraftedKeys(t: TagTable, requests: seq<Request>, items: seq<Item>)
    requires Drafted(t, requests, items)
    ensures forall k :: 0 <= k < |items| ==> items[k].key == requests[k].key
  {
    forall k | 0 <= k < |items| ensures items[k].key == requests[k].key {
      assert DecidedAt(t, requests, items, k);
    }
  }

  lemma DraftedGrows(t: TagTable, requests: seq<Request>, items: seq<Item>, item: Item)
    requires Drafted(t, requests, items) && |items| < |requests|
    requires Decided(ApplyItems(t, items), requests[|items|], item)
    requires Settled(item) ==> item.before == item.after == EffectiveValue(t, item.key)
    ensures Drafted(t, requests, items + [item])
  {
    DecidedGrows(t, requests, items, item);
    forall k | 0 <= k < |items| ensures SettledSeen(t, items + [item], k) {
      assert SettledSeen(t, items, k);
    }
  }

  lemma DraftedApart(t: TagTable, requests: seq<Request>, items: seq<Item>)
    requires Drafted(t, requests, items) && RequestsOk(requests) && |items| < |requests|
    ensures SameAt(t, ApplyItems(t, items), requests[|items|].key)
  {
    DraftedKeys(t, requests, items);
    assert !Mentions(items, requests[|items|].key);
    Unmentioned(t, items, requests[|items|].key);
  }

  /** The requests in order, each decided against what the ones before it leave. */
  method PlanDrafts(t: TagTable, requests: seq<Request>, before: map<string, Effective>)
    returns (items: seq<Item>, overlay: map<string, Option<string>>)
    requires TableOk(t) && RequestsOk(requests)
    requires forall key :: (key in before <==> Chosen(t, key).Some?) && (key in before ==> before[key] == Chosen(t, key).value)
    ensures |items| == |requests| && Drafted(t, requests, items)
    ensures ApplyOverlay(t, overlay) == ApplyItems(t, items)
  {
    var centerKeys := CenterKeys(t);
    overlay := map[];
    items := [];
    EmptyOverlay(t);
    for i := 0 to |requests|
      invariant |items| == i && Drafted(t, requests, items)
      invariant InStep(t, items, overlay, centerKeys)
    {
      ghost var cur := ApplyItems(t, items);
      DraftedApart(t, requests, items);
      var item := PlanOne(t, requests[i], centerKeys, before, cur);
      centerKeys, overlay := Track(t, items, requests[i], item, overlay, centerKeys);
      DraftedGrows(t, requests, items, item);
      items := items + [item];
    }
  }

  method Track(t: TagTable, ghost items: seq<Item>, ghost r: Request, item: Item, overlay: map<string, Option<string>>, centerKeys: set<string>)
    returns (keys: set<string>, next: map<string, Option<string>>)
    requires InStep(t, items, overlay, centerKeys)
    requires Decided(ApplyItems(t, items), r, item)
    ensures InStep(t, items + [item], next, keys)
  {
    keys, next := centerKeys, overlay;
    if item.action == Removed {
      keys, next := centerKeys - {item.key}, overlay[item.key := None];
    } else if item.action == Changed {
      next := overlay[item.key := item.write];
    } else if item.action == Added {
      keys, next := centerKeys + {item.key}, overlay[item.key := item.write];
    }
    OverlayGrows(t, overlay, item);
    CenterKeysAfter(ApplyItems(t, items), item);
    AppliedOneMore(t, items, item);
    CenterKeyIs(ApplyItems(t, items), item.key);
  }

  /** Removals first, then additions; the effective values of the writes are filled in at the end. */
  method PlanNode(t: TagTable, requests: seq<Request>) returns (items: seq<Item>, prod: bool)
    requires TableOk(t) && RequestsOk(requests)
    ensures Foretells(t, requests, items)
    ensures forall k :: 0 <= k < |requests| ==> LeadsTo(t, requests[k], items, k)
    ensures prod <==> CountsAsProd(t) || CountsAsProd(ApplyItems(t, items))
  {
    var before := EffectiveOf(t);
    var drafts, overlay := PlanDrafts(t, requests, before);
    var after := EffectiveOf(ApplyOverlay(t, overlay));
    prod := CountsAsProd(t) || CountsAsProd(ApplyOverlay(t, overlay));
    items := Fill(drafts, before, after);
    ghost var final := ApplyItems(t, drafts);
    forall k | 0 <= k < |items| ensures FilledAt(t, final, drafts, items, k) {
      assert SettledSeen(t, drafts, k);
    }
    FilledForetells(t, requests, drafts, items);
    forall k | 0 <= k < |requests| ensures LeadsTo(t, requests[k], items, k) {
      BulkLeadsTo(t, requests, items, k);
    }
  }

  lemma EmptyOverlay(t: TagTable)
    ensures ApplyOverlay(t, map[]) == t
  {
    forall k ensures SameRow(ApplyOverlay(t, map[]), t, k) {
      OverlayAt(t, map[], k);
    }
    SameRowsSameTable(ApplyOverlay(t, map[]), t);
  }

  function ValueIn(effective: map<string, Effective>, key: string): Option<string> {
    if key in effective then Some(effective[key].value) else None
  }

  function FilledItem(item: Item, before: map<string, Effective>, after: map<string, Effective>): Item {
    if Settled(item) then item
    else item.(before := ValueIn(before, item.key), after := ValueIn(after, item.key))
  }

  /** The values are filled in from the tables before and after the whole plan. */
  ghost predicate FilledAt(t: TagTable, final: TagTable, drafts: seq<Item>, items: seq<Item>, k: nat)
    requires k < |items| == |drafts|
  {
    && items[k] == drafts[k].(before := items[k].before, after := items[k].after)
    && items[k].before == EffectiveValue(t, items[k].key)
    && items[k].after == EffectiveValue(if Settled(items[k]) then t else final, items[k].key)
  }

  ghost predicate AllFilled(t: TagTable, final: TagTable, drafts: seq<Item>, items: seq<Item>) {
    |items| == |drafts| && forall k :: 0 <= k < |items| ==> FilledAt(t, final, drafts, items, k)
  }

  lemma SameAtSameValue(a: TagTable, b: TagTable, key: string)
    requires SameAt(a, b, key)
    ensures EffectiveValue(a, key) == EffectiveValue(b, key)
  {
  }

  lemma {:induction false} UnmentionedAfter(t: TagTable, items: seq<Item>, k: nat, key: string)
    requires k <= |items| && !Mentions(items[k..], key)
    ensures SameAt(ApplyItems(t, items[..k]), ApplyItems(t, items), key)
    decreases |items|
  {
    var last := |items| - 1;
    if k == |items| {
      assert items[..k] == items;
    } else {
      assert items[last] == items[k..][last - k];
      assert items[last].key != key;
      assert items[..last][k..] == items[k..][..last - k];
      assert items[..last][..k] == items[..k];
      assert forall i :: 0 <= i < last - k ==> items[k..][..last - k][i] == items[k..][i];
      UnmentionedAfter(t, items[..last], k, key);
    }
  }

  lemma {:induction false} FilledApplies(t: TagTable, final: TagTable, drafts: seq<Item>, items: seq<Item>, k: nat)
    requires AllFilled(t, final, drafts, items) && k <= |items|
    ensures ApplyItems(t, items[..k]) == ApplyItems(t, drafts[..k])
  {
    if k > 0 {
      FilledApplies(t, final, drafts, items, k - 1);
      assert FilledAt(t, final, drafts, items, k - 1);
      assert items[..k][..k - 1] == items[..k - 1] && drafts[..k][..k - 1] == drafts[..k - 1];
    }
  }

  ghost predicate KeysDistinct(items: seq<Item>) {
    forall i, j :: 0 <= i < j < |items| ==> items[i].key != items[j].key
  }

  lemma FilledObserved(t: TagTable, drafts: seq<Item>, items: seq<Item>, k: nat)
    requires KeysDistinct(items) && AllFilled(t, ApplyItems(t, items), drafts, items) && k < |items|
    ensures ObservedAt(t, items, k)
  {
    var key, cur := items[k].key, ApplyItems(t, items[..k]);
    assert FilledAt(t, ApplyItems(t, items), drafts, items, k);
    NotMentioned(items, k);
    Unmentioned(t, items[..k], key);
    SameAtSameValue(t, cur, key);
    UnmentionedAfter(t, items, k + 1, key);
    assert items[..k + 1][..k] == items[..k];
    SameAtSameValue(ApplyItem(cur, items[k]), ApplyItems(t, items), key);
  }

  lemma NotMentioned(items: seq<Item>, k: nat)
    requires KeysDistinct(items) && k < |items|
    ensures !Mentions(items[..k], items[k].key) && !Mentions(items[k + 1..], items[k].key)
  {
    var rest := items[k + 1..];
    forall i | 0 <= i < |rest| ensures rest[i].key != items[k].key {
      assert rest[i] == items[k + 1 + i];
    }
  }

  lemma FilledDecided(t: TagTable, requests: seq<Request>, drafts: seq<Item>, items: seq<Item>, k: nat)
    requires |items| == |requests| && AllFilled(t, ApplyItems(t, items), drafts, items) && k < |items|
    requires AllDecided(t, requests, drafts)
    ensures DecidedAt(t, requests, items, k)
  {
    FilledApplies(t, ApplyItems(t, items), drafts, items, k);
    assert FilledAt(t, ApplyItems(t, items), drafts, items, k);
    assert DecidedAt(t, requests, drafts, k);
  }

  lemma FilledForetells(t: TagTable, requests: seq<Request>, drafts: seq<Item>, items: seq<Item>)
    requires |drafts| == |requests| && RequestsOk(requests)
    requires Drafted(t, requests, drafts) && AllFilled(t, ApplyItems(t, drafts), drafts, items)
    ensures ApplyItems(t, items) == ApplyItems(t, drafts)
    ensures Foretells(t, requests, items)
  {
    FilledApplies(t, ApplyItems(t, drafts), drafts, items, |items|);
    assert items[..|items|] == items && drafts[..|drafts|] == drafts;
    DraftedKeys(t, requests, drafts);
    FilledKeys(t, requests, drafts, items);
    forall k | 0 <= k < |items| ensures DecidedAt(t, requests, items, k) && ObservedAt(t, items, k) {
      FilledDecided(t, requests, drafts, items, k);
      FilledObserved(t, drafts, items, k);
    }
  }

  lemma FilledKeys(t: TagTable, requests: seq<Request>, drafts: seq<Item>, items: seq<Item>)
    requires |drafts| == |requests| && RequestsOk(requests) && AllFilled(t, ApplyItems(t, drafts), drafts, items)
    requires forall k :: 0 <= k < |drafts| ==> drafts[k].key == requests[k].key
    ensures KeysDistinct(items)
  {
    forall k | 0 <= k < |items| ensures items[k].key == requests[k].key {
      assert FilledAt(t, ApplyItems(t, drafts), drafts, items, k);
    }
  }

  method Fill(drafts: seq<Item>, before: map<string, Effective>, after: map<string, Effective>) returns (items: seq<Item>)
    ensures |items| == |drafts|
    ensures forall i :: 0 <= i < |drafts| ==> items[i] == FilledItem(drafts[i], before, after)
  {
    items := [];
    for i := 0 to |drafts|
      invariant |items| == i
      invariant forall k :: 0 <= k < i ==> items[k] == FilledItem(drafts[k], before, after)
    {
      items := items + [FilledItem(drafts[i], before, after)];
    }
  }

  // ---------------------------------------------------------------- what a plan guarantees

  lemma {:induction false} OnlyCenter(t: TagTable, items: seq<Item>)
    ensures forall k: TagKey :: k.source != Center ==> SameRow(t, ApplyItems(t, items), k)
    ensures CenterValid(t) ==> CenterValid(ApplyItems(t, items))
    decreases |items|
  {
    if items != [] {
      OnlyCenter(t, items[..|items| - 1]);
    }
  }

  /** At every step of the apply the node has at most 32 center tags, all of them valid. */
  lemma {:induction false} CapHolds(t: TagTable, requests: seq<Request>, items: seq<Item>, k: nat)
    requires TableOk(t) && AllDecided(t, requests, items) && k <= |items|
    ensures TableOk(ApplyItems(t, items[..k]))
  {
    OnlyCenter(t, items[..k]);
    if k > 0 {
      CapHolds(t, requests, items, k - 1);
      assert DecidedAt(t, requests, items, k - 1);
      assert items[..k][..k - 1] == items[..k - 1];
      CapOne(ApplyItems(t, items[..k - 1]), requests[k - 1], items[k - 1]);
    }
  }

  lemma CapOne(cur: TagTable, r: Request, item: Item)
    requires Decided(cur, r, item) && |CenterKeys(cur)| <= MAX_CENTER_TAGS
    ensures |CenterKeys(ApplyItem(cur, item))| <= MAX_CENTER_TAGS
  {
    CenterKeysAfter(cur, item);
    CenterKeyIs(cur, item.key);
    if item.action == Changed {
      assert CenterKeys(cur) + {item.key} == CenterKeys(cur);
    } else if item.action == Removed {
      assert CenterKeys(cur) - {item.key} <= CenterKeys(cur);
      Fewer(CenterKeys(cur), item.key);
    }
  }

  lemma Fewer(s: set<string>, x: string)
    ensures |s - {x}| <= |s|
  {
    if x in s {
      assert s == (s - {x}) + {x};
    } else {
      assert s - {x} == s;
    }
  }

  /** The table and the requests leave no choice: there is only one plan that foretells the apply. */
  lemma {:induction false} PlanIsUnique(t: TagTable, requests: seq<Request>, a: seq<Item>, b: seq<Item>, k: nat)
    requires Foretells(t, requests, a) && Foretells(t, requests, b) && k <= |requests|
    ensures a[..k] == b[..k]
  {
    if k > 0 {
      PlanIsUnique(t, requests, a, b, k - 1);
      assert DecidedAt(t, requests, a, k - 1) && ObservedAt(t, a, k - 1);
      assert DecidedAt(t, requests, b, k - 1) && ObservedAt(t, b, k - 1);
      assert a[..k] == a[..k - 1] + [a[k - 1]] && b[..k] == b[..k - 1] + [b[k - 1]];
    }
  }

  // ---------------------------------------------------------------- what the requests lead to

  /** There is no room for a new center tag at request `k`'s turn. */
  predicate FullAt(t: TagTable, items: seq<Item>, k: nat)
    requires k <= |items|
  {
    |CenterKeys(ApplyItems(t, items[..k]))| >= 32
  }

  /** The center row of the key, before and after the item's turn. */
  function CenterBefore(t: TagTable, items: seq<Item>, k: nat): Option<TagRow>
    requires k < |items|
  {
    RowOf(ApplyItems(t, items[..k]), items[k].key)
  }

  function CenterAfter(t: TagTable, items: seq<Item>, k: nat): Option<TagRow>
    requires k < |items|
  {
    RowOf(ApplyItems(t, items[..k + 1]), items[k].key)
  }

  function RowOf(t: TagTable, key: string): Option<TagRow> {
    if TagKey(Center, key) in t then Some(t[TagKey(Center, key)]) else None
  }

  lemma TurnOf(t: TagTable, requests: seq<Request>, items: seq<Item>, k: nat)
    requires AllDecided(t, requests, items) && k < |items|
    ensures Decided(ApplyItems(t, items[..k]), requests[k], items[k])
    ensures ApplyItems(t, items[..k + 1]) == ApplyItem(ApplyItems(t, items[..k]), items[k])
  {
    assert DecidedAt(t, requests, items, k);
    assert items[..k + 1][..k] == items[..k];
  }

  /** A dropped key has no center row afterwards; it is called removed exactly if it had one, and else it
      is told apart by whether the node reports it. */
  lemma DropLeadsTo(t: TagTable, requests: seq<Request>, items: seq<Item>, k: nat)
    requires AllDecided(t, requests, items) && k < |items| && requests[k].Drop?
    ensures items[k].key == requests[k].key && CenterAfter(t, items, k) == None
    ensures items[k].action == Removed <==> CenterBefore(t, items, k).Some?
    ensures items[k].action == BootReported
      <==> CenterBefore(t, items, k).None? && TagKey(Node, requests[k].key) in ApplyItems(t, items[..k])
    ensures items[k].action == NotFound
      <==> CenterBefore(t, items, k).None? && TagKey(Node, requests[k].key) !in ApplyItems(t, items[..k])
  {
    TurnOf(t, requests, items, k);
  }

  /** A put key has the requested center value afterwards, unless it had no center row and 32 others were
      there at its turn; exactly that is the error, and then nothing changes. */
  lemma PutLeadsTo(t: TagTable, requests: seq<Request>, items: seq<Item>, k: nat)
    requires TableOk(t) && AllDecided(t, requests, items) && k < |items| && requests[k].Put?
    ensures items[k].key == requests[k].key
    ensures items[k].action == Error <==> CenterBefore(t, items, k).None? && FullAt(t, items, k)
    ensures items[k].action == Error ==> CenterAfter(t, items, k) == None && items[k].error == Some("tag_limit_exceeded")
    ensures items[k].action == Added || items[k].action == Changed ==> CenterAfter(t, items, k) == Some(TagRow(requests[k].value, true, None))
    ensures items[k].action != Error ==> CenterAfter(t, items, k).Some? && CenterAfter(t, items, k).value.value == requests[k].value
    ensures items[k].action == Added <==> CenterBefore(t, items, k).None? && CenterAfter(t, items, k).Some?
    ensures items[k].action == Changed <==> CenterBefore(t, items, k).Some? && CenterBefore(t, items, k).value.value != requests[k].value
    ensures items[k].action == Unchanged <==> CenterBefore(t, items, k).Some? && CenterBefore(t, items, k).value.value == requests[k].value
  {
    TurnOf(t, requests, items, k);
  }

  /** An item writes exactly when it changes the center value of its key, and changes nothing else. */
  lemma WritesAreChanges(t: TagTable, requests: seq<Request>, items: seq<Item>, k: nat)
    requires TableOk(t) && AllDecided(t, requests, items) && k < |items|
    ensures var before, after := ApplyItems(t, items[..k]), ApplyItems(t, items[..k + 1]);
      && (!Settled(items[k]) <==> CenterValue(before, items[k].key) != CenterValue(after, items[k].key))
      && (Settled(items[k]) ==> after == before)
      && (forall row :: row != TagKey(Center, items[k].key) ==> SameRow(before, after, row))
  {
    TurnOf(t, requests, items, k);
  }

  /** With no key twice, the turn of a key finds and leaves the rows it had at the start and has at the end. */
  lemma TurnIsWhole(t: TagTable, requests: seq<Request>, items: seq<Item>, k: nat)
    requires AllDecided(t, requests, items) && |items| == |requests| && RequestsOk(requests) && k < |items|
    ensures CenterBefore(t, items, k) == RowOf(t, requests[k].key)
    ensures CenterAfter(t, items, k) == RowOf(ApplyItems(t, items), requests[k].key)
  {
    forall i | 0 <= i < |items| ensures items[i].key == requests[i].key {
      assert DecidedAt(t, requests, items, i);
    }
    NotMentioned(items, k);
    Unmentioned(t, items[..k], items[k].key);
    UnmentionedAfter(t, items, k + 1, items[k].key);
  }

  predicate LeadsTo(t: TagTable, r: Request, items: seq<Item>, k: nat)
    requires k <= |items|
  {
    match r
    case Drop(key) => CenterValue(ApplyItems(t, items), key) == None
    case Put(key, value) =>
      CenterValue(ApplyItems(t, items), key) == (if CenterValue(t, key).None? && FullAt(t, items, k) then None else Some(value))
  }

  /** After a bulk edit a put key has its value unless it was new and there was no room, and a dropped key has none. */
  lemma BulkLeadsTo(t: TagTable, requests: seq<Request>, items: seq<Item>, k: nat)
    requires TableOk(t) && RequestsOk(requests) && Foretells(t, requests, items) && k < |requests|
    ensures LeadsTo(t, requests[k], items, k)
  {
    TurnIsWhole(t, requests, items, k);
    if requests[k].Drop? {
      DropLeadsTo(t, requests, items, k);
    } else {
      PutLeadsTo(t, requests, items, k);
    }
  }
}
