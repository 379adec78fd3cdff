/** Register: the tags a node declares replace its old ones, and the difference is reported. */
module TagRegister {
  import opened Text
  import opened Tags

  datatype Declared = Declared(key: string, row: TagRow)
  datatype Pair = Pair(key: string, value: string)

  /** The node's own rows by key. */
  type Sig = map<string, TagRow>

  function NodeSig(t: TagTable): Sig {
    map key | key in NodeKeys(t) :: t[TagKey(Node, key)]
  }

  function NodeKeys(t: TagTable): (keys: set<string>)
    ensures forall key :: key in keys <==> TagKey(Node, key) in t
  {
    var keys := set k | k in t.Keys && k.source == Node :: k.key;
    assert forall key :: TagKey(Node, key) in t ==> TagKey(Node, key) in t.Keys;
    keys
  }

  function DeclaredSig(declared: seq<Declared>): Sig {
    if declared == [] then map[]
    else DeclaredSig(declared[..|declared| - 1])[declared[|declared| - 1].key := declared[|declared| - 1].row]
  }

  function CenterRows(t: TagTable): TagTable {
    map k | k in t && k.source == Center :: t[k]
  }

  function WithDeclared(t: TagTable, declared: seq<Declared>): TagTable {
    if declared == [] then t
    else WithDeclared(t, declared[..|declared| - 1])[TagKey(Node, declared[|declared| - 1].key) := declared[|declared| - 1].row]
  }

  function WithSystem(t: TagTable, system: seq<Pair>): TagTable {
    if system == [] then t
    else
      var last := system[|system| - 1];
      WithSystem(t, system[..|system| - 1])[TagKey(System, last.key) := TagRow(last.value, true, None)]
  }

  function Registered(t: TagTable, declared: seq<Declared>, system: seq<Pair>): TagTable {
    WithSystem(WithDeclared(CenterRows(t), declared), system)
  }

  // ---------------------------------------------------------------- the reported difference

  /** The lists are in key order, so maps by key hold them. A changed entry shows the old value and the new row. */
  datatype Detail = Detail(added: Sig, changed: map<string, Change>, removed: Sig, invalid: Sig)

  datatype Change = Change(oldValue: string, row: TagRow)

  /** Each key is where it belongs. */
  ghost predicate Belongs(was: Sig, now: Sig, d: Detail, key: string) {
    && (key in d.added <==> key in now && key !in was)
    && (key in d.added ==> d.added[key] == now[key])
    && (key in d.removed <==> key in was && key !in now)
    && (key in d.removed ==> d.removed[key] == was[key])
    && (key in d.changed <==> key in was && key in now && was[key] != now[key])
    && (key in d.changed ==> d.changed[key] == Change(was[key].value, now[key]))
    && (key in d.invalid <==> key in now && !now[key].valid)
    && (key in d.invalid ==> d.invalid[key] == now[key])
  }

  /** The lists for the keys in `keys`. */
  function DetailOn(was: Sig, now: Sig, keys: set<string>): Detail {
    Detail(map key | key in now && key in keys && key !in was :: now[key],
           map key | key in now && key in keys && key in was && was[key] != now[key] :: Change(was[key].value, now[key]),
           map key | key in was && key in keys && key !in now :: was[key],
           InvalidRows(now))
  }

  function InvalidRows(now: Sig): Sig {
    map key | key in now && !now[key].valid :: now[key]
  }

  lemma NothingListedYet(was: Sig, now: Sig)
    ensures DetailOn(was, now, {}) == Detail(map[], map[], map[], InvalidRows(now))
  {
    var d := DetailOn(was, now, {});
    assert d.added == map[] && d.changed == map[] && d.removed == map[];
  }

  function Reported(was: Sig, now: Sig): Option<Detail> {
    if was == now then None else Some(DetailOn(was, now, was.Keys + now.Keys))
  }

  method NodeReportedDetail(was: Sig, now: Sig) returns (r: Option<Detail>)
    ensures r == Reported(was, now)
  {
    if was == now {
      return None;
    }
    var d := Detail(map[], map[], map[], InvalidRows(now));
    NothingListedYet(was, now);
    var keys := was.Keys + now.Keys;
    ghost var seen: set<string> := {};
    while keys != {}
      invariant keys + seen == was.Keys + now.Keys
      invariant d == DetailOn(was, now, seen)
      decreases |keys|
    {
      var key :| key in keys;
      keys := keys - {key};
      d := PlaceKey(was, now, seen, d, key);
      seen := seen + {key};
    }
    assert seen == was.Keys + now.Keys;
    return Some(d);
  }

  method PlaceKey(was: Sig, now: Sig, ghost seen: set<string>, d: Detail, key: string) returns (next: Detail)
    requires d == DetailOn(was, now, seen) && (key in was || key in now)
    ensures next == DetailOn(was, now, seen + {key})
  {
    DetailGrows(was, now, seen, key);
    if key !in was {
      next := d.(added := d.added[key := now[key]]);
    } else if key !in now {
      next := d.(removed := d.removed[key := was[key]]);
    } else if was[key] != now[key] {
      next := d.(changed := d.changed[key := Change(was[key].value, now[key])]);
    } else {
      next := d;
    }
  }

  lemma DetailGrows(was: Sig, now: Sig, keys: set<string>, key: string)
    requires key in was || key in now
    ensures var d, e := DetailOn(was, now, keys), DetailOn(was, now, keys + {key});
      e == if key !in was then d.(added := d.added[key := now[key]])
           else if key !in now then d.(removed := d.removed[key := was[key]])
           else if was[key] != now[key] then d.(changed := d.changed[key := Change(was[key].value, now[key])])
           else d
  {
    var d, e := DetailOn(was, now, keys), DetailOn(was, now, keys + {key});
    assert e.added == if key !in was then d.added[key := now[key]] else d.added;
    assert e.removed == if key !in now then d.removed[key := was[key]] else d.removed;
    assert e.changed == if key in was && key in now && was[key] != now[key]
                        then d.changed[key := Change(was[key].value, now[key])] else d.changed;
  }

  /** Nothing is reported exactly when nothing changed; else every key is listed where it belongs. */
  lemma ReportedBelongs(was: Sig, now: Sig, key: string)
    ensures Reported(was, now).None? <==> was == now
    ensures Reported(was, now).Some? ==> Belongs(was, now, Reported(was, now).value, key)
  {
  }

  /** Reading the lists as a patch. */
  function Patched(was: Sig, d: Detail): Sig {
    map key | key in was.Keys + d.added.Keys + d.changed.Keys && key !in d.removed ::
      if key in d.added then d.added[key] else if key in d.changed then d.changed[key].row else was[key]
  }

  lemma PatchedAt(was: Sig, now: Sig, d: Detail, key: string)
    requires Belongs(was, now, d, key)
    ensures key in Patched(was, d) <==> key in now
    ensures key in now ==> Patched(was, d)[key] == now[key]
  {
  }

  /** The reported lists lead from the old tags to the new. */
  lemma DetailIsPatch(was: Sig, now: Sig, d: Detail)
    requires Reported(was, now) == Some(d)
    ensures Patched(was, d) == now
  {
    forall key ensures (key in Patched(was, d) <==> key in now) && (key in now ==> Patched(was, d)[key] == now[key]) {
      ReportedBelongs(was, now, key);
      PatchedAt(was, now, d, key);
    }
  }

  // ---------------------------------------------------------------- Register as a whole

  lemma {:induction false} WithDeclaredRows(t: TagTable, declared: seq<Declared>, k: TagKey)
    ensures k in WithDeclared(t, declared) <==> k in t || (k.source == Node && k.key in DeclaredSig(declared))
    ensures k.source == Node && k.key in DeclaredSig(declared) ==> WithDeclared(t, declared)[k] == DeclaredSig(declared)[k.key]
    ensures k in t && (k.source != Node || k.key !in DeclaredSig(declared)) ==> WithDeclared(t, declared)[k] == t[k]
    decreases |declared|
  {
    if declared != [] {
      WithDeclaredRows(t, declared[..|declared| - 1], k);
    }
  }

  lemma {:induction false} WithSystemRows(t: TagTable, system: seq<Pair>, k: TagKey)
    ensures k in t ==> k in WithSystem(t, system)
    ensures k.source != System ==> (k in WithSystem(t, system) <==> k in t) && (k in t ==> WithSystem(t, system)[k] == t[k])
    decreases |system|
  {
    if system != [] {
      WithSystemRows(t, system[..|system| - 1], k);
    }
  }

  /** Register leaves the center's rows alone, and the node's own rows are exactly the declared ones. */
  lemma RegisterRows(t: TagTable, declared: seq<Declared>, system: seq<Pair>)
    ensures CenterRows(Registered(t, declared, system)) == CenterRows(t)
    ensures NodeSig(Registered(t, declared, system)) == DeclaredSig(declared)
  {
    var after := Registered(t, declared, system);
    forall k: TagKey | k.source != System
      ensures k.source == Center ==> (k in after <==> k in t) && (k in t ==> after[k] == t[k])
      ensures k.source == Node ==> (k in after <==> k.key in DeclaredSig(declared))
      ensures k.source == Node && k in after ==> after[k] == DeclaredSig(declared)[k.key] {
      WithDeclaredRows(CenterRows(t), declared, k);
      WithSystemRows(WithDeclared(CenterRows(t), declared), system, k);
    }
    forall key ensures key in NodeSig(after) <==> key in DeclaredSig(declared) {
      assert TagKey(Node, key) in after <==> key in DeclaredSig(declared);
    }
  }

  /** A value the center supplies is in effect before and after. */
  lemma CenterStaysInEffect(t: TagTable, declared: seq<Declared>, system: seq<Pair>, key: string)
    ensures var after := Registered(t, declared, system);
      FindSource(after, key, Center) == FindSource(t, key, Center)
      && (FindSource(t, key, Center).Some? ==>
            Chosen(after, key).Some? && Chosen(after, key).value.source == Center
            && EffectiveValue(after, key) == EffectiveValue(t, key))
  {
    RegisterRows(t, declared, system);
    var after := Registered(t, declared, system);
    var k := TagKey(Center, key);
    assert k in CenterRows(after) <==> k in after;
    assert k in CenterRows(t) <==> k in t;
    assert k in t ==> CenterRows(after)[k] == after[k] && CenterRows(t)[k] == t[k];
  }

  /** The same Register again changes no row and reports nothing. */
  lemma RegisterAgain(t: TagTable, declared: seq<Declared>, system: seq<Pair>)
    ensures Registered(Registered(t, declared, system), declared, system) == Registered(t, declared, system)
    ensures Reported(NodeSig(Registered(t, declared, system)), DeclaredSig(declared)) == None
  {
    RegisterRows(t, declared, system);
  }

  function SystemSig(system: seq<Pair>): map<string, string> {
    if system == [] then map[] else SystemSig(system[..|system| - 1])[system[|system| - 1].key := system[|system| - 1].value]
  }

  lemma {:induction false} WithSystemIs(t: TagTable, system: seq<Pair>, key: string)
    requires TagKey(System, key) !in t
    ensures TagKey(System, key) in WithSystem(t, system) <==> key in SystemSig(system)
    ensures key in SystemSig(system) ==> WithSystem(t, system)[TagKey(System, key)] == TagRow(SystemSig(system)[key], true, None)
    decreases |system|
  {
    if system != [] {
      WithSystemIs(t, system[..|system| - 1], key);
    }
  }

  /** The system rows are exactly the given ones, all valid; none of before is left. */
  lemma RegisterSystemRows(t: TagTable, declared: seq<Declared>, system: seq<Pair>, key: string)
    ensures var after := Registered(t, declared, system);
      && (TagKey(System, key) in after <==> key in SystemSig(system))
      && (key in SystemSig(system) ==> after[TagKey(System, key)] == TagRow(SystemSig(system)[key], true, None))
  {
    WithDeclaredRows(CenterRows(t), declared, TagKey(System, key));
    WithSystemIs(WithDeclared(CenterRows(t), declared), system, key);
  }
}
