/** Layered node tags: which of the center's, the node's and the system's value is in effect. */
module Tags {
  import opened Text

  datatype Source = System | Node | Center

  /** The unique key of a tag row within one node. */
  datatype TagKey = TagKey(source: Source, key: string)

  datatype TagRow = TagRow(value: string, valid: bool, reason: Option<string>)

  type TagTable = map<TagKey, TagRow>

  datatype Effective = Effective(value: string, source: Source, overridden: bool)

  const MAX_CENTER_TAGS: nat := 32

  function FindSource(t: TagTable, key: string, source: Source): Option<TagRow> {
    if TagKey(source, key) in t && t[TagKey(source, key)].valid then Some(t[TagKey(source, key)]) else None
  }

  function ValidNodeValue(t: TagTable, key: string): Option<string> {
    match FindSource(t, key, Node) case None => None case Some(row) => Some(row.value)
  }

  /** A center row counts whether or not it is marked valid. */
  function CenterValue(t: TagTable, key: string): Option<string> {
    if TagKey(Center, key) in t then Some(t[TagKey(Center, key)].value) else None
  }

  function CenterKeys(t: TagTable): set<string> {
    set k | k in t.Keys && k.source == Center :: k.key
  }

  /** `source` supplies the value of `key`: its row is valid and no stronger source has a valid one. */
  predicate Supplies(t: TagTable, key: string, source: Source) {
    && FindSource(t, key, source).Some?
    && (source == Node ==> FindSource(t, key, Center).None?)
    && (source == System ==> FindSource(t, key, Center).None? && FindSource(t, key, Node).None?)
  }

  /** The effective tags, stated by who supplies them. */
  ghost predicate IsEffective(t: TagTable, out: map<string, Effective>) {
    forall key :: EffectiveAt(t, key, out)
  }

  ghost predicate EffectiveAt(t: TagTable, key: string, out: map<string, Effective>) {
    && (key in out <==> exists source :: Supplies(t, key, source))
    && (key in out ==> Supplies(t, key, out[key].source))
    && (key in out ==> out[key].value == FindSource(t, key, out[key].source).value.value)
    && (key in out ==> (out[key].overridden <==> out[key].source == Center && FindSource(t, key, Node).Some?))
  }

  function Chosen(t: TagTable, key: string): Option<Effective> {
    var center, node, system := FindSource(t, key, Center), FindSource(t, key, Node), FindSource(t, key, System);
    if center.Some? then Some(Effective(center.value.value, Center, node.Some?))
    else if node.Some? then Some(Effective(node.value.value, Node, false))
    else if system.Some? then Some(Effective(system.value.value, System, false))
    else None
  }

  function EffectiveValue(t: TagTable, key: string): Option<string> {
    match Chosen(t, key) case None => None case Some(e) => Some(e.value)
  }

  lemma ChosenSupplies(t: TagTable, key: string)
    ensures Chosen(t, key).None? <==> forall source :: !Supplies(t, key, source)
    ensures Chosen(t, key).Some? ==> Supplies(t, key, Chosen(t, key).value.source)
  {
    assert Supplies(t, key, Center) || Supplies(t, key, Node) || Supplies(t, key, System) || Chosen(t, key).None?;
  }

  function ValidKeys(t: TagTable): set<string> {
    set k | k in t.Keys && t[k].valid :: k.key
  }

  method EffectiveOf(t: TagTable) returns (out: map<string, Effective>)
    ensures IsEffective(t, out)
    ensures forall key :: (key in out <==> Chosen(t, key).Some?) && (key in out ==> out[key] == Chosen(t, key).value)
  {
    var keys := ValidKeys(t);
    out := map[];
    while keys != {}
      invariant forall key :: key in out <==> Chosen(t, key).Some? && key !in keys
      invariant forall key :: key in out ==> out[key] == Chosen(t, key).value
      invariant keys <= ValidKeys(t)
      decreases |keys|
    {
      var key :| key in keys;
      keys := keys - {key};
      SomeSource(t, key);
      out := out[key := Chosen(t, key).value];
    }
    forall key ensures EffectiveAt(t, key, out) {
      ChosenSupplies(t, key);
    }
  }

  lemma SomeSource(t: TagTable, key: string)
    ensures key in ValidKeys(t) <==> Chosen(t, key).Some?
  {
    forall source ensures FindSource(t, key, source).Some? ==> key in ValidKeys(t) {
      if FindSource(t, key, source).Some? {
        assert TagKey(source, key) in t.Keys;
      }
    }
    if key in ValidKeys(t) {
      var k :| k in t.Keys && t[k].valid && k.key == key;
      assert FindSource(t, key, k.source).Some?;
      assert k.source == System || k.source == Node || k.source == Center;
    }
  }

  // ---------------------------------------------------------------- the node list

  /** Center rows are only ever written as valid. */
  ghost predicate CenterValid(t: TagTable) {
    forall k :: k in t && k.source == Center ==> t[k].valid
  }

  datatype ViewRow = ViewRow(key: string, value: string, source: Source)

  /** The rows the database view shows: valid ones, less the node's rows under a center row. */
  predicate Shown(t: TagTable, row: ViewRow) {
    var k := TagKey(row.source, row.key);
    && k in t && t[k].valid && t[k].value == row.value
    && !(row.source == Node && TagKey(Center, row.key) in t)
  }

  ghost predicate IsView(t: TagTable, rows: seq<ViewRow>) {
    forall row :: row in rows <==> Shown(t, row)
  }

  function OfSource(rows: seq<ViewRow>, source: Source): seq<ViewRow> {
    if rows == [] then []
    else
      var last := rows[|rows| - 1];
      OfSource(rows[..|rows| - 1], source) + (if last.source == source then [last] else [])
  }

  lemma {:induction false} OfSourceHas(rows: seq<ViewRow>, source: Source)
    ensures forall row :: row in OfSource(rows, source) <==> row in rows && row.source == source
    decreases |rows|
  {
    if rows != [] {
      OfSourceHas(rows[..|rows| - 1], source);
      assert rows == rows[..|rows| - 1] + [rows[|rows| - 1]];
    }
  }

  /** The stable sort by source: system rows, then the node's, then the center's. */
  function SortedBySource(rows: seq<ViewRow>): seq<ViewRow> {
    OfSource(rows, System) + OfSource(rows, Node) + OfSource(rows, Center)
  }

  /** Later rows win, so the fold of the view gives each key its effective value and source. */
  method ListTags(t: TagTable, rows: seq<ViewRow>) returns (tags: map<string, string>, sources: map<string, Source>)
    requires IsView(t, rows) && CenterValid(t)
    ensures tags.Keys == sources.Keys
    ensures forall key :: key in tags <==> Chosen(t, key).Some?
    ensures forall key :: key in tags ==> tags[key] == Chosen(t, key).value.value && sources[key] == Chosen(t, key).value.source
  {
    var bucket := SortedBySource(rows);
    tags, sources := map[], map[];
    for i := 0 to |bucket|
      invariant tags.Keys == sources.Keys
      invariant forall key :: key in tags <==> LastOf(bucket[..i], key).Some?
      invariant forall key :: key in tags ==> LastOf(bucket[..i], key) == Some(ViewRow(key, tags[key], sources[key]))
    {
      assert bucket[..i + 1][..i] == bucket[..i];
      tags := tags[bucket[i].key := bucket[i].value];
      sources := sources[bucket[i].key := bucket[i].source];
    }
    assert bucket[..|bucket|] == bucket;
    forall key ensures LastOf(bucket, key) == ChosenRow(t, key) {
      LastIsChosen(t, rows, key);
    }
  }

  function LastOf(rows: seq<ViewRow>, key: string): Option<ViewRow> {
    if rows == [] then None
    else if rows[|rows| - 1].key == key then Some(rows[|rows| - 1])
    else LastOf(rows[..|rows| - 1], key)
  }

  function ChosenRow(t: TagTable, key: string): Option<ViewRow> {
    match Chosen(t, key) case None => None case Some(e) => Some(ViewRow(key, e.value, e.source))
  }

  lemma {:induction false} LastOfFound(rows: seq<ViewRow>, key: string)
    ensures LastOf(rows, key).Some? ==> LastOf(rows, key).value in rows && LastOf(rows, key).value.key == key
    ensures LastOf(rows, key).None? ==> forall row :: row in rows ==> row.key != key
    decreases |rows|
  {
    if rows != [] {
      LastOfFound(rows[..|rows| - 1], key);
      assert rows == rows[..|rows| - 1] + [rows[|rows| - 1]];
    }
  }

  lemma {:induction false} LastOfAppend(a: seq<ViewRow>, b: seq<ViewRow>, key: string)
    ensures LastOf(a + b, key) == if LastOf(b, key).Some? then LastOf(b, key) else LastOf(a, key)
    decreases |b|
  {
    if b == [] {
      assert a + b == a;
    } else {
      LastOfAppend(a, b[..|b| - 1], key);
      assert (a + b)[..|a + b| - 1] == a + b[..|b| - 1];
    }
  }

  /** What the view holds for one key and source. */
  lemma LastOfSource(t: TagTable, rows: seq<ViewRow>, key: string, source: Source)
    requires IsView(t, rows)
    ensures var hidden := source == Node && TagKey(Center, key) in t;
      LastOf(OfSource(rows, source), key)
        == if FindSource(t, key, source).Some? && !hidden then Some(ViewRow(key, FindSource(t, key, source).value.value, source)) else None
  {
    var part := OfSource(rows, source);
    OfSourceHas(rows, source);
    LastOfFound(part, key);
    var found := LastOf(part, key);
    if found.Some? {
      assert Shown(t, found.value);
    } else if FindSource(t, key, source).Some? {
      var row := ViewRow(key, FindSource(t, key, source).value.value, source);
      assert Shown(t, row) ==> row in part;
    }
  }

  lemma LastIsChosen(t: TagTable, rows: seq<ViewRow>, key: string)
    requires IsView(t, rows) && CenterValid(t)
    ensures LastOf(SortedBySource(rows), key) == ChosenRow(t, key)
  {
    LastOfSource(t, rows, key, System);
    LastOfSource(t, rows, key, Node);
    LastOfSource(t, rows, key, Center);
    LastOfAppend(OfSource(rows, System), OfSource(rows, Node), key);
    LastOfAppend(OfSource(rows, System) + OfSource(rows, Node), OfSource(rows, Center), key);
  }

  // ---------------------------------------------------------------- production

  predicate InvalidProd(t: TagTable, k: TagKey) {
    k in t && k.source == Node && !t[k].valid && Lower(k.key) == "env" && Lower(t[k].value) == "prod"
  }

  /** In effect `env=prod`, or reported as such in a form that is not valid. */
  predicate CountsAsProd(t: TagTable) {
    (exists k :: k in t && InvalidProd(t, k)) || EffectiveValue(t, "env") == Some("prod")
  }

  /** Production is what the strongest valid source of `env` says, or what the node says in a form that is not valid. */
  lemma ProdIff(t: TagTable)
    ensures CountsAsProd(t) <==>
      || (exists source :: Supplies(t, "env", source) && FindSource(t, "env", source).value.value == "prod")
      || (exists key :: TagKey(Node, key) in t && SaysProdInvalidly(key, t[TagKey(Node, key)]))
  {
    ChosenSupplies(t, "env");
    if k :| k in t && InvalidProd(t, k) {
      assert k == TagKey(Node, k.key) && SaysProdInvalidly(k.key, t[k]);
    }
    if key :| TagKey(Node, key) in t && SaysProdInvalidly(key, t[TagKey(Node, key)]) {
      assert InvalidProd(t, TagKey(Node, key));
    }
    forall source | Supplies(t, "env", source) ensures Chosen(t, "env") == Some(Effective(FindSource(t, "env", source).value.value, source,
        source == Center && FindSource(t, "env", Node).Some?)) {
    }
  }

  predicate SaysProdInvalidly(key: string, row: TagRow) {
    !row.valid && Lower(key) == "env" && Lower(row.value) == "prod"
  }
}
