/** The hash-chained audit log. `H` stands for SHA-256 in hex. */
module Audit {
  import opened Text

  datatype Event = Event(prev: string, action: string, target: string, detail: string,
                         node: Option<string>, hash: string)

  function Material(prev: string, action: string, target: string, detail: string): string {
    prev + "\n" + action + "\n" + target + "\n" + detail
  }

  function Head(events: seq<Event>): string {
    if events == [] then "" else events[|events| - 1].hash
  }

  function Appended(H: string -> string, events: seq<Event>, action: string, target: string, detail: string,
                    node: Option<string>): seq<Event>
  {
    var prev := Head(events);
    events + [Event(prev, action, target, detail, node, H(Material(prev, action, target, detail)))]
  }

  function MaterialOf(e: Event): string {
    Material(e.prev, e.action, e.target, e.detail)
  }

  /** Each event hashes its own fields and the hash of the event before it. */
  ghost predicate ValidChain(H: string -> string, events: seq<Event>) {
    forall i :: 0 <= i < |events| ==>
      events[i].prev == Head(events[..i]) && events[i].hash == H(MaterialOf(events[i]))
  }

  lemma AppendKeepsChain(H: string -> string, events: seq<Event>, action: string, target: string, detail: string,
                         node: Option<string>)
    requires ValidChain(H, events)
    ensures ValidChain(H, Appended(H, events, action, target, detail, node))
  {
    var longer := Appended(H, events, action, target, detail, node);
    forall i | 0 <= i < |longer| ensures longer[i].prev == Head(longer[..i]) && longer[i].hash == H(MaterialOf(longer[i])) {
      if i < |events| {
        assert longer[..i] == events[..i];
      } else {
        assert longer[..i] == events;
      }
    }
  }

  class AuditLog {
    var events: seq<Event>

    constructor ()
      ensures events == []
    {
      events := [];
    }

    method Append(H: string -> string, action: string, target: string, detail: string, node: Option<string>)
      modifies this
      ensures events == Appended(H, old(events), action, target, detail, node)
      ensures ValidChain(H, old(events)) ==> ValidChain(H, events)
    {
      ghost var before := events;
      var prevHash := if |events| > 0 then events[|events| - 1].hash else "";
      var hash := H(Material(prevHash, action, target, detail));
      events := events + [Event(prevHash, action, target, detail, node, hash)];
      if ValidChain(H, before) {
        AppendKeepsChain(H, before, action, target, detail, node);
      }
    }
  }

  // ---------------------------------------------------------------- tamper evidence

  predicate OneLine(s: string) {
    '\n' !in s
  }

  lemma CutFirstLine(a: string, b: string, x: string, y: string)
    requires OneLine(a) && OneLine(x) && a + "\n" + b == x + "\n" + y
    ensures a == x && b == y
  {
    var s := a + "\n" + b;
    IndexOfFirst(a, '\n', b);
    IndexOfFirst(x, '\n', y);
    assert s[..|a|] == a && s[|a| + 1..] == b;
    assert (x + "\n" + y)[..|x|] == x && (x + "\n" + y)[|x| + 1..] == y;
  }

  lemma CutLastLine(a: string, b: string, x: string, y: string)
    requires OneLine(b) && OneLine(y) && a + "\n" + b == x + "\n" + y
    ensures a == x && b == y
  {
    var s := a + "\n" + b;
    assert s[|a|] == '\n' && s[|x|] == '\n';
    assert s[|a| + 1..] == b && s[|x| + 1..] == y;
    LineStart(s, |a|, |x|);
    LineStart(s, |x|, |a|);
    assert s[..|a|] == a && s[..|x|] == x;
  }

  lemma LineStart(s: string, i: nat, j: nat)
    requires i < |s| && j < |s| && s[j] == '\n' && OneLine(s[i + 1..])
    ensures j <= i
  {
    forall k | i < k < |s| ensures s[k] != '\n' {
      assert s[i + 1..][k - i - 1] == s[k];
    }
  }

  /** The joined text determines its four parts; only the target may hold line breaks. */
  lemma MaterialInjective(e: Event, f: Event)
    requires OneLine(e.prev) && OneLine(e.action) && OneLine(e.detail)
    requires OneLine(f.prev) && OneLine(f.action) && OneLine(f.detail)
    requires MaterialOf(e) == MaterialOf(f)
    ensures e.prev == f.prev && e.action == f.action && e.target == f.target && e.detail == f.detail
  {
    var restE := e.action + "\n" + (e.target + "\n" + e.detail);
    var restF := f.action + "\n" + (f.target + "\n" + f.detail);
    assert MaterialOf(e) == e.prev + "\n" + restE && MaterialOf(f) == f.prev + "\n" + restF;
    CutFirstLine(e.prev, restE, f.prev, restF);
    CutFirstLine(e.action, e.target + "\n" + e.detail, f.action, f.target + "\n" + f.detail);
    CutLastLine(e.target, e.detail, f.target, f.detail);
  }

  ghost predicate Clean(events: seq<Event>) {
    forall i :: 0 <= i < |events| ==> OneLine(events[i].action) && OneLine(events[i].detail)
  }

  /** What an event says, apart from the chain. */
  datatype Said = Said(action: string, target: string, detail: string)

  function Story(events: seq<Event>): seq<Said> {
    if events == [] then []
    else
      var last := events[|events| - 1];
      Story(events[..|events| - 1]) + [Said(last.action, last.target, last.detail)]
  }

  /** Two different inputs among those of the two logs with the same hash. */
  ghost predicate Collision(H: string -> string, a: seq<Event>, b: seq<Event>) {
    exists i, j :: 0 <= i < |a| && 0 <= j < |b| && Collides(H, a[i], b[j])
  }

  predicate Collides(H: string -> string, e: Event, f: Event) {
    MaterialOf(e) != MaterialOf(f) && H(MaterialOf(e)) == H(MaterialOf(f))
  }

  ghost predicate HexLike(H: string -> string) {
    forall x :: H(x) != "" && OneLine(H(x))
  }

  /** Logs with one head hash tell one story, or the hash has been broken on their inputs. */
  lemma {:induction false} SameHeadSameStory(H: string -> string, a: seq<Event>, b: seq<Event>)
    requires HexLike(H) && ValidChain(H, a) && ValidChain(H, b) && Clean(a) && Clean(b)
    requires Head(a) == Head(b)
    ensures Story(a) == Story(b) || Collision(H, a, b)
    decreases |a|
  {
    if a != [] && b != [] {
      var m, n := |a| - 1, |b| - 1;
      SameHeadLastEvents(H, a, b);
      if MaterialOf(a[m]) == MaterialOf(b[n]) {
        PrefixChain(H, a, m);
        PrefixChain(H, b, n);
        SameHeadSameStory(H, a[..m], b[..n]);
        if Collision(H, a[..m], b[..n]) {
          var i, j :| 0 <= i < m && 0 <= j < n && Collides(H, a[..m][i], b[..n][j]);
          assert Collides(H, a[i], b[j]);
        }
      }
    }
  }

  lemma SameHeadLastEvents(H: string -> string, a: seq<Event>, b: seq<Event>)
    requires HexLike(H) && ValidChain(H, a) && ValidChain(H, b) && Clean(a) && Clean(b)
    requires a != [] && b != [] && Head(a) == Head(b)
    ensures var e, f := a[|a| - 1], b[|b| - 1];
      if MaterialOf(e) == MaterialOf(f)
      then e.prev == f.prev && e.action == f.action && e.target == f.target && e.detail == f.detail
      else Collision(H, a, b)
  {
    var m, n := |a| - 1, |b| - 1;
    if MaterialOf(a[m]) == MaterialOf(b[n]) {
      PrevOneLine(H, a, m);
      PrevOneLine(H, b, n);
      MaterialInjective(a[m], b[n]);
    } else {
      assert Collides(H, a[m], b[n]);
    }
  }

  lemma PrevOneLine(H: string -> string, events: seq<Event>, i: nat)
    requires HexLike(H) && ValidChain(H, events) && i < |events|
    ensures OneLine(events[i].prev)
  {
    if i > 0 {
      assert events[i].prev == Head(events[..i]) == events[i - 1].hash;
    }
  }

  lemma PrefixChain(H: string -> string, events: seq<Event>, k: nat)
    requires ValidChain(H, events) && Clean(events) && k < |events|
    ensures ValidChain(H, events[..k]) && Clean(events[..k]) && Head(events[..k]) == events[k].prev
  {
    forall i | 0 <= i < k ensures events[..k][i].prev == Head(events[..k][..i]) {
      assert events[..k][..i] == events[..i];
    }
  }
}
