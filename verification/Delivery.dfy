/** What a node is sent, what it may fetch, and what it reports back. */
module Delivery {
  import opened Text
  import opened Tables
  import opened Desired
  import opened Catalog
  import opened Chunks
  import Audit
  import Hub

  const TICKET_TTL: nat := 900_000

  datatype SkillRef = SkillRef(name: string, version: string, sha: string, size: nat, capabilities: string, ticket: string)

  /** The catalog row that the query joins to a desired row, if both sides are there. */
  function Joins(st: Store, node: string, name: string): Option<VersionRow> {
    var want := Lookup(st.desired, node, name);
    if want.None? || name !in st.skills || VersionKey(name, want.value.version) !in st.versions then None
    else Some(st.versions[VersionKey(name, want.value.version)])
  }

  function RefFor(st: Store, node: string, name: string, ticket: string): SkillRef
    requires Joins(st, node, name).Some?
  {
    var want, row := st.desired[NodeSkill(node, name)], Joins(st, node, name).value;
    SkillRef(name, want.version, Norm(want.sha), row.size, row.capabilities, ticket)
  }

  function RefsOf(st: Store, node: string, names: seq<string>, tickets: seq<string>): seq<SkillRef>
    requires |tickets| == |names|
  {
    if names == [] then []
    else
      var k := |names| - 1;
      RefsOf(st, node, names[..k], tickets[..k])
      + (if Joins(st, node, names[k]).Some? then [RefFor(st, node, names[k], tickets[k])] else [])
  }

  ghost predicate AllGranted(h: Hub.Hub, node: string, refs: seq<SkillRef>, from: nat, until: nat)
    reads h
  {
    forall i, at :: 0 <= i < |refs| && from <= at < until ==>
      Hub.CheckOf(h.tickets, refs[i].ticket, node, refs[i].sha, at) == Hub.Granted
  }

  lemma RefsGrow(st: Store, node: string, names: seq<string>, tickets: seq<string>, i: nat)
    requires i < |names| == |tickets|
    ensures RefsOf(st, node, names[..i + 1], tickets[..i + 1]) == RefsOf(st, node, names[..i], tickets[..i])
      + (if Joins(st, node, names[i]).Some? then [RefFor(st, node, names[i], tickets[i])] else [])
  {
    assert names[..i + 1][..i] == names[..i] && tickets[..i + 1][..i] == tickets[..i];
  }

  /** `names` are the node's desired skills in the query's order, `tickets` fresh random ids. */
  method BuildDesired(st: Store, h: Hub.Hub, node: string, now: nat, names: seq<string>, tickets: seq<string>)
    returns (generation: int, refs: seq<SkillRef>)
    requires |tickets| == |names|
    requires forall i, j :: 0 <= i < j < |tickets| ==> tickets[i] != tickets[j]
    requires forall i :: 0 <= i < |tickets| ==> tickets[i] !in h.tickets
    modifies h`tickets
    ensures generation == Current(st.generations, node)
    ensures refs == RefsOf(st, node, names, tickets)
    ensures AllGranted(h, node, refs, now, now + TICKET_TTL)
    ensures forall t, n, s, at :: at >= now && t !in tickets ==>
      (Hub.CheckOf(h.tickets, t, n, s, at) == Hub.Granted <==> Hub.CheckOf(old(h.tickets), t, n, s, at) == Hub.Granted)
  {
    generation := Current(st.generations, node);
    refs := [];
    for i := 0 to |names|
      invariant refs == RefsOf(st, node, names[..i], tickets[..i])
      invariant AllGranted(h, node, refs, now, now + TICKET_TTL)
      invariant forall k :: 0 <= k < |refs| ==> refs[k].ticket in tickets[..i]
      invariant forall k :: i <= k < |tickets| ==> tickets[k] !in h.tickets
      invariant forall t, n, s, at :: at >= now && t !in tickets ==>
        (Hub.CheckOf(h.tickets, t, n, s, at) == Hub.Granted <==> Hub.CheckOf(old(h.tickets), t, n, s, at) == Hub.Granted)
    {
      RefsGrow(st, node, names, tickets, i);
      if Joins(st, node, names[i]).Some? {
        var ref := RefFor(st, node, names[i], tickets[i]);
        h.IssueTicket(tickets[i], node, ref.sha, now, TICKET_TTL);
        refs := refs + [ref];
      }
    }
    assert names[..|names|] == names && tickets[..|tickets|] == tickets;
  }

  datatype FetchReply = Denied | NoArtifact | OutOfRange | Chunked(chunks: seq<Chunk>)

  /** Only the holder of a live ticket for this node and package gets bytes, and gets the rest of them.
      The ticket is checked for the normal form of the digest, the artifact is looked up by the trimmed one. */
  method Fetch(artifacts: map<string, Bytes>, h: Hub.Hub, ticket: string, node: string, sha: string, offset: int, now: nat)
    returns (r: FetchReply)
    modifies h`tickets
    ensures r.Denied? <==> Hub.CheckOf(old(h.tickets), ticket, node, sha, now) != Hub.Granted
    ensures var key := Trim(sha, IsSpace);
      && (r.NoArtifact? ==> key !in artifacts)
      && (r.OutOfRange? ==> key in artifacts && (offset < 0 || offset > |artifacts[key]|))
      && (r.Chunked? ==> key in artifacts && 0 <= offset <= |artifacts[key]| && Cuts(artifacts[key], offset, r.chunks))
  {
    var key := Trim(sha, IsSpace);
    var check := h.CheckTicket(ticket, node, sha, now);
    if check != Hub.Granted {
      return Denied;
    }
    if key !in artifacts {
      return NoArtifact;
    }
    var chunks := ArtifactChunks(artifacts[key], offset);
    if chunks.None? {
      return OutOfRange;
    }
    return Chunked(chunks.value);
  }

  /** Each name has its reference, and that is as the node wants it. */
  ghost predicate AllMatch(st: Store, digest: Bytes -> string, node: string, names: seq<string>, refs: seq<SkillRef>) {
    |refs| == |names| && forall i :: 0 <= i < |names| ==> MatchesWant(st, digest, node, names[i], refs[i])
  }

  ghost predicate MatchesWant(st: Store, digest: Bytes -> string, node: string, name: string, ref: SkillRef) {
    NodeSkill(node, name) in st.desired && RefMatches(st, digest, st.desired[NodeSkill(node, name)], name, ref)
  }

  lemma MatchOneMore(st: Store, digest: Bytes -> string, node: string, names: seq<string>, refs: seq<SkillRef>, name: string, ref: SkillRef)
    requires AllMatch(st, digest, node, names, refs) && MatchesWant(st, digest, node, name, ref)
    ensures AllMatch(st, digest, node, names + [name], refs + [ref])
  {
    forall i | 0 <= i < |names| ensures MatchesWant(st, digest, node, (names + [name])[i], (refs + [ref])[i]) {
      assert MatchesWant(st, digest, node, names[i], refs[i]);
    }
  }

  /** With catalog and desired rows in agreement the join drops nothing, and what a node is told
      to fetch is there, of the stated size, and hashes to the stated digest. */
  lemma {:induction false} JoinDropsNothing(st: Store, digest: Bytes -> string, node: string, names: seq<string>, tickets: seq<string>)
    requires Agreement(st, digest) && NormalDigests(digest) && |tickets| == |names|
    requires forall i :: 0 <= i < |names| ==> NodeSkill(node, names[i]) in st.desired
    ensures AllMatch(st, digest, node, names, RefsOf(st, node, names, tickets))
    decreases |names|
  {
    if names != [] {
      var k := |names| - 1;
      JoinDropsNothing(st, digest, node, names[..k], tickets[..k]);
      RefForMatches(st, digest, node, names[k], tickets[k]);
      MatchOneMore(st, digest, node, names[..k], RefsOf(st, node, names[..k], tickets[..k]), names[k],
                   RefFor(st, node, names[k], tickets[k]));
      assert names == names[..k] + [names[k]];
    }
  }

  /** Digests come trimmed and in lower case. */
  ghost predicate NormalDigests(digest: Bytes -> string) {
    forall body :: IsNormal(digest(body))
  }

  predicate IsNormal(sha: string) {
    Trim(sha, IsSpace) == sha && Lower(sha) == sha
  }

  lemma RefForMatches(st: Store, digest: Bytes -> string, node: string, name: string, ticket: string)
    requires Agreement(st, digest) && NormalDigests(digest) && NodeSkill(node, name) in st.desired
    ensures Joins(st, node, name).Some?
    ensures RefMatches(st, digest, st.desired[NodeSkill(node, name)], name, RefFor(st, node, name, ticket))
  {
    var want := st.desired[NodeSkill(node, name)];
    assert InCatalog(st.versions, name, want);
    assert digest(st.artifacts[want.sha]) == want.sha;
    assert IsNormal(digest(st.artifacts[want.sha]));
  }

  ghost predicate RefMatches(st: Store, digest: Bytes -> string, want: Snap, name: string, ref: SkillRef) {
    && ref.name == name && ref.version == want.version && ref.sha == want.sha && IsNormal(ref.sha)
    && VersionKey(name, want.version) in st.versions && ref.capabilities == st.versions[VersionKey(name, want.version)].capabilities
    && ref.sha in st.artifacts && digest(st.artifacts[ref.sha]) == ref.sha && |st.artifacts[ref.sha]| == ref.size
  }

  /** A complete fetch of a reference, however often resumed, yields bytes with the promised digest. */
  lemma FetchedBytesAreRight(st: Store, digest: Bytes -> string, want: Snap, name: string, ref: SkillRef,
                             parts: seq<Bytes>)
    requires RefMatches(st, digest, want, name, ref)
    requires Fetches(st.artifacts[ref.sha], parts, true) && |parts| > 1
    ensures digest(parts[|parts| - 1]) == want.sha && |parts[|parts| - 1]| == ref.size
  {
    ResumedFetchesRebuild(st.artifacts[ref.sha], parts, true);
  }

  // ---------------------------------------------------------------- reports

  datatype InstalledSkill = InstalledSkill(name: string, version: string, sha: string, state: string, reason: string,
                                           detail: string, attempts: int, previous: seq<string>)

  datatype Report = Report(node: string, generation: int, skills: seq<InstalledSkill>)

  datatype ReportOutcome = Applied | Ignored | Failed

  type ActualRows = map<NodeSkill, Actual>

  /** Older than what the node's rows remember. */
  predicate Stale(actual: ActualRows, r: Report) {
    r.generation < 0 || exists k :: k in actual && k.node == r.node && r.generation < actual[k].appliedGeneration
  }

  function Cleared(actual: ActualRows, node: string): ActualRows {
    map k | k in actual && k.node != node :: actual[k]
  }

  function RowFor(r: Report, s: InstalledSkill): Actual {
    Actual(s.version, s.sha, s.state, s.reason, s.detail, s.attempts, s.previous, r.generation)
  }

  function RowsFrom(actual: ActualRows, r: Report, skills: seq<InstalledSkill>): ActualRows {
    if skills == [] then actual
    else
      var last := skills[|skills| - 1];
      RowsFrom(actual, r, skills[..|skills| - 1])[NodeSkill(r.node, last.name) := RowFor(r, last)]
  }

  predicate SameAsBefore(prior: ActualRows, node: string, s: InstalledSkill) {
    var k := NodeSkill(node, s.name);
    k in prior && prior[k].version == s.version && Norm(prior[k].sha) == Norm(s.sha)
    && prior[k].state == s.state && prior[k].reason == s.reason
  }

  /** Only a new installed or failed state is worth an event. */
  function NewsAction(prior: ActualRows, node: string, s: InstalledSkill): Option<string> {
    if s.state != "installed" && s.state != "failed" then None
    else if SameAsBefore(prior, node, s) then None
    else Some(if s.state == "installed" then "skill.installed" else "skill.failed")
  }

  function MaybeAudit(libs: Libs, audit: seq<Audit.Event>, prior: ActualRows, r: Report, s: InstalledSkill): seq<Audit.Event> {
    match NewsAction(prior, r.node, s)
    case None => audit
    case Some(action) =>
      Audit.Appended(libs.line, audit, action, s.name,
                     libs.json(ReportDetail(s.version, Norm(s.sha), s.state, s.reason, r.generation, s.attempts)), Some(r.node))
  }

  function AuditFrom(libs: Libs, audit: seq<Audit.Event>, prior: ActualRows, r: Report, skills: seq<InstalledSkill>): seq<Audit.Event> {
    if skills == [] then audit
    else MaybeAudit(libs, AuditFrom(libs, audit, prior, r, skills[..|skills| - 1]), prior, r, skills[|skills| - 1])
  }

  predicate NamesDistinct(skills: seq<InstalledSkill>) {
    forall i, j :: 0 <= i < j < |skills| ==> skills[i].name != skills[j].name
  }

  predicate NodeKnown(st: Store, node: string) {
    exists i :: 0 <= i < |st.nodes| && st.nodes[i].id == node
  }

  /** A row for an unknown node or a second row of one name breaks a key and undoes the report. */
  function Reported(libs: Libs, st: Store, r: Report): (Store, ReportOutcome) {
    if Stale(st.actual, r) then (st, Ignored)
    else if r.skills != [] && !(NodeKnown(st, r.node) && NamesDistinct(r.skills)) then (st, Failed)
    else
      (st.(actual := RowsFrom(Cleared(st.actual, r.node), r, r.skills),
           audit := AuditFrom(libs, st.audit, st.actual, r, r.skills)), Applied)
  }

  predicate Reports(skills: seq<InstalledSkill>, name: string) {
    exists i :: 0 <= i < |skills| && skills[i].name == name
  }

  predicate SameRow(a: ActualRows, b: ActualRows, k: NodeSkill) {
    (k in a <==> k in b) && (k in a ==> a[k] == b[k])
  }

  predicate HasRow(actual: ActualRows, r: Report, s: InstalledSkill) {
    var k := NodeSkill(r.node, s.name);
    k in actual && actual[k] == RowFor(r, s)
  }

  lemma {:induction false} RowsFromRows(actual: ActualRows, r: Report, skills: seq<InstalledSkill>)
    requires NamesDistinct(skills)
    ensures forall k: NodeSkill :: k.node != r.node || !Reports(skills, k.skill) ==> SameRow(RowsFrom(actual, r, skills), actual, k)
    ensures forall i :: 0 <= i < |skills| ==> HasRow(RowsFrom(actual, r, skills), r, skills[i])
    decreases |skills|
  {
    if skills != [] {
      var m := |skills| - 1;
      RowsFromRows(actual, r, skills[..m]);
      forall name ensures Reports(skills, name) <==> Reports(skills[..m], name) || skills[m].name == name {
        ReportsSplit(skills, name);
      }
    }
  }

  lemma ReportsSplit(skills: seq<InstalledSkill>, name: string)
    requires skills != []
    ensures Reports(skills, name) <==> Reports(skills[..|skills| - 1], name) || skills[|skills| - 1].name == name
  {
    var front := skills[..|skills| - 1];
    if i :| 0 <= i < |front| && front[i].name == name {
      assert skills[i].name == name;
    }
  }

  /** After an accepted report the node's rows are the reported ones, all of one generation; the
      rows of other nodes and every other table are as before. */
  lemma AcceptedReport(libs: Libs, st: Store, r: Report)
    requires Reported(libs, st, r).1 == Applied
    ensures var t := Reported(libs, st, r).0;
      && (forall k :: k in t.actual && k.node == r.node ==> Reports(r.skills, k.skill) && t.actual[k].appliedGeneration == r.generation)
      && (forall i :: 0 <= i < |r.skills| ==> HasRow(t.actual, r, r.skills[i]))
      && (forall k: NodeSkill :: k.node != r.node ==> SameRow(t.actual, st.actual, k))
      && t == st.(actual := t.actual, audit := t.audit)
  {
    RowsFromRows(Cleared(st.actual, r.node), r, r.skills);
    var t := Reported(libs, st, r).0;
    forall k | k in t.actual && k.node == r.node ensures Reports(r.skills, k.skill) && t.actual[k].appliedGeneration == r.generation {
      assert Reports(r.skills, k.skill);
      var i :| 0 <= i < |r.skills| && r.skills[i].name == k.skill;
      assert k == NodeSkill(r.node, r.skills[i].name);
    }
  }

  lemma {:induction false} NoNews(libs: Libs, audit: seq<Audit.Event>, prior: ActualRows, r: Report, skills: seq<InstalledSkill>)
    requires forall i :: 0 <= i < |skills| ==> SameAsBefore(prior, r.node, skills[i])
    ensures AuditFrom(libs, audit, prior, r, skills) == audit
    decreases |skills|
  {
    if skills != [] {
      NoNews(libs, audit, prior, r, skills[..|skills| - 1]);
    }
  }

  /** The same report again changes no row and writes no event. */
  lemma ReportAgain(libs: Libs, st: Store, r: Report)
    requires Reported(libs, st, r).1 == Applied
    ensures Reported(libs, Reported(libs, st, r).0, r) == (Reported(libs, st, r).0, Applied)
  {
    var t := Reported(libs, st, r).0;
    AcceptedReport(libs, st, r);
    assert !Stale(t.actual, r);
    assert Cleared(t.actual, r.node) == Cleared(st.actual, r.node);
    forall i | 0 <= i < |r.skills| ensures SameAsBefore(t.actual, r.node, r.skills[i]) {
    }
    NoNews(libs, t.audit, t.actual, r, r.skills);
  }

  /** The node is known to have applied generation `g`. */
  predicate Remembers(st: Store, node: string, g: int) {
    exists k :: k in st.actual && k.node == node && g <= st.actual[k].appliedGeneration
  }

  /** A report older than an accepted, non-empty one changes nothing. */
  lemma OlderReportIgnored(libs: Libs, st: Store, r: Report, older: Report)
    requires Reported(libs, st, r).1 == Applied && r.skills != []
    requires older.node == r.node && older.generation < r.generation
    ensures Reported(libs, Reported(libs, st, r).0, older) == (Reported(libs, st, r).0, Ignored)
  {
    AcceptedReport(libs, st, r);
    var k := NodeSkill(r.node, r.skills[0].name);
    assert k in Reported(libs, st, r).0.actual;
  }

  /** What a node is known to have applied is forgotten exactly by an empty report that is not stale. */
  lemma MemoryIsKeptUnlessEmpty(libs: Libs, st: Store, r: Report)
    ensures (forall g :: Remembers(st, r.node, g) ==> Remembers(Reported(libs, st, r).0, r.node, g))
            <==> !(r.skills == [] && !Stale(st.actual, r) && exists k :: k in st.actual && k.node == r.node)
  {
    var t := Reported(libs, st, r).0;
    if Reported(libs, st, r).1 == Applied {
      AcceptedReport(libs, st, r);
      if r.skills == [] {
        if k :| k in st.actual && k.node == r.node {
          assert Remembers(st, r.node, st.actual[k].appliedGeneration);
          assert !Remembers(t, r.node, st.actual[k].appliedGeneration);
        }
      } else {
        var k := NodeSkill(r.node, r.skills[0].name);
        assert k in t.actual && t.actual[k].appliedGeneration == r.generation;
        assert forall g :: Remembers(st, r.node, g) ==> g <= r.generation;
      }
    }
  }

  /** One stored row of generation 3, and an empty report of generation 3: the 3 is forgotten. */
  lemma EmptyReportForgets(libs: Libs, st: Store, row: Actual)
    requires row.appliedGeneration == 3 && st.actual == map[NodeSkill("n", "k") := row]
    ensures Remembers(st, "n", 3)
    ensures forall g :: !Remembers(Reported(libs, st, Report("n", 3, [])).0, "n", g)
  {
    var r := Report("n", 3, []);
    assert NodeSkill("n", "k") in st.actual;
    assert Cleared(st.actual, "n") == map[];
  }

  // ---------------------------------------------------------------- outcomes and events of a report

  /** Ignored when negative or older than some row of the node; failed when rows would break a key. */
  lemma ReportOutcomeIs(libs: Libs, st: Store, r: Report)
    ensures var o := Reported(libs, st, r).1;
      var older := r.generation < 0 || exists name :: NodeSkill(r.node, name) in st.actual && r.generation < st.actual[NodeSkill(r.node, name)].appliedGeneration;
      && (o == Ignored <==> older)
      && (o == Failed <==> !older && r.skills != [] && !((exists n :: n in st.nodes && n.id == r.node) && NamesDistinct(r.skills)))
      && (o != Applied ==> Reported(libs, st, r).0 == st)
  {
    if k :| k in st.actual && k.node == r.node && r.generation < st.actual[k].appliedGeneration {
      assert k == NodeSkill(r.node, k.skill);
    }
    if i :| 0 <= i < |st.nodes| && st.nodes[i].id == r.node {
      assert st.nodes[i] in st.nodes;
    }
  }

  /** The stored row says field by field what the report said, under the report's generation. */
  lemma ReportedFields(libs: Libs, st: Store, r: Report, i: nat)
    requires Reported(libs, st, r).1 == Applied && i < |r.skills|
    ensures var k, t := NodeSkill(r.node, r.skills[i].name), Reported(libs, st, r).0;
      && k in t.actual && t.actual[k].version == r.skills[i].version && t.actual[k].sha == r.skills[i].sha
      && t.actual[k].state == r.skills[i].state && t.actual[k].reason == r.skills[i].reason
      && t.actual[k].detail == r.skills[i].detail && t.actual[k].attempts == r.skills[i].attempts
      && t.actual[k].previous == r.skills[i].previous && t.actual[k].appliedGeneration == r.generation
  {
    AcceptedReport(libs, st, r);
    assert HasRow(Reported(libs, st, r).0.actual, r, r.skills[i]);
  }

  /** Installed or failed now, and not so before with the same version, digest and reason. */
  predicate IsNews(prior: ActualRows, node: string, s: InstalledSkill) {
    var k := NodeSkill(node, s.name);
    (s.state == "installed" || s.state == "failed")
    && (k !in prior || prior[k].version != s.version || Norm(prior[k].sha) != Norm(s.sha) || prior[k].state != s.state
        || prior[k].reason != s.reason)
  }

  function NewsOf(prior: ActualRows, node: string, skills: seq<InstalledSkill>): seq<InstalledSkill> {
    if skills == [] then []
    else
      var last := skills[|skills| - 1];
      NewsOf(prior, node, skills[..|skills| - 1]) + (if IsNews(prior, node, last) then [last] else [])
  }

  predicate Announces(e: Audit.Event, node: string, s: InstalledSkill) {
    e.target == s.name && e.node == Some(node) && e.action == (if s.state == "failed" then "skill.failed" else "skill.installed")
  }

  /** The events a report adds announce exactly its news, in order. */
  lemma {:induction false} ReportAnnouncesNews(libs: Libs, audit: seq<Audit.Event>, prior: ActualRows, r: Report, skills: seq<InstalledSkill>)
    ensures var after, news := AuditFrom(libs, audit, prior, r, skills), NewsOf(prior, r.node, skills);
      && |after| == |audit| + |news| && after[..|audit|] == audit
      && (forall i :: 0 <= i < |news| ==> Announces(after[|audit| + i], r.node, news[i]))
    decreases |skills|
  {
    if skills != [] {
      ReportAnnouncesNews(libs, audit, prior, r, skills[..|skills| - 1]);
      var last := skills[|skills| - 1];
      assert NewsAction(prior, r.node, last).Some? <==> IsNews(prior, r.node, last);
    }
  }
}
