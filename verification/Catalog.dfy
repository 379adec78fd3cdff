/** Publishing and deleting package versions, and the content-addressed artifacts behind them. */
module Catalog {
  import opened Text
  import opened Tables

  datatype Package = Package(name: string, version: string, body: Bytes, minNode: string,
                             platforms: seq<string>, capabilities: string)

  datatype PutResult = Stored(artifacts: map<string, Bytes>) | Conflict

  /** Insert only when absent; an existing blob of another size is an error, never overwritten. */
  function PutArtifact(artifacts: map<string, Bytes>, sha: string, body: Bytes): PutResult {
    if sha in artifacts then (if |artifacts[sha]| == |body| then Stored(artifacts) else Conflict)
    else Stored(artifacts[sha := body])
  }

  datatype CatalogOutcome = Created | AlreadyPublished | VersionExists | Internal
    | SkillUnknown | VersionUnknown | VersionInUse | Deleted

  function RowOf(digest: Bytes -> string, pkg: Package): VersionRow {
    VersionRow(digest(pkg.body), |pkg.body|, Published, pkg.minNode, pkg.platforms, pkg.capabilities)
  }

  type Versions = map<VersionKey, VersionRow>

  predicate Uses(versions: Versions, sha: string) {
    exists k :: k in versions && versions[k].sha == sha
  }

  /** `put_artifact` then the version row, whose digest must be unused (a unique key). */
  function WriteVersion(st: Store, digest: Bytes -> string, pkg: Package): (Store, CatalogOutcome) {
    var row := RowOf(digest, pkg);
    match PutArtifact(st.artifacts, row.sha, pkg.body)
    case Conflict => (st, Internal)
    case Stored(artifacts) =>
      if Uses(st.versions, row.sha) then (st, Internal)
      else
        (st.(skills := st.skills + {pkg.name}, artifacts := artifacts,
             versions := st.versions[VersionKey(pkg.name, pkg.version) := row]), Created)
  }

  function Publish(st: Store, digest: Bytes -> string, pkg: Package): (Store, CatalogOutcome) {
    var key := VersionKey(pkg.name, pkg.version);
    if pkg.name in st.skills && key in st.versions then
      if st.versions[key].sha != digest(pkg.body) then (st, VersionExists)
      else if digest(pkg.body) in st.artifacts then (st, AlreadyPublished)
      else (st.(artifacts := st.artifacts[digest(pkg.body) := pkg.body]), AlreadyPublished)
    else WriteVersion(st, digest, pkg)
  }

  /** Some node wants it, some node reports it, or a bundle names it. */
  predicate InUse(st: Store, key: VersionKey) {
    || (exists k :: k in st.desired && k.skill == key.skill && st.desired[k].version == key.version)
    || (exists k :: k in st.actual && k.skill == key.skill && st.actual[k].version == key.version)
    || (exists b :: b in st.bundles && BundleItem(key.skill, key.version) in st.bundles[b])
  }

  function Delete(st: Store, key: VersionKey): (Store, CatalogOutcome) {
    if key.skill !in st.skills then (st, SkillUnknown)
    else if key !in st.versions then (st, VersionUnknown)
    else if InUse(st, key) then (st, VersionInUse)
    else
      var sha := st.versions[key].sha;
      var after := st.(versions := st.versions - {key});
      (if Uses(after.versions, sha) then after else after.(artifacts := after.artifacts - {sha}), Deleted)
  }

  // ---------------------------------------------------------------- agreement

  /** Every wanted row names a catalog version with the same digest. */
  ghost predicate DesiredInCatalog(desired: map<NodeSkill, Snap>, versions: Versions) {
    forall k :: k in desired ==> InCatalog(versions, k.skill, desired[k])
  }

  predicate InCatalog(versions: Versions, skill: string, snap: Snap) {
    var key := VersionKey(skill, snap.version);
    key in versions && versions[key].sha == snap.sha
  }

  /** Every version has its artifact, of the size it states. */
  ghost predicate ArtifactsThere(versions: Versions, artifacts: map<string, Bytes>) {
    forall k :: k in versions ==> versions[k].sha in artifacts && |artifacts[versions[k].sha]| == versions[k].size
  }

  /** Every artifact hashes to its key and belongs to some version. */
  ghost predicate ArtifactsUsed(versions: Versions, artifacts: map<string, Bytes>, digest: Bytes -> string) {
    forall sha :: sha in artifacts ==> digest(artifacts[sha]) == sha && Uses(versions, sha)
  }

  ghost predicate DigestsUnique(versions: Versions) {
    forall k, l :: k in versions && l in versions && versions[k].sha == versions[l].sha ==> k == l
  }

  ghost predicate Agreement(st: Store, digest: Bytes -> string) {
    && DesiredInCatalog(st.desired, st.versions)
    && ArtifactsThere(st.versions, st.artifacts)
    && ArtifactsUsed(st.versions, st.artifacts, digest)
    && DigestsUnique(st.versions)
    && (forall k :: k in st.versions ==> k.skill in st.skills)
  }

  lemma PublishKeeps(st: Store, digest: Bytes -> string, pkg: Package)
    requires Agreement(st, digest)
    ensures Agreement(Publish(st, digest, pkg).0, digest)
    ensures Publish(st, digest, pkg).1 == AlreadyPublished ==> Publish(st, digest, pkg).0 == st
  {
    if Publish(st, digest, pkg).1 == Created {
      CreateKeeps(st, digest, pkg);
    }
  }

  lemma CreateKeeps(st: Store, digest: Bytes -> string, pkg: Package)
    requires Agreement(st, digest) && Publish(st, digest, pkg).1 == Created
    ensures Agreement(Publish(st, digest, pkg).0, digest)
  {
    var key, row := VersionKey(pkg.name, pkg.version), RowOf(digest, pkg);
    var versions, artifacts := st.versions[key := row], st.artifacts[row.sha := pkg.body];
    assert key !in st.versions && row.sha !in st.artifacts;
    var after := st.(skills := st.skills + {pkg.name}, versions := versions, artifacts := artifacts);
    assert Publish(st, digest, pkg).0 == after;
    AddKeepsDigests(st.versions, key, row);
    AddKeepsUse(st.versions, st.artifacts, digest, key, row, pkg.body);
    AddKeepsCatalog(st, key, row, pkg.body);
  }

  lemma AddKeepsCatalog(st: Store, key: VersionKey, row: VersionRow, body: Bytes)
    requires DesiredInCatalog(st.desired, st.versions) && ArtifactsThere(st.versions, st.artifacts)
    requires key !in st.versions && row.sha !in st.artifacts && row.size == |body|
    ensures DesiredInCatalog(st.desired, st.versions[key := row])
    ensures ArtifactsThere(st.versions[key := row], st.artifacts[row.sha := body])
  {
  }

  lemma AddKeepsDigests(versions: Versions, key: VersionKey, row: VersionRow)
    requires DigestsUnique(versions) && !Uses(versions, row.sha)
    ensures DigestsUnique(versions[key := row])
  {
  }

  lemma AddKeepsUse(versions: Versions, artifacts: map<string, Bytes>, digest: Bytes -> string,
                    key: VersionKey, row: VersionRow, body: Bytes)
    requires ArtifactsUsed(versions, artifacts, digest) && key !in versions && digest(body) == row.sha
    ensures ArtifactsUsed(versions[key := row], artifacts[row.sha := body], digest)
  {
    var after := versions[key := row];
    assert Uses(after, row.sha) by {
      assert after[key].sha == row.sha;
    }
    forall s | s in artifacts ensures Uses(after, s) {
      var k :| k in versions && versions[k].sha == s;
      assert after[k].sha == s;
    }
  }

  lemma DeleteKeeps(st: Store, digest: Bytes -> string, key: VersionKey)
    requires Agreement(st, digest)
    ensures Agreement(Delete(st, key).0, digest)
  {
    if Delete(st, key).1 == Deleted {
      var sha := st.versions[key].sha;
      assert !Uses(st.versions - {key}, sha);
      DropKeepsUse(st.versions, st.artifacts, digest, key);
      DropKeepsDesired(st, key);
    }
  }

  lemma DropKeepsUse(versions: Versions, artifacts: map<string, Bytes>, digest: Bytes -> string, key: VersionKey)
    requires ArtifactsUsed(versions, artifacts, digest) && key in versions
    ensures ArtifactsUsed(versions - {key}, artifacts - {versions[key].sha}, digest)
  {
    var after := versions - {key};
    forall s | s in artifacts && s != versions[key].sha ensures Uses(after, s) {
      var k :| k in versions && versions[k].sha == s;
      assert after[k].sha == s;
    }
  }

  lemma DropKeepsDesired(st: Store, key: VersionKey)
    requires DesiredInCatalog(st.desired, st.versions) && !InUse(st, key)
    ensures DesiredInCatalog(st.desired, st.versions - {key})
  {
  }

  // ---------------------------------------------------------------- outcomes

  predicate Describes(row: VersionRow, sha: string, pkg: Package) {
    row.sha == sha && row.size == |pkg.body| && row.status == Published && row.minNode == pkg.minNode
    && row.platforms == pkg.platforms && row.capabilities == pkg.capabilities
  }

  /** With the tables in agreement a publish is decided by the version's row and the other digests: new and
      unlike any stored package, the same as stored, or different under a taken version. */
  lemma PublishOutcome(st: Store, digest: Bytes -> string, pkg: Package)
    requires Agreement(st, digest)
    ensures var key, sha, r := VersionKey(pkg.name, pkg.version), digest(pkg.body), Publish(st, digest, pkg);
      && (r.1 == AlreadyPublished <==> key in st.versions && st.versions[key].sha == sha)
      && (r.1 == VersionExists <==> key in st.versions && st.versions[key].sha != sha)
      && (r.1 == Created <==> key !in st.versions && forall k :: k in st.versions ==> st.versions[k].sha != sha)
      && (r.1 == Created ==> r.0.versions.Keys == st.versions.Keys + {key} && Describes(r.0.versions[key], sha, pkg))
      && (r.1 != Created ==> r.0 == st)
      && (forall s :: s in st.artifacts ==> s in r.0.artifacts && r.0.artifacts[s] == st.artifacts[s])
  {
    var key, sha := VersionKey(pkg.name, pkg.version), digest(pkg.body);
    if key !in st.versions && sha in st.artifacts {
      assert Uses(st.versions, sha);
    }
  }

  /** Some node wants the version, some node reports it, or some bundle names it. */
  ghost predicate Needed(st: Store, key: VersionKey) {
    || (exists node :: NodeSkill(node, key.skill) in st.desired && st.desired[NodeSkill(node, key.skill)].version == key.version)
    || (exists node :: NodeSkill(node, key.skill) in st.actual && st.actual[NodeSkill(node, key.skill)].version == key.version)
    || (exists b, i :: b in st.bundles && 0 <= i < |st.bundles[b]| && st.bundles[b][i] == BundleItem(key.skill, key.version))
  }

  lemma InUseIsNeeded(st: Store, key: VersionKey)
    ensures InUse(st, key) <==> Needed(st, key)
  {
    if k :| k in st.desired && k.skill == key.skill && st.desired[k].version == key.version {
      assert k == NodeSkill(k.node, key.skill);
    }
    if k :| k in st.actual && k.skill == key.skill && st.actual[k].version == key.version {
      assert k == NodeSkill(k.node, key.skill);
    }
  }

  /** A known version is deleted exactly when nothing needs it, and nothing else goes. */
  lemma DeleteOutcome(st: Store, key: VersionKey)
    ensures var r := Delete(st, key);
      && (r.1 == Deleted <==> key.skill in st.skills && key in st.versions && !Needed(st, key))
      && (r.1 == VersionInUse <==> key.skill in st.skills && key in st.versions && Needed(st, key))
      && (r.1 == Deleted ==> r.0.versions == st.versions - {key})
      && (r.1 != Deleted ==> r.0 == st)
      && (forall s :: s in st.artifacts && s !in r.0.artifacts ==> r.1 == Deleted && s == st.versions[key].sha && !Uses(r.0.versions, s))
  {
    InUseIsNeeded(st, key);
  }

  // ---------------------------------------------------------------- package contents

  predicate IsLowerHex64(s: string) {
    |s| == 64 && forall c :: c in s ==> '0' <= c <= '9' || 'a' <= c <= 'f'
  }

  datatype Verdict = Accepted | BadHash(path: string) | NotInArchive(path: string) | Mismatch(path: string) | Undeclared

  /** The declaration for `path` is a digest, and that of the archive entry. */
  predicate Holds(digest: Bytes -> string, files: map<string, Bytes>, declared: map<string, string>, path: string) {
    path in declared && IsLowerHex64(declared[path]) && path in files && digest(files[path]) == declared[path]
  }

  /** Every archive entry but the manifest is declared, and every declaration is true. */
  ghost predicate FilesVerified(digest: Bytes -> string, files: map<string, Bytes>, declared: map<string, string>) {
    && (forall p :: p in declared ==> Holds(digest, files, declared, p))
    && (forall p :: p in files && p != "skill.toml" ==> p in declared)
  }

  method VerifyFiles(digest: Bytes -> string, files: map<string, Bytes>, declared: map<string, string>)
    returns (v: Verdict)
    ensures v.Accepted? <==> FilesVerified(digest, files, declared)
    ensures v.Mismatch? ==> v.path in declared && v.path in files && digest(files[v.path]) != declared[v.path]
    ensures v.NotInArchive? ==> v.path in declared && v.path !in files
    ensures v.BadHash? ==> v.path in declared && !IsLowerHex64(declared[v.path])
  {
    var remaining := files.Keys - {"skill.toml"};
    var todo := declared.Keys;
    while todo != {}
      invariant todo <= declared.Keys
      invariant forall p :: p in remaining <==> p in files && p != "skill.toml" && (p in declared ==> p in todo)
      invariant forall p :: p in declared && p !in todo ==> Holds(digest, files, declared, p)
      decreases |todo|
    {
      var path :| path in todo;
      var fault := Fault(digest, files, declared, path);
      if fault.Some? {
        return fault.value;
      }
      remaining := remaining - {path};
      todo := todo - {path};
    }
    if remaining != {} {
      var p :| p in remaining;
      return Undeclared;
    }
    return Accepted;
  }

  method Fault(digest: Bytes -> string, files: map<string, Bytes>, declared: map<string, string>, path: string)
    returns (fault: Option<Verdict>)
    requires path in declared
    ensures fault.None? <==> Holds(digest, files, declared, path)
    ensures fault.Some? ==>
      || (fault.value == BadHash(path) && !IsLowerHex64(declared[path]))
      || (fault.value == NotInArchive(path) && path !in files)
      || (fault.value == Mismatch(path) && path in files && digest(files[path]) != declared[path])
  {
    if !IsLowerHex64(declared[path]) {
      return Some(BadHash(path));
    }
    if path !in files {
      return Some(NotInArchive(path));
    }
    if digest(files[path]) != declared[path] {
      return Some(Mismatch(path));
    }
    return None;
  }
}
