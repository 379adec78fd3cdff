/** The center's skill tables, keyed as their unique keys are. */
module Tables {
  import opened Text
  import Audit

  type Bytes = seq<bv8>

  /** A version's place in SemVer order; the order is total and countable, so the reals hold it. */
  type Rank = real

  datatype Status = Published | Deprecated | Yanked

  datatype VersionKey = VersionKey(skill: string, version: string)
  datatype NodeSkill = NodeSkill(node: string, skill: string)
  datatype BundleItem = BundleItem(skill: string, requirement: string)

  datatype VersionRow = VersionRow(sha: string, size: nat, status: Status, minNode: string,
                                   platforms: seq<string>, capabilities: string)

  /** What a node is told to have. */
  datatype Snap = Snap(version: string, sha: string)

  /** What a node says it has. */
  datatype Actual = Actual(version: string, sha: string, state: string, reason: string, detail: string,
                           attempts: int, previous: seq<string>, appliedGeneration: int)

  datatype LiveNode = LiveNode(id: string, agent: string, labels: map<string, string>)

  datatype Store = Store(
    nodes: seq<LiveNode>,                       // in node id order
    skills: set<string>,
    versions: map<VersionKey, VersionRow>,
    artifacts: map<string, Bytes>,
    bundles: map<string, seq<BundleItem>>,
    desired: map<NodeSkill, Snap>,
    generations: map<string, int>,
    actual: map<NodeSkill, Actual>,
    audit: seq<Audit.Event>)

  datatype Outcome = NodeUnknown | NodeTooOld | PlatformUnsupported | AlreadyInstalled
    | NoPreviousVersion | Pending | Queued

  datatype PerNode = PerNode(node: string, outcome: Outcome, generation: int)

  /** What an audit event records, before it becomes JSON text. */
  datatype Detail =
    | OperationDetail(operation: string, skill: string, target: Option<string>, perNode: seq<PerNode>)
    | ReportDetail(version: string, sha: string, state: string, reason: string, generation: int, attempts: int)

  /** The libraries the center calls: hashes of packages and of audit lines, the SemVer parser, the
      SemVer requirement matcher, and the JSON printer. */
  datatype Libs = Libs(digest: Bytes -> string, line: string -> string, rank: string -> Option<Rank>,
                       accepts: (string, Rank) -> bool, json: Detail -> string)

  ghost predicate NodesUnique(nodes: seq<LiveNode>) {
    forall i, j :: 0 <= i < j < |nodes| ==> nodes[i].id != nodes[j].id
  }
}
