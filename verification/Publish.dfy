/** Publishing generated files: check everything, stage everything, then replace one file at a time. */
module Publish {
  import opened Wrappers

  type Path = seq<string>

  /** What a path names. A link's content is what reading through it gives. */
  datatype Node = File(bytes: string) | Dir | Link(toDir: bool, content: Option<string>)

  type Nodes = map<Path, Node>

  datatype Format = Rust | Sql | OpenApi | TypeScript

  datatype Artifact = Artifact(path: Path, bytes: string, format: Format)

  datatype Policy = Check | Write(force: bool)

  datatype Error = Invalid | Io | UserOwned(path: Path) | Stale(paths: seq<Path>) | Partial(written: seq<Path>, source: Error)

  datatype Report = Report(written: seq<Path>, kept: seq<Path>)

  datatype Result<T> = Ok(value: T) | Err(error: Error)

  // ---------- ownership -------------------------------------------------------------

  predicate Owns(json: string -> bool, format: Format, bytes: string) {
    match format
    case Rust => "// Generated by `based gen client`" <= bytes
    case Sql => "-- Generated by `based gen sql`" <= bytes
    case TypeScript => "// Generated by `based gen fixtures`" <= bytes
    case OpenApi => json(bytes)
  }

  predicate OwnsAny(json: string -> bool, bytes: string) {
    Owns(json, Rust, bytes) || Owns(json, Sql, bytes) || Owns(json, OpenApi, bytes) || Owns(json, TypeScript, bytes)
  }

  /** Every output carries its own format's marker. */
  predicate Marked(json: string -> bool, artifacts: seq<Artifact>) {
    forall a | a in artifacts :: Owns(json, a.format, a.bytes)
  }

  predicate Holds(nodes: Nodes, a: Artifact) { a.path in nodes && nodes[a.path] == File(a.bytes) }

  /** A file nobody generated stands where the artifact should go. */
  predicate UserFile(json: string -> bool, nodes: Nodes, a: Artifact) {
    a.path in nodes && UserNode(json, nodes[a.path], a)
  }

  predicate UserNode(json: string -> bool, node: Node, a: Artifact) {
    node.File? && node.bytes != a.bytes && !OwnsAny(json, node.bytes)
  }

  /** Whether a destination is up to date, or may not be touched. */
  function Answer(json: string -> bool, nodes: Nodes, a: Artifact, policy: Policy): Result<bool> {
    if a.path !in nodes then Ok(false)
    else if !nodes[a.path].File? then Err(Invalid)
    else if nodes[a.path].bytes == a.bytes then Ok(true)
    else if policy == Write(false) && UserFile(json, nodes, a) then Err(UserOwned(a.path))
    else Ok(false)
  }

  // ---------- sets of artifacts -----------------------------------------------------

  function Paths(artifacts: seq<Artifact>): (paths: seq<Path>)
    ensures |paths| == |artifacts| && forall i | 0 <= i < |paths| :: paths[i] == artifacts[i].path
  {
    seq(|artifacts|, i requires 0 <= i < |artifacts| => artifacts[i].path)
  }

  predicate Distinct(paths: seq<Path>) { forall i, j | 0 <= i < j < |paths| :: paths[i] != paths[j] }

  /** The artifacts are exactly those kept as they are and those in `changed`. */
  predicate Sorted(artifacts: seq<Artifact>, kept: seq<Path>, changed: seq<Artifact>) {
    && Distinct(Paths(artifacts)) && Distinct(Paths(changed)) && |kept| + |changed| == |artifacts|
    && (forall a | a in artifacts :: (a.path in kept) != (a in changed))
    && (forall p | p in kept :: p in Paths(artifacts))
    && (forall a | a in changed :: a in artifacts)
  }

  /** The nodes after replacing these files in order. */
  function Replaced(nodes: Nodes, wrote: seq<Artifact>): Nodes {
    if wrote == [] then nodes
    else var last := wrote[|wrote| - 1]; Replaced(nodes, wrote[..|wrote| - 1])[last.path := File(last.bytes)]
  }

  /** Replacing changes the files named and nothing else. */
  lemma {:induction false} ReplacedAt(nodes: Nodes, wrote: seq<Artifact>, p: Path)
    requires Distinct(Paths(wrote))
    ensures p !in Paths(wrote) ==> (p in Replaced(nodes, wrote) <==> p in nodes) && (p in nodes ==> Replaced(nodes, wrote)[p] == nodes[p])
    ensures forall a | a in wrote && a.path == p :: Holds(Replaced(nodes, wrote), a)
  {
    if wrote != [] {
      var init := wrote[..|wrote| - 1];
      var last := wrote[|wrote| - 1];
      assert Paths(wrote)[|wrote| - 1] == last.path;
      assert forall i | 0 <= i < |init| :: Paths(init)[i] == Paths(wrote)[i];
      assert p !in Paths(wrote) ==> p !in Paths(init) && p != last.path;
      ReplacedAt(nodes, init, p);
      forall a | a in wrote && a.path == p
        ensures Holds(Replaced(nodes, wrote), a)
      {
        if a != last {
          assert a in init;
          var i :| 0 <= i < |init| && init[i] == a;
          assert Paths(wrote)[i] != Paths(wrote)[|wrote| - 1];
        }
      }
    }
  }

  /** Only missing directories above the artifacts were added. */
  ghost predicate Grown(before: Nodes, after: Nodes, artifacts: seq<Artifact>) {
    && (forall p | p in before :: p in after && after[p] == before[p])
    && (forall p | p in after && p !in before :: after[p] == Dir && Above(p, artifacts))
  }

  predicate Above(p: Path, artifacts: seq<Artifact>) { exists i :: 0 <= i < |artifacts| && p < artifacts[i].path }

  /** Every changed artifact is reported once: written, or found up to date after staging. */
  ghost predicate Accounted(changed: seq<Artifact>, kept: seq<Path>, report: Report) {
    && kept <= report.kept
    && |report.written| + |report.kept| == |changed| + |kept|
    && (forall a | a in changed :: (a.path in report.written) != (a.path in report.kept[|kept|..]))
    && (forall p | p in report.written || p in report.kept[|kept|..] :: p in Paths(changed))
  }

  lemma InPaths(artifacts: seq<Artifact>, p: Path)
    ensures p in Paths(artifacts) <==> exists a :: a in artifacts && a.path == p
  {
    if p in Paths(artifacts) {
      var i :| 0 <= i < |artifacts| && Paths(artifacts)[i] == p;
      assert artifacts[i] in artifacts;
    }
    forall a | a in artifacts && a.path == p
      ensures p in Paths(artifacts)
    {
      var i :| 0 <= i < |artifacts| && artifacts[i] == a;
      assert Paths(artifacts)[i] == p;
    }
  }

  lemma SortOne(done: seq<Artifact>, a: Artifact, kept: seq<Path>, changed: seq<Artifact>)
    requires Sorted(done, kept, changed) && forall b | b in done :: b.path != a.path
    ensures Sorted(done + [a], kept + [a.path], changed) && Sorted(done + [a], kept, changed + [a])
  {
    assert Paths(done + [a]) == Paths(done) + [a.path];
    assert Paths(changed + [a]) == Paths(changed) + [a.path];
    InPaths(done, a.path);
    InPaths(changed, a.path);
  }

  lemma AccountOne(done: seq<Artifact>, a: Artifact, kept: seq<Path>, report: Report)
    requires Accounted(done, kept, report) && a.path !in Paths(done)
    ensures Accounted(done + [a], kept, report.(kept := report.kept + [a.path]))
    ensures Accounted(done + [a], kept, report.(written := report.written + [a.path]))
  {
    assert Paths(done + [a]) == Paths(done) + [a.path];
    assert (report.kept + [a.path])[|kept|..] == report.kept[|kept|..] + [a.path];
    forall b | b in done
      ensures b.path != a.path
    {
      InPaths(done, b.path);
    }
  }

  lemma GrownStays(before: Nodes, middle: Nodes, after: Nodes, artifacts: seq<Artifact>, i: nat)
    requires i < |artifacts| && Grown(before, middle, artifacts) && Grown(middle, after, [artifacts[i]])
    ensures Grown(before, after, artifacts)
  {
    forall p | p in after && p !in before
      ensures after[p] == Dir && Above(p, artifacts)
    {
      if p !in middle {
        assert Above(p, [artifacts[i]]);
        assert p < artifacts[i].path;
      }
    }
  }

  /** The next destination is none of those already replaced. */
  lemma NotYetWritten(changed: seq<Artifact>, i: nat, wrote: seq<Artifact>)
    requires i < |changed| && Distinct(Paths(changed)) && Distinct(Paths(wrote))
    requires forall a | a in wrote :: a in changed[..i]
    ensures changed[i].path !in Paths(wrote) && changed[i].path !in Paths(changed[..i])
    ensures Distinct(Paths(wrote + [changed[i]]))
  {
    var p := changed[i].path;
    forall j | 0 <= j < i
      ensures changed[j].path != p
    {
      assert Paths(changed)[j] != Paths(changed)[i];
    }
    InPaths(changed[..i], p);
    InPaths(wrote, p);
    assert Paths(wrote + [changed[i]]) == Paths(wrote) + [p];
  }

  lemma NotWritten(changed: seq<Artifact>, wrote: seq<Artifact>, a: Artifact)
    requires Distinct(Paths(changed)) && a in changed && a !in wrote && forall b | b in wrote :: b in changed
    ensures a.path !in Paths(wrote)
  {
    InPaths(wrote, a.path);
    forall b | b in wrote && b.path == a.path
      ensures false
    {
      SamePath(changed, a, b);
    }
  }

  lemma SamePath(artifacts: seq<Artifact>, a: Artifact, b: Artifact)
    requires Distinct(Paths(artifacts)) && a in artifacts && b in artifacts && a.path == b.path
    ensures a == b
  {
    var i :| 0 <= i < |artifacts| && artifacts[i] == a;
    var j :| 0 <= j < |artifacts| && artifacts[j] == b;
    assert Paths(artifacts)[i] == Paths(artifacts)[j];
  }

  lemma AllAccounted(artifacts: seq<Artifact>, kept: seq<Path>, changed: seq<Artifact>, report: Report)
    requires Sorted(artifacts, kept, changed) && Accounted(changed, kept, report)
    ensures |report.written| + |report.kept| == |artifacts|
    ensures forall a | a in artifacts :: (a.path in report.written) != (a.path in report.kept)
  {
    assert report.kept == kept + report.kept[|kept|..];
    forall a | a in artifacts
      ensures (a.path in report.written) != (a.path in report.kept)
    {
      InPaths(changed, a.path);
      forall c | c in changed && c.path == a.path
        ensures a in changed
      {
        SamePath(artifacts, a, c);
      }
    }
  }

  /** A refusal for a user's file names one that stands in the way, and only happens without force. */
  ghost predicate RefusalIsRight(json: string -> bool, nodes: Nodes, artifacts: seq<Artifact>, policy: Policy, error: Error) {
    error.UserOwned? ==> policy == Write(false) && exists a :: a in artifacts && a.path == error.path && UserFile(json, nodes, a)
  }

  // ---------- when nothing stands in the way ----------------------------------------

  /** Every directory above the path is there or can be made. */
  predicate Usable(nodes: Nodes, p: Path) {
    forall k | 0 < k < |p| :: p[..k] in nodes ==> IsDirectory(nodes[p[..k]])
  }

  /** Every directory above the path is there. */
  predicate Housed(nodes: Nodes, p: Path) {
    forall k | 0 < k < |p| :: p[..k] in nodes && IsDirectory(nodes[p[..k]])
  }

  predicate IsDirectory(node: Node) { node.Dir? || (node.Link? && node.toDir) }

  predicate AllAnswered(json: string -> bool, nodes: Nodes, artifacts: seq<Artifact>, policy: Policy) {
    forall a | a in artifacts :: Answer(json, nodes, a, policy).Ok?
  }

  predicate Acceptable(json: string -> bool, nodes: Nodes, artifacts: seq<Artifact>, policy: Policy) {
    Distinct(Paths(artifacts)) && Marked(json, artifacts) && AllAnswered(json, nodes, artifacts, policy)
  }

  /** The destinations are distinct files, missing or ours to replace, none above another, under
      directories that are there or can be made; and every output carries its marker. */
  ghost predicate Ready(json: string -> bool, nodes: Nodes, artifacts: seq<Artifact>, policy: Policy) {
    && Acceptable(json, nodes, artifacts, policy)
    && (forall a | a in artifacts :: Usable(nodes, a.path) && !Above(a.path, artifacts))
  }

  lemma StillHoused(before: Nodes, after: Nodes, staged: seq<Artifact>, done: seq<Artifact>)
    requires Grown(before, after, staged) && forall j | 0 <= j < |done| :: Housed(before, done[j].path)
    ensures forall j | 0 <= j < |done| :: Housed(after, done[j].path)
  {
  }

  lemma StillUsable(before: Nodes, after: Nodes, artifacts: seq<Artifact>, p: Path)
    requires Grown(before, after, artifacts) && Usable(before, p)
    ensures Usable(after, p)
  {
    forall k | 0 < k < |p| && p[..k] in after
      ensures IsDirectory(after[p[..k]])
    {
      if p[..k] !in before {
        assert after[p[..k]] == Dir;
      }
    }
  }

  /** Making directories changes no answer about a destination that is above no other. */
  lemma StillAnswered(json: string -> bool, before: Nodes, after: Nodes, changed: seq<Artifact>, artifacts: seq<Artifact>, policy: Policy)
    requires Grown(before, after, changed) && Ready(json, before, artifacts, policy) && forall c | c in changed :: c in artifacts
    ensures AllAnswered(json, after, changed, policy)
  {
    forall c | c in changed
      ensures Answer(json, after, c, policy).Ok?
    {
      assert !Above(c.path, artifacts);
      if Above(c.path, changed) {
        AboveMore(c.path, changed, artifacts);
      }
      assert c.path in after <==> c.path in before;
      assert Answer(json, before, c, policy).Ok?;
    }
  }

  lemma AboveMore(p: Path, changed: seq<Artifact>, artifacts: seq<Artifact>)
    requires Above(p, changed) && forall c | c in changed :: c in artifacts
    ensures Above(p, artifacts)
  {
    var i :| 0 <= i < |changed| && p < changed[i].path;
    assert changed[i] in artifacts;
    var j :| 0 <= j < |artifacts| && artifacts[j] == changed[i];
  }

  // ---------- one artifact at a time ------------------------------------------------

  /** What the preflight knows of the artifacts it has seen. */
  ghost predicate Seen(json: string -> bool, nodes: Nodes, done: seq<Artifact>, changed: seq<Artifact>, policy: Policy) {
    && (forall a | a in done :: a in changed <==> !Holds(nodes, a))
    && (policy == Write(false) ==> forall a | a in done :: !UserFile(json, nodes, a))
  }

  lemma SeeOne(json: string -> bool, nodes: Nodes, done: seq<Artifact>, kept: seq<Path>, changed: seq<Artifact>, a: Artifact, policy: Policy)
    requires Sorted(done, kept, changed) && Seen(json, nodes, done, changed, policy)
    requires a !in done && Answer(json, nodes, a, policy).Ok?
    ensures Seen(json, nodes, done + [a], if Answer(json, nodes, a, policy).value then changed else changed + [a], policy)
  {
    hide OwnsAny;
  }

  /** What the last phase knows of the artifacts it has handled. */
  ghost predicate Placed(json: string -> bool, start: Nodes, nodes: Nodes, done: seq<Artifact>, wrote: seq<Artifact>, policy: Policy) {
    && nodes == Replaced(start, wrote)
    && (forall a | a in done :: Holds(nodes, a))
    && (policy == Write(false) ==> forall a | a in done :: !UserFile(json, start, a))
  }

  lemma Permitted(json: string -> bool, start: Nodes, nodes: Nodes, a: Artifact, policy: Policy)
    requires Answer(json, nodes, a, policy).Ok? && (a.path in start <==> a.path in nodes)
    requires a.path in nodes ==> start[a.path] == nodes[a.path]
    ensures policy == Write(false) ==> !UserFile(json, start, a)
    ensures Answer(json, nodes, a, policy).value ==> Holds(nodes, a)
  {
    hide OwnsAny;
  }

  lemma PlaceOne(json: string -> bool, start: Nodes, nodes: Nodes, done: seq<Artifact>, wrote: seq<Artifact>, a: Artifact, policy: Policy)
    requires Placed(json, start, nodes, done, wrote, policy) && Answer(json, nodes, a, policy).Ok?
    requires Distinct(Paths(wrote)) && a.path !in Paths(wrote) && a.path !in Paths(done)
    ensures Answer(json, nodes, a, policy).value ==> Placed(json, start, nodes, done + [a], wrote, policy)
    ensures Placed(json, start, nodes[a.path := File(a.bytes)], done + [a], wrote + [a], policy)
  {
    ReplacedAt(start, wrote, a.path);
    Permitted(json, start, nodes, a, policy);
    assert (wrote + [a])[..|wrote|] == wrote;
    assert Replaced(start, wrote + [a]) == Replaced(start, wrote)[a.path := File(a.bytes)];
    hide UserFile, Answer, Replaced, Distinct, Paths;
    forall b | b in done
      ensures b.path != a.path
    {
      InPaths(done, b.path);
    }
  }

  /** The report so far, and what it stands for. */
  ghost predicate Reported(done: seq<Artifact>, kept: seq<Path>, report: Report, wrote: seq<Artifact>) {
    && report.written == Paths(wrote) && Distinct(Paths(wrote))
    && (forall a | a in wrote :: a in done) && Accounted(done, kept, report)
  }

  lemma ReportOne(changed: seq<Artifact>, i: nat, kept: seq<Path>, report: Report, wrote: seq<Artifact>)
    requires i < |changed| && Distinct(Paths(changed)) && Reported(changed[..i], kept, report, wrote)
    ensures var a := changed[i];
            && a.path !in Paths(wrote) && a.path !in Paths(changed[..i]) && changed[..i + 1] == changed[..i] + [a]
            && Reported(changed[..i + 1], kept, report.(kept := report.kept + [a.path]), wrote)
            && Reported(changed[..i + 1], kept, report.(written := report.written + [a.path]), wrote + [a])
  {
    var a := changed[i];
    NotYetWritten(changed, i, wrote);
    AccountOne(changed[..i], a, kept, report);
    assert changed[..i + 1] == changed[..i] + [a];
    assert Paths(wrote + [a]) == Paths(wrote) + [a.path];
    hide Accounted;
  }

  lemma ReportMeans(changed: seq<Artifact>, i: nat, kept: seq<Path>, report: Report, wrote: seq<Artifact>)
    requires i <= |changed| && Reported(changed[..i], kept, report, wrote)
    ensures report.written == Paths(wrote) && Distinct(Paths(wrote)) && Accounted(changed[..i], kept, report)
    ensures forall a | a in wrote :: a in changed && a in changed[..i]
  {
    hide Accounted;
  }

  /** No file of a user's is among those written. */
  lemma UsersRespected(json: string -> bool, start: Nodes, nodes: Nodes, changed: seq<Artifact>, i: nat, wrote: seq<Artifact>)
    requires i <= |changed| && Distinct(Paths(changed)) && (forall a | a in wrote :: a in changed[..i])
    requires Placed(json, start, nodes, changed[..i], wrote, Write(false))
    ensures forall a | a in changed && UserFile(json, start, a) :: i < |changed| && a.path !in Paths(wrote)
  {
    hide UserFile;
    forall a | a in changed && UserFile(json, start, a)
      ensures i < |changed| && a.path !in Paths(wrote)
    {
      assert a !in changed[..i];
      assert changed[..|changed|] == changed;
      NotWritten(changed, wrote, a);
    }
  }

  /** The files written hold their artifacts; everything else is as before, or a directory made on the way. */
  ghost predicate OnlyWritten(before: Nodes, after: Nodes, wrote: seq<Artifact>, artifacts: seq<Artifact>) {
    && (forall a | a in wrote :: Holds(after, a))
    && (forall p | p in before && p !in Paths(wrote) :: p in after && after[p] == before[p])
    && (forall p | p in after && p !in before && p !in Paths(wrote) :: after[p] == Dir && Above(p, artifacts))
  }

  lemma GrownThenReplaced(before: Nodes, staged: Nodes, wrote: seq<Artifact>, changed: seq<Artifact>, artifacts: seq<Artifact>)
    requires Grown(before, staged, changed) && Distinct(Paths(wrote)) && forall a | a in changed :: a in artifacts
    ensures OnlyWritten(before, Replaced(staged, wrote), wrote, artifacts)
  {
    var after := Replaced(staged, wrote);
    forall p
      ensures p !in Paths(wrote) ==> (p in after <==> p in staged) && (p in staged ==> after[p] == staged[p])
      ensures forall a | a in wrote && a.path == p :: Holds(after, a)
    {
      ReplacedAt(staged, wrote, p);
    }
    forall p | Above(p, changed)
      ensures Above(p, artifacts)
    {
      var i :| 0 <= i < |changed| && p < changed[i].path;
      assert changed[i] in artifacts;
      var j :| 0 <= j < |artifacts| && artifacts[j] == changed[i];
    }
  }

  // ---------- the disk --------------------------------------------------------------

  function NodeAt(nodes: Nodes, p: Path): Option<Node> { if p in nodes then Some(nodes[p]) else None }

  type Patch = map<Path, Option<Node>>

  function Patched(nodes: Nodes, patch: Patch): Nodes {
    map p | p in nodes.Keys + patch.Keys && (p in patch ==> patch[p].Some?) :: if p in patch then patch[p].value else nodes[p]
  }

  /** What stood at a destination just before it was replaced, and when that was. */
  datatype Standing = Standing(when: nat, node: Option<Node>)

  class Disk {
    var nodes: Nodes
    var clock: nat
    /** The replacements made here, in order. */
    var log: seq<Artifact>
    /** What each of them replaced. */
    var stood: seq<Standing>
    /** The directories made here, in order. */
    var made: seq<Path>
    /** The operations that fail. */
    const faults: set<nat>
    /** What other writers change just before each operation. */
    const others: map<nat, Patch>
    const json: string -> bool

    constructor (nodes: Nodes, faults: set<nat>, others: map<nat, Patch>, json: string -> bool)
      ensures this.nodes == nodes && clock == 0 && log == [] && stood == [] && made == []
      ensures this.faults == faults && this.others == others && this.json == json
    {
      this.nodes, this.faults, this.others, this.json := nodes, faults, others, json;
      clock, log, stood, made := 0, [], [], [];
    }

    /** No other writer acts from here on. */
    predicate Calm()
      reads this
    {
      forall t | t in others :: t < clock
    }

    /** The nodes as the operation at `t` finds them. */
    function Found(nodes: Nodes, t: nat): Nodes { if t in others then Patched(nodes, others[t]) else nodes }

    /** Another writer puts a user's file at the destination just before the operation at `t`. */
    predicate PutThere(a: Artifact, t: nat) {
      t in others && a.path in others[t] && others[t][a.path].Some? && UserNode(json, others[t][a.path].value, a)
    }

    /** A user's file was replaced exactly where another writer put it there in the moment between
        the ownership check and the replacement. */
    ghost predicate Respected(wrote: seq<Artifact>, found: seq<Standing>) {
      && |found| == |wrote|
      && forall i | 0 <= i < |wrote| :: Overwrote(wrote[i], found[i]) <==> PutThere(wrote[i], found[i].when)
    }

    predicate Overwrote(a: Artifact, found: Standing) { found.node.Some? && UserNode(json, found.node.value, a) }

    /** One more replacement, which respects users' files if the policy asks for it. */
    ghost predicate OneMore(a: Artifact, policy: Policy, before: seq<Standing>, after: seq<Standing>) {
      && |after| == |before| + 1 && before <= after
      && (policy == Write(false) ==> (Overwrote(a, after[|before|]) <==> PutThere(a, after[|before|].when)))
    }

    /** What the replacements since `before` found. */
    ghost predicate Standings(policy: Policy, before: seq<Standing>, wrote: seq<Artifact>, after: seq<Standing>) {
      before <= after && (policy == Write(false) ==> Respected(wrote, after[|before|..]))
    }

    lemma StandOne(policy: Policy, start: seq<Standing>, wrote: seq<Artifact>, a: Artifact, before: seq<Standing>, after: seq<Standing>)
      requires Standings(policy, start, wrote, before) && OneMore(a, policy, before, after)
      ensures Standings(policy, start, wrote + [a], after)
    {
      hide PutThere, Overwrote;
      assert after[|start|..] == before[|start|..] + [after[|before|]];
    }

    method Tick() returns (failed: bool)
      modifies this`nodes, this`clock
      ensures clock == old(clock) + 1 && failed == (old(clock) in faults)
      ensures nodes == Found(old(nodes), old(clock))
      ensures old(Calm()) ==> Calm() && nodes == old(nodes)
    {
      if clock in others {
        nodes := Patched(nodes, others[clock]);
      }
      failed := clock in faults;
      clock := clock + 1;
    }

    method Current(a: Artifact, policy: Policy) returns (r: Result<bool>)
      modifies this`nodes, this`clock
      ensures clock > old(clock)
      ensures r.Err? ==> r.error in {Invalid, Io, UserOwned(a.path)}
      ensures r == Ok(false) && policy == Write(false) ==> !UserFile(json, nodes, a)
      ensures old(Calm()) ==> Calm() && nodes == old(nodes) && (r == Answer(json, nodes, a, policy) || r == Err(Io))
      ensures faults == {} && old(Calm()) ==> r == Answer(json, nodes, a, policy)
    {
      var failed := Tick();
      if failed {
        return Err(Io);
      }
      if a.path !in nodes {
        return Ok(false);
      }
      if !nodes[a.path].File? {
        return Err(Invalid);
      }
      var bytes;
      bytes := Read(a.path);
      if bytes.None? {
        return Err(Io);
      }
      if bytes.value == a.bytes {
        return Ok(true);
      }
      if policy == Write(false) && !OwnsAny(json, bytes.value) {
        return Err(UserOwned(a.path));
      }
      return Ok(false);
    }

    method Read(p: Path) returns (bytes: Option<string>)
      modifies this`nodes, this`clock
      ensures clock > old(clock)
      ensures old(Calm()) ==> Calm() && nodes == old(nodes)
      ensures bytes.Some? && p in nodes && nodes[p].File? ==> bytes == Some(nodes[p].bytes)
      ensures faults == {} && p in nodes && nodes[p].File? ==> bytes.Some?
    {
      var failed := Tick();
      if failed || p !in nodes || nodes[p].Dir? {
        return None;
      }
      bytes := match nodes[p] case File(b) => Some(b) case Link(_, content) => content case Dir => None;
    }

    /** The parent directories made and the bytes put in a temporary sibling, which is no destination. */
    method Stage(a: Artifact) returns (ok: bool)
      modifies this`nodes, this`clock, this`made
      ensures clock >= old(clock)
      ensures old(Calm()) ==> Calm() && Grown(old(nodes), nodes, [a]) && (ok ==> Housed(nodes, a.path))
      ensures faults == {} && old(Calm()) && Usable(old(nodes), a.path) ==> ok
    {
      var k := 1;
      while k < |a.path|
        invariant 1 <= k && clock >= old(clock)
        invariant old(Calm()) ==> Calm() && Grown(old(nodes), nodes, [a])
        invariant old(Calm()) ==> forall j | 0 < j < k && j < |a.path| :: a.path[..j] in nodes && IsDirectory(nodes[a.path[..j]])
        invariant old(Calm()) && Usable(old(nodes), a.path) ==> Usable(nodes, a.path)
      {
        var failed := Tick();
        if failed {
          return false;
        }
        var p := a.path[..k];
        if p !in nodes {
          assert p < [a][0].path;
          nodes := nodes[p := Dir];
          made := made + [p];
        } else if nodes[p].File? || (nodes[p].Link? && !nodes[p].toDir) {
          return false;
        }
        k := k + 1;
      }
      var failed := Tick();
      ok := !failed;
    }

    /** One file replaced by its staged bytes, or left as it was. */
    method Persist(a: Artifact) returns (ok: bool)
      modifies this`nodes, this`clock, this`log, this`stood
      ensures clock > old(clock)
      ensures log == if ok then old(log) + [a] else old(log)
      ensures var found := Found(old(nodes), old(clock));
              && nodes == (if ok then found[a.path := File(a.bytes)] else found)
              && stood == if ok then old(stood) + [Standing(old(clock), NodeAt(found, a.path))] else old(stood)
      ensures old(Calm()) ==> Calm() && nodes == if ok then old(nodes)[a.path := File(a.bytes)] else old(nodes)
      ensures faults == {} && old(Calm()) && (a.path in old(nodes) ==> !old(nodes)[a.path].Dir?) ==> ok
    {
      var failed := Tick();
      if failed || (a.path in nodes && nodes[a.path].Dir?) {
        return false;
      }
      log, stood := log + [a], stood + [Standing(clock - 1, NodeAt(nodes, a.path))];
      nodes := nodes[a.path := File(a.bytes)];
      ok := true;
    }

    // -------- the three phases ------------------------------------------------------

    method Preflight(artifacts: seq<Artifact>, policy: Policy) returns (r: Result<(seq<Path>, seq<Artifact>)>)
      modifies this`nodes, this`clock
      ensures r.Err? ==> r.error.Invalid? || r.error.Io? || r.error.UserOwned?
      ensures r.Ok? ==> Sorted(artifacts, r.value.0, r.value.1) && Marked(json, artifacts)
      ensures old(Calm()) && r.Err? ==> RefusalIsRight(json, nodes, artifacts, policy, r.error)
      ensures faults == {} && old(Calm()) && Acceptable(json, old(nodes), artifacts, policy) ==> r.Ok?
      ensures old(Calm()) ==> Calm() && nodes == old(nodes) && (r.Ok? ==> Seen(json, nodes, artifacts, r.value.1, policy))
    {
      hide Sorted, Answer, Owns, OwnsAny, Seen;
      var kept: seq<Path> := [];
      var changed: seq<Artifact> := [];
      var paths: set<Path> := {};
      NothingSorted(json, nodes, policy);
      var i := 0;
      while i < |artifacts|
        invariant i <= |artifacts| && forall a | a in artifacts[..i] :: a.path in paths
        invariant forall p | p in paths :: p in Paths(artifacts[..i])
        invariant Sorted(artifacts[..i], kept, changed) && Marked(json, artifacts[..i])
        invariant old(Calm()) ==> Calm() && nodes == old(nodes) && Seen(json, nodes, artifacts[..i], changed, policy)
      {
        var a := artifacts[i];
        if a.path in paths {
          Repeated(artifacts, i);
          return Err(Invalid);
        }
        paths := paths + {a.path};
        assert Paths(artifacts[..i + 1]) == Paths(artifacts[..i]) + [a.path];
        if !Owns(json, a.format, a.bytes) {
          return Err(Invalid);
        }
        var current := Current(a, policy);
        if current.Err? {
          if old(Calm()) {
            RefusalFor(artifacts, a, policy, current);
          }
          return Err(current.error);
        }
        assert artifacts[..i + 1] == artifacts[..i] + [a];
        SortOne(artifacts[..i], a, kept, changed);
        if old(Calm()) {
          SeeOne(json, nodes, artifacts[..i], kept, changed, a, policy);
        }
        if current.value {
          kept := kept + [a.path];
        } else {
          changed := changed + [a];
        }
        i := i + 1;
      }
      assert artifacts[..i] == artifacts;
      r := Ok((kept, changed));
    }

    lemma RefusalFor(artifacts: seq<Artifact>, a: Artifact, policy: Policy, r: Result<bool>)
      requires a in artifacts && r.Err? && (r == Answer(json, nodes, a, policy) || r == Err(Io))
      ensures RefusalIsRight(json, nodes, artifacts, policy, r.error)
    {
    }

    lemma Repeated(artifacts: seq<Artifact>, i: nat)
      requires i < |artifacts| && artifacts[i].path in Paths(artifacts[..i])
      ensures !Distinct(Paths(artifacts))
    {
      var j :| 0 <= j < i && Paths(artifacts[..i])[j] == artifacts[i].path;
      assert Paths(artifacts)[j] == Paths(artifacts)[i];
    }

    lemma NothingSorted(json: string -> bool, nodes: Nodes, policy: Policy)
      ensures Sorted([], [], []) && Seen(json, nodes, [], [], policy)
    {
    }

    method StageAll(changed: seq<Artifact>) returns (ok: bool)
      modifies this`nodes, this`clock, this`made
      ensures clock >= old(clock)
      ensures old(Calm()) ==> Calm() && Grown(old(nodes), nodes, changed) && (ok ==> forall c | c in changed :: Housed(nodes, c.path))
      ensures faults == {} && old(Calm()) && (forall c | c in changed :: Usable(old(nodes), c.path)) ==> ok
    {
      var i := 0;
      while i < |changed|
        invariant i <= |changed| && clock >= old(clock)
        invariant old(Calm()) ==> Calm() && Grown(old(nodes), nodes, changed)
        invariant old(Calm()) ==> forall j | 0 <= j < i :: Housed(nodes, changed[j].path)
      {
        ghost var before := nodes;
        if old(Calm()) && Usable(old(nodes), changed[i].path) {
          StillUsable(old(nodes), before, changed, changed[i].path);
        }
        ok := Stage(changed[i]);
        if old(Calm()) {
          GrownStays(old(nodes), before, nodes, changed, i);
          StillHoused(before, nodes, [changed[i]], changed[..i]);
        }
        if !ok {
          return;
        }
        i := i + 1;
      }
      ok := true;
    }

    lemma NothingPlaced(nodes: Nodes, kept: seq<Path>, policy: Policy, found: seq<Standing>)
      ensures Reported([], kept, Report([], kept), []) && Placed(json, nodes, nodes, [], [], policy)
      ensures Standings(policy, found, [], found)
    {
    }

    /** Other files replaced meanwhile change nothing for one not yet reached. */
    lemma SameAnswer(start: Nodes, done: seq<Artifact>, wrote: seq<Artifact>, a: Artifact, policy: Policy)
      requires Placed(json, start, nodes, done, wrote, policy) && Distinct(Paths(wrote)) && a.path !in Paths(wrote)
      ensures Answer(json, nodes, a, policy) == Answer(json, start, a, policy)
    {
      ReplacedAt(start, wrote, a.path);
      hide OwnsAny;
    }

    lemma PlaceMeans(start: Nodes, done: seq<Artifact>, wrote: seq<Artifact>, policy: Policy)
      requires Placed(json, start, nodes, done, wrote, policy)
      ensures nodes == Replaced(start, wrote) && forall a | a in done :: Holds(nodes, a)
    {
    }

    lemma NoDirectory(a: Artifact, policy: Policy)
      ensures Answer(json, nodes, a, policy) == Ok(false) && a.path in nodes ==> nodes[a.path].File?
    {
    }

    /** Ownership is checked again after staging, as another writer may have changed the target; `true` is up to date. */
    method ReplaceOne(a: Artifact, policy: Policy) returns (step: Result<bool>)
      modifies this`nodes, this`clock, this`log, this`stood
      ensures log == if step == Ok(false) then old(log) + [a] else old(log)
      ensures if step == Ok(false) then OneMore(a, policy, old(stood), stood) else stood == old(stood)
      ensures old(Calm()) ==> Calm() && nodes == if step == Ok(false) then old(nodes)[a.path := File(a.bytes)] else old(nodes)
      ensures old(Calm()) && step.Ok? ==> step == Answer(json, old(nodes), a, policy)
      ensures faults == {} && old(Calm()) && Answer(json, old(nodes), a, policy).Ok? ==> step.Ok?
    {
      NoDirectory(a, policy);
      hide Answer;
      var current := Current(a, policy);
      if current.Err? || current.value {
        return current;
      }
      var ok := Persist(a);
      step := if ok then Ok(false) else Err(Io);
    }

    /** The last phase. Other writers may have changed anything before it. */
    method Replace(changed: seq<Artifact>, kept: seq<Path>, policy: Policy)
      returns (r: Result<Report>, ghost wrote: seq<Artifact>)
      requires Distinct(Paths(changed))
      modifies this`nodes, this`clock, this`log, this`stood
      ensures log == old(log) + wrote && Distinct(Paths(wrote)) && forall a | a in wrote :: a in changed
      ensures Standings(policy, old(stood), wrote, stood)
      ensures match r
              case Ok(report) => report.written == Paths(wrote) && Accounted(changed, kept, report)
              case Err(error) => error.Partial? && error.written == Paths(wrote)
      ensures old(Calm()) ==> nodes == Replaced(old(nodes), wrote)
      ensures old(Calm()) && r.Ok? ==> forall a | a in changed :: Holds(nodes, a)
      ensures faults == {} && old(Calm()) && AllAnswered(json, old(nodes), changed, policy) ==> r.Ok?
      ensures old(Calm()) && policy == Write(false) ==>
                forall a | a in changed && UserFile(json, old(nodes), a) :: r.Err? && a.path !in Paths(wrote)
    {
      hide Answer, UserFile, Accounted, Reported, Placed, OneMore, Standings, Replaced, Distinct, Holds, OwnsAny, Owns, Found, Patched, Paths;
      wrote := [];
      var report := Report([], kept);
      NothingPlaced(old(nodes), kept, policy, stood);
      var i := 0;
      while i < |changed|
        invariant i <= |changed| && log == old(log) + wrote && Reported(changed[..i], kept, report, wrote)
        invariant Standings(policy, old(stood), wrote, stood)
        invariant old(Calm()) ==> Calm() && Placed(json, old(nodes), nodes, changed[..i], wrote, policy)
      {
        Stops(old(nodes), changed, i, kept, report, wrote, policy);
        var failed;
        failed, report, wrote := ReplaceNext(changed, i, kept, policy, report, wrote, old(Calm()), old(nodes), old(stood));
        if failed.Some? {
          return Err(Partial(report.written, failed.value)), wrote;
        }
        i := i + 1;
      }
      assert changed[..i] == changed;
      Stops(old(nodes), changed, i, kept, report, wrote, policy);
      r := Ok(report);
    }

    /** What is known wherever the loop stops. */
    lemma Stops(start: Nodes, changed: seq<Artifact>, i: nat, kept: seq<Path>, report: Report, wrote: seq<Artifact>, policy: Policy)
      requires i <= |changed| && Distinct(Paths(changed)) && Reported(changed[..i], kept, report, wrote)
      ensures report.written == Paths(wrote) && Distinct(Paths(wrote)) && Accounted(changed[..i], kept, report)
      ensures forall a | a in wrote :: a in changed
      ensures Placed(json, start, nodes, changed[..i], wrote, policy) ==> nodes == Replaced(start, wrote)
      ensures Placed(json, start, nodes, changed[..i], wrote, policy) ==> forall a | a in changed[..i] :: Holds(nodes, a)
      ensures Placed(json, start, nodes, changed[..i], wrote, policy) && policy == Write(false) ==>
                forall a | a in changed && UserFile(json, start, a) :: i < |changed| && a.path !in Paths(wrote)
    {
      hide UserFile, Accounted, Reported, Placed, Replaced, Distinct, Holds, Paths;
      ReportMeans(changed, i, kept, report, wrote);
      if Placed(json, start, nodes, changed[..i], wrote, policy) {
        PlaceMeans(start, changed[..i], wrote, policy);
        if policy == Write(false) {
          UsersRespected(json, start, nodes, changed, i, wrote);
        }
      }
    }

    /** The next destination replaced, kept as it is, or in the way. */
    method ReplaceNext(changed: seq<Artifact>, i: nat, kept: seq<Path>, policy: Policy, before: Report,
                       ghost wrote: seq<Artifact>, ghost calm: bool, ghost start: Nodes, ghost found: seq<Standing>)
      returns (failed: Option<Error>, report: Report, ghost written: seq<Artifact>)
      requires i < |changed| && Distinct(Paths(changed)) && Reported(changed[..i], kept, before, wrote)
      requires Standings(policy, found, wrote, stood)
      requires calm ==> Calm() && Placed(json, start, nodes, changed[..i], wrote, policy)
      modifies this`nodes, this`clock, this`log, this`stood
      ensures written == wrote || written == wrote + [changed[i]]
      ensures log == old(log) + written[|wrote|..] && Standings(policy, found, written, stood)
      ensures if failed.None? then Reported(changed[..i + 1], kept, report, written) else report == before && written == wrote
      ensures calm ==> Calm()
      ensures calm && failed.None? ==> Placed(json, start, nodes, changed[..i + 1], written, policy)
      ensures calm && failed.Some? ==> nodes == old(nodes)
      ensures faults == {} && calm && Answer(json, start, changed[i], policy).Ok? ==> failed.None?
    {
      hide Answer, UserFile, Accounted, Reported, Placed, OneMore, Standings, Replaced, Distinct, Holds, OwnsAny, Owns, Found, Patched, Paths;
      var a := changed[i];
      ReportMeans(changed, i, kept, before, wrote);
      ReportOne(changed, i, kept, before, wrote);
      if calm {
        SameAnswer(start, changed[..i], wrote, a, policy);
      }
      var step := ReplaceOne(a, policy);
      if step.Err? {
        return Some(step.error), before, wrote;
      }
      if calm {
        PlaceOne(json, start, old(nodes), changed[..i], wrote, a, policy);
      }
      if step.value {
        return None, before.(kept := before.kept + [a.path]), wrote;
      }
      StandOne(policy, found, wrote, a, old(stood), stood);
      return None, before.(written := before.written + [a.path]), wrote + [a];
    }

    lemma NothingDone(artifacts: seq<Artifact>, policy: Policy)
      ensures Standings(policy, stood, [], stood) && OnlyWritten(nodes, nodes, [], artifacts)
      ensures forall error: Error | !error.UserOwned? :: RefusalIsRight(json, nodes, artifacts, policy, error)
    {
    }

    method Publish(artifacts: seq<Artifact>, policy: Policy)
      returns (r: Result<Report>, ghost wrote: seq<Artifact>)
      modifies this
      ensures log == old(log) + wrote && forall a | a in wrote :: a in artifacts
      ensures match r
              case Ok(report) =>
                && report.written == Paths(wrote) && |report.written| + |report.kept| == |artifacts|
                && forall a | a in artifacts :: (a.path in report.written) != (a.path in report.kept)
              case Err(Partial(written, _)) => written == Paths(wrote)
              case Err(_) => wrote == []
      ensures Standings(policy, old(stood), wrote, stood)
      ensures r.Ok? || wrote != [] ==> Marked(json, artifacts)
      // Nothing in the way and nothing failing is success.
      ensures faults == {} && old(Calm()) && policy.Write? && Ready(json, old(nodes), artifacts, policy) ==> r.Ok?
      ensures policy.Check? ==> wrote == [] && made == old(made)
      ensures old(Calm()) && r.Err? ==> RefusalIsRight(json, old(nodes), artifacts, policy, r.error)
      ensures old(Calm()) ==> OnlyWritten(old(nodes), nodes, wrote, artifacts)
      ensures old(Calm()) && policy.Check? ==> nodes == old(nodes)
      ensures old(Calm()) && r.Ok? ==> forall a | a in artifacts :: Holds(nodes, a)
      ensures old(Calm()) && r.Err? && r.error.Stale? ==> forall a | a in artifacts :: a.path in r.error.paths <==> !Holds(nodes, a)
      ensures old(Calm()) && policy == Write(false) ==>
                forall a | a in artifacts && UserFile(json, old(nodes), a) :: r.Err? && a !in wrote
    {
      NothingDone(artifacts, policy);
      hide Accounted, Answer, Owns, OwnsAny, Grown, Standings, OnlyWritten, RefusalIsRight, Housed;
      wrote := [];
      var sorted := Preflight(artifacts, policy);
      if sorted.Err? {
        return Err(sorted.error), wrote;
      }
      var (kept, changed) := sorted.value;
      if policy.Check? {
        if changed == [] {
          return Ok(Report([], kept)), wrote;
        }
        return Err(Stale(Paths(changed))), wrote;
      }
      ghost var before := nodes;
      var staged := StageAll(changed);
      if !staged {
        if old(Calm()) {
          GrownThenReplaced(before, nodes, wrote, changed, artifacts);
        }
        return Err(Io), wrote;
      }
      ghost var ready := nodes;
      if old(Calm()) && Ready(json, before, artifacts, policy) {
        StillAnswered(json, before, ready, changed, artifacts, policy);
      }
      r, wrote := Replace(changed, kept, policy);
      if old(Calm()) {
        GrownThenReplaced(before, ready, wrote, changed, artifacts);
      }
      if r.Ok? {
        AllAccounted(artifacts, kept, changed, r.value);
      }
    }
  }
}
