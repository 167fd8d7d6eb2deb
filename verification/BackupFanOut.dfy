/** "Run backup now" for a job that lists VMIDs: `_fan_out_run` of `backend/routers/backup_jobs.py`
    groups them by hosting node, one task a node; `_job_covers_vmid` of `backend/routers/cluster.py`
    says which guests a job covers. */
module BackupFanOut {
  import opened Text

  /** One entry of the cluster resource list. */
  datatype Resource = Resource(vmid: Option<nat>, node: Option<string>)

  predicate Hosted(r: Resource) { r.vmid.Some? && r.vmid.value != 0 && r.node.Some? && r.node.value != "" }

  /** The `vmid_to_node` dictionary: later entries win. */
  function HostMap(resources: seq<Resource>): map<string, string>
  {
    if resources == [] then map[]
    else
      var m, r := HostMap(resources[..|resources| - 1]), resources[|resources| - 1];
      if Hosted(r) then m[Decimal(r.vmid.value) := r.node.value] else m
  }

  /** Resource `i` names a node and has this VMID, other than zero. */
  predicate Hosts(resources: seq<Resource>, i: nat, v: string)
  {
    && i < |resources| && resources[i].node.Some? && resources[i].node.value != ""
    && resources[i].vmid.Some? && resources[i].vmid.value != 0 && Decimal(resources[i].vmid.value) == v
  }

  /** Resource `i` is the last such one. */
  ghost predicate LastHost(resources: seq<Resource>, i: nat, v: string)
  {
    Hosts(resources, i, v) && forall j :: i < j < |resources| ==> !Hosts(resources, j, v)
  }

  lemma {:induction false} KnownHasHost(resources: seq<Resource>, v: string) returns (i: nat)
    requires v in HostMap(resources)
    ensures LastHost(resources, i, v) && HostMap(resources)[v] == resources[i].node.value
  {
    var n := |resources|;
    if Hosts(resources, n - 1, v) {
      i := n - 1;
    } else {
      i := KnownHasHost(resources[..n - 1], v);
      assert forall j :: 0 <= j < n - 1 ==> resources[..n - 1][j] == resources[j];
      assert forall j :: 0 <= j < n - 1 ==> (Hosts(resources[..n - 1], j, v) <==> Hosts(resources, j, v));
    }
  }

  lemma {:induction false} HostIsKnown(resources: seq<Resource>, i: nat, v: string)
    requires Hosts(resources, i, v)
    ensures v in HostMap(resources)
  {
    if i < |resources| - 1 { HostIsKnown(resources[..|resources| - 1], i, v); }
  }

  /** A VMID is known exactly when a hosted resource has it, and its host is that of the last one. */
  lemma HostIsLast(resources: seq<Resource>, v: string)
    ensures v in HostMap(resources) <==> exists i: nat :: Hosts(resources, i, v)
    ensures v in HostMap(resources) ==>
              exists i: nat :: LastHost(resources, i, v) && HostMap(resources)[v] == resources[i].node.value
  {
    if v in HostMap(resources) {
      var i := KnownHasHost(resources, v);
      assert Hosts(resources, i, v);
    }
    if i: nat :| Hosts(resources, i, v) { HostIsKnown(resources, i, v); }
  }

  function NonEmpty(parts: seq<string>): seq<string>
  {
    if parts == [] then []
    else if parts[0] == "" then NonEmpty(parts[1..])
    else [parts[0]] + NonEmpty(parts[1..])
  }

  function Requested(vmid: string): seq<string> { NonEmpty(Stripped(Split(vmid, ','))) }

  lemma {:induction false} NonEmptyConcat(a: seq<string>, b: seq<string>)
    ensures NonEmpty(a + b) == NonEmpty(a) + NonEmpty(b)
  {
    if a == [] {
      assert a + b == b;
    } else {
      assert (a + b)[1..] == a[1..] + b;
      NonEmptyConcat(a[1..], b);
    }
  }

  /** What a `vmid` text requests: a comma separates requests … */
  lemma RequestedAroundComma(a: string, b: string)
    ensures Requested(a + [','] + b) == Requested(a) + Requested(b)
  {
    var xs, ys := Split(a, ','), Split(b, ',');
    SplitAround(a, b, ',');
    assert Stripped(xs + ys) == Stripped(xs) + Stripped(ys);
    NonEmptyConcat(Stripped(xs), Stripped(ys));
  }

  /** … and a text without one requests itself, stripped, unless it is blank. */
  lemma RequestedAlone(a: string)
    requires ',' !in a
    ensures Requested(a) == if Strip(a) == "" then [] else [Strip(a)]
  {
    SplitOfFree(a, ',');
    assert Stripped([a]) == [Strip(a)];
    var one := [Strip(a)];
    assert one[1..] == [] && NonEmpty(one[1..]) == [];
    assert Requested(a) == NonEmpty(one);
  }

  // ── grouping ───────────────────────────────────────────────────────────────

  /** The requested VMIDs that live on `node`, in order and with repetitions. */
  function OnNode(requested: seq<string>, hosts: map<string, string>, node: string): seq<string>
  {
    if requested == [] then []
    else
      var rest, v := OnNode(requested[..|requested| - 1], hosts, node), requested[|requested| - 1];
      if v in hosts && hosts[v] == node then rest + [v] else rest
  }

  function Unknown(requested: seq<string>, hosts: map<string, string>): seq<string>
  {
    if requested == [] then []
    else
      var rest, v := Unknown(requested[..|requested| - 1], hosts), requested[|requested| - 1];
      if v in hosts then rest else rest + [v]
  }

  /** A Python dictionary of lists: its keys in insertion order, and the lists. */
  datatype Groups = Groups(nodes: seq<string>, vmids: map<string, seq<string>>)

  /** The hosting nodes, in the order in which the request first comes to them. */
  function NodesInOrder(requested: seq<string>, hosts: map<string, string>): seq<string>
  {
    if requested == [] then []
    else
      var rest, v := NodesInOrder(requested[..|requested| - 1], hosts), requested[|requested| - 1];
      if v in hosts && hosts[v] !in rest then rest + [hosts[v]] else rest
  }

  lemma {:induction false} EarlierNodesFirst(a: seq<string>, b: seq<string>, hosts: map<string, string>)
    ensures NodesInOrder(a, hosts) <= NodesInOrder(a + b, hosts)
  {
    if b == [] {
      assert a + b == a;
    } else {
      assert (a + b)[..|a + b| - 1] == a + b[..|b| - 1];
      EarlierNodesFirst(a, b[..|b| - 1], hosts);
    }
  }

  /** Exactly the hosting nodes of the requested VMIDs, once each and in the order of the request, each
      with its own VMIDs. */
  ghost predicate GroupsByNode(requested: seq<string>, hosts: map<string, string>, g: Groups)
  {
    && g.nodes == NodesInOrder(requested, hosts)
    && (forall i, j :: 0 <= i < j < |g.nodes| ==> g.nodes[i] != g.nodes[j])
    && (forall n :: n in g.nodes <==> n in g.vmids)
    && (forall n :: n in g.vmids ==> g.vmids[n] == OnNode(requested, hosts, n) && g.vmids[n] != [])
    && (forall n :: n !in g.vmids ==> OnNode(requested, hosts, n) == [])
  }

  /** `node_to_vmids.setdefault(node, []).append(v)`. */
  function Added(g: Groups, node: string, v: string): Groups
  {
    if node in g.vmids then g.(vmids := g.vmids[node := g.vmids[node] + [v]])
    else Groups(g.nodes + [node], g.vmids[node := [v]])
  }

  lemma OnNodeAppend(before: seq<string>, v: string, hosts: map<string, string>, node: string)
    ensures OnNode(before + [v], hosts, node) == OnNode(before, hosts, node) + if v in hosts && hosts[v] == node then [v] else []
  {
    assert (before + [v])[..|before|] == before;
  }

  lemma NodesInOrderAppend(before: seq<string>, v: string, hosts: map<string, string>)
    ensures var rest := NodesInOrder(before, hosts);
            NodesInOrder(before + [v], hosts) == if v in hosts && hosts[v] !in rest then rest + [hosts[v]] else rest
  {
    assert (before + [v])[..|before|] == before;
  }

  lemma AddingKeepsGroups(before: seq<string>, v: string, hosts: map<string, string>, g: Groups)
    requires GroupsByNode(before, hosts, g)
    ensures v in hosts ==> GroupsByNode(before + [v], hosts, Added(g, hosts[v], v))
    ensures v !in hosts ==> GroupsByNode(before + [v], hosts, g)
  {
    NodesInOrderAppend(before, v, hosts);
    forall n ensures OnNode(before + [v], hosts, n) == OnNode(before, hosts, n) + if v in hosts && hosts[v] == n then [v] else [] {
      OnNodeAppend(before, v, hosts, n);
    }
  }

  /** The grouping loop. */
  method GroupByNode(requested: seq<string>, hosts: map<string, string>) returns (g: Groups)
    requires forall v :: v in hosts ==> hosts[v] != ""
    ensures GroupsByNode(requested, hosts, g)
  {
    g := Groups([], map[]);
    for k := 0 to |requested|
      invariant GroupsByNode(requested[..k], hosts, g)
    {
      var v := requested[k];
      assert requested[..k + 1] == requested[..k] + [v];
      AddingKeepsGroups(requested[..k], v, hosts, g);
      if v in hosts && hosts[v] != "" { g := Added(g, hosts[v], v); }
    }
    assert requested[..|requested|] == requested;
  }

  // ── conservation ───────────────────────────────────────────────────────────

  lemma {:induction false} OnNodeCount(requested: seq<string>, hosts: map<string, string>, node: string, v: string)
    ensures multiset(OnNode(requested, hosts, node))[v] == if v in hosts && hosts[v] == node then multiset(requested)[v] else 0
  {
    if requested != [] {
      assert requested == requested[..|requested| - 1] + [requested[|requested| - 1]];
      OnNodeCount(requested[..|requested| - 1], hosts, node, v);
    }
  }

  lemma {:induction false} UnknownCount(requested: seq<string>, hosts: map<string, string>, v: string)
    ensures multiset(Unknown(requested, hosts))[v] == if v in hosts then 0 else multiset(requested)[v]
  {
    if requested != [] {
      assert requested == requested[..|requested| - 1] + [requested[|requested| - 1]];
      UnknownCount(requested[..|requested| - 1], hosts, v);
    }
  }

  /** All VMIDs of the first groups together. */
  function Grouped(g: Groups, n: nat): multiset<string>
    requires n <= |g.nodes| && forall i :: 0 <= i < |g.nodes| ==> g.nodes[i] in g.vmids
  {
    if n == 0 then multiset{} else Grouped(g, n - 1) + multiset(g.vmids[g.nodes[n - 1]])
  }

  lemma {:induction false} GroupedCount(requested: seq<string>, hosts: map<string, string>, g: Groups, n: nat, v: string)
    requires GroupsByNode(requested, hosts, g) && n <= |g.nodes|
    ensures Grouped(g, n)[v] == if v in hosts && hosts[v] in g.nodes[..n] then multiset(requested)[v] else 0
  {
    if n > 0 {
      GroupedCount(requested, hosts, g, n - 1, v);
      GroupCount(requested, hosts, g, n, v);
    }
  }

  lemma GroupCount(requested: seq<string>, hosts: map<string, string>, g: Groups, n: nat, v: string)
    requires GroupsByNode(requested, hosts, g) && 0 < n <= |g.nodes|
    ensures var node := g.nodes[n - 1];
            && multiset(g.vmids[node])[v] == (if v in hosts && hosts[v] == node then multiset(requested)[v] else 0)
            && node !in g.nodes[..n - 1] && g.nodes[..n] == g.nodes[..n - 1] + [node]
  {
    OnNodeCount(requested, hosts, g.nodes[n - 1], v);
  }

  /** Requested = grouped + unknown, with multiplicities: no VMID is lost, invented or sent twice. */
  lemma GroupsPartitionRequest(requested: seq<string>, hosts: map<string, string>, g: Groups)
    requires GroupsByNode(requested, hosts, g)
    ensures multiset(requested) == Grouped(g, |g.nodes|) + multiset(Unknown(requested, hosts))
  {
    forall v ensures multiset(requested)[v] == (Grouped(g, |g.nodes|) + multiset(Unknown(requested, hosts)))[v] {
      GroupedCount(requested, hosts, g, |g.nodes|, v);
      UnknownCount(requested, hosts, v);
      assert g.nodes[..|g.nodes|] == g.nodes;
      if v in hosts && hosts[v] !in g.nodes { OnNodeCount(requested, hosts, hosts[v], v); }
    }
  }

  // ── the run ────────────────────────────────────────────────────────────────

  datatype Task = Task(node: string, upid: string)

  datatype RunResult = Tasks(tasks: seq<Task>) | RequestFailed

  /** What starting the backups of the first groups yields: failed requests are logged and skipped. */
  function Started(g: Groups, n: nat, run: (string, string) -> Option<string>): seq<Task>
    requires n <= |g.nodes| && forall i :: 0 <= i < |g.nodes| ==> g.nodes[i] in g.vmids
  {
    if n == 0 then []
    else
      var node := g.nodes[n - 1];
      var upid := run(node, Join(g.vmids[node], ','));
      Started(g, n - 1, run) + if upid.Some? then [Task(node, upid.value)] else []
  }

  /** A task is started for exactly the nodes whose request succeeded, with the text of their group. */
  lemma {:induction false} StartedAre(g: Groups, n: nat, run: (string, string) -> Option<string>, t: Task)
    requires n <= |g.nodes| && forall i :: 0 <= i < |g.nodes| ==> g.nodes[i] in g.vmids
    ensures t in Started(g, n, run) <==>
            t.node in g.nodes[..n] && run(t.node, Join(g.vmids[t.node], ',')) == Some(t.upid)
  {
    if n > 0 {
      StartedAre(g, n - 1, run, t);
      assert g.nodes[..n] == g.nodes[..n - 1] + [g.nodes[n - 1]];
    }
  }

  method StartBackups(g: Groups, run: (string, string) -> Option<string>) returns (tasks: seq<Task>)
    requires forall i :: 0 <= i < |g.nodes| ==> g.nodes[i] in g.vmids
    ensures tasks == Started(g, |g.nodes|, run)
  {
    tasks := [];
    for i := 0 to |g.nodes|
      invariant tasks == Started(g, i, run)
    {
      var node := g.nodes[i];
      var upid := run(node, Join(g.vmids[node], ','));
      if upid.Some? { tasks := tasks + [Task(node, upid.value)]; }
    }
  }

  /** The VMID branch of `_fan_out_run`.  `run` is the vzdump request for a node and a `vmid` text,
      `resources` the cluster read (`None` if it raises), `fallbackNode` the node looked up then. */
  method FanOutRun(vmid: string, resources: Option<seq<Resource>>, fallbackNode: Option<string>,
                   run: (string, string) -> Option<string>) returns (result: RunResult, g: Groups)
    requires vmid != ""
    ensures Requested(vmid) == [] ==> result == Tasks([])
    ensures Requested(vmid) != [] && resources.Some? ==>
      && GroupsByNode(Requested(vmid), HostMap(resources.value), g)
      && result == Tasks(Started(g, |g.nodes|, run))
    ensures Requested(vmid) != [] && resources.None? ==>
      var node := if fallbackNode.Some? then fallbackNode.value else vmid;
      result == if run(node, vmid).Some? then Tasks([Task(node, run(node, vmid).value)]) else RequestFailed
  {
    g := Groups([], map[]);
    var requested := Requested(vmid);
    if requested == [] { return Tasks([]), g; }
    if resources.None? {
      var node := if fallbackNode.Some? then fallbackNode.value else vmid;
      var upid := run(node, vmid);
      result := if upid.Some? then Tasks([Task(node, upid.value)]) else RequestFailed;
      return;
    }
    HostsAreNamed(resources.value);
    g := GroupByNode(requested, HostMap(resources.value));
    var tasks := StartBackups(g, run);
    result := Tasks(tasks);
  }

  lemma {:induction false} HostsAreNamed(resources: seq<Resource>)
    ensures forall v :: v in HostMap(resources) ==> HostMap(resources)[v] != ""
  {
    if resources != [] { HostsAreNamed(resources[..|resources| - 1]); }
  }

  /** The text sent to a node spells exactly that node's VMIDs. */
  lemma SentTextSpellsGroup(vmid: string, hosts: map<string, string>, g: Groups, node: string)
    requires GroupsByNode(Requested(vmid), hosts, g) && node in g.vmids
    ensures Requested(Join(g.vmids[node], ',')) == g.vmids[node]
  {
    var vs := g.vmids[node];
    RequestedAreClean(vmid);
    OnNodeFrom(Requested(vmid), hosts, node);
    forall i | 0 <= i < |vs| ensures Clean(vs[i]) { assert vs[i] in Requested(vmid); }
    CleanRequest(vs);
  }

  predicate Clean(v: string) { v != "" && Strip(v) == v && ',' !in v }

  lemma RequestedAreClean(vmid: string)
    ensures forall v :: v in Requested(vmid) ==> Clean(v)
  {
    var parts := Split(vmid, ',');
    SplitPartsFree(vmid, ',');
    forall v | v in Requested(vmid) ensures Clean(v) {
      NonEmptyMembers(Stripped(parts), v);
      var i :| 0 <= i < |parts| && Stripped(parts)[i] == v;
      StrippedIsClean(parts[i]);
    }
  }

  lemma StrippedIsClean(part: string)
    requires ',' !in part && Strip(part) != ""
    ensures Clean(Strip(part))
  {
    StripIsTrimmed(part);
    StripTrimmed(Strip(part));
    StripKeeps(part, ',');
  }

  lemma CleanRequest(vs: seq<string>)
    requires vs != [] && forall i :: 0 <= i < |vs| ==> Clean(vs[i])
    ensures Requested(Join(vs, ',')) == vs
  {
    SplitJoin(vs, ',');
    assert Stripped(vs) == vs;
    NonEmptyAll(vs);
  }

  lemma {:induction false} NonEmptyAll(vs: seq<string>)
    requires forall i :: 0 <= i < |vs| ==> vs[i] != ""
    ensures NonEmpty(vs) == vs
  {
    if vs != [] { NonEmptyAll(vs[1..]); }
  }

  lemma {:induction false} OnNodeFrom(requested: seq<string>, hosts: map<string, string>, node: string)
    ensures forall v :: v in OnNode(requested, hosts, node) <==> v in requested && v in hosts && hosts[v] == node
  {
    if requested != [] {
      OnNodeFrom(requested[..|requested| - 1], hosts, node);
      assert requested == requested[..|requested| - 1] + [requested[|requested| - 1]];
    }
  }

  // ── coverage ───────────────────────────────────────────────────────────────

  /** `_job_covers_vmid` for a job whose `vmid` is text (absent is the empty text). */
  predicate JobCovers(raw: string, vmid: nat)
  {
    raw == "" || Strip(raw) == "all" || Decimal(vmid) in Stripped(Split(raw, ','))
  }

  /** A job without a text, or with "all", covers every guest; any other text those it requests. */
  lemma CoversIff(raw: string, vmid: nat)
    ensures JobCovers(raw, vmid) <==> raw == "" || Strip(raw) == "all" || Decimal(vmid) in Requested(raw)
  {
    NonEmptyMembers(Stripped(Split(raw, ',')), Decimal(vmid));
  }

  /** The run sends this guest to some node. */
  ghost predicate Dispatched(g: Groups, vmid: nat)
  {
    exists n :: n in g.vmids && Decimal(vmid) in g.vmids[n]
  }

  lemma {:induction false} NonEmptyMembers(parts: seq<string>, v: string)
    ensures v in NonEmpty(parts) <==> v in parts && v != ""
  {
    if parts != [] { NonEmptyMembers(parts[1..], v); }
  }

  /** For a hosted guest and a non-empty text, being dispatched and being covered agree if and only if
      the text is not "all" up to white space. */
  lemma DispatchedIffCovered(raw: string, hosts: map<string, string>, g: Groups, vmid: nat)
    requires raw != "" && GroupsByNode(Requested(raw), hosts, g) && Decimal(vmid) in hosts
    ensures (Dispatched(g, vmid) <==> JobCovers(raw, vmid)) <==> Strip(raw) != "all"
  {
    var v := Decimal(vmid);
    NonEmptyMembers(Stripped(Split(raw, ',')), v);
    OnNodeFrom(Requested(raw), hosts, hosts[v]);
    assert v in Requested(raw) ==> v in OnNode(Requested(raw), hosts, hosts[v]) && Dispatched(g, vmid);
    if Dispatched(g, vmid) {
      var n :| n in g.vmids && v in g.vmids[n];
      OnNodeFrom(Requested(raw), hosts, n);
    }
    if Strip(raw) == "all" { OnlyAll(raw, v); }
  }

  /** A text that strips to "all" requests no number. */
  lemma OnlyAll(raw: string, v: string)
    requires Strip(raw) == "all" && v != "" && AllDigits(v)
    ensures v !in Requested(raw)
  {
    StripKeeps(raw, ',');
    SplitOfFree(raw, ',');
    assert Stripped([raw]) == ["all"];
    NonEmptyMembers(["all"], v);
    assert IsDigit(v[0]) && !IsDigit("all"[0]);
  }
}
