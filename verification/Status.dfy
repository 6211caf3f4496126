/**
 Per-node status and the Ready condition of a Principal
 (operator/internal/controller/principal_status.go and principal_finalizer.go).
 */
module Status {
  import opened Common
  import opened Events
  import opened EventCache
  import opened Sorting

  const MINUTE := 60 * 1_000_000_000
  const MIN_EVENT_STALENESS := 5 * MINUTE

  datatype NodeStatus = NodeStatus(name: string, daemonPodReady: bool, reason: string, message: string, lastObserved: int)

  datatype TenantHealth = TenantHealth(found: bool, desiredNodes: int, readyNodes: int,
                                       nodes: seq<NodeStatus>, podByNode: map<string, string>)

  /** The two Tenant fields `ResolveStaleness` reads. */
  datatype StalenessSpec = StalenessSpec(threshold: Option<int>, renewMinutes: int)

  /** `ResolveStaleness`. */
  function ResolveStaleness(tenant: Option<StalenessSpec>): (d: int)
    ensures d > 0
    ensures tenant.Some? && tenant.value.threshold.Some? && tenant.value.threshold.value > 0 ==> d == tenant.value.threshold.value
    ensures tenant.None? || tenant.value.threshold.None? || tenant.value.threshold.value <= 0 ==>
              && d >= 300_000_000_000 && (tenant.Some? ==> d >= 120_000_000_000 * tenant.value.renewMinutes)
              && (d == 300_000_000_000 || (tenant.Some? && d == 120_000_000_000 * tenant.value.renewMinutes))
  {
    if tenant.Some? && tenant.value.threshold.Some? && tenant.value.threshold.value > 0 then tenant.value.threshold.value
    else if tenant.Some? && tenant.value.renewMinutes > 0 then
      var derived := 2 * tenant.value.renewMinutes * MINUTE;
      if derived < MIN_EVENT_STALENESS then MIN_EVENT_STALENESS else derived
    else MIN_EVENT_STALENESS
  }

  /** `isFresh`. */
  predicate IsFresh(ts: int, now: int, staleness: int) { ts != ZERO_TIME && ts >= now - staleness }

  /** The observation a node's status is taken from, if there is a fresh one. */
  function FreshObservation(m: Store, pod: string, uid: int, now: int, staleness: int): Option<Observation> {
    var k := Key(pod, uid);
    if k in m && IsFresh(m[k].timestamp, now, staleness) then Some(m[k]) else None
  }

  function Enriched(n: NodeStatus, uid: int, podByNode: map<string, string>, m: Store, now: int, staleness: int): NodeStatus {
    if n.name !in podByNode then n
    else
      match FreshObservation(m, podByNode[n.name], uid, now, staleness)
      case None => n
      case Some(o) => n.(reason := ShortReason(o.reason), message := o.message, lastObserved := o.timestamp)
  }

  predicate NameLe(a: NodeStatus, b: NodeStatus) { StringLe(a.name, b.name) }

  function EnrichedNodes(health: TenantHealth, uid: int, m: Store, now: int, staleness: int): seq<NodeStatus> {
    seq(|health.nodes|, i requires 0 <= i < |health.nodes| =>
      Enriched(health.nodes[i], uid, health.podByNode, m, now, staleness))
  }

  function NodeStatuses(health: TenantHealth, uid: int, m: Store, now: int, staleness: int): seq<NodeStatus> {
    if !health.found then [] else Sort(EnrichedNodes(health, uid, m, now, staleness), NameLe)
  }

  /** `BuildNodeStatuses`; without a cache every node keeps its pod readiness. */
  method BuildNodeStatuses(uid: int, health: TenantHealth, cache: Cache?, now: int, staleness: int) returns (out: seq<NodeStatus>)
    ensures out == NodeStatuses(health, uid, if cache == null then map[] else cache.data, now, staleness)
  {
    if !health.found { return []; }
    ghost var m: Store := if cache == null then map[] else cache.data;
    out := [];
    for i := 0 to |health.nodes|
      invariant out == EnrichedNodes(health, uid, m, now, staleness)[..i]
    {
      var n := health.nodes[i];
      var enriched := n;
      if cache != null && n.name in health.podByNode {
        var o := cache.Lookup(health.podByNode[n.name], uid);
        if o.Some? && IsFresh(o.value.timestamp, now, staleness) {
          enriched := n.(reason := ShortReason(o.value.reason), message := o.value.message, lastObserved := o.value.timestamp);
        }
      }
      out := out + [enriched];
    }
    assert out == EnrichedNodes(health, uid, m, now, staleness);
    out := Sort(out, NameLe);
  }

  /******* Collecting the cache is invisible *******/

  lemma SameFreshSameStatuses(health: TenantHealth, uid: int, a: Store, b: Store, now: int, staleness: int)
    requires forall pod :: FreshObservation(a, pod, uid, now, staleness) == FreshObservation(b, pod, uid, now, staleness)
    ensures NodeStatuses(health, uid, a, now, staleness) == NodeStatuses(health, uid, b, now, staleness)
  {
    assert EnrichedNodes(health, uid, a, now, staleness) == EnrichedNodes(health, uid, b, now, staleness);
  }

  ghost predicate ClockedBy(ops: seq<Op>, now: int) {
    forall i :: 0 <= i < |ops| && ops[i].Gc? ==> ops[i].now <= now
  }

  ghost predicate GcShows(ttl: int, ops: seq<Op>, health: TenantHealth, uid: int, now: int, staleness: int) {
    NodeStatuses(health, uid, Run(ttl, ops), now, staleness) != NodeStatuses(health, uid, Run(ttl, WithoutGc(ops)), now, staleness)
  }

  /**
   As long as statuses use a staleness within the TTL and every collection so far ran at or before
   `now`, no status differs from that of a cache which never collects, whatever was put, evicted and
   collected in between and however late old Events came in.
   */
  lemma GcIsInvisible(ttl: int, ops: seq<Op>, health: TenantHealth, uid: int, now: int, staleness: int)
    requires staleness <= ttl && ClockedBy(ops, now)
    ensures !GcShows(ttl, ops, health, uid, now, staleness)
  {
    GcLags(ttl, ops, now - ttl);
    SameFreshSameStatuses(health, uid, Run(ttl, ops), Run(ttl, WithoutGc(ops)), now, staleness);
  }

  /** With a larger staleness some collection always shows: the bound is the exact one. */
  lemma GcIsVisibleBeyondTtl(ttl: int, now: int, staleness: int)
    requires staleness > ttl && now > staleness
    ensures exists ops, health, uid :: ClockedBy(ops, now) && GcShows(ttl, ops, health, uid, now, staleness)
  {
    var o := Observation(REASON_MINT_SUCCEEDED, "", now - staleness, "p", 1);
    var node := NodeStatus("n", true, "", "", 0);
    var health := TenantHealth(true, 1, 1, [node], map["n" := "p"]);
    var ops := [Put(o), Gc(now)];
    var k := Key("p", 1);
    var first: seq<Op> := [Put(o)];
    var kept: Store := map[k := o];
    assert ops[..1] == first && first[..0] == [];
    assert Run(ttl, []) == map[] && Run(ttl, first) == Stored(map[], o) == kept;
    assert Run(ttl, ops) == NotBefore(kept, now - ttl);
    assert WithoutGc([]) == [] && WithoutGc(first) == first && WithoutGc(ops) == first;
    SingleStatus(node, health, 1, Run(ttl, ops), now, staleness);
    SingleStatus(node, health, 1, kept, now, staleness);
    assert Enriched(node, 1, health.podByNode, kept, now, staleness).reason == "Minted";
    assert ClockedBy(ops, now) && GcShows(ttl, ops, health, 1, now, staleness);
  }

  lemma SingleStatus(node: NodeStatus, health: TenantHealth, uid: int, m: Store, now: int, staleness: int)
    requires health.found && health.nodes == [node]
    ensures NodeStatuses(health, uid, m, now, staleness) == [Enriched(node, uid, health.podByNode, m, now, staleness)]
  {
    var raw, e := EnrichedNodes(health, uid, m, now, staleness), Enriched(node, uid, health.podByNode, m, now, staleness);
    assert raw == [e] && raw[1..] == [];
    assert Sort(raw[1..], NameLe) == [];
  }

  /******* Ready *******/

  /** `nodeMatchesSelector`. */
  predicate NodeMatchesSelector(labels: Labels, selector: Labels) {
    forall k :: k in selector ==> k in labels && labels[k] == selector[k]
  }

  datatype Node = Node(name: string, labels: Labels)

  ghost function Names(nodes: seq<NodeStatus>): set<string> { set n | n in nodes :: n.name }

  ghost predicate DistinctNames(nodes: seq<NodeStatus>) {
    forall i, j :: 0 <= i < j < |nodes| ==> nodes[i].name != nodes[j].name
  }

  /** The nodes a principal is meant for. */
  ghost function Eligible(selector: Labels, nodes: seq<NodeStatus>, cluster: seq<Node>): set<string> {
    if selector == map[] then Names(nodes)
    else set n | n in cluster && NodeMatchesSelector(n.labels, selector) :: n.name
  }

  /** How many statuses are for an eligible node and report a mint. */
  ghost function CountMinted(nodes: seq<NodeStatus>, eligible: set<string>): nat {
    if nodes == [] then 0
    else
      var last := nodes[|nodes| - 1];
      CountMinted(nodes[..|nodes| - 1], eligible) + (if last.name in eligible && last.reason == "Minted" then 1 else 0)
  }

  /** `principalHealth`; None is a failed Node list. */
  method PrincipalHealth(selector: Labels, nodes: seq<NodeStatus>, dsDesired: int, listed: Option<seq<Node>>)
    returns (r: Option<(int, nat)>)
    ensures r.None? <==> selector != map[] && listed.None?
    ensures r.Some? ==>
              var eligible := Eligible(selector, nodes, if listed.Some? then listed.value else []);
              && r.value.0 == (if selector == map[] then dsDesired else |eligible|)
              && r.value.1 == CountMinted(nodes, eligible)
  {
    var eligible: set<string> := {};
    var desired: int;
    if selector == map[] {
      for i := 0 to |nodes|
        invariant eligible == Names(nodes[..i])
      {
        eligible := eligible + {nodes[i].name};
      }
      desired := dsDesired;
      assert nodes[..|nodes|] == nodes;
    } else {
      if listed.None? { return None; }
      var cluster := listed.value;
      for i := 0 to |cluster|
        invariant eligible == Eligible(selector, nodes, cluster[..i])
      {
        if forall k | k in selector :: k in cluster[i].labels && cluster[i].labels[k] == selector[k] {
          eligible := eligible + {cluster[i].name};
        }
      }
      desired := |eligible|;
      assert cluster[..|cluster|] == cluster;
    }
    var ready := 0;
    for i := 0 to |nodes|
      invariant ready == CountMinted(nodes[..i], eligible)
    {
      assert nodes[..i + 1][..i] == nodes[..i];
      if nodes[i].name in eligible && nodes[i].reason == "Minted" { ready := ready + 1; }
    }
    assert nodes[..|nodes|] == nodes;
    r := Some((desired, ready));
  }

  datatype ConditionStatus = ConditionTrue | ConditionFalse | ConditionUnknown

  datatype Condition = Condition(status: ConditionStatus, reason: string)

  /** The Ready condition `publishStatus` writes for the effective counts. */
  function ReadyCondition(disabled: bool, tenantDisabled: bool, desired: int, ready: int, dsDesired: int): Condition {
    if disabled then Condition(ConditionUnknown, "Disabled")
    else if tenantDisabled then Condition(ConditionUnknown, "TenantDisabled")
    else if desired == 0 then
      if dsDesired == 0 then Condition(ConditionUnknown, "NoDaemons") else Condition(ConditionFalse, "NoEligibleNodes")
    else if ready < desired then Condition(ConditionFalse, "SomeDaemonsNotReady")
    else Condition(ConditionTrue, "AllDaemonsReady")
  }

  /** Nodes whose status in `nodes` reports a mint. */
  ghost function MintedNames(nodes: seq<NodeStatus>, eligible: set<string>): set<string> {
    set n | n in nodes && n.name in eligible && n.reason == "Minted" :: n.name
  }

  lemma MintedNamesSnoc(nodes: seq<NodeStatus>, last: NodeStatus, eligible: set<string>)
    ensures MintedNames(nodes + [last], eligible) ==
            MintedNames(nodes, eligible) + (if last.name in eligible && last.reason == "Minted" then {last.name} else {})
  {
  }

  lemma {:induction false} CountIsCardinality(nodes: seq<NodeStatus>, eligible: set<string>)
    requires DistinctNames(nodes)
    ensures CountMinted(nodes, eligible) == |MintedNames(nodes, eligible)|
  {
    if nodes == [] {
      assert MintedNames(nodes, eligible) == {};
    } else {
      var last, pre := nodes[|nodes| - 1], nodes[..|nodes| - 1];
      CountIsCardinality(pre, eligible);
      assert nodes == pre + [last];
      MintedNamesSnoc(pre, last, eligible);
      assert last.name !in MintedNames(pre, eligible);
    }
  }

  lemma SubsetBound(a: set<string>, b: set<string>)
    requires a <= b
    ensures |a| <= |b| && (|a| == |b| ==> a == b)
  {
    assert b == a + (b - a);
    assert |b| == |a| + |b - a|;
  }

  /** With one status per node the count never exceeds the eligible nodes, and reaches them only if all report a mint. */
  lemma MintedBound(nodes: seq<NodeStatus>, eligible: set<string>)
    requires DistinctNames(nodes)
    ensures CountMinted(nodes, eligible) <= |eligible|
    ensures CountMinted(nodes, eligible) == |eligible| ==> MintedNames(nodes, eligible) == eligible
  {
    CountIsCardinality(nodes, eligible);
    SubsetBound(MintedNames(nodes, eligible), eligible);
  }

  lemma EnrichedFrom(health: TenantHealth, uid: int, m: Store, now: int, staleness: int)
    ensures forall s :: s in EnrichedNodes(health, uid, m, now, staleness) ==>
              exists n :: n in health.nodes && s == Enriched(n, uid, health.podByNode, m, now, staleness)
  {
    var raw := EnrichedNodes(health, uid, m, now, staleness);
    forall s | s in raw ensures exists n :: n in health.nodes && s == Enriched(n, uid, health.podByNode, m, now, staleness) {
      var i :| 0 <= i < |raw| && raw[i] == s;
      assert health.nodes[i] in health.nodes;
    }
  }

  lemma StatusesKeepNames(health: TenantHealth, uid: int, m: Store, now: int, staleness: int)
    requires DistinctNames(health.nodes)
    ensures DistinctNames(NodeStatuses(health, uid, m, now, staleness))
    ensures forall s :: s in NodeStatuses(health, uid, m, now, staleness) ==>
              exists n :: n in health.nodes && s == Enriched(n, uid, health.podByNode, m, now, staleness)
  {
    if health.found {
      var raw := EnrichedNodes(health, uid, m, now, staleness);
      NameLeOrders();
      SortSorts(raw, NameLe);
      SortMembers(raw, NameLe);
      EnrichedFrom(health, uid, m, now, staleness);
      SortKeepsDistinct(raw);
    }
  }

  lemma NameLeOrders()
    ensures TotalPreorder(NameLe)
  {
    StringLeOrders();
    forall a, b ensures NameLe(a, b) || NameLe(b, a) { StringLeTotal(a.name, b.name); }
    forall a, b, c | NameLe(a, b) && NameLe(b, c) ensures NameLe(a, c) { StringLeTransitive(a.name, b.name, c.name); }
  }

  lemma SortKeepsDistinct(s: seq<NodeStatus>)
    requires DistinctNames(s)
    ensures DistinctNames(Sort(s, NameLe))
  {
    NameLeOrders();
    SortDistinct(s, NameLe);
    SortMembers(s, NameLe);
    var out := Sort(s, NameLe);
    forall i, j | 0 <= i < j < |out| ensures out[i].name != out[j].name {
      assert out[i] in s && out[j] in s;
    }
  }

  /** The cache holds a fresh successful mint of `uid` by the pod of node `name`. */
  /** The cache has a successful mint by the node's pod, not older than the staleness. */
  ghost predicate FreshMint(m: Store, podByNode: map<string, string>, name: string, uid: int, now: int, staleness: int) {
    && name in podByNode && Key(podByNode[name], uid) in m
    && var o := m[Key(podByNode[name], uid)];
       o.reason == "KerberosMintSucceeded" && o.timestamp != ZERO_TIME && now - o.timestamp <= staleness
  }

  lemma MintedMeansFreshMint(health: TenantHealth, uid: int, m: Store, now: int, staleness: int, s: NodeStatus)
    requires DistinctNames(health.nodes)
    requires forall n :: n in health.nodes ==> n.reason != "Minted"
    requires forall k :: k in m ==> m[k].reason in KNOWN_REASONS
    requires s in NodeStatuses(health, uid, m, now, staleness) && s.reason == "Minted"
    ensures FreshMint(m, health.podByNode, s.name, uid, now, staleness)
  {
    StatusesKeepNames(health, uid, m, now, staleness);
  }

  /** Fresh successful mints are where they should be. */
  ghost predicate Honest(selector: Labels, health: TenantHealth, uid: int, m: Store, now: int, staleness: int, cluster: seq<Node>, desired: int) {
    && (selector != map[] ==>
          forall n :: n in cluster && NodeMatchesSelector(n.labels, selector) ==>
            FreshMint(m, health.podByNode, n.name, uid, now, staleness))
    && exists names: set<string> :: |names| >= desired &&
         forall name :: name in names ==> FreshMint(m, health.podByNode, name, uid, now, staleness)
  }

  /** When Ready is True, when it is Unknown, and which reason it has. */
  lemma ReadyConditionMeans(disabled: bool, tenantDisabled: bool, desired: int, ready: int, dsDesired: int)
    ensures var c, quiet := ReadyCondition(disabled, tenantDisabled, desired, ready, dsDesired), disabled || tenantDisabled;
            && (c.status == ConditionTrue <==> !quiet && 0 != desired <= ready)
            && (c.status == ConditionUnknown <==> quiet || (desired == 0 && dsDesired == 0))
            && (c.reason == "Disabled" <==> disabled)
            && (c.reason == "TenantDisabled" <==> !disabled && tenantDisabled)
            && (c.reason == "NoDaemons" <==> !quiet && desired == 0 && dsDesired == 0)
            && (c.reason == "NoEligibleNodes" <==> !quiet && desired == 0 && dsDesired != 0)
            && (c.reason == "SomeDaemonsNotReady" <==> !quiet && desired != 0 && ready < desired)
            && (c.reason == "AllDaemonsReady" <==> c.status == ConditionTrue)
  {
  }

  /** The counts that `principalHealth` takes from the node statuses. */
  ghost predicate Counts(selector: Labels, health: TenantHealth, uid: int, m: Store, now: int, staleness: int, cluster: seq<Node>,
                         desired: int, ready: nat)
  {
    var nodes := NodeStatuses(health, uid, m, now, staleness);
    var eligible := Eligible(selector, nodes, cluster);
    desired == (if selector == map[] then health.desiredNodes else |eligible|) && ready == CountMinted(nodes, eligible)
  }

  /** One pod per node, and no pod condition itself spelled "Minted". */
  ghost predicate Plain(health: TenantHealth) {
    DistinctNames(health.nodes) && forall n :: n in health.nodes ==> n.reason != "Minted"
  }

  /**
   Ready=True is honest. Whenever the counts of `principalHealth` give it:
   for a principal with a selector, every node matching it has a fresh successful mint;
   for one without, at least as many nodes have one as the DaemonSet wants pods.
   */
  lemma ReadyIsHonest(selector: Labels, health: TenantHealth, uid: int, m: Store, now: int, staleness: int,
                      cluster: seq<Node>, disabled: bool, tenantDisabled: bool, desired: int, ready: nat)
    requires Plain(health) && (forall k :: k in m ==> m[k].reason in KNOWN_REASONS)
    requires Counts(selector, health, uid, m, now, staleness, cluster, desired, ready)
    requires ReadyCondition(disabled, tenantDisabled, desired, ready, health.desiredNodes).status == ConditionTrue
    ensures Honest(selector, health, uid, m, now, staleness, cluster, desired)
  {
    var nodes := NodeStatuses(health, uid, m, now, staleness);
    var eligible := Eligible(selector, nodes, cluster);
    StatusesKeepNames(health, uid, m, now, staleness);
    MintedBound(nodes, eligible);
    CountIsCardinality(nodes, eligible);
    ReadyConditionMeans(disabled, tenantDisabled, desired, ready, health.desiredNodes);
    var names := MintedNames(nodes, eligible);
    forall name | name in names ensures FreshMint(m, health.podByNode, name, uid, now, staleness) {
      var s :| s in nodes && s.name in eligible && s.reason == "Minted" && s.name == name;
      MintedMeansFreshMint(health, uid, m, now, staleness, s);
    }
    if selector != map[] {
      forall n | n in cluster && NodeMatchesSelector(n.labels, selector) ensures n.name in names {
        assert n.name in eligible;
      }
    }
  }

  /******* And it is complete *******/

  /** `ShortReason`, reason by reason; what it does not know it leaves alone. */
  lemma ShortReasonsMean(reason: string)
    ensures reason == "KerberosMintSucceeded" ==> ShortReason(reason) == "Minted"
    ensures reason == "KerberosMintFailed" ==> ShortReason(reason) == "MintFailed"
    ensures reason == "KerberosCcachePruned" ==> ShortReason(reason) == "Pruned"
    ensures reason == "KerberosKeytabMissing" ==> ShortReason(reason) == "KeytabMissing"
    ensures reason !in {"KerberosMintSucceeded", "KerberosMintFailed", "KerberosCcachePruned", "KerberosKeytabMissing"} ==>
              ShortReason(reason) == reason
  {
  }

  /** Every node is reported: by the observation of its pod if that is fresh, else by the readiness of the pod. */
  lemma NodeIsReported(health: TenantHealth, uid: int, m: Store, now: int, staleness: int, n: NodeStatus)
    requires health.found && n in health.nodes
    ensures var out, k := NodeStatuses(health, uid, m, now, staleness), Key(if n.name in health.podByNode then health.podByNode[n.name] else "", uid);
            if n.name in health.podByNode && k in m && m[k].timestamp != ZERO_TIME && now - m[k].timestamp <= staleness
            then NodeStatus(n.name, n.daemonPodReady, ShortReason(m[k].reason), m[k].message, m[k].timestamp) in out
            else n in out
  {
    var raw := EnrichedNodes(health, uid, m, now, staleness);
    var i :| 0 <= i < |health.nodes| && health.nodes[i] == n;
    NameLeOrders();
    SortMembers(raw, NameLe);
    assert raw[i] in raw;
  }

  /** Nothing else is, and the nodes come in the order of their names. */
  lemma ReportIsSorted(health: TenantHealth, uid: int, m: Store, now: int, staleness: int)
    ensures var out := NodeStatuses(health, uid, m, now, staleness);
            && |out| == (if health.found then |health.nodes| else 0)
            && forall i, j :: 0 <= i < j < |out| ==> StringLe(out[i].name, out[j].name)
  {
    var raw := EnrichedNodes(health, uid, m, now, staleness);
    NameLeOrders();
    SortSorts(raw, NameLe);
    var out := NodeStatuses(health, uid, m, now, staleness);
    forall i, j | 0 <= i < j < |out| ensures StringLe(out[i].name, out[j].name) { assert NameLe(out[i], out[j]); }
  }

  lemma AddOne(names: set<string>, name: string)
    ensures name !in names ==> |names + {name}| == |names| + 1
  {
  }

  lemma NamesSnoc(nodes: seq<NodeStatus>, last: NodeStatus)
    ensures Names(nodes + [last]) == Names(nodes) + {last.name}
  {
  }

  lemma {:induction false} NamesCount(nodes: seq<NodeStatus>)
    requires DistinctNames(nodes)
    ensures |Names(nodes)| == |nodes|
  {
    if nodes == [] {
      assert Names(nodes) == {};
    } else {
      var n := |nodes| - 1;
      NamesCount(nodes[..n]);
      NamesSnoc(nodes[..n], nodes[n]);
      assert nodes == nodes[..n] + [nodes[n]];
      AddOne(Names(nodes[..n]), nodes[n].name);
    }
  }

  lemma MintIsReported(health: TenantHealth, uid: int, m: Store, now: int, staleness: int, n: NodeStatus)
    requires health.found && n in health.nodes && FreshMint(m, health.podByNode, n.name, uid, now, staleness)
    ensures exists s :: s in NodeStatuses(health, uid, m, now, staleness) && s.name == n.name && s.reason == "Minted"
  {
    NodeIsReported(health, uid, m, now, staleness, n);
    ShortReasonsMean("KerberosMintSucceeded");
  }

  /** If every eligible node has a pod and a fresh mint, all of them count. */
  lemma AllMinted(health: TenantHealth, uid: int, m: Store, now: int, staleness: int, eligible: set<string>)
    requires Plain(health) && health.found && eligible <= Names(health.nodes)
    requires forall name :: name in eligible ==> FreshMint(m, health.podByNode, name, uid, now, staleness)
    ensures CountMinted(NodeStatuses(health, uid, m, now, staleness), eligible) == |eligible|
  {
    var nodes := NodeStatuses(health, uid, m, now, staleness);
    StatusesKeepNames(health, uid, m, now, staleness);
    CountIsCardinality(nodes, eligible);
    forall name | name in eligible ensures name in MintedNames(nodes, eligible) {
      var n :| n in health.nodes && n.name == name;
      MintIsReported(health, uid, m, now, staleness, n);
    }
    assert MintedNames(nodes, eligible) == eligible;
  }

  lemma StatusNames(health: TenantHealth, uid: int, m: Store, now: int, staleness: int)
    requires health.found && DistinctNames(health.nodes)
    ensures Names(NodeStatuses(health, uid, m, now, staleness)) == Names(health.nodes)
  {
    var nodes := NodeStatuses(health, uid, m, now, staleness);
    StatusesKeepNames(health, uid, m, now, staleness);
    forall name | name in Names(health.nodes) ensures name in Names(nodes) {
      var n :| n in health.nodes && n.name == name;
      NodeIsReported(health, uid, m, now, staleness, n);
    }
  }

  /**
   Exactly when a principal with a selector is Ready: nothing is disabled, the selector matches some node, and every
   node it matches, all of which have a pod, has a fresh successful mint.
   */
  lemma ReadyIff(selector: Labels, health: TenantHealth, uid: int, m: Store, now: int, staleness: int,
                 cluster: seq<Node>, disabled: bool, tenantDisabled: bool, desired: int, ready: nat)
    requires selector != map[] && health.found && Plain(health) && (forall k :: k in m ==> m[k].reason in KNOWN_REASONS)
    requires Counts(selector, health, uid, m, now, staleness, cluster, desired, ready)
    requires forall n :: n in cluster && NodeMatchesSelector(n.labels, selector) ==> n.name in Names(health.nodes)
    ensures ReadyCondition(disabled, tenantDisabled, desired, ready, health.desiredNodes).status == ConditionTrue <==>
            && !disabled && !tenantDisabled && (exists n :: n in cluster && NodeMatchesSelector(n.labels, selector))
            && forall n :: n in cluster && NodeMatchesSelector(n.labels, selector) ==>
                 FreshMint(m, health.podByNode, n.name, uid, now, staleness)
  {
    var eligible := Eligible(selector, NodeStatuses(health, uid, m, now, staleness), cluster);
    ReadyConditionMeans(disabled, tenantDisabled, desired, ready, health.desiredNodes);
    if n :| n in cluster && NodeMatchesSelector(n.labels, selector) {
      assert n.name in eligible;
    } else {
      assert eligible == {};
    }
    if ReadyCondition(disabled, tenantDisabled, desired, ready, health.desiredNodes).status == ConditionTrue {
      ReadyIsHonest(selector, health, uid, m, now, staleness, cluster, disabled, tenantDisabled, desired, ready);
    } else if forall n :: n in cluster && NodeMatchesSelector(n.labels, selector) ==> FreshMint(m, health.podByNode, n.name, uid, now, staleness) {
      AllMinted(health, uid, m, now, staleness, eligible);
    }
  }

  /** One without a selector is Ready if its Tenant has as many nodes as the DaemonSet wants pods, all with a fresh mint. */
  lemma UnrestrictedReady(health: TenantHealth, uid: int, m: Store, now: int, staleness: int, cluster: seq<Node>, desired: int, ready: nat)
    requires health.found && Plain(health) && 0 < health.desiredNodes <= |health.nodes|
    requires Counts(map[], health, uid, m, now, staleness, cluster, desired, ready)
    requires forall n :: n in health.nodes ==> FreshMint(m, health.podByNode, n.name, uid, now, staleness)
    ensures ReadyCondition(false, false, desired, ready, health.desiredNodes).status == ConditionTrue
  {
    StatusNames(health, uid, m, now, staleness);
    AllMinted(health, uid, m, now, staleness, Names(health.nodes));
    NamesCount(health.nodes);
    ReadyConditionMeans(false, false, desired, ready, health.desiredNodes);
  }

  /** With a selector the ready count never exceeds the desired one. */
  lemma ReadyAtMostDesired(selector: Labels, health: TenantHealth, uid: int, m: Store, now: int, staleness: int, cluster: seq<Node>)
    requires DistinctNames(health.nodes)
    ensures var nodes := NodeStatuses(health, uid, m, now, staleness);
            var eligible := Eligible(selector, nodes, cluster);
            CountMinted(nodes, eligible) <= |eligible|
  {
    StatusesKeepNames(health, uid, m, now, staleness);
    var nodes := NodeStatuses(health, uid, m, now, staleness);
    MintedBound(nodes, Eligible(selector, nodes, cluster));
  }

  /**
   The fallback is blind: for every principal, as soon as all pods of the DaemonSet are ready, it reports
   AllDaemonsReady, though nothing may have been minted anywhere.
   */
  lemma FallbackIsBlind(health: TenantHealth, uid: int, now: int, staleness: int, name: string)
    requires health.readyNodes >= health.desiredNodes > 0
    ensures ReadyCondition(false, false, health.desiredNodes, health.readyNodes, health.desiredNodes) == Condition(ConditionTrue, "AllDaemonsReady")
    ensures !FreshMint(map[], health.podByNode, name, uid, now, staleness)
  {
  }

  /** The cache is what ingested Events, evictions and collections have left. */
  ghost predicate IngestedBy(m: Store, ttl: int, ops: seq<Op>) {
    m == Run(ttl, ops) && forall i :: 0 <= i < |ops| && ops[i].Put? ==> exists ev :: Observed(ev) == Some(ops[i].o)
  }

  /**
   The computation in `publishStatus`, from the cache to the Ready condition. Whatever Events came in, Ready=True is
   honest, unless the Nodes could not be listed and the counts fall back on those of the DaemonSet.
   */
  method DeriveReady(cache: Cache, ghost ops: seq<Op>, uid: int, selector: Labels, health: TenantHealth, now: int, staleness: int,
                     listed: Option<seq<Node>>, disabled: bool, tenantDisabled: bool)
    returns (nodes: seq<NodeStatus>, desired: int, ready: int, c: Condition)
    requires IngestedBy(cache.data, cache.ttl, ops)
    ensures nodes == NodeStatuses(health, uid, cache.data, now, staleness)
    ensures c == ReadyCondition(disabled, tenantDisabled, desired, ready, health.desiredNodes)
    ensures c.status == ConditionTrue <==> !disabled && !tenantDisabled && 0 != desired <= ready
    ensures selector != map[] && listed.None? ==> desired == health.desiredNodes && ready == health.readyNodes
    ensures selector == map[] || listed.Some? ==>
              ready >= 0 && Counts(selector, health, uid, cache.data, now, staleness, if listed.Some? then listed.value else [], desired, ready)
    ensures c.status == ConditionTrue && (selector == map[] || listed.Some?) && Plain(health) ==>
              Honest(selector, health, uid, cache.data, now, staleness, if listed.Some? then listed.value else [], desired)
  {
    nodes := BuildNodeStatuses(uid, health, cache, now, staleness);
    var counts := PrincipalHealth(selector, nodes, health.desiredNodes, listed);
    if counts.None? {
      desired, ready := health.desiredNodes, health.readyNodes;
    } else {
      desired, ready := counts.value.0, counts.value.1;
    }
    c := ReadyCondition(disabled, tenantDisabled, desired, ready, health.desiredNodes);
    forall k | k in cache.data ensures cache.data[k].reason in KNOWN_REASONS { ReasonsKnown(cache.ttl, ops, k); }
    ReadyConditionMeans(disabled, tenantDisabled, desired, ready, health.desiredNodes);
    if c.status == ConditionTrue && counts.Some? && Plain(health) {
      ReadyIsHonest(selector, health, uid, cache.data, now, staleness, if listed.Some? then listed.value else [],
                    disabled, tenantDisabled, desired, ready);
    }
  }
}
