/**
 Per-principal node selectors on their way from the Principal specs to a daemon's decision: the
 ConfigMap the operator writes (operator/internal/tenant/aggregate.go, tenant_helpers.go) and the
 filter the daemon applies (daemon/pkg/watcher/nodefilter.go, watcher.go).

 JSON is taken to round-trip: a value written under a key is the value read back.
 */
module NodeFilter {
  import opened Common
  import opened Text
  import opened Aggregate
  import opened AggregateTheorems
  import opened RosterFile
  import Status

  type SelectorsMap = map<int, Labels>
  type NodeLabelsMap = map<string, Labels>

  /******* The operator's side *******/

  /** The roster ConfigMap; an absent key is None. */
  datatype ConfigMap = ConfigMap(roster: string, krb5Conf: Option<string>, selectors: Option<map<string, Labels>>,
                                 nodeLabels: Option<NodeLabelsMap>)

  /** `BuildNodeLabelsJSON`: nodes without labels are left out, and nothing at all is no key. */
  function BuildNodeLabels(nodeLabels: NodeLabelsMap): (r: Option<NodeLabelsMap>)
    ensures forall n :: r.Some? && n in r.value <==> n in nodeLabels && nodeLabels[n] != map[]
    ensures forall n :: r.Some? && n in r.value ==> r.value[n] == nodeLabels[n]
    ensures r.Some? ==> r.value != map[]
  {
    var trimmed: NodeLabelsMap := map n | n in nodeLabels && nodeLabels[n] != map[] :: nodeLabels[n];
    assert forall n :: n in nodeLabels && nodeLabels[n] != map[] ==> n in trimmed;
    if trimmed == map[] then None else Some(trimmed)
  }

  /** `buildRosterCMData`. Node labels are published only beside selectors. */
  method BuildRosterCmData(rosterBlob: string, krb5Conf: string, selectors: map<string, Labels>, nodeLabels: Option<NodeLabelsMap>)
    returns (cm: ConfigMap)
    ensures cm.roster == rosterBlob && (cm.krb5Conf == if krb5Conf == "" then None else Some(krb5Conf))
    ensures cm.selectors == if selectors == map[] then None else Some(selectors)
    ensures cm.nodeLabels == if selectors == map[] then None else nodeLabels
    ensures cm.nodeLabels.Some? ==> cm.selectors.Some?
  {
    cm := ConfigMap(rosterBlob, None, None, None);
    if krb5Conf != "" { cm := cm.(krb5Conf := Some(krb5Conf)); }
    if selectors != map[] {
      cm := cm.(selectors := Some(selectors));
      if nodeLabels.Some? { cm := cm.(nodeLabels := nodeLabels); }
    }
  }

  /** What the operator publishes for an aggregation and a snapshot of node labels, None if listing Nodes failed. */
  ghost predicate Publishes(r: Aggregation, snapshot: Option<NodeLabelsMap>, cm: ConfigMap) {
    && cm.roster == r.rosterBlob
    && (cm.selectors == if r.selectors == map[] then None else Some(r.selectors))
    && (cm.nodeLabels == if r.selectors == map[] || snapshot.None? then None else BuildNodeLabels(snapshot.value))
  }

  /** The part of `reconcileTenant` that fills the roster ConfigMap; `snapshot` is None if listing Nodes failed. */
  method PublishRoster(r: Aggregation, krb5Conf: string, snapshot: Option<NodeLabelsMap>) returns (cm: ConfigMap)
    ensures Publishes(r, snapshot, cm)
  {
    var nodeLabels: Option<NodeLabelsMap> := None;
    if r.selectors != map[] && snapshot.Some? { nodeLabels := BuildNodeLabels(snapshot.value); }
    cm := BuildRosterCmData(r.rosterBlob, krb5Conf, r.selectors, nodeLabels);
  }

  /******* The daemon's side *******/

  datatype File<+T> = Absent | Unreadable | Holds(value: T)

  /** The parsed selectors keep every entry with a numeric key and at least one label. */
  ghost predicate LoadedFrom(raw: map<string, Labels>, loaded: SelectorsMap) {
    && (forall k :: k in raw && Atoi(k).Some? && raw[k] != map[] ==> Atoi(k).value in loaded)
    && (forall uid :: uid in loaded ==> exists k :: k in raw && Atoi(k) == Some(uid) && raw[k] != map[] && loaded[uid] == raw[k])
  }

  /** `LoadSelectorsFile`; None is an error. */
  method LoadSelectors(file: File<map<string, Labels>>) returns (r: Option<SelectorsMap>)
    ensures r.None? <==> file.Unreadable?
    ensures r.Some? ==> LoadedFrom(if file.Holds? then file.value else map[], r.value)
  {
    match file {
      case Absent => return Some(map[]);
      case Unreadable => return None;
      case Holds(raw) =>
        var out: SelectorsMap := map[];
        var todo := raw.Keys;
        while todo != {}
          invariant todo <= raw.Keys
          invariant LoadedFrom(map k | k in raw && k !in todo :: raw[k], out)
          decreases todo
        {
          var k :| k in todo;
          todo := todo - {k};
          if Atoi(k).None? { continue; }
          if |raw[k]| == 0 { continue; }
          out := out[Atoi(k).value := raw[k]];
        }
        assert (map k | k in raw && k !in todo :: raw[k]) == raw;
        return Some(out);
    }
  }

  /** `LoadNodeLabelsFile`; an absent or unreadable file is an empty map to the caller. */
  function LoadNodeLabels(file: File<NodeLabelsMap>): NodeLabelsMap {
    if file.Holds? then file.value else map[]
  }

  /** `MatchesNode`: a restricted UID fails closed on a node without labels. */
  predicate MatchesNode(uid: int, node: string, selectors: SelectorsMap, nodeLabels: NodeLabelsMap) {
    uid !in selectors || selectors[uid] == map[] ||
    (node in nodeLabels && forall k :: k in selectors[uid] ==> k in nodeLabels[node] && nodeLabels[node][k] == selectors[uid][k])
  }

  function Filtered(reqs: seq<TicketRequest>, node: string, selectors: SelectorsMap, nodeLabels: NodeLabelsMap): seq<TicketRequest> {
    if reqs == [] then []
    else
      var last := reqs[|reqs| - 1];
      Filtered(reqs[..|reqs| - 1], node, selectors, nodeLabels) +
      (if MatchesNode(last.uid, node, selectors, nodeLabels) then [last] else [])
  }

  lemma {:induction false} FilteredMembers(reqs: seq<TicketRequest>, node: string, selectors: SelectorsMap, nodeLabels: NodeLabelsMap)
    ensures forall r :: r in Filtered(reqs, node, selectors, nodeLabels) <==> r in reqs && MatchesNode(r.uid, node, selectors, nodeLabels)
    ensures selectors == map[] ==> Filtered(reqs, node, selectors, nodeLabels) == reqs
  {
    if reqs != [] {
      var n := |reqs| - 1;
      FilteredMembers(reqs[..n], node, selectors, nodeLabels);
      assert reqs == reqs[..n] + [reqs[n]];
    }
  }

  /** The selectors a daemon may go by: two keys that spell the same UID leave the choice between them open. */
  ghost predicate Restricts(file: File<map<string, Labels>>, selectors: SelectorsMap) {
    if file.Unreadable? then selectors == map[] else LoadedFrom(if file.Holds? then file.value else map[], selectors)
  }

  ghost predicate FilterAllows(reqs: seq<TicketRequest>, node: string, selectorsFile: File<map<string, Labels>>,
                               labelsFile: File<NodeLabelsMap>, filtered: seq<TicketRequest>)
  {
    exists selectors :: Restricts(selectorsFile, selectors) && filtered == Filtered(reqs, node, selectors, LoadNodeLabels(labelsFile))
  }

  /** The loop of `applyNodeFilter`. */
  method KeepMatching(reqs: seq<TicketRequest>, node: string, selectors: SelectorsMap, nodeLabels: NodeLabelsMap)
    returns (filtered: seq<TicketRequest>)
    ensures filtered == Filtered(reqs, node, selectors, nodeLabels)
  {
    filtered := [];
    for i := 0 to |reqs|
      invariant filtered == Filtered(reqs[..i], node, selectors, nodeLabels)
    {
      assert reqs[..i + 1][..i] == reqs[..i];
      if MatchesNode(reqs[i].uid, node, selectors, nodeLabels) { filtered := filtered + [reqs[i]]; }
    }
    assert reqs[..|reqs|] == reqs;
  }

  /** `applyNodeFilter`: unreadable selectors restrict nobody, unreadable labels admit nobody restricted. */
  method ApplyNodeFilter(reqs: seq<TicketRequest>, node: string, selectorsFile: File<map<string, Labels>>, labelsFile: File<NodeLabelsMap>)
    returns (filtered: seq<TicketRequest>)
    ensures FilterAllows(reqs, node, selectorsFile, labelsFile, filtered)
  {
    var loaded := LoadSelectors(selectorsFile);
    var nodeLabels := LoadNodeLabels(labelsFile);
    FilteredMembers(reqs, node, map[], nodeLabels);
    if loaded.None? || loaded.value == map[] {
      assert Restricts(selectorsFile, map[]);
      return reqs;
    }
    assert Restricts(selectorsFile, loaded.value);
    filtered := KeepMatching(reqs, node, loaded.value, nodeLabels);
  }

  /** Without readable selectors nothing is filtered out; without readable labels everything restricted is. */
  lemma UnreadableFiles(reqs: seq<TicketRequest>, node: string, selectorsFile: File<map<string, Labels>>, labelsFile: File<NodeLabelsMap>,
                        filtered: seq<TicketRequest>)
    requires FilterAllows(reqs, node, selectorsFile, labelsFile, filtered)
    ensures !selectorsFile.Holds? ==> filtered == reqs
    ensures selectorsFile.Holds? && !labelsFile.Holds? ==>
              forall req, k :: req in filtered && k in selectorsFile.value && Atoi(k) == Some(req.uid) ==> selectorsFile.value[k] == map[]
  {
    var selectors :| Restricts(selectorsFile, selectors) && filtered == Filtered(reqs, node, selectors, LoadNodeLabels(labelsFile));
    FilteredMembers(reqs, node, selectors, LoadNodeLabels(labelsFile));
    if !selectorsFile.Holds? { assert forall uid :: uid !in selectors; }
  }

  /******* The projection preserves meaning *******/

  lemma {:induction false} SelectorsHold(roster: seq<Accepted>)
    requires DistinctUids(roster)
    ensures forall i :: 0 <= i < |roster| ==>
              var p := roster[i].principal;
              && (Format(p.uid) in Selectors(roster) <==> p.selector != map[])
              && (p.selector != map[] ==> Selectors(roster)[Format(p.uid)] == p.selector)
    ensures forall k :: k in Selectors(roster) ==> Selectors(roster)[k] != map[] && exists i :: 0 <= i < |roster| && k == Format(roster[i].principal.uid)
  {
    if roster != [] {
      var n := |roster| - 1;
      var pre, last := roster[..n], roster[n].principal;
      SelectorsHold(pre);
      forall i | 0 <= i < n ensures Format(pre[i].principal.uid) != Format(last.uid) {
        if Format(pre[i].principal.uid) == Format(last.uid) { FormatInjective(pre[i].principal.uid, last.uid); }
      }
      forall i | 0 <= i < n ensures roster[i] == pre[i] {}
    }
  }

  /** A UID printed as a JSON key and read back keeps its selector, and only its own. */
  lemma SelectorSurvives(roster: seq<Accepted>, loaded: SelectorsMap, i: nat)
    requires DistinctUids(roster) && i < |roster| && LoadedFrom(Selectors(roster), loaded)
    requires forall j :: 0 <= j < |roster| ==> IsInt64(roster[j].principal.uid)
    ensures var p := roster[i].principal;
            (p.uid in loaded <==> p.selector != map[]) && (p.uid in loaded ==> loaded[p.uid] == p.selector)
  {
    var p, raw := roster[i].principal, Selectors(roster);
    SelectorsHold(roster);
    AtoiFormat(p.uid);
    if p.uid in loaded {
      var k :| k in raw && Atoi(k) == Some(p.uid) && raw[k] != map[] && loaded[p.uid] == raw[k];
      var j :| 0 <= j < |roster| && k == Format(roster[j].principal.uid);
      AtoiFormat(roster[j].principal.uid);
    }
  }

  function AsFile<T>(key: Option<T>): File<T> { if key.None? then Absent else Holds(key.value) }

  lemma DecisionOnTrimmedLabels(uid: int, selector: Labels, loaded: SelectorsMap, node: string, snapshot: Option<NodeLabelsMap>,
                                nodeLabels: NodeLabelsMap)
    requires (uid in loaded <==> selector != map[]) && (uid in loaded ==> loaded[uid] == selector)
    requires selector != map[] ==>
               nodeLabels == if snapshot.None? then map[] else LoadNodeLabels(AsFile(BuildNodeLabels(snapshot.value)))
    ensures MatchesNode(uid, node, loaded, nodeLabels) <==>
            if snapshot.Some? && node in snapshot.value
            then Status.NodeMatchesSelector(snapshot.value[node], selector)
            else selector == map[]
  {
    if selector != map[] {
      var k :| k in selector;
    }
  }

  lemma SelectorArrives(ps: seq<Principal>, sources: seq<KeytabSource>, loaded: SelectorsMap, a: Accepted)
    requires a in Roster(ps, sources) && (forall p :: p in ps ==> IsInt64(p.uid)) && LoadedFrom(Selectors(Roster(ps, sources)), loaded)
    ensures var p := a.principal;
            && (p.uid in loaded <==> p.selector != map[]) && (p.uid in loaded ==> loaded[p.uid] == p.selector)
            && (p.selector != map[] ==> Selectors(Roster(ps, sources)) != map[])
  {
    var roster := Roster(ps, sources);
    RosterMembers(ps, sources);
    RosterAscends(ps, sources);
    var i :| 0 <= i < |roster| && roster[i] == a;
    forall j | 0 <= j < |roster| ensures IsInt64(roster[j].principal.uid) { assert roster[j] in roster; }
    SelectorSurvives(roster, loaded, i);
    SelectorsHold(roster);
    assert a.principal.selector != map[] ==> Format(a.principal.uid) in Selectors(roster);
  }

  /**
   For every included principal and every node, what the daemon decides after the operator's encoding
   is what `nodeMatchesSelector` says of the node's live labels; a node missing from the snapshot, or a
   snapshot that failed, admits unrestricted principals only.
   */
  lemma ProjectionPreservesMeaning(ps: seq<Principal>, sources: seq<KeytabSource>, r: Aggregation, snapshot: Option<NodeLabelsMap>,
                                   cm: ConfigMap, loaded: SelectorsMap, a: Accepted, node: string)
    requires Declares(ps, sources, r) && Publishes(r, snapshot, cm) && a in Roster(ps, sources)
    requires forall p :: p in ps ==> IsInt64(p.uid)
    requires LoadedFrom(if cm.selectors.Some? then cm.selectors.value else map[], loaded)
    ensures MatchesNode(a.principal.uid, node, loaded, LoadNodeLabels(AsFile(cm.nodeLabels))) <==>
            if snapshot.Some? && node in snapshot.value
            then Status.NodeMatchesSelector(snapshot.value[node], a.principal.selector)
            else a.principal.selector == map[]
  {
    SelectorArrives(ps, sources, loaded, a);
    DecisionOnTrimmedLabels(a.principal.uid, a.principal.selector, loaded, node, snapshot, LoadNodeLabels(AsFile(cm.nodeLabels)));
  }

  /**
   End to end: the requests a daemon acts on are exactly those of the included principals whose
   selector matches the live labels of its node.
   */
  lemma DaemonActsOnMatching(ps: seq<Principal>, sources: seq<KeytabSource>, r: Aggregation, snapshot: NodeLabelsMap,
                             cm: ConfigMap, loaded: SelectorsMap, node: string)
    requires Declares(ps, sources, r) && Publishes(r, Some(snapshot), cm) && AllPrintable(Roster(ps, sources))
    requires forall p :: p in ps ==> IsInt64(p.uid)
    requires LoadedFrom(if cm.selectors.Some? then cm.selectors.value else map[], loaded)
    requires node in snapshot
    ensures var acted := Filtered(ParseFile(cm.roster).reqs, node, loaded, LoadNodeLabels(AsFile(cm.nodeLabels)));
            forall req :: req in acted <==>
              exists p :: p in ps && Included(ps, sources, p) && req == RequestOf(AcceptedOf(sources, p))
                       && forall k :: k in p.selector ==> k in snapshot[node] && snapshot[node][k] == p.selector[k]
  {
    var reqs, nodeLabels := ParseFile(cm.roster).reqs, LoadNodeLabels(AsFile(cm.nodeLabels));
    AggregatedRosterRoundTrip(ps, sources, r);
    FilteredMembers(reqs, node, loaded, nodeLabels);
    RosterMembers(ps, sources);
    forall p | p in ps && Included(ps, sources, p)
      ensures MatchesNode(p.uid, node, loaded, nodeLabels) <==> Status.NodeMatchesSelector(snapshot[node], p.selector)
    {
      ProjectionPreservesMeaning(ps, sources, r, Some(snapshot), cm, loaded, AcceptedOf(sources, p), node);
    }
  }
}
