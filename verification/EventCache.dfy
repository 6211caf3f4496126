/**
 The operator's cache of per-UID observations (operator/internal/events/cache.go): a map that keeps
 the newest observation per (pod, uid), with eviction by UID, by pod and by age.
 */
module EventCache {
  import opened Common
  import opened Events

  datatype Key = Key(pod: string, uid: int)

  type Store = map<Key, Observation>

  const DEFAULT_TTL := 24 * 3600 * 1_000_000_000

  function KeyOf(o: Observation): Key { Key(o.pod, o.uid) }

  /** Observations `Put` does not drop. */
  predicate Keyed(o: Observation) { o.pod != "" && o.uid > 0 }

  /******* One operation *******/

  function Stored(m: Store, o: Observation): Store {
    if !Keyed(o) || (KeyOf(o) in m && m[KeyOf(o)].timestamp > o.timestamp) then m else m[KeyOf(o) := o]
  }

  function WithoutUid(m: Store, uid: int): Store { map k | k in m && k.uid != uid :: m[k] }

  function WithoutPod(m: Store, pod: string): Store { map k | k in m && k.pod != pod :: m[k] }

  function NotBefore(m: Store, cutoff: int): Store { map k | k in m && m[k].timestamp >= cutoff :: m[k] }

  /** `Cache`. Its lock makes every method one atomic step. */
  class Cache {
    const ttl: int
    var data: Store

    constructor (ttl: int)
      ensures this.ttl == if ttl <= 0 then DEFAULT_TTL else ttl
      ensures data == map[]
    {
      this.ttl := if ttl <= 0 then DEFAULT_TTL else ttl;
      data := map[];
    }

    method Put(o: Observation)
      modifies this
      ensures data == Stored(old(data), o)
    {
      if o.pod == "" || o.uid <= 0 { return; }
      var k := Key(o.pod, o.uid);
      if k in data && data[k].timestamp > o.timestamp { return; }
      data := data[k := o];
    }

    method Lookup(pod: string, uid: int) returns (o: Option<Observation>)
      ensures o.Some? <==> Key(pod, uid) in data
      ensures o.Some? ==> o.value == data[Key(pod, uid)]
    {
      o := if Key(pod, uid) in data then Some(data[Key(pod, uid)]) else None;
    }

    method EvictUid(uid: int)
      modifies this
      ensures data == WithoutUid(old(data), uid)
    {
      var todo := data.Keys;
      while todo != {}
        invariant data == map k | k in old(data) && (k.uid != uid || k in todo) :: old(data)[k]
        decreases todo
      {
        var k :| k in todo;
        if k.uid == uid { data := data - {k}; }
        todo := todo - {k};
      }
    }

    method EvictPod(pod: string)
      modifies this
      ensures data == WithoutPod(old(data), pod)
    {
      var todo := data.Keys;
      while todo != {}
        invariant data == map k | k in old(data) && (k.pod != pod || k in todo) :: old(data)[k]
        decreases todo
      {
        var k :| k in todo;
        if k.pod == pod { data := data - {k}; }
        todo := todo - {k};
      }
    }

    method Gc(now: int) returns (n: nat)
      modifies this
      ensures data == NotBefore(old(data), now - ttl)
      ensures n == |old(data)| - |data|
    {
      var cutoff := now - ttl;
      var todo := data.Keys;
      n := 0;
      while todo != {}
        invariant data == map k | k in old(data) && (old(data)[k].timestamp >= cutoff || k in todo) :: old(data)[k]
        invariant todo <= data.Keys && n == |old(data)| - |data|
        decreases todo
      {
        var k :| k in todo;
        if data[k].timestamp < cutoff {
          ghost var before := data;
          data := data - {k};
          assert data.Keys == before.Keys - {k};
          n := n + 1;
        }
        todo := todo - {k};
      }
    }
  }

  /** `EventReconciler.Reconcile` on a fetched Event. */
  method Ingest(cache: Cache, ev: Event)
    modifies cache
    ensures cache.data == match Observed(ev)
                          case None => old(cache.data)
                          case Some(o) => Stored(old(cache.data), o)
  {
    if ev.kind != "Pod" { return; }
    if ev.reason !in KNOWN_REASONS { return; }
    if ev.pod == "" { return; }
    var uid := ParseUid(ev);
    if uid.None? { return; }
    var ts := ev.lastTimestamp;
    if ev.eventTime != ZERO_TIME && ev.eventTime > ts { ts := ev.eventTime; }
    if ts == ZERO_TIME { ts := ev.creationTimestamp; }
    cache.Put(Observation(ev.reason, ev.message, ts, ev.pod, uid.value));
  }

  /******* Runs *******/

  datatype Op = Put(o: Observation) | EvictUid(uid: int) | EvictPod(pod: string) | Gc(now: int)

  function Apply(ttl: int, m: Store, op: Op): Store {
    match op
    case Put(o) => Stored(m, o)
    case EvictUid(uid) => WithoutUid(m, uid)
    case EvictPod(pod) => WithoutPod(m, pod)
    case Gc(now) => NotBefore(m, now - ttl)
  }

  /** The cache after a sequence of operations. */
  function Run(ttl: int, ops: seq<Op>): Store {
    if ops == [] then map[] else Apply(ttl, Run(ttl, ops[..|ops| - 1]), ops[|ops| - 1])
  }

  /******* The cache as a log of observations *******/

  /** A later `op` that takes observation `o` with it, whatever else the cache holds. */
  predicate Removes(ttl: int, op: Op, o: Observation) {
    match op
    case Put(_) => false
    case EvictUid(uid) => uid == o.uid
    case EvictPod(pod) => pod == o.pod
    case Gc(now) => o.timestamp < now - ttl
  }

  ghost predicate Survives(ttl: int, ops: seq<Op>, i: int) {
    && 0 <= i < |ops| && ops[i].Put? && Keyed(ops[i].o)
    && forall j :: i < j < |ops| ==> !Removes(ttl, ops[j], ops[i].o)
  }

  ghost predicate Candidate(ttl: int, ops: seq<Op>, k: Key, i: int) {
    Survives(ttl, ops, i) && KeyOf(ops[i].o) == k
  }

  /** Entry `i` of the log is the newest surviving one for `k`; equal timestamps go to the later. */
  ghost predicate Newest(ttl: int, ops: seq<Op>, k: Key, i: int) {
    && Candidate(ttl, ops, k, i)
    && forall j :: Candidate(ttl, ops, k, j) ==>
         ops[j].o.timestamp < ops[i].o.timestamp || (ops[j].o.timestamp == ops[i].o.timestamp && j <= i)
  }

  lemma CandidateSnoc(ttl: int, ops: seq<Op>, k: Key, i: int)
    requires ops != []
    ensures var n := |ops| - 1;
            Candidate(ttl, ops, k, i) <==>
              if i == n then ops[n].Put? && Keyed(ops[n].o) && KeyOf(ops[n].o) == k
              else Candidate(ttl, ops[..n], k, i) && !Removes(ttl, ops[n], ops[i].o)
  {
    var n := |ops| - 1;
    if 0 <= i < n {
      assert forall j :: i < j < n ==> ops[..n][j] == ops[j];
    }
  }

  /** An accepted observation that nothing before it beats. */
  lemma NewestIsPut(ttl: int, ops: seq<Op>, k: Key)
    requires ops != [] && ops[|ops| - 1].Put? && Keyed(ops[|ops| - 1].o) && KeyOf(ops[|ops| - 1].o) == k
    requires forall i :: Candidate(ttl, ops[..|ops| - 1], k, i) ==> ops[i].o.timestamp <= ops[|ops| - 1].o.timestamp
    ensures Newest(ttl, ops, k, |ops| - 1)
  {
    forall i { CandidateSnoc(ttl, ops, k, i); }
  }

  /** The newest entry so far stays it, unless the last operation removes or beats it. */
  lemma NewestStays(ttl: int, ops: seq<Op>, k: Key, i: int)
    requires ops != [] && Newest(ttl, ops[..|ops| - 1], k, i) && !Removes(ttl, ops[|ops| - 1], ops[i].o)
    requires var op := ops[|ops| - 1]; op.Put? && Keyed(op.o) && KeyOf(op.o) == k ==> op.o.timestamp < ops[i].o.timestamp
    ensures Newest(ttl, ops, k, i)
  {
    forall j { CandidateSnoc(ttl, ops, k, j); }
  }

  /** What the last operation removes, it removes with everything older under the same key. */
  lemma NoneSurvives(ttl: int, ops: seq<Op>, k: Key, i: int)
    requires ops != [] && Newest(ttl, ops[..|ops| - 1], k, i) && Removes(ttl, ops[|ops| - 1], ops[i].o)
    ensures forall j :: !Candidate(ttl, ops, k, j)
  {
    forall j { CandidateSnoc(ttl, ops, k, j); }
  }

  /**
   After any operations the cache holds, for each key, the newest logged observation that no later
   operation removed, and nothing for a key without one.
   */
  lemma {:induction false} RunIsNewest(ttl: int, ops: seq<Op>, k: Key)
    ensures k in Run(ttl, ops) <==> exists i :: Candidate(ttl, ops, k, i)
    ensures k in Run(ttl, ops) ==> exists i :: Newest(ttl, ops, k, i) && Run(ttl, ops)[k] == ops[i].o
  {
    if ops != [] {
      var n := |ops| - 1;
      var pre, op := ops[..n], ops[n];
      RunIsNewest(ttl, pre, k);
      var before := Run(ttl, pre);
      assert Run(ttl, ops) == Apply(ttl, before, op);
      if k in before {
        var i :| Newest(ttl, pre, k, i) && before[k] == pre[i].o;
        assert pre[i] == ops[i];
        if op.Put? && Keyed(op.o) && KeyOf(op.o) == k && op.o.timestamp >= ops[i].o.timestamp {
          NewestIsPut(ttl, ops, k);
        } else if !Removes(ttl, op, ops[i].o) {
          NewestStays(ttl, ops, k, i);
        } else {
          NoneSurvives(ttl, ops, k, i);
        }
      } else if op.Put? && Keyed(op.o) && KeyOf(op.o) == k {
        NewestIsPut(ttl, ops, k);
      } else {
        forall i { CandidateSnoc(ttl, ops, k, i); }
      }
    }
  }

  /** No entry is filed under an empty pod, a non-positive UID or a key not its own. */
  lemma EntriesMatchKeys(ttl: int, ops: seq<Op>, k: Key)
    requires k in Run(ttl, ops)
    ensures k.pod != "" && k.uid > 0 && Run(ttl, ops)[k].pod == k.pod && Run(ttl, ops)[k].uid == k.uid
  {
    RunIsNewest(ttl, ops, k);
  }

  /** An observation with a pod and a positive UID is kept, unless there is a newer one; another one is dropped. */
  lemma PutMeans(ttl: int, m: Store, o: Observation, k: Key)
    ensures var after := Apply(ttl, m, Put(o));
            if o.pod == "" || o.uid <= 0 then after == m
            else if k == Key(o.pod, o.uid) then
              k in after && after[k] == (if k in m && m[k].timestamp > o.timestamp then m[k] else o)
            else (k in after <==> k in m) && (k in m ==> after[k] == m[k])
  {
  }

  /** What each way of removing takes, and that it leaves the rest as it is. */
  lemma RemovalsMean(ttl: int, m: Store, k: Key, uid: int, pod: string, now: int)
    ensures k in Apply(ttl, m, EvictUid(uid)) <==> k in m && k.uid != uid
    ensures k in Apply(ttl, m, EvictPod(pod)) <==> k in m && k.pod != pod
    ensures k in Apply(ttl, m, Gc(now)) <==> k in m && now - m[k].timestamp <= ttl
    ensures forall op: Op :: !op.Put? && k in Apply(ttl, m, op) ==> Apply(ttl, m, op)[k] == m[k]
  {
  }

  predicate OnlyPuts(ops: seq<Op>) { forall i :: 0 <= i < |ops| ==> ops[i].Put? }

  predicate DistinctTimes(ops: seq<Op>) {
    forall i, j ::
      (&& 0 <= i < |ops| && 0 <= j < |ops| && ops[i].Put? && ops[j].Put?
       && KeyOf(ops[i].o) == KeyOf(ops[j].o) && ops[i].o.timestamp == ops[j].o.timestamp) ==> ops[i] == ops[j]
  }

  lemma PutsCommuteAt(ttl: int, a: seq<Op>, b: seq<Op>, k: Key)
    requires OnlyPuts(a) && OnlyPuts(b) && multiset(a) == multiset(b) && DistinctTimes(a)
    requires k in Run(ttl, a)
    ensures k in Run(ttl, b) && Run(ttl, a)[k] == Run(ttl, b)[k]
  {
    RunIsNewest(ttl, a, k);
    RunIsNewest(ttl, b, k);
    var i :| Newest(ttl, a, k, i) && Run(ttl, a)[k] == a[i].o;
    assert a[i] in multiset(b);
    var i' :| 0 <= i' < |b| && b[i'] == a[i];
    assert Candidate(ttl, b, k, i');
    var j :| Newest(ttl, b, k, j) && Run(ttl, b)[k] == b[j].o;
    assert b[j] in multiset(a);
    var j' :| 0 <= j' < |a| && a[j'] == b[j];
    assert Candidate(ttl, a, k, j');
  }

  /** Events may arrive in any order: puts with distinct times per key commute. */
  lemma PutsCommute(ttl: int, a: seq<Op>, b: seq<Op>)
    requires OnlyPuts(a) && OnlyPuts(b) && multiset(a) == multiset(b) && DistinctTimes(a)
    ensures Run(ttl, a) == Run(ttl, b)
  {
    forall i | 0 <= i < |b| ensures b[i] in a { assert b[i] in multiset(a); }
    forall k | k in Run(ttl, a) { PutsCommuteAt(ttl, a, b, k); }
    forall k | k in Run(ttl, b) ensures k in Run(ttl, a) { PutsCommuteAt(ttl, b, a, k); }
  }

  /** Everything the reconciler ingests carries one of the four known reasons, and so the cache does. */
  lemma ReasonsKnown(ttl: int, ops: seq<Op>, k: Key)
    requires forall i :: 0 <= i < |ops| && ops[i].Put? ==> exists ev :: Observed(ev) == Some(ops[i].o)
    requires k in Run(ttl, ops)
    ensures Run(ttl, ops)[k].reason in KNOWN_REASONS
    ensures Run(ttl, ops)[k].reason in {"KerberosMintSucceeded", "KerberosMintFailed", "KerberosCcachePruned", "KerberosKeytabMissing"}
  {
    RunIsNewest(ttl, ops, k);
    var i :| Newest(ttl, ops, k, i) && Run(ttl, ops)[k] == ops[i].o;
    var ev :| Observed(ev) == Some(ops[i].o);
  }

  /******* Collecting is invisible *******/

  function WithoutGc(ops: seq<Op>): seq<Op> {
    if ops == [] then []
    else
      var n := |ops| - 1;
      WithoutGc(ops[..n]) + (if ops[n].Gc? then [] else [ops[n]])
  }

  /** A collected cache next to one that never collects, when nothing from `bound` on was collected. */
  ghost predicate Lags(c: Store, u: Store, bound: int) {
    && (forall k :: k in c ==> k in u && c[k].timestamp <= u[k].timestamp)
    && (forall k :: k in u && u[k].timestamp >= bound ==> k in c && c[k] == u[k])
  }

  lemma PutLags(c: Store, u: Store, bound: int, o: Observation)
    requires Lags(c, u, bound)
    ensures Lags(Stored(c, o), Stored(u, o), bound)
  {
  }

  lemma LagsStep(ttl: int, c: Store, u: Store, bound: int, op: Op)
    requires Lags(c, u, bound)
    requires op.Gc? ==> op.now - ttl <= bound
    ensures Lags(Apply(ttl, c, op), if op.Gc? then u else Apply(ttl, u, op), bound)
  {
    if op.Put? { PutLags(c, u, bound, op.o); }
  }

  /** Late, old Events may re-enter the collected cache; they stay below the bound. */
  lemma {:induction false} GcLags(ttl: int, ops: seq<Op>, bound: int)
    requires forall i :: 0 <= i < |ops| && ops[i].Gc? ==> ops[i].now - ttl <= bound
    ensures Lags(Run(ttl, ops), Run(ttl, WithoutGc(ops)), bound)
  {
    if ops != [] {
      var n := |ops| - 1;
      var pre, op := ops[..n], ops[n];
      GcLags(ttl, pre, bound);
      LagsStep(ttl, Run(ttl, pre), Run(ttl, WithoutGc(pre)), bound, op);
      if !op.Gc? {
        assert WithoutGc(ops)[..|WithoutGc(ops)| - 1] == WithoutGc(pre);
      } else {
        assert WithoutGc(ops) == WithoutGc(pre);
      }
    }
  }
}
