/**
 The deletion half of the principal reconciler (operator/internal/controller/principal_finalizer.go):
 confirming a purge from Events, releasing the finalizer, and waiting with a deadline.
 */
module Finalizer {
  import opened Common
  import opened Text
  import opened Events

  const SECOND := 1_000_000_000
  const DEFAULT_DELETION_TIMEOUT := 60 * SECOND
  const REQUEUE_CAP := 5 * SECOND
  const PRINCIPAL_FINALIZER := "kerberator.dell.com/ccache-purged"

  /******* Purge Events *******/

  const MESSAGE_HEAD := "Pruned stale ccache for "
  const MESSAGE_TAIL := " (no longer in roster)"

  /** The token `purgeConfirmed` looks for. */
  function UidToken(uid: int): string { "uid=" + Format(uid) }

  /** The message of the daemon's `Pruned` Event. */
  function PrunedMessage(uid: int): string { MESSAGE_HEAD + UidToken(uid) + MESSAGE_TAIL }

  /** Around a single '=', a token can only occur at the text's own "uid=". */
  lemma TokenAt(head: string, f: string, tail: string, digits: string, i: int)
    requires '=' !in head && '=' !in f && '=' !in tail
    requires OccursAt(head + ("uid=" + f) + tail, "uid=" + digits, i)
    ensures i == |head| && digits <= f + tail
  {
    var text, token := head + ("uid=" + f) + tail, "uid=" + digits;
    assert text[i + 3] == text[i..i + |token|][3] == '=';
    assert i + 3 == |head| + 3;
    assert text[i + 4..] == f + tail;
    assert text[i + 4..][..|digits|] == text[i..i + |token|][4..] == digits;
  }

  lemma TokenOccurrence(m: int, n: int, i: int)
    requires OccursAt(PrunedMessage(m), UidToken(n), i)
    ensures i == |MESSAGE_HEAD| && Format(n) <= Format(m) + MESSAGE_TAIL
  {
    TokenAt(MESSAGE_HEAD, Format(m), MESSAGE_TAIL, Format(n), i);
  }

  /**
   The substring test names a UID only up to decimal prefixes: the message for `m` contains the token
   of `n` exactly if the digits of `n` start those of `m`.
   */
  lemma TokenIff(m: int, n: int)
    ensures Contains(PrunedMessage(m), UidToken(n)) <==> Format(n) <= Format(m)
  {
    var message, token, start := PrunedMessage(m), UidToken(n), |MESSAGE_HEAD|;
    if Contains(message, token) {
      var i :| 0 <= i <= |message| && OccursAt(message, token, i);
      TokenOccurrence(m, n, i);
      assert (Format(m) + MESSAGE_TAIL)[|Format(m)|] == ' ';
    }
    if Format(n) <= Format(m) {
      assert UidToken(m)[..|token|] == token;
      assert message[start..start + |token|] == UidToken(m)[..|token|];
      assert OccursAt(message, token, start);
    }
  }

  /** The Event is stamped at or after the deletion, by either of its clocks. */
  predicate StampedSince(ev: Event, deleted: int) {
    || (ev.lastTimestamp != ZERO_TIME && ev.lastTimestamp >= deleted)
    || (ev.eventTime != ZERO_TIME && ev.eventTime >= deleted)
  }

  /** The Events `purgeConfirmed` counts. */
  predicate Confirms(ev: Event, uid: int, deleted: int) {
    ev.reason == REASON_CCACHE_PRUNED && ev.kind == "Pod" && Contains(ev.message, UidToken(uid)) && StampedSince(ev, deleted)
  }

  function ConfirmedPods(evs: seq<Event>, uid: int, deleted: int): set<string> {
    set ev | ev in evs && Confirms(ev, uid, deleted) :: ev.pod
  }

  /**
   Exactly which pods count: those with a prune Event on the pod, whose message names the UID or one that its digits
   start, and at least one of whose clocks is not before the deletion. An Event of a mint, or on another object, does not.
   */
  lemma ConfirmedPodsMean(evs: seq<Event>, uid: int, deleted: int, pod: string)
    requires deleted > ZERO_TIME
    ensures pod in ConfirmedPods(evs, uid, deleted) <==>
            exists i :: 0 <= i < |evs| && evs[i].pod == pod && evs[i].kind == "Pod" && evs[i].reason == "KerberosCcachePruned"
                     && (exists j :: OccursAt(evs[i].message, "uid=" + Format(uid), j))
                     && (evs[i].lastTimestamp >= deleted || evs[i].eventTime >= deleted)
  {
    forall i | 0 <= i < |evs| && evs[i].pod == pod && Confirms(evs[i], uid, deleted) ensures pod in ConfirmedPods(evs, uid, deleted) {
      assert evs[i] in evs;
    }
    if pod in ConfirmedPods(evs, uid, deleted) {
      var ev :| ev in evs && Confirms(ev, uid, deleted) && ev.pod == pod;
      var i :| 0 <= i < |evs| && evs[i] == ev;
      var j :| 0 <= j <= |ev.message| && OccursAt(ev.message, UidToken(uid), j);
      assert OccursAt(evs[i].message, "uid=" + Format(uid), j);
    }
  }

  /** The answer to a Get. */
  datatype Fetched<+T> = NotFound | Unavailable | Found(value: T)

  /**
   `purgeConfirmed` for the DesiredNumberScheduled of the DaemonSet and the Events of the namespace.
   A missing DaemonSet confirms.
   */
  method PurgeConfirmed(uid: int, deleted: int, ds: Fetched<int>, listed: Option<seq<Event>>) returns (confirmed: bool)
    ensures confirmed <==> (|| ds.NotFound?
                            || (ds.Found? && ds.value == 0)
                            || (ds.Found? && listed.Some? && |ConfirmedPods(listed.value, uid, deleted)| >= ds.value))
  {
    if ds.NotFound? { return true; }
    if ds.Unavailable? { return false; }
    var desired := ds.value;
    if desired == 0 { return true; }
    if listed.None? { return false; }
    var evs := listed.value;
    var token := UidToken(uid);
    var confirmedPods: set<string> := {};
    for i := 0 to |evs|
      invariant confirmedPods == ConfirmedPods(evs[..i], uid, deleted)
    {
      var ev := evs[i];
      assert evs[..i + 1] == evs[..i] + [ev];
      if ev.reason != REASON_CCACHE_PRUNED { continue; }
      if ev.kind != "Pod" { continue; }
      if !Contains(ev.message, token) { continue; }
      if ev.lastTimestamp == ZERO_TIME || ev.lastTimestamp < deleted {
        if ev.eventTime == ZERO_TIME || ev.eventTime < deleted { continue; }
      }
      confirmedPods := confirmedPods + {ev.pod};
    }
    assert evs[..|evs|] == evs;
    confirmed := |confirmedPods| >= desired;
  }

  /******* Releasing the finalizer *******/

  lemma WithoutOne(m: multiset<string>, x: string, f: string)
    ensures (m + multiset{x})[f := 0] == if x == f then m[f := 0] else m[f := 0] + multiset{x}
  {
  }

  /** Only the one finalizer goes; the others keep their number. */
  lemma {:induction false} OthersKept(fs: seq<string>, f: string)
    ensures multiset(Dropping(fs, f)) == multiset(fs)[f := 0]
  {
    if fs != [] {
      var pre, last := fs[..|fs| - 1], fs[|fs| - 1];
      OthersKept(pre, f);
      DroppingSnoc(pre, last, f);
      assert fs == pre + [last];
      WithoutOne(multiset(pre), last, f);
    }
  }

  /** The list stays as it is exactly if the finalizer is not on it. */
  lemma {:induction false} NothingToRemove(fs: seq<string>, f: string)
    ensures |Dropping(fs, f)| <= |fs| && (|Dropping(fs, f)| == |fs| <==> f !in fs)
    ensures Dropping(fs, f) == fs <==> f !in fs
  {
    if fs != [] {
      var n := |fs| - 1;
      NothingToRemove(fs[..n], f);
      assert fs == fs[..n] + [fs[n]];
    }
  }

  /** The compaction in `removeFinalizer`, which reuses the backing array of the list it filters. */
  method CompactFinalizers(a: array<string>, f: string) returns (n: nat, changed: bool)
    modifies a
    ensures n <= a.Length && a[..n] == Dropping(old(a[..]), f)
    ensures changed <==> f in old(a[..])
  {
    n, changed := 0, false;
    ghost var before := a[..];
    for i := 0 to a.Length
      invariant n <= i && a[..n] == Dropping(before[..i], f)
      invariant forall j :: i <= j < a.Length ==> a[j] == before[j]
      invariant changed <==> n < i
    {
      ghost var kept := a[..n];
      assert before[..i + 1] == before[..i] + [before[i]];
      DroppingSnoc(before[..i], before[i], f);
      if a[i] == f {
        changed := true;
      } else {
        a[n] := a[i];
        n := n + 1;
        assert a[..n] == kept + [before[i]];
      }
    }
    assert before[..a.Length] == before;
    NothingToRemove(before, f);
  }

  /******* One reconcile *******/

  datatype PrincipalView = PrincipalView(uid: int, tenantRef: string, deletionTimestamp: int, finalizers: seq<string>)

  /** What one call of `Reconcile` meets: `tenant` holds spec.deletionTimeout, `addWorks` is whether the finalizer could be added. */
  datatype Cluster = Cluster(principal: Fetched<PrincipalView>, tenant: Fetched<Option<int>>, ds: Fetched<int>,
                             listed: Option<seq<Event>>, now: int, addWorks: bool)

  datatype Why = TenantGone | Confirmed | TimedOut

  /** `Maintain` publishes both halves of the status, after adding the finalizer if that is missing. */
  datatype Action = Nothing | Retry | Maintain(adds: bool) | Release(why: Why) | Requeue(after: int)

  function Timeout(spec: Option<int>): (t: int)
    ensures t > 0
    ensures spec.Some? && spec.value > 0 ==> t == spec.value
    ensures spec.None? || spec.value <= 0 ==> t == 60_000_000_000
  {
    if spec.Some? && spec.value > 0 then spec.value else DEFAULT_DELETION_TIMEOUT
  }

  ghost predicate IsConfirmed(c: Cluster)
    requires c.principal.Found?
  {
    || c.ds.NotFound? || (c.ds.Found? && c.ds.value == 0)
    || (c.ds.Found? && c.listed.Some?
        && |ConfirmedPods(c.listed.value, c.principal.value.uid, c.principal.value.deletionTimestamp)| >= c.ds.value)
  }

  /** The principal belongs to a Tenant and is not being deleted. */
  ghost predicate Alive(c: Cluster) {
    c.principal.Found? && c.principal.value.tenantRef != "" && c.principal.value.deletionTimestamp == ZERO_TIME
  }

  ghost predicate Guarded(c: Cluster) { c.principal.Found? && PRINCIPAL_FINALIZER in c.principal.value.finalizers }

  /** The principal is being deleted and still held. */
  ghost predicate Held(c: Cluster) {
    Guarded(c) && c.principal.value.tenantRef != "" && c.principal.value.deletionTimestamp != ZERO_TIME
  }

  /** And its Tenant can be read. */
  ghost predicate Deleting(c: Cluster) { Held(c) && c.tenant.Found? }

  ghost function Deadline(c: Cluster): int
    requires Deleting(c)
  {
    c.principal.value.deletionTimestamp + Timeout(c.tenant.value)
  }

  /** `Reconcile`. */
  method Reconcile(c: Cluster) returns (a: Action)
    ensures Deleting(c) ==> a == Decide(c)
    ensures a == Release(TenantGone) <==> Held(c) && c.tenant.NotFound?
    ensures a == Retry <==> c.principal.Unavailable? || (Held(c) && c.tenant.Unavailable?) || (Alive(c) && !Guarded(c) && !c.addWorks)
    ensures a.Maintain? <==> Alive(c) && (Guarded(c) || c.addWorks)
    ensures a.Maintain? ==> (a.adds <==> !Guarded(c))
    ensures a.Release? || a.Requeue? ==> Held(c)
  {
    if c.principal.NotFound? { return Nothing; }
    if c.principal.Unavailable? { return Retry; }
    var p := c.principal.value;
    if p.tenantRef == "" { return Nothing; }
    if p.deletionTimestamp == ZERO_TIME {
      var missing := PRINCIPAL_FINALIZER !in p.finalizers;
      if missing && !c.addWorks { return Retry; }
      return Maintain(missing);
    }
    if PRINCIPAL_FINALIZER !in p.finalizers { return Nothing; }
    if c.tenant.NotFound? { return Release(TenantGone); }
    if c.tenant.Unavailable? { return Retry; }
    var confirmed := PurgeConfirmed(p.uid, p.deletionTimestamp, c.ds, c.listed);
    if confirmed { return Release(Confirmed); }
    var timeout := DEFAULT_DELETION_TIMEOUT;
    if c.tenant.value.Some? && c.tenant.value.value > 0 { timeout := c.tenant.value.value; }
    var elapsed := c.now - p.deletionTimestamp;
    if elapsed >= timeout { return Release(TimedOut); }
    var remaining := timeout - elapsed;
    if remaining > REQUEUE_CAP { remaining := REQUEUE_CAP; }
    a := Requeue(remaining);
  }

  /** A deleting principal is released on confirmation or at its deadline, and otherwise waits at most 5s. */
  ghost function Decide(c: Cluster): Action
    requires Deleting(c)
  {
    if IsConfirmed(c) then Release(Confirmed)
    else if c.now >= Deadline(c) then Release(TimedOut)
    else Requeue(if Deadline(c) - c.now > REQUEUE_CAP then REQUEUE_CAP else Deadline(c) - c.now)
  }

  /** When it is released, and how long it waits otherwise: the time left, but no more than 5s. */
  lemma DecideMeans(c: Cluster)
    requires Deleting(c)
    ensures var age, timeout := c.now - c.principal.value.deletionTimestamp, Timeout(c.tenant.value);
            && (Decide(c) == Release(Confirmed) <==> IsConfirmed(c))
            && (Decide(c) == Release(TimedOut) <==> !IsConfirmed(c) && age >= timeout)
            && (Decide(c).Requeue? <==> !IsConfirmed(c) && age < timeout)
            && (Decide(c).Requeue? ==> Decide(c).after == if timeout - age < 5_000_000_000 then timeout - age else 5_000_000_000)
  {
  }

  /******* Bounded release *******/

  /** `b` is the reconcile that `a` asked for, of the same deletion, and at most `late` after its time. */
  ghost predicate Follows(a: Cluster, b: Cluster, late: nat) {
    && Deleting(a) && Deleting(b) && Deadline(b) == Deadline(a)
    && (Decide(a).Requeue? ==> a.now + Decide(a).after <= b.now <= a.now + Decide(a).after + late)
  }

  /** Successive reconciles of one deletion, each of them the one asked for before. */
  ghost predicate Honoured(cs: seq<Cluster>, late: nat) {
    && (forall i :: 0 <= i < |cs| ==> Deleting(cs[i]))
    && (forall i, j :: 0 <= i && j == i + 1 && j < |cs| ==> Follows(cs[i], cs[j], late))
  }

  function CeilDiv(a: int, b: int): int
    requires b > 0
  {
    if a <= 0 then 0 else (a + b - 1) / b
  }

  /** While it waits, the next reconcile comes after now, within 5s, and not past the deadline. */
  lemma WaitIsBounded(c: Cluster)
    requires Deleting(c) && Decide(c).Requeue?
    ensures 0 < Decide(c).after <= REQUEUE_CAP && c.now + Decide(c).after <= Deadline(c)
    ensures CeilDiv(Deadline(c) - (c.now + Decide(c).after), REQUEUE_CAP) == CeilDiv(Deadline(c) - c.now, REQUEUE_CAP) - 1
  {
    var left := Deadline(c) - c.now;
    if left > REQUEUE_CAP {
      assert (left + REQUEUE_CAP - 1) / REQUEUE_CAP == (left - REQUEUE_CAP + REQUEUE_CAP - 1) / REQUEUE_CAP + 1;
    } else {
      assert (left + REQUEUE_CAP - 1) / REQUEUE_CAP == 1;
    }
  }

  lemma CeilDivMonotone(a: int, b: int)
    requires a <= b
    ensures CeilDiv(a, REQUEUE_CAP) <= CeilDiv(b, REQUEUE_CAP)
  {
  }

  /**
   Whatever the DaemonSet and the Events do, even if they cannot be read, the finalizer is released after at
   most ceil(remaining / 5s) further reconciles, and by the first reconcile or by the deadline and as much
   later as one reconcile may be.
   */
  lemma {:induction false} BoundedRelease(cs: seq<Cluster>, late: nat) returns (k: nat)
    requires cs != [] && Honoured(cs, late)
    requires |cs| > CeilDiv(Deadline(cs[0]) - cs[0].now, REQUEUE_CAP)
    ensures k <= CeilDiv(Deadline(cs[0]) - cs[0].now, REQUEUE_CAP) && k < |cs|
    ensures Decide(cs[k]).Release?
    ensures cs[k].now <= cs[0].now || cs[k].now <= Deadline(cs[0]) + late
  {
    if Decide(cs[0]).Release? {
      k := 0;
    } else {
      WaitIsBounded(cs[0]);
      var rest := cs[1..];
      assert Follows(cs[0], cs[1], late);
      CeilDivMonotone(Deadline(cs[0]) - cs[1].now, Deadline(cs[0]) - (cs[0].now + Decide(cs[0]).after));
      k := BoundedRelease(rest, late);
      k := k + 1;
    }
  }
}
