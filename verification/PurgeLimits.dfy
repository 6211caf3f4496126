/**
 Why the purge theorem needs its assumptions, and what a confirmation needs: runs that release a finalizer while
 the ticket cache is still there, and deletions that no Event can confirm.
 */
module PurgeLimits {
  import opened Common
  import opened Text
  import opened Events
  import opened Finalizer
  import opened Purge

  /** The run starts in `s` with the deletion. */
  ghost predicate DeletesIn(s: State, states: seq<State>, steps: seq<Step>) {
    states != [] && states[0] == s && steps != [] && steps[0].Delete?
  }

  /** A confirmed release, counting all pods, before anybody else has the UID. */
  ghost predicate ReleasesAt(c: Config, states: seq<State>, steps: seq<Step>, i: int) {
    Run(c, states, steps) && CountsAllPods(c, steps) && 0 <= i < |steps| && steps[i].Confirm? && !states[i].shared
  }

  ghost predicate HoldsFile(s: State, p: Pod) { p in s.pods && s.pods[p].bits.file }

  ghost predicate CanRelease(c: Config, s: State) {
    exists states, steps, i :: DeletesIn(s, states, steps) && ReleasesAt(c, states, steps, i)
  }

  /** One at a moment when a pod still holds the file. */
  ghost predicate CanReleaseEarly(c: Config, s: State) {
    exists states, steps, i, p :: DeletesIn(s, states, steps) && ReleasesAt(c, states, steps, i) && HoldsFile(states[i], p)
  }

  /******* Paths *******/

  ghost predicate Path(c: Config, states: seq<State>, steps: seq<Step>) {
    && |states| == |steps| + 1
    && forall i :: 0 <= i < |steps| ==> Next(c, states[i], states[i + 1], steps[i]) && !steps[i].Confirm?
  }

  ghost predicate Connects(c: Config, s: State, s': State, states: seq<State>, steps: seq<Step>) {
    Path(c, states, steps) && states[0] == s && states[|steps|] == s'
  }

  ghost predicate Reaches(c: Config, s: State, s': State) { exists states, steps :: Connects(c, s, s', states, steps) }

  lemma Stay(c: Config, s: State)
    ensures Reaches(c, s, s)
  {
    assert Connects(c, s, s, [s], []);
  }

  lemma Extend(c: Config, s: State, m: State, s': State, step: Step)
    requires Reaches(c, s, m) && Next(c, m, s', step) && !step.Confirm?
    ensures Reaches(c, s, s')
  {
    var states, steps :| Connects(c, s, m, states, steps);
    assert Connects(c, s, s', states + [s'], steps + [step]);
  }

  lemma Join(c: Config, s: State, m: State, s': State)
    requires Reaches(c, s, m) && Reaches(c, m, s')
    ensures Reaches(c, s, s')
  {
    var states, steps :| Connects(c, m, s', states, steps);
    JoinUpTo(c, s, m, states, steps, |steps|);
  }

  lemma {:induction false} JoinUpTo(c: Config, s: State, m: State, states: seq<State>, steps: seq<Step>, n: nat)
    requires Reaches(c, s, m) && Path(c, states, steps) && states[0] == m && n <= |steps|
    ensures Reaches(c, s, states[n])
  {
    if n > 0 {
      JoinUpTo(c, s, m, states, steps, n - 1);
      Extend(c, s, states[n - 1], states[n], steps[n - 1]);
    }
  }

  /******* From the deletion to the release *******/

  function PruneEvent(p: Pod, uid: int, at: int): Event {
    Event("Pod", REASON_CCACHE_PRUNED, p, None, PrunedMessage(uid), Some(uid), at, ZERO_TIME, at)
  }

  ghost function PruneEvents(ps: seq<Pod>, uid: int, at: int): seq<Event> {
    seq(|ps|, i requires 0 <= i < |ps| => PruneEvent(ps[i], uid, at))
  }

  ghost function Deleted(s: State): State { s.(deleted := Some(s.now), views := s.views + [GONE], shared := false) }

  ghost predicate Confirmable(c: Config, m: State, visible: seq<Event>) {
    Next(c, m, m.(released := true), Confirm(visible, |c.pods|))
  }

  lemma CanConfirm(c: Config, m: State, visible: seq<Event>, at: int)
    requires m.deleted == Some(at) && !m.released && c.pods != {}
    requires (forall ev :: ev in visible ==> ev in m.events) && c.pods <= ConfirmedPods(visible, c.uid, at)
    ensures Confirmable(c, m, visible)
  {
    var pods := ConfirmedPods(visible, c.uid, at);
    assert pods == c.pods + (pods - c.pods);
  }

  /** The deletion in `s`, whatever leads to `m`, and a confirmation there. */
  lemma ReleaseAt(c: Config, s: State, m: State, visible: seq<Event>) returns (states: seq<State>, steps: seq<Step>, i: int)
    requires Init(c, s) && Reaches(c, Deleted(s), m) && Confirmable(c, m, visible) && !m.shared
    ensures DeletesIn(s, states, steps) && ReleasesAt(c, states, steps, i) && states[i] == m
  {
    var mid, between :| Connects(c, Deleted(s), m, mid, between);
    var end, n := m.(released := true), |between| + 1;
    states, steps, i := [s] + mid + [end], [Delete(GONE)] + between + [Confirm(visible, |c.pods|)], n;
    assert Next(c, s, Deleted(s), Delete(GONE));
    assert states[0] == s && states[1] == mid[0] == Deleted(s) && states[n] == mid[n - 1] == m && states[n + 1] == end;
    forall j | 0 <= j < |steps| ensures Next(c, states[j], states[j + 1], steps[j]) && (steps[j].Confirm? ==> j == n) {
      if 0 < j < n { assert states[j] == mid[j - 1] && states[j + 1] == mid[j] && steps[j] == between[j - 1]; }
    }
    assert states[n] == m && steps[n] == Confirm(visible, |c.pods|);
  }

  lemma EarlyRelease(c: Config, s: State, m: State, visible: seq<Event>, p: Pod)
    requires Init(c, s) && Reaches(c, Deleted(s), m) && Confirmable(c, m, visible) && !m.shared && HoldsFile(m, p)
    ensures CanReleaseEarly(c, s)
  {
    var states, steps, i := ReleaseAt(c, s, m, visible);
  }

  lemma AllConfirm(c: Config, ps: seq<Pod>, m: int, at: int)
    requires Format(c.uid) <= Format(m) && at != ZERO_TIME
    ensures forall p :: p in ps ==> p in ConfirmedPods(PruneEvents(ps, m, at), c.uid, at)
  {
    var visible := PruneEvents(ps, m, at);
    TokenIff(m, c.uid);
    forall p | p in ps ensures p in ConfirmedPods(visible, c.uid, at) {
      var i :| 0 <= i < |ps| && ps[i] == p;
      assert visible[i] in visible && Confirms(visible[i], c.uid, at);
    }
  }

  /******* UIDs with a common decimal prefix *******/

  lemma {:induction false} OthersPruned(c: Config, s: State, ps: seq<Pod>, m: int, at: int) returns (s': State)
    requires (forall p :: p in ps ==> p in c.pods) && m in c.others
    ensures Reaches(c, s, s') && s' == s.(events := s'.events)
    ensures forall p :: p in ps ==> PruneEvent(p, m, at) in s'.events
  {
    s' := s;
    if ps == [] {
      Stay(c, s);
    } else {
      var n := |ps| - 1;
      var mid := OthersPruned(c, s, ps[..n], m, at);
      var ev := PruneEvent(ps[n], m, at);
      assert IsPurgeEvent(ev, ps[n], m);
      s' := mid.(events := mid.events + {ev});
      Extend(c, s, mid, s', PruneOther(ev));
    }
  }

  /** If another UID's decimal form starts with this one's, its prunes can release any principal whose file is still there. */
  lemma PrefixMisleads(c: Config, s: State, ps: seq<Pod>, m: int, p: Pod)
    requires Init(c, s) && s.now != ZERO_TIME && c.pods == (set q | q in ps)
    requires m in c.others && Format(c.uid) <= Format(m) && HoldsFile(s, p)
    ensures CanReleaseEarly(c, s)
  {
    var visible := PruneEvents(ps, m, s.now);
    var late := OthersPruned(c, Deleted(s), ps, m, s.now);
    AllConfirm(c, ps, m, s.now);
    CanConfirm(c, late, visible, s.now);
    EarlyRelease(c, s, late, visible, p);
  }

  /******* The operator catches up *******/

  /** It publishes the views from `k` on, one by one. */
  lemma {:induction false} PublishViews(c: Config, s: State, k: nat) returns (s': State)
    requires s.listed.None? && s.cached <= k <= |s.views| && s.cached < |s.views|
    ensures Reaches(c, s, s') && s'.cached < |s.views| && s' == s.(rosters := s.rosters + s.views[k..], cached := s'.cached)
    decreases |s.views| - k
  {
    s' := s;
    Stay(c, s);
    if k == |s.views| {
      assert s.rosters + s.views[k..] == s.rosters;
    } else {
      var read := s.(cached := k, listed := Some(s.views[k]));
      var written := read.(rosters := s.rosters + [s.views[k]], listed := None);
      Extend(c, s, s, read, List(k));
      Extend(c, s, read, written, Publish);
      s' := PublishViews(c, written, k + 1);
      Join(c, s, written, s');
      assert s.views[k..] == [s.views[k]] + s.views[k + 1..];
    }
  }

  lemma PublishAll(c: Config, s: State) returns (s': State)
    requires s.cached < |s.views|
    ensures Reaches(c, s, s') && s'.cached < |s.views|
    ensures s' == s.(rosters := Timeline(s), listed := None, cached := s'.cached)
  {
    var written := s;
    Stay(c, s);
    if s.listed.Some? {
      written := s.(rosters := s.rosters + [s.listed.value], listed := None);
      Extend(c, s, s, written, Publish);
    }
    s' := PublishViews(c, written, written.cached);
    Join(c, s, written, s');
  }

  /******* What one pod can do *******/

  ghost function WithPod(s: State, p: Pod, ps: PodState): State { s.(pods := s.pods[p := ps]) }

  /** The pod exists and stands within the published rosters. */
  ghost predicate Placed(s: State, p: Pod) {
    p in s.pods && s.pods[p].mounted < |s.rosters| && (s.pods[p].sweeping.Some? ==> s.pods[p].sweeping.value <= s.pods[p].mounted)
  }

  ghost predicate AppliesAt(s: State, p: Pod, v: nat) { v < |s.rosters| && p in s.rosters[v].applies }

  const BOTH := Bits(true, true)

  /** A pod that ends its sweep without anything to remove, or is between sweeps. */
  lemma Rest(c: Config, s: State, p: Pod) returns (s': State)
    requires Placed(s, p) && (s.pods[p].sweeping.None? || s.pods[p].bits != BOTH || AppliesAt(s, p, s.pods[p].sweeping.value))
    ensures Reaches(c, s, s') && p in s'.pods && s' == WithPod(s, p, PodState(s.pods[p].mounted, None, s'.pods[p].bits))
    ensures s'.pods[p].bits.file == s.pods[p].bits.file && (s.pods[p].bits == BOTH ==> s'.pods[p].bits == BOTH)
  {
    Stay(c, s);
    var ps := s.pods[p];
    var bits := if ps.sweeping.None? || AppliesAt(s, p, ps.sweeping.value) then ps.bits else Bits(false, ps.bits.file);
    s' := WithPod(s, p, PodState(ps.mounted, None, bits));
    if ps.sweeping.Some? {
      Extend(c, s, s, s', End(p, bits, false, None));
    } else {
      assert s'.pods == s.pods;
    }
  }

  /** A pod between sweeps mounts version `v`. */
  lemma GoTo(c: Config, s: State, p: Pod, v: nat) returns (s': State)
    requires p in s.pods && s.pods[p].sweeping.None? && s.pods[p].mounted <= v < |s.rosters|
    ensures Reaches(c, s, s') && s' == WithPod(s, p, PodState(v, None, s.pods[p].bits))
  {
    Stay(c, s);
    s' := WithPod(s, p, PodState(v, None, s.pods[p].bits));
    if s.pods[p].mounted < v { Extend(c, s, s, s', Mount(p, v)); } else { assert s'.pods == s.pods; }
  }

  /** It starts a sweep there. */
  lemma SweepAt(c: Config, s: State, p: Pod, v: nat) returns (s': State)
    requires p in s.pods && s.pods[p].sweeping.None? && s.pods[p].mounted <= v < |s.rosters|
    ensures Reaches(c, s, s') && s' == WithPod(s, p, PodState(v, Some(v), s.pods[p].bits))
  {
    var there := GoTo(c, s, p, v);
    s' := WithPod(s, p, PodState(v, Some(v), s.pods[p].bits));
    assert WithPod(there, p, PodState(v, Some(v), s.pods[p].bits)) == s';
    Extend(c, s, there, s', Begin(p));
  }

  /** The pod has removed the file and got its Event through. */
  ghost predicate PrunedBy(c: Config, s: State, s': State, p: Pod) {
    && s.deleted.Some? && p in s.pods && p in s'.pods
    && s' == s.(pods := s.pods[p := PodState(s'.pods[p].mounted, None, Bits(false, false))],
                events := s.events + {PruneEvent(p, c.uid, s.deleted.value)}, pruned := s.pruned + {p})
  }

  /** It prunes at the end of the sweep it is in. */
  lemma PruneHere(c: Config, s: State, p: Pod) returns (s': State)
    requires Placed(s, p) && s.pods[p].bits == BOTH && s.deleted.Some?
    requires s.pods[p].sweeping.Some? && !AppliesAt(s, p, s.pods[p].sweeping.value)
    ensures Reaches(c, s, s') && PrunedBy(c, s, s', p) && s'.pods[p].mounted == s.pods[p].mounted
  {
    var ev, gone := PruneEvent(p, c.uid, s.deleted.value), Bits(false, false);
    s' := s.(pods := s.pods[p := PodState(s.pods[p].mounted, None, gone)], events := s.events + {ev}, pruned := s.pruned + {p});
    Stay(c, s);
    assert IsPurgeEvent(ev, p, c.uid);
    Extend(c, s, s, s', End(p, gone, true, Some(ev)));
  }

  /** Between sweeps, it goes to a version that does not apply and prunes. */
  lemma PruneAt(c: Config, s: State, p: Pod, v: nat) returns (s': State)
    requires p in s.pods && s.pods[p].sweeping.None? && s.pods[p].bits == BOTH && s.deleted.Some?
    requires s.pods[p].mounted <= v < |s.rosters| && !AppliesAt(s, p, v)
    ensures Reaches(c, s, s') && PrunedBy(c, s, s', p) && s'.pods[p].mounted == v
  {
    var there := SweepAt(c, s, p, v);
    s' := PruneHere(c, there, p);
    Join(c, s, there, s');
    assert s'.pods == s.pods[p := PodState(v, None, Bits(false, false))];
  }

  /** A pod that manages the file and has it prunes by version `last` at the latest. */
  lemma PruneBy(c: Config, s: State, p: Pod, last: nat) returns (s': State)
    requires Placed(s, p) && s.pods[p].bits == BOTH && s.deleted.Some? && s.pods[p].mounted <= last < |s.rosters| && s.rosters[last] == GONE
    ensures Reaches(c, s, s') && PrunedBy(c, s, s', p) && s'.pods[p].mounted <= last
  {
    if s.pods[p].sweeping.Some? && !AppliesAt(s, p, s.pods[p].sweeping.value) {
      s' := PruneHere(c, s, p);
    } else {
      var idle := Rest(c, s, p);
      s' := PruneAt(c, idle, p, last);
      Join(c, s, idle, s');
      assert s'.pods == s.pods[p := PodState(last, None, Bits(false, false))];
    }
  }

  /** A pod mints at a version it may still act on. */
  lemma MintAt(c: Config, s: State, p: Pod, v: nat) returns (s': State)
    requires Placed(s, p) && Ahead(s.pods[p], v) && AppliesAt(s, p, v)
    requires s.pods[p].bits != BOTH || s.pods[p].sweeping.None?
    ensures Reaches(c, s, s') && p in s'.pods && s' == WithPod(s, p, s'.pods[p]) && Placed(s', p)
    ensures s'.pods[p].bits == BOTH && s'.pods[p].mounted <= (if s.pods[p].mounted <= v then v else s.pods[p].mounted)
  {
    if s.pods[p].sweeping.Some? && s.pods[p].sweeping.value == v {
      Stay(c, s);
      s' := WithPod(s, p, s.pods[p].(bits := BOTH));
      Extend(c, s, s, s', Mint(p, BOTH));
    } else {
      var idle := Rest(c, s, p);
      var there := SweepAt(c, idle, p, v);
      Join(c, s, idle, there);
      s' := WithPod(s, p, PodState(v, Some(v), BOTH));
      assert WithPod(there, p, PodState(v, Some(v), BOTH)) == s';
      Extend(c, s, there, s', Mint(p, BOTH));
    }
  }

  /** A pod that has the file adopts it at a version that lists the UID. */
  lemma AdoptAt(c: Config, s: State, p: Pod, v: nat) returns (s': State)
    requires Placed(s, p) && s.pods[p].bits.file && s.pods[p].bits != BOTH && s.pods[p].mounted <= v < |s.rosters| && s.rosters[v].listed
    ensures Reaches(c, s, s') && s' == WithPod(s, p, PodState(v, None, BOTH))
  {
    var idle := Rest(c, s, p);
    var there := GoTo(c, idle, p, v);
    Join(c, s, idle, there);
    s' := WithPod(s, p, PodState(v, None, BOTH));
    assert WithPod(there, p, PodState(v, None, BOTH)) == s';
    Extend(c, s, there, s', Restart(p, false));
  }

  /******* All pods *******/

  /**
   The pod can come to remove the file: it has it and manages it, or a version it may still act on lets it mint, or it has
   the file and a version still to be mounted lets a restart adopt it.
   */
  ghost predicate CanPrune(t: seq<Version>, ps: PodState, p: Pod) {
    || ps.bits == BOTH
    || (exists v :: Ahead(ps, v) && v < |t| && p in t[v].applies)
    || (ps.bits.file && exists v :: ps.mounted <= v < |t| && t[v].listed)
  }

  lemma GetReady(c: Config, s: State, p: Pod, last: nat) returns (ready: State)
    requires Placed(s, p) && s.pods[p].bits != BOTH && last + 1 == |s.rosters| && CanPrune(s.rosters[..last], s.pods[p], p)
    ensures Reaches(c, s, ready) && p in ready.pods && ready == WithPod(s, p, ready.pods[p])
    ensures Placed(ready, p) && ready.pods[p].bits == BOTH
  {
    if v :| Ahead(s.pods[p], v) && v < last && p in s.rosters[..last][v].applies {
      ready := MintAt(c, s, p, v);
    } else {
      var v :| s.pods[p].mounted <= v < last && s.rosters[..last][v].listed;
      ready := AdoptAt(c, s, p, v);
    }
  }

  lemma PruneSomehow(c: Config, s: State, p: Pod, last: nat) returns (s': State)
    requires ReadyToPrune(s, p, last)
    ensures Reaches(c, s, s') && PrunedBy(c, s, s', p)
  {
    if s.pods[p].bits == BOTH {
      s' := PruneBy(c, s, p, last);
    } else {
      var ready := GetReady(c, s, p, last);
      s' := PruneBy(c, ready, p, last);
      Join(c, s, ready, s');
      assert s'.pods == s.pods[p := s'.pods[p]];
    }
  }

  /** From `s` to `s'` the pods of `ps` have pruned, if their Event was not there yet, and nothing else has happened. */
  ghost predicate HavePruned(c: Config, s: State, s': State, ps: seq<Pod>, at: int) {
    && s' == s.(pods := s'.pods, events := s'.events, pruned := s'.pruned) && s.events <= s'.events && s'.pods.Keys == s.pods.Keys
    && (forall p :: p in ps ==> PruneEvent(p, c.uid, at) in s'.events)
    && (forall p :: p in s.pods && (p !in ps || PruneEvent(p, c.uid, at) in s.events) ==> s'.pods[p] == s.pods[p])
    && (forall p :: p in s.pods && PruneEvent(p, c.uid, at) !in s'.events ==> s'.pods[p] == s.pods[p])
  }

  lemma NonePruned(c: Config, s: State, at: int)
    ensures HavePruned(c, s, s, [], at)
  {
  }

  lemma OneMore(c: Config, s: State, mid: State, s': State, ps: seq<Pod>, p: Pod, at: int)
    requires HavePruned(c, s, mid, ps, at) && mid.deleted == Some(at) && p in s.pods
    requires if PruneEvent(p, c.uid, at) in mid.events then s' == mid else PrunedBy(c, mid, s', p)
    ensures HavePruned(c, s, s', ps + [p], at)
  {
  }

  ghost predicate ReadyToPrune(s: State, p: Pod, last: nat) {
    && last + 1 == |s.rosters| && s.rosters[last] == GONE && s.deleted.Some?
    && Placed(s, p) && CanPrune(s.rosters[..last], s.pods[p], p)
  }

  lemma PruneNext(c: Config, s: State, mid: State, ps: seq<Pod>, p: Pod, last: nat, at: int) returns (s': State)
    requires s.deleted == Some(at) && ReadyToPrune(s, p, last) && Reaches(c, s, mid) && HavePruned(c, s, mid, ps, at)
    ensures Reaches(c, s, s') && HavePruned(c, s, s', ps + [p], at)
  {
    s' := mid;
    if PruneEvent(p, c.uid, at) !in mid.events {
      assert mid.pods[p] == s.pods[p] && mid.rosters == s.rosters && mid.deleted == s.deleted;
      s' := PruneSomehow(c, mid, p, last);
      Join(c, s, mid, s');
    }
    OneMore(c, s, mid, s', ps, p, at);
  }

  lemma {:induction false} PruneAll(c: Config, s: State, ps: seq<Pod>, last: nat, at: int) returns (s': State)
    requires s.deleted == Some(at) && forall p :: p in ps ==> ReadyToPrune(s, p, last)
    ensures Reaches(c, s, s') && HavePruned(c, s, s', ps, at)
  {
    if ps == [] {
      s' := s;
      Stay(c, s);
      NonePruned(c, s, at);
    } else {
      var n := |ps| - 1;
      var mid := PruneAll(c, s, ps[..n], last, at);
      assert ps[n] in ps && ps == ps[..n] + [ps[n]];
      s' := PruneNext(c, s, mid, ps[..n], ps[n], last, at);
    }
  }

  /** The deletion has happened in `s` and everything is published; pods may have moved since. */
  ghost predicate CaughtUp(c: Config, s: State, m: State) {
    && Init(c, s) && m.rosters == Timeline(s) + [GONE] && m.deleted == Some(s.now) && !m.released && !m.shared && m.pods.Keys == s.pods.Keys
  }

  lemma CatchUp(c: Config, s: State) returns (m: State)
    requires Init(c, s)
    ensures Reaches(c, Deleted(s), m) && CaughtUp(c, s, m) && m.pods == s.pods && m.events == s.events
  {
    m := PublishAll(c, Deleted(s));
    assert Timeline(Deleted(s)) == Timeline(s) + [GONE];
  }

  lemma PodIsReady(c: Config, s: State, m: State, p: Pod)
    requires CaughtUp(c, s, m) && p in s.pods && m.pods[p] == s.pods[p] && CanPrune(Timeline(s), s.pods[p], p)
    ensures ReadyToPrune(m, p, |Timeline(s)|)
  {
    assert m.rosters[..|Timeline(s)|] == Timeline(s);
  }

  /******* Which deletions Events can confirm *******/

  /** Every pod can: then so can the deletion. */
  lemma PrunersConfirm(c: Config, s: State, ps: seq<Pod>)
    requires Init(c, s) && s.now != ZERO_TIME && c.pods == (set p | p in ps) && c.pods != {}
    requires forall p :: p in c.pods ==> CanPrune(Timeline(s), s.pods[p], p)
    ensures CanRelease(c, s)
  {
    var t, visible := Timeline(s), PruneEvents(ps, c.uid, s.now);
    var all := CatchUp(c, s);
    forall p | p in ps ensures ReadyToPrune(all, p, |t|) { PodIsReady(c, s, all, p); }
    var done := PruneAll(c, all, ps, |t|, s.now);
    Join(c, Deleted(s), all, done);
    AllConfirm(c, ps, c.uid, s.now);
    CanConfirm(c, done, visible, s.now);
    var states, steps, i := ReleaseAt(c, s, done, visible);
  }

  /** A pod that cannot, and has not. */
  ghost predicate Barren(s: State, p: Pod) {
    s.cached <= |s.views| && p in s.pods && p !in s.pruned && !CanPrune(Timeline(s), s.pods[p], p)
  }

  lemma BarrenCannot(c: Config, s: State, p: Pod)
    requires Shape(c, s) && Barren(s, p)
    ensures s.pods[p].sweeping.Some? ==> p !in s.rosters[s.pods[p].sweeping.value].applies
    ensures s.pods[p].bits.file ==> !s.rosters[s.pods[p].mounted].listed
  {
    var t, ps := Timeline(s), s.pods[p];
    assert forall v :: 0 <= v < |s.rosters| ==> t[v] == s.rosters[v];
    assert ps.sweeping.Some? ==> Ahead(ps, ps.sweeping.value);
  }

  /** The pod's own step does not get it the file, nor both bits, nor a removal. */
  lemma BarrenOwnStep(c: Config, s: State, s': State, step: Step)
    requires Shape(c, s) && IsPodStep(step) && Next(c, s, s', step) && Barren(s, step.pod)
    ensures step.pod in s'.pods && s'.pods[step.pod].bits != BOTH && (s'.pods[step.pod].bits.file ==> s.pods[step.pod].bits.file)
    ensures s'.pruned == s.pruned
  {
    BarrenCannot(c, s, step.pod);
  }

  lemma BarrenBits(c: Config, s: State, s': State, step: Step, p: Pod)
    requires Shape(c, s) && Next(c, s, s', step) && Barren(s, p)
    ensures p in s'.pods && p !in s'.pruned && s'.pods[p].bits != BOTH && (s'.pods[p].bits.file ==> s.pods[p].bits.file)
  {
    if IsPodStep(step) && step.pod == p {
      BarrenOwnStep(c, s, s', step);
    } else if IsPodStep(step) {
      OnePodAdvances(c, s, s', step);
    } else {
      assert s'.pods == s.pods && s'.pruned == s.pruned;
    }
  }

  /** It stays so, as long as nobody else gets the UID. */
  lemma BarrenStep(c: Config, s: State, s': State, step: Step, p: Pod)
    requires Shape(c, s) && Next(c, s, s', step) && s'.deleted.Some? && !s'.shared && Barren(s, p)
    ensures Shape(c, s') && Barren(s', p)
  {
    var f, n := StepMoves(c, s, s', step);
    BarrenBits(c, s, s', step, p);
    BarrenMoves(Timeline(s), Timeline(s'), s.pods[p], s'.pods[p], f, n, p);
  }

  lemma BarrenMoves(t: seq<Version>, t': seq<Version>, ps: PodState, ps': PodState, f: int -> int, n: nat, p: Pod)
    requires Moves(t, t', ps, ps', f, n) && ps'.bits != BOTH && (ps'.bits.file ==> ps.bits.file)
    ensures CanPrune(t', ps', p) ==> CanPrune(t, ps, p)
  {
    if v :| Ahead(ps', v) && v < |t'| && p in t'[v].applies {
      assert v < n && Ahead(ps, f(v)) && p in t[f(v)].applies;
    } else if ps'.bits.file {
      if v :| ps'.mounted <= v < |t'| && t'[v].listed {
        assert v < n && Ahead(ps', v) && ps.mounted <= f(v) < |t| && t[f(v)].listed;
      }
    }
  }

  lemma {:induction false} DeletedOnce(c: Config, states: seq<State>, steps: seq<Step>, i: nat)
    requires Run(c, states, steps) && steps != [] && steps[0].Delete? && 0 < i < |states|
    ensures states[i].deleted.Some? && (i < |steps| ==> !steps[i].Delete?)
  {
    assert Next(c, states[i - 1], states[i], steps[i - 1]);
    if i > 1 { DeletedOnce(c, states, steps, i - 1); }
    if i < |steps| { assert Next(c, states[i], states[i + 1], steps[i]); }
  }

  lemma {:induction false} StaysBarren(c: Config, states: seq<State>, steps: seq<Step>, p: Pod, i: nat)
    requires Run(c, states, steps) && steps != [] && steps[0].Delete? && i < |states| && !states[i].shared && Barren(states[0], p)
    ensures Shape(c, states[i]) && Barren(states[i], p)
  {
    if i > 0 {
      DeletedOnce(c, states, steps, i);
      if i > 1 { DeletedOnce(c, states, steps, i - 1); }
      NotSharedBefore(c, states[i - 1], states[i], steps[i - 1]);
      StaysBarren(c, states, steps, p, i - 1);
      BarrenStep(c, states[i - 1], states[i], steps[i - 1], p);
    }
  }

  lemma NotSharedBefore(c: Config, s: State, s': State, step: Step)
    requires Next(c, s, s', step) && !s'.shared
    ensures step.Delete? || !s.shared
  {
  }

  lemma BarrenBlocks(c: Config, s: State, p: Pod, states: seq<State>, steps: seq<Step>, i: int)
    requires PrefixFree(c) && StampsPast(c, s) && Barren(s, p) && p in c.pods && DeletesIn(s, states, steps)
    ensures !ReleasesAt(c, states, steps, i)
  {
    if ReleasesAt(c, states, steps, i) {
      forall j | 0 <= j < |steps| && steps[j].Delete? ensures StampsPast(c, states[j]) { if j > 0 { DeletedOnce(c, states, steps, j); } }
      assert Next(c, states[i], states[i + 1], steps[i]);
      StaysBarren(c, states, steps, p, i);
      ConfirmedMeansPruned(c, states, steps, i);
    }
  }

  /**
   Exactly which deletions Events can confirm: those where every pod can still come to remove the file. One pod that a
   selector keeps the principal off, without a file, is enough to make the deletion wait for its deadline.
   */
  lemma ConfirmableIff(c: Config, s: State, ps: seq<Pod>)
    requires Init(c, s) && s.now != ZERO_TIME && c.pods == (set p | p in ps) && c.pods != {} && PrefixFree(c) && StampsPast(c, s)
    ensures CanRelease(c, s) <==> forall p :: p in c.pods ==> CanPrune(Timeline(s), s.pods[p], p)
  {
    if p :| p in c.pods && !CanPrune(Timeline(s), s.pods[p], p) {
      forall states, steps, i | DeletesIn(s, states, steps) ensures !ReleasesAt(c, states, steps, i) {
        BarrenBlocks(c, s, p, states, steps, i);
      }
    } else {
      PrunersConfirm(c, s, ps);
    }
  }

  /******* Early releases *******/

  /** Every pod manages the file and has it. */
  ghost predicate AllHold(c: Config, s: State) { forall p :: p in c.pods ==> p in s.pods && s.pods[p].bits == BOTH }

  lemma EventsThere(ps: seq<Pod>, uid: int, at: int, events: set<Event>)
    requires forall p :: p in ps ==> PruneEvent(p, uid, at) in events
    ensures forall ev :: ev in PruneEvents(ps, uid, at) ==> ev in events
  {
  }

  lemma EarlyStamp(c: Config, s: State) returns (ev: Event)
    requires Init(c, s) && !StampsPast(c, s)
    ensures ev in s.events && StampedSince(ev, s.now) && ev.pod in c.pods && IsPurgeEvent(ev, ev.pod, c.uid)
  {
    ev :| ev in s.events && IsPurgeEvent(ev, ev.pod, c.uid) && StampedSince(ev, s.now);
    assert Known(c, ev);
  }

  /** All pods but one prune. */
  lemma OthersPrune(c: Config, s: State, ps: seq<Pod>, q: Pod) returns (done: State)
    requires Init(c, s) && c.pods == (set p | p in ps) && AllHold(c, s) && q in c.pods
    ensures Reaches(c, Deleted(s), done) && done.deleted == Some(s.now) && !done.released && !done.shared && s.events <= done.events
    ensures forall p :: p in Dropping(ps, q) ==> PruneEvent(p, c.uid, s.now) in done.events
    ensures HoldsFile(done, q)
  {
    var t, others := Timeline(s), Dropping(ps, q);
    DroppingMembers(ps, q);
    var all := CatchUp(c, s);
    forall p | p in others ensures ReadyToPrune(all, p, |t|) { PodIsReady(c, s, all, p); }
    done := PruneAll(c, all, others, |t|, s.now);
    Join(c, Deleted(s), all, done);
  }

  /** One pod's own Event, stamped at the deletion's second, stands in for its prune while the others prune. */
  lemma OneStampMisleads(c: Config, s: State, ps: seq<Pod>)
    requires Init(c, s) && s.now != ZERO_TIME && c.pods == (set p | p in ps) && AllHold(c, s) && !StampsPast(c, s)
    ensures CanReleaseEarly(c, s)
  {
    var ev := EarlyStamp(c, s);
    var done := OthersPrune(c, s, ps, ev.pod);
    var visible := [ev] + PruneEvents(Dropping(ps, ev.pod), c.uid, s.now);
    StampStandsIn(c, ps, ev, ev.pod, s.now);
    EventsThere(Dropping(ps, ev.pod), c.uid, s.now, done.events);
    ConfirmAndRelease(c, s, done, visible, ev.pod);
  }

  lemma ConfirmAndRelease(c: Config, s: State, m: State, visible: seq<Event>, q: Pod)
    requires Init(c, s) && Reaches(c, Deleted(s), m) && m.deleted == Some(s.now) && !m.released && !m.shared && HoldsFile(m, q) && c.pods != {}
    requires (forall ev :: ev in visible ==> ev in m.events) && c.pods <= ConfirmedPods(visible, c.uid, s.now)
    ensures CanReleaseEarly(c, s)
  {
    CanConfirm(c, m, visible, s.now);
    EarlyRelease(c, s, m, visible, q);
  }

  lemma StampStandsIn(c: Config, ps: seq<Pod>, ev: Event, q: Pod, at: int)
    requires c.pods == (set p | p in ps) && at != ZERO_TIME && StampedSince(ev, at) && IsPurgeEvent(ev, q, c.uid)
    ensures c.pods <= ConfirmedPods([ev] + PruneEvents(Dropping(ps, q), c.uid, at), c.uid, at)
  {
    var rest := PruneEvents(Dropping(ps, q), c.uid, at);
    DroppingMembers(ps, q);
    AllConfirm(c, Dropping(ps, q), c.uid, at);
    TokenIff(c.uid, c.uid);
    assert ([ev] + rest)[0] == ev && Confirms(ev, c.uid, at);
    assert forall e :: e in rest ==> e in [ev] + rest;
  }

  /** The first prune, where the UID is away. */
  lemma PrunesOnce(c: Config, s: State, q: Pod, v: nat) returns (once: State)
    requires Init(c, s) && q in s.pods && s.pods[q].bits == BOTH && Ahead(s.pods[q], v) && v < |Timeline(s)| && q !in Timeline(s)[v].applies
    ensures Reaches(c, Deleted(s), once) && CaughtUp(c, s, once) && PruneEvent(q, c.uid, s.now) in once.events
    ensures forall p :: p in s.pods && p != q ==> once.pods[p] == s.pods[p]
    ensures once.pods[q].sweeping.None? && once.pods[q].bits == Bits(false, false)
    ensures once.pods[q].mounted <= (if s.pods[q].mounted <= v then v else s.pods[q].mounted)
  {
    var all := CatchUp(c, s);
    assert Timeline(s)[v] == all.rosters[v];
    once := PruneFirst(c, all, q, v);
    Join(c, Deleted(s), all, once);
  }

  /** One pod prunes where the UID is away, the others at the end, and then the first mints where it is back. */
  lemma ComesBack(c: Config, s: State, ps: seq<Pod>, q: Pod, v: nat, w: nat) returns (back: State)
    requires Init(c, s) && c.pods == (set p | p in ps) && AllHold(c, s) && q in c.pods
    requires Ahead(s.pods[q], v) && Ahead(s.pods[q], w) && v < w < |Timeline(s)| && q in Timeline(s)[w].applies && q !in Timeline(s)[v].applies
    ensures Reaches(c, Deleted(s), back) && back.deleted == Some(s.now) && !back.released && !back.shared
    ensures forall p :: p in ps ==> PruneEvent(p, c.uid, s.now) in back.events
    ensures HoldsFile(back, q)
  {
    var t, others := Timeline(s), Dropping(ps, q);
    DroppingMembers(ps, q);
    var once := PrunesOnce(c, s, q, v);
    forall p | p in others ensures ReadyToPrune(once, p, |t|) { PodIsReady(c, s, once, p); }
    var done := PruneAll(c, once, others, |t|, s.now);
    Join(c, Deleted(s), once, done);
    assert done.pods[q] == once.pods[q] && done.rosters == t + [GONE];
    back := MintAt(c, done, q, w);
    Join(c, Deleted(s), done, back);
  }

  /** It prunes at `v`, or already in the sweep it is in. */
  lemma PruneFirst(c: Config, s: State, q: Pod, v: nat) returns (s': State)
    requires Placed(s, q) && s.pods[q].bits == BOTH && s.deleted.Some? && Ahead(s.pods[q], v) && v < |s.rosters| && !AppliesAt(s, q, v)
    ensures Reaches(c, s, s') && PrunedBy(c, s, s', q) && s'.pods[q].mounted <= (if s.pods[q].mounted <= v then v else s.pods[q].mounted)
  {
    if s.pods[q].sweeping.Some? && !AppliesAt(s, q, s.pods[q].sweeping.value) {
      s' := PruneHere(c, s, q);
    } else {
      var idle := Rest(c, s, q);
      s' := PruneAt(c, idle, q, v);
      Join(c, s, idle, s');
      assert s'.pods == s.pods[q := PodState(v, None, Bits(false, false))];
    }
  }

  lemma Comeback(s: State) returns (q: Pod, v: nat, w: nat)
    requires s.cached <= |s.views| && !Settled(s)
    ensures q in s.pods && Ahead(s.pods[q], v) && Ahead(s.pods[q], w) && v < w < |Timeline(s)|
    ensures q in Timeline(s)[w].applies && q !in Timeline(s)[v].applies
  {
    var t := Timeline(s);
    q :| q in s.pods && !NoComeback(t, s.pods[q], q);
    v, w :| Ahead(s.pods[q], v) && Ahead(s.pods[q], w) && v < w < |t| && q in t[w].applies && q !in t[v].applies;
  }

  /** Wherever the cluster is not settled, one pod can prune, confirm and mint again before the release. */
  lemma UnsettledMisleads(c: Config, s: State, ps: seq<Pod>)
    requires Init(c, s) && s.now != ZERO_TIME && c.pods == (set p | p in ps) && AllHold(c, s) && !Settled(s)
    ensures CanReleaseEarly(c, s)
  {
    var q, v, w := Comeback(s);
    var back := ComesBack(c, s, ps, q, v, w);
    AllConfirm(c, ps, c.uid, s.now);
    ConfirmAndRelease(c, s, back, PruneEvents(ps, c.uid, s.now), q);
  }

  lemma AssumptionsSuffice(c: Config, s: State, states: seq<State>, steps: seq<Step>, i: int, p: Pod)
    requires PrefixFree(c) && StampsPast(c, s) && Settled(s) && DeletesIn(s, states, steps) && ReleasesAt(c, states, steps, i)
    ensures !HoldsFile(states[i], p)
  {
    forall j | 0 <= j < |steps| && steps[j].Delete? ensures j == 0 { if j > 0 { DeletedOnce(c, states, steps, j); } }
    assert Assumptions(c, states, steps);
    RunInv(c, states, steps, i);
    ConfirmedReleaseIsSafe(c, states, steps, i, i);
  }

  /**
   The assumptions are the exact condition: from any state before the deletion in which every pod holds the file, an early
   release is possible if and only if the cluster is not settled, or a UID around has this one as a decimal prefix, or an
   Event of this UID is already stamped at the deletion.
   */
  lemma EarlyReleaseIff(c: Config, s: State, ps: seq<Pod>)
    requires Init(c, s) && s.now != ZERO_TIME && c.pods == (set p | p in ps) && c.pods != {} && AllHold(c, s)
    ensures CanReleaseEarly(c, s) <==> !Settled(s) || !PrefixFree(c) || !StampsPast(c, s)
  {
    if !Settled(s) {
      UnsettledMisleads(c, s, ps);
    } else if !StampsPast(c, s) {
      OneStampMisleads(c, s, ps);
    } else if m :| m in c.others && Format(c.uid) <= Format(m) {
      PrefixMisleads(c, s, ps, m, ps[0]);
    } else {
      forall states, steps, i, p | DeletesIn(s, states, steps) && ReleasesAt(c, states, steps, i) ensures !HoldsFile(states[i], p) {
        AssumptionsSuffice(c, s, states, steps, i, p);
      }
    }
  }
}
