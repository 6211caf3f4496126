/**
 The purge protocol behind the finalizer: the operator drops a deleted principal from the roster, nodes
 mount newer rosters one after the other, daemons prune and post Events, and the reconciler releases the
 finalizer once every pod has confirmed.

 One UID is followed through a cluster of daemon pods, as a step relation. A step may be taken by the API
 server, the operator, the kubelet of a node, a daemon or the reconciler, in any order.
 */
module Purge {
  import opened Common
  import opened Text
  import opened Events
  import opened Finalizer

  type Pod = string

  /** One roster, as far as the UID goes: whether it has a line, and on which pods' nodes the line applies. */
  datatype Version = Version(listed: bool, applies: set<Pod>)

  const GONE := Version(false, {})

  /** A daemon's view of the UID: whether it is managed, and whether its cache file is on the node. */
  datatype Bits = Bits(managed: bool, file: bool)

  /** The mounted version; the version a running sweep has read; and the daemon's bits. */
  datatype PodState = PodState(mounted: nat, sweeping: Option<nat>, bits: Bits)

  /** The UID under deletion, the pods of the DaemonSet, and the UIDs of the other principals around. */
  datatype Config = Config(uid: int, pods: set<Pod>, others: set<int>)

  /**
   `views` are the rosters the objects in the cluster have called for, and `cached` the latest one that has reached
   the operator's cache; `listed` is one it has read from there and not written yet. `pruned` are the pods that
   removed the file since the deletion, and `shared` says that another principal has had the UID since then.
   */
  datatype State = State(now: int, deleted: Option<int>, views: seq<Version>, cached: nat, listed: Option<Version>, rosters: seq<Version>,
                         pods: map<Pod, PodState>, events: set<Event>, pruned: set<Pod>, released: bool, shared: bool)

  /******* A daemon's sweep, seen from one UID *******/

  /** A mint attempt, with any outcome. */
  ghost predicate MintStep(pre: Bits, post: Bits) {
    && (pre.file ==> post.file) && (pre.managed ==> post.managed) && (post.managed && !pre.managed ==> post.file)
  }

  /** The prune at the end of a sweep. A removal that fails only loses the management. */
  ghost predicate EndStep(applies: bool, pre: Bits, post: Bits, removed: bool) {
    if removed then !applies && pre.managed && pre.file && post == Bits(false, false)
    else post.file == pre.file && (post.managed ==> pre.managed) && (applies ==> post == pre)
  }

  /******* Steps *******/

  datatype Step =
    | Tick(to: int)                            // time passes
    | Change(view: Version)                    // objects change, and call for another roster
    | List(index: nat)                         // the operator lists the principals in its cache
    | Publish                                  // and writes the roster it built from the list
    | Abandon                                  // or does not: the write fails, or looks needless to it
    | Mount(pod: Pod, version: nat)            // a kubelet projects a newer roster
    | Begin(pod: Pod)                          // a daemon reads its roster
    | Mint(pod: Pod, bits: Bits)               // tries to mint the UID
    | End(pod: Pod, bits: Bits, removed: bool, posted: Option<Event>)  // prunes, and may get an Event through for a file it removed
    | Restart(pod: Pod, alias: bool)           // a daemon process starts over and adopts
    | PruneOther(ev: Event)                    // a daemon prunes another UID
    | Noise(ev: Event)                         // somebody posts an Event that is no prune: of a mint, a failure, anything
    | Delete(view: Version)                    // the principal is deleted
    | Confirm(visible: seq<Event>, desired: int)  // the reconciler releases on these Events, for so many scheduled pods
    | GiveUp                                   // it releases for another reason: timeout, no Tenant, no DaemonSet, no pods

  /** A prune Event of a pod, whatever its message. */
  ghost predicate IsPrune(ev: Event) { ev.kind == "Pod" && ev.reason == REASON_CCACHE_PRUNED }

  ghost predicate IsPurgeEvent(ev: Event, pod: Pod, uid: int) {
    IsPrune(ev) && ev.pod == pod && ev.message == PrunedMessage(uid)
  }

  ghost predicate Next(c: Config, s: State, s': State, step: Step) {
    match step
    case Tick(to) => to >= s.now && s' == s.(now := to)
    case Change(v) => s' == s.(views := s.views + [v], shared := s.shared || (s.deleted.Some? && v != GONE))
    case List(k) => s.listed.None? && s.cached <= k < |s.views| && s' == s.(cached := k, listed := Some(s.views[k]))
    case Publish => s.listed.Some? && s' == s.(rosters := s.rosters + [s.listed.value], listed := None)
    case Abandon => s' == s.(listed := None)
    case Mount(p, v) => p in s.pods && s.pods[p].mounted < v < |s.rosters| && s' == s.(pods := s.pods[p := s.pods[p].(mounted := v)])
    case Begin(p) =>
      p in s.pods && s.pods[p].sweeping.None? && s' == s.(pods := s.pods[p := s.pods[p].(sweeping := Some(s.pods[p].mounted))])
    case Mint(p, bits) =>
      && p in s.pods && s.pods[p].sweeping.Some? && s.pods[p].sweeping.value < |s.rosters|
      && p in s.rosters[s.pods[p].sweeping.value].applies && MintStep(s.pods[p].bits, bits)
      && s' == s.(pods := s.pods[p := s.pods[p].(bits := bits)])
    case End(p, bits, removed, posted) =>
      && p in s.pods && s.pods[p].sweeping.Some? && s.pods[p].sweeping.value < |s.rosters|
      && EndStep(p in s.rosters[s.pods[p].sweeping.value].applies, s.pods[p].bits, bits, removed)
      && (posted.Some? ==> removed && IsPurgeEvent(posted.value, p, c.uid))
      && s' == s.(pods := s.pods[p := s.pods[p].(sweeping := None, bits := bits)],
                  events := if posted.Some? then s.events + {posted.value} else s.events,
                  pruned := if removed && s.deleted.Some? then s.pruned + {p} else s.pruned)
    case Restart(p, alias) =>
      // A file named after the UID with leading zeros makes the daemon adopt it as well.
      && p in s.pods && s.pods[p].mounted < |s.rosters|
      && var adopted := (s.pods[p].bits.file || alias) && s.rosters[s.pods[p].mounted].listed;
         s' == s.(pods := s.pods[p := s.pods[p].(sweeping := None, bits := Bits(adopted, s.pods[p].bits.file))])
    case PruneOther(ev) =>
      (exists p, m :: p in c.pods && m in c.others && IsPurgeEvent(ev, p, m)) && s' == s.(events := s.events + {ev})
    case Noise(ev) => !IsPrune(ev) && s' == s.(events := s.events + {ev})
    case Delete(v) =>
      // Nothing calls for the UID any more, unless another principal has it.
      s.deleted.None? && s' == s.(deleted := Some(s.now), views := s.views + [v], shared := v != GONE)
    case Confirm(visible, desired) =>
      && s.deleted.Some? && !s.released && desired > 0 && (forall ev :: ev in visible ==> ev in s.events)
      && |ConfirmedPods(visible, c.uid, s.deleted.value)| >= desired
      && s' == s.(released := true)
    case GiveUp => s.deleted.Some? && !s.released && s' == s.(released := true)
  }

  /** Any state before the deletion, with the daemons between sweeps or in the middle of one. */
  ghost predicate Init(c: Config, s: State) {
    && s.deleted.None? && s.pruned == {} && !s.released && !s.shared && Shape(c, s)
    && forall ev :: ev in s.events ==> Known(c, ev)
  }

  ghost predicate Shape(c: Config, s: State) {
    && s.pods.Keys == c.pods && s.pruned <= c.pods && s.rosters != [] && s.cached < |s.views|
    && forall p :: p in s.pods ==>
         s.pods[p].mounted < |s.rosters| && (s.pods[p].sweeping.Some? ==> s.pods[p].sweeping.value <= s.pods[p].mounted)
  }

  /******* Environment *******/

  /** Published rosters, then the one being built, then those the operator's cache has yet to give up. */
  ghost function Timeline(s: State): seq<Version>
    requires s.cached <= |s.views|
  {
    s.rosters + (if s.listed.Some? then [s.listed.value] else []) + s.views[s.cached..]
  }

  /** The pod may still act on version `v`: it is the one being swept, the mounted one or a later one. */
  ghost predicate Ahead(ps: PodState, v: int) {
    0 <= v && (ps.mounted <= v || (ps.sweeping.Some? && ps.sweeping.value == v))
  }

  /** Among the versions a pod has yet to go through, none takes the UID away and a later one brings it back. */
  ghost predicate NoComeback(t: seq<Version>, ps: PodState, p: Pod) {
    forall v, w :: Ahead(ps, v) && Ahead(ps, w) && v < w < |t| && p in t[w].applies ==> p in t[v].applies
  }

  ghost predicate Settled(s: State) {
    s.cached <= |s.views| && forall p :: p in s.pods ==> NoComeback(Timeline(s), s.pods[p], p)
  }

  /** No Event of this UID posted so far carries a stamp from now on. */
  ghost predicate StampsPast(c: Config, s: State) {
    forall ev :: ev in s.events && IsPurgeEvent(ev, ev.pod, c.uid) ==> !StampedSince(ev, s.now)
  }

  /** No other UID's decimal form starts with this one's. */
  ghost predicate PrefixFree(c: Config) {
    forall m :: m in c.others ==> !(Format(c.uid) <= Format(m))
  }

  ghost predicate Run(c: Config, states: seq<State>, steps: seq<Step>) {
    && |states| == |steps| + 1 && Init(c, states[0])
    && forall i :: 0 <= i < |steps| ==> Next(c, states[i], states[i + 1], steps[i])
  }

  /** The reconciler never counts on fewer pods than there are. */
  ghost predicate CountsAllPods(c: Config, steps: seq<Step>) {
    forall i :: 0 <= i < |steps| && steps[i].Confirm? ==> steps[i].desired >= |c.pods|
  }

  /** The deletion finds the cluster settled and every earlier Event of the UID stamped before it. */
  ghost predicate Assumptions(c: Config, states: seq<State>, steps: seq<Step>)
    requires Run(c, states, steps)
  {
    && PrefixFree(c) && CountsAllPods(c, steps)
    && forall i :: 0 <= i < |steps| && steps[i].Delete? ==> Settled(states[i]) && StampsPast(c, states[i])
  }

  /******* How the timeline and the pods move *******/

  /**
   What a pod may act on after a step comes, in order, from what it could act on before; from `n` on, versions
   without the UID have been added. `f` says where from.
   */
  ghost predicate Moves(t: seq<Version>, t': seq<Version>, ps: PodState, ps': PodState, f: int -> int, n: nat) {
    && n <= |t'| && (forall v :: n <= v < |t'| ==> t'[v] == GONE)
    && (forall v :: Ahead(ps', v) && v < n ==> Ahead(ps, f(v)) && f(v) < |t| && t[f(v)] == t'[v])
    && (forall v :: ps'.mounted <= v < n ==> ps.mounted <= f(v))
    && (forall v, w :: Ahead(ps', v) && Ahead(ps', w) && v < w < n ==> f(v) <= f(w))
  }

  /** Nothing a pod may still act on applies the UID to it. */
  ghost predicate Gone(t: seq<Version>, ps: PodState, p: Pod) {
    forall v :: Ahead(ps, v) && v < |t| ==> p !in t[v].applies
  }

  lemma Moved(t: seq<Version>, t': seq<Version>, ps: PodState, ps': PodState, f: int -> int, n: nat, p: Pod)
    requires Moves(t, t', ps, ps', f, n)
    ensures NoComeback(t, ps, p) ==> NoComeback(t', ps', p)
    ensures Gone(t, ps, p) ==> Gone(t', ps', p)
  {
    forall v, w | NoComeback(t, ps, p) && Ahead(ps', v) && Ahead(ps', w) && v < w < |t'| && p in t'[w].applies ensures p in t'[v].applies {
      assert w < n;
      assert f(v) == f(w) || f(v) < f(w);
    }
  }

  ghost predicate AllMove(s: State, s': State, f: int -> int, n: nat)
    requires s.cached <= |s.views| && s'.cached <= |s'.views| && s.pods.Keys == s'.pods.Keys
  {
    forall p :: p in s.pods ==> Moves(Timeline(s), Timeline(s'), s.pods[p], s'.pods[p], f, n)
  }

  /** Where the versions come from when a list takes the one at `n + d` out of the cache, to which it may come back. */
  ghost function ListFrom(n: int, d: int): int -> int { (v: int) => if v < n then v else if v == n then n + d else v - 1 + d }

  lemma ListReindexes(t: seq<Version>, t': seq<Version>, ps: PodState, n: int, d: int)
    requires ps.mounted < n && (ps.sweeping.Some? ==> ps.sweeping.value < n) && 0 <= d && n + d < |t| && |t'| == |t| - d + 1
    requires forall v :: 0 <= v < |t'| ==> t'[v] == t[ListFrom(n, d)(v)]
    ensures Moves(t, t', ps, ps, ListFrom(n, d), |t'|)
  {
  }

  lemma ListMoves(c: Config, s: State, s': State, step: Step) returns (f: int -> int)
    requires Shape(c, s) && Next(c, s, s', step) && step.List?
    ensures AllMove(s, s', f, |Timeline(s')|)
  {
    var t, t', n, d := Timeline(s), Timeline(s'), |s.rosters|, step.index - s.cached;
    f := ListFrom(n, d);
    forall v | 0 <= v < |t'| ensures t'[v] == t[f(v)] {
      if v > n { assert t'[v] == s.views[v - n - 1 + step.index] == t[f(v)]; }
    }
    forall p | p in s.pods ensures Moves(t, t', s.pods[p], s'.pods[p], f, |t'|) { ListReindexes(t, t', s.pods[p], n, d); }
  }

  /** A list that is not written is as if it had not been made. */
  ghost function AbandonFrom(n: int, d: int): int -> int { (v: int) => if v < n then v else v + d }

  lemma AbandonReindexes(t: seq<Version>, t': seq<Version>, ps: PodState, n: int, d: int)
    requires ps.mounted < n && (ps.sweeping.Some? ==> ps.sweeping.value < n) && 0 <= d && |t'| + d == |t| && n <= |t'|
    requires forall v :: 0 <= v < |t'| ==> t'[v] == t[AbandonFrom(n, d)(v)]
    ensures Moves(t, t', ps, ps, AbandonFrom(n, d), |t'|)
  {
  }

  lemma AbandonMoves(c: Config, s: State, s': State) returns (f: int -> int)
    requires Shape(c, s) && Next(c, s, s', Abandon)
    ensures AllMove(s, s', f, |Timeline(s')|)
  {
    var t, t', n, d := Timeline(s), Timeline(s'), |s.rosters|, if s.listed.Some? then 1 else 0;
    f := AbandonFrom(n, d);
    forall v | 0 <= v < |t'| ensures t'[v] == t[f(v)] {
      if v >= n { assert t'[v] == s.views[v - n + s.cached] == t[f(v)]; }
    }
    forall p | p in s.pods ensures Moves(t, t', s.pods[p], s'.pods[p], f, |t'|) { AbandonReindexes(t, t', s.pods[p], n, d); }
  }

  ghost function Same(): int -> int { (v: int) => v }

  /** Objects change, and call for rosters without the UID. */
  lemma GrowthMoves(c: Config, s: State, s': State, step: Step)
    requires Shape(c, s) && Next(c, s, s', step) && (step.Change? || step.Delete?) && step.view == GONE
    ensures AllMove(s, s', Same(), |Timeline(s)|)
  {
    assert Timeline(s') == Timeline(s) + [GONE];
  }

  ghost predicate IsPodStep(step: Step) { step.Mount? || step.Begin? || step.Mint? || step.End? || step.Restart? }

  /** A pod mounts a later version, starts a sweep with the mounted one, or ends one. */
  ghost predicate Advances(ps: PodState, ps': PodState) {
    && ps.mounted <= ps'.mounted && (ps'.sweeping.None? || ps'.sweeping == ps.sweeping || ps'.sweeping == Some(ps.mounted))
  }

  lemma PodAdvances(t: seq<Version>, ps: PodState, ps': PodState)
    requires Advances(ps, ps')
    ensures Moves(t, t, ps, ps', Same(), |t|)
  {
  }

  /** Only one pod has moved, and nothing it goes by. */
  ghost predicate OnlyPod(s: State, s': State, q: Pod) {
    && q in s.pods && s'.pods.Keys == s.pods.Keys && (forall p :: p in s.pods && p != q ==> s'.pods[p] == s.pods[p])
    && Advances(s.pods[q], s'.pods[q]) && s'.pods[q].mounted < |s.rosters| && s'.pruned <= s.pruned + {q}
    && s'.rosters == s.rosters && s'.views == s.views && s'.cached == s.cached && s'.listed == s.listed
  }

  lemma OnePodAdvances(c: Config, s: State, s': State, step: Step)
    requires Shape(c, s) && Next(c, s, s', step) && IsPodStep(step)
    ensures OnlyPod(s, s', step.pod)
  {
  }

  lemma PodKeepsShape(c: Config, s: State, s': State, q: Pod)
    requires Shape(c, s) && OnlyPod(s, s', q)
    ensures Shape(c, s')
  {
  }

  lemma PodMoves(s: State, s': State, q: Pod)
    requires s.cached <= |s.views| && OnlyPod(s, s', q)
    ensures AllMove(s, s', Same(), |Timeline(s')|)
  {
    var t := Timeline(s);
    assert Timeline(s') == t;
    forall p | p in s.pods ensures Moves(t, t, s.pods[p], s'.pods[p], Same(), |t|) { PodAdvances(t, s.pods[p], s'.pods[p]); }
  }

  lemma StillMoves(c: Config, s: State, s': State, step: Step)
    requires Shape(c, s) && Next(c, s, s', step)
    requires step.Tick? || step.Publish? || step.Confirm? || step.GiveUp? || step.PruneOther? || step.Noise?
    ensures Shape(c, s') && AllMove(s, s', Same(), |Timeline(s')|)
  {
    assert Timeline(s') == Timeline(s);
  }

  lemma KeepsShape(c: Config, s: State, s': State, step: Step)
    requires Shape(c, s) && Next(c, s, s', step)
    ensures Shape(c, s')
  {
    if IsPodStep(step) {
      OnePodAdvances(c, s, s', step);
      PodKeepsShape(c, s, s', step.pod);
    }
  }

  /** Every step, as long as nobody else gets the UID after the deletion. */
  lemma StepMoves(c: Config, s: State, s': State, step: Step) returns (f: int -> int, n: nat)
    requires Shape(c, s) && Next(c, s, s', step) && s'.deleted.Some? && !s'.shared
    ensures Shape(c, s') && AllMove(s, s', f, n)
  {
    KeepsShape(c, s, s', step);
    f, n := Same(), |Timeline(s')|;
    if IsPodStep(step) {
      OnePodAdvances(c, s, s', step);
      PodMoves(s, s', step.pod);
    } else if step.List? {
      f := ListMoves(c, s, s', step);
    } else if step.Abandon? {
      f := AbandonMoves(c, s, s');
    } else if step.Change? || step.Delete? {
      GrowthMoves(c, s, s', step);
      n := |Timeline(s)|;
    } else {
      StillMoves(c, s, s', step);
    }
  }

  /******* Invariant *******/

  /** If the Event is a prune at all, it is one of this or another UID by one of the pods. */
  ghost predicate Known(c: Config, ev: Event) {
    IsPrune(ev) ==> exists p, m :: p in c.pods && (m == c.uid || m in c.others) && IsPurgeEvent(ev, p, m)
  }

  ghost predicate EventsKnown(c: Config, s: State) {
    && (forall ev :: ev in s.events ==> Known(c, ev))
    && (s.deleted.Some? ==>
          forall ev :: ev in s.events && StampedSince(ev, s.deleted.value) && IsPurgeEvent(ev, ev.pod, c.uid) ==> ev.pod in s.pruned)
  }

  ghost predicate Clean(s: State) {
    s.cached <= |s.views| && forall p :: p in s.pruned && p in s.pods ==> !s.pods[p].bits.file && Gone(Timeline(s), s.pods[p], p)
  }

  ghost predicate Inv(c: Config, s: State) {
    && Shape(c, s) && EventsKnown(c, s) && (s.deleted.None? ==> s.pruned == {} && !s.shared)
    && (!s.shared ==> Clean(s) && (s.deleted.Some? ==> Settled(s)))
  }

  lemma SettledStep(c: Config, s: State, s': State, step: Step)
    requires Shape(c, s) && Next(c, s, s', step) && s'.deleted.Some? && !s'.shared && Settled(s)
    ensures Settled(s')
  {
    var f, n := StepMoves(c, s, s', step);
    forall p | p in s'.pods ensures NoComeback(Timeline(s'), s'.pods[p], p) {
      Moved(Timeline(s), Timeline(s'), s.pods[p], s'.pods[p], f, n, p);
    }
  }

  /** A pod for which nothing applies any more does not get the file back. */
  lemma NoMint(c: Config, s: State, s': State, step: Step, p: Pod)
    requires Shape(c, s) && Next(c, s, s', step) && p in s.pods && Gone(Timeline(s), s.pods[p], p) && !s.pods[p].bits.file
    ensures p in s'.pods && !s'.pods[p].bits.file
  {
    if step.Mint? && step.pod == p {
      var v := s.pods[p].sweeping.value;
      assert Timeline(s)[v] == s.rosters[v] && Ahead(s.pods[p], v);
    }
  }

  /** A removal happens at a version that does not apply, and then nothing later does. */
  lemma RemovalIsFinal(c: Config, s: State, s': State, step: Step)
    requires Shape(c, s) && Next(c, s, s', step) && step.End? && step.removed && Settled(s)
    ensures Gone(Timeline(s), s'.pods[step.pod], step.pod) && !s'.pods[step.pod].bits.file
  {
    var p := step.pod;
    var v := s.pods[p].sweeping.value;
    assert Timeline(s)[v] == s.rosters[v] && Ahead(s.pods[p], v) && NoComeback(Timeline(s), s.pods[p], p);
  }

  lemma CleanStep(c: Config, s: State, s': State, step: Step)
    requires Shape(c, s) && Next(c, s, s', step) && s'.deleted.Some? && !s'.shared && Settled(s) && Clean(s)
    requires s.deleted.None? ==> s.pruned == {}
    ensures Clean(s')
  {
    var f, n := StepMoves(c, s, s', step);
    forall p | p in s'.pruned && p in s'.pods ensures !s'.pods[p].bits.file && Gone(Timeline(s'), s'.pods[p], p) {
      if p in s.pruned {
        NoMint(c, s, s', step, p);
        Moved(Timeline(s), Timeline(s'), s.pods[p], s'.pods[p], f, n, p);
      } else {
        RemovalIsFinal(c, s, s', step);
        assert Timeline(s') == Timeline(s);
      }
    }
  }

  /** Another UID's message is not this one's. */
  lemma OtherMessage(c: Config, m: int)
    requires PrefixFree(c) && m in c.others
    ensures PrunedMessage(m) != PrunedMessage(c.uid)
  {
    TokenIff(c.uid, c.uid);
    TokenIff(m, c.uid);
  }

  /** One more Event: known, and of this UID only from a pod that has pruned if it counts for the deletion. */
  lemma EventAdded(c: Config, s: State, s': State, ev: Event)
    requires EventsKnown(c, s) && s'.events == s.events + {ev} && s'.deleted == s.deleted && s.pruned <= s'.pruned
    requires Known(c, ev) && (s.deleted.Some? && IsPurgeEvent(ev, ev.pod, c.uid) ==> ev.pod in s'.pruned)
    ensures EventsKnown(c, s')
  {
  }

  lemma EventsStep(c: Config, s: State, s': State, step: Step)
    requires Shape(c, s) && EventsKnown(c, s) && Next(c, s, s', step) && PrefixFree(c) && (step.Delete? ==> StampsPast(c, s))
    ensures EventsKnown(c, s')
  {
    if step.End? && step.posted.Some? {
      assert IsPurgeEvent(step.posted.value, step.pod, c.uid);
      EventAdded(c, s, s', step.posted.value);
    } else if step.PruneOther? {
      var p, m :| p in c.pods && m in c.others && IsPurgeEvent(step.ev, p, m);
      OtherMessage(c, m);
      EventAdded(c, s, s', step.ev);
    } else if step.Noise? {
      EventAdded(c, s, s', step.ev);
    } else {
      assert s'.events == s.events && s.pruned <= s'.pruned;
    }
  }

  lemma InvStep(c: Config, s: State, s': State, step: Step)
    requires Inv(c, s) && Next(c, s, s', step) && PrefixFree(c) && (step.Delete? ==> Settled(s) && StampsPast(c, s))
    ensures Inv(c, s')
  {
    KeepsShape(c, s, s', step);
    EventsStep(c, s, s', step);
    if s'.deleted.Some? && !s'.shared {
      SettledStep(c, s, s', step);
      CleanStep(c, s, s', step);
    }
  }

  lemma {:induction false} RunInv(c: Config, states: seq<State>, steps: seq<Step>, n: nat)
    requires Run(c, states, steps) && Assumptions(c, states, steps) && n < |states|
    ensures Inv(c, states[n])
  {
    if n > 0 {
      RunInv(c, states, steps, n - 1);
      InvStep(c, states[n - 1], states[n], steps[n - 1]);
    }
  }

  /******* Safety *******/

  lemma ConfirmersPruned(c: Config, s: State, visible: seq<Event>)
    requires EventsKnown(c, s) && PrefixFree(c) && s.deleted.Some? && (forall ev :: ev in visible ==> ev in s.events)
    ensures ConfirmedPods(visible, c.uid, s.deleted.value) <= s.pruned
  {
    forall ev | ev in visible && Confirms(ev, c.uid, s.deleted.value) ensures ev.pod in s.pruned {
      var p, m :| p in c.pods && (m == c.uid || m in c.others) && IsPurgeEvent(ev, p, m);
      TokenIff(m, c.uid);
    }
  }

  /** Events of the UID are stamped before every deletion. */
  ghost predicate StampsHold(c: Config, states: seq<State>, steps: seq<Step>)
    requires |states| == |steps| + 1
  {
    forall i :: 0 <= i < |steps| && steps[i].Delete? ==> StampsPast(c, states[i])
  }

  lemma KnownStep(c: Config, s: State, s': State, step: Step)
    requires Shape(c, s) && EventsKnown(c, s) && Next(c, s, s', step) && PrefixFree(c) && (step.Delete? ==> StampsPast(c, s))
    ensures Shape(c, s') && EventsKnown(c, s')
  {
    KeepsShape(c, s, s', step);
    EventsStep(c, s, s', step);
  }

  lemma {:induction false} RunKnown(c: Config, states: seq<State>, steps: seq<Step>, n: nat)
    requires Run(c, states, steps) && PrefixFree(c) && n < |states| && StampsHold(c, states, steps)
    ensures Shape(c, states[n]) && EventsKnown(c, states[n])
  {
    if n > 0 {
      RunKnown(c, states, steps, n - 1);
      KnownStep(c, states[n - 1], states[n], steps[n - 1]);
    }
  }

  lemma Pigeonhole(a: set<Pod>, b: set<Pod>, all: set<Pod>)
    requires a <= b <= all && |a| >= |all|
    ensures b == all
  {
    assert all == a + (all - a);
    assert |all| == |a| + |all - a|;
  }

  /** Settled or not, every pod has removed the file since the deletion by the time Events confirm it. */
  lemma ConfirmedMeansPruned(c: Config, states: seq<State>, steps: seq<Step>, i: nat)
    requires Run(c, states, steps) && PrefixFree(c) && CountsAllPods(c, steps)
    requires StampsHold(c, states, steps) && i < |steps| && steps[i].Confirm?
    ensures states[i].pruned == c.pods
  {
    RunKnown(c, states, steps, i);
    var s := states[i];
    assert Next(c, s, states[i + 1], steps[i]);
    ConfirmersPruned(c, s, steps[i].visible);
    Pigeonhole(ConfirmedPods(steps[i].visible, c.uid, s.deleted.value), s.pruned, c.pods);
  }

  /**
   A finalizer released by Event confirmation means what it says: in every run, every pod has removed the file
   since the deletion, and none holds it at the release or at any later moment, until another principal gets the UID.
   */
  lemma ConfirmedReleaseIsSafe(c: Config, states: seq<State>, steps: seq<Step>, i: nat, later: nat)
    requires Run(c, states, steps) && Assumptions(c, states, steps)
    requires i < |steps| && steps[i].Confirm? && i <= later < |states|
    ensures states[i].pruned == c.pods
    ensures !states[later].shared ==> forall p :: p in c.pods ==> p in states[later].pods && !states[later].pods[p].bits.file
  {
    ConfirmedMeansPruned(c, states, steps, i);
    PrunedGrows(c, states, steps, i, later);
    RunInv(c, states, steps, later);
  }

  lemma {:induction false} PrunedGrows(c: Config, states: seq<State>, steps: seq<Step>, i: nat, j: nat)
    requires Run(c, states, steps) && i <= j < |states|
    ensures states[i].pruned <= states[j].pruned
    decreases j
  {
    if i < j {
      PrunedGrows(c, states, steps, i, j - 1);
      assert Next(c, states[j - 1], states[j], steps[j - 1]);
    }
  }
}
