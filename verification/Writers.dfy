/**
 The operator's writers over the API server (operator/internal/controller/principal_finalizer.go,
 tenant_helpers.go): each reads an object, edits its copy and sends the copy back, and starts over if
 the object has changed in between.
 */
module Writers {
  import opened Common
  import opened Aggregate
  import opened Finalizer
  import Status

  /******* The API server *******/

  /**
   One object's name. Every write appends to `history`, so a position in it is a resource version; the last
   one is current while the object is `live`. `held` is what each attempt under way has read: any version, as
   reads come from a cache that may lag, or None for an object it did not find.
   */
  datatype Server<V> = Server(history: seq<V>, live: bool, held: map<nat, Option<nat>>)

  ghost predicate Sound<V>(s: Server<V>) {
    && (s.live ==> s.history != [])
    && forall w :: w in s.held && s.held[w].Some? ==> s.held[w].value < |s.history|
  }

  function Current<V>(s: Server<V>): Option<V> {
    if s.live && s.history != [] then Some(s.history[|s.history| - 1]) else None
  }

  /** The copy an attempt works on. */
  function Seen<V>(s: Server<V>, w: nat): Option<V> {
    if w in s.held && s.held[w].Some? && s.held[w].value < |s.history| then Some(s.history[s.held[w].value]) else None
  }

  /** What an attempt asks for after its read. */
  datatype Request<+V> = Done | Create(value: V) | Update(value: V)

  /** The server's answer; a stale version or a name already taken changes nothing. */
  ghost predicate Accepts<V>(s: Server<V>, w: nat, r: Request<V>) {
    match r
    case Done => false
    case Create(_) => Current(s).None?
    case Update(_) => Current(s).Some? && w in s.held && s.held[w] == Some(|s.history| - 1)
  }

  /** The attempt of `w` ends, with what it makes the server store, if anything. */
  ghost function Ended<V>(s: Server<V>, w: nat, stored: Option<V>): Server<V> {
    if stored.Some? then Server(s.history + [stored.value], true, s.held - {w}) else s.(held := s.held - {w})
  }

  ghost predicate Reads<V(!new)>(s: Server<V>, s': Server<V>, w: nat, seen: Option<nat>) {
    (seen.Some? ==> seen.value < |s.history|) && s' == s.(held := s.held[w := seen])
  }

  /******* Conditions *******/

  datatype Condition = Condition(kind: string, status: Status.ConditionStatus, reason: string, message: string, changed: int)

  /** The condition of a type: the first one counts. */
  function Lookup(cs: seq<Condition>, kind: string): Option<Condition> {
    if cs == [] then None else if cs[0].kind == kind then Some(cs[0]) else Lookup(cs[1..], kind)
  }

  function OtherConditions(cs: seq<Condition>, kind: string): seq<Condition> {
    if cs == [] then [] else (if cs[0].kind == kind then [] else [cs[0]]) + OtherConditions(cs[1..], kind)
  }

  function Replaced(old_: Condition, c: Condition): Condition { if old_.status == c.status then c.(changed := old_.changed) else c }

  function WithCondition(cs: seq<Condition>, c: Condition): seq<Condition> {
    if cs == [] then [c]
    else if cs[0].kind == c.kind then [Replaced(cs[0], c)] + cs[1..]
    else [cs[0]] + WithCondition(cs[1..], c)
  }

  /** `setCondition`, with `c.changed` the present time. */
  method SetCondition(cs: seq<Condition>, c: Condition) returns (out: seq<Condition>)
    ensures out == WithCondition(cs, c)
  {
    for i := 0 to |cs|
      invariant WithCondition(cs, c) == cs[..i] + WithCondition(cs[i..], c)
    {
      if cs[i].kind == c.kind {
        var changed := cs[i].changed;
        if cs[i].status != c.status { changed := c.changed; }
        out := cs[i := c.(changed := changed)];
        assert out == cs[..i] + ([Replaced(cs[i], c)] + cs[i..][1..]);
        return;
      }
      assert cs[..i + 1] == cs[..i] + [cs[i]] && cs[i..][1..] == cs[i + 1..];
    }
    assert cs[..|cs|] == cs;
    out := cs + [c];
  }

  /** The condition is there as asked for, with its old transition time if its status stays; the others keep place and value. */
  lemma {:induction false} ConditionIsSet(cs: seq<Condition>, c: Condition)
    ensures var before, after := Lookup(cs, c.kind), Lookup(WithCondition(cs, c), c.kind);
            && after.Some? && after.value.kind == c.kind && after.value.status == c.status
            && after.value.reason == c.reason && after.value.message == c.message
            && after.value.changed == (if before.Some? && before.value.status == c.status then before.value.changed else c.changed)
    ensures OtherConditions(WithCondition(cs, c), c.kind) == OtherConditions(cs, c.kind)
  {
    if cs != [] {
      var r := WithCondition(cs, c);
      assert r[1..] == if cs[0].kind == c.kind then cs[1..] else WithCondition(cs[1..], c);
      ConditionIsSet(cs[1..], c);
    }
  }

  /******* Writers of a Principal *******/

  datatype NodesPart = NodesPart(nodes: seq<Status.NodeStatus>, desired: int, ready: int)
  datatype KvnoPart = KvnoPart(kvno: nat, enctypes: string, observedAt: Option<int>)

  /** `rest` is the remainder of spec and metadata. */
  datatype Principal = Principal(finalizers: seq<string>, disabled: bool, rest: string,
                                 nodes: NodesPart, kvno: KvnoPart, conditions: seq<Condition>)

  datatype Job =
    | PublishStatus(part: NodesPart, tenantDisabled: bool, dsDesired: int, message: string, now: int)
    | WriteKvno(kvno: nat, enctypes: string, observedAt: Option<int>)
    | AddFinalizer
    | RemoveFinalizer

  function Ready(j: Job, p: Principal): Condition
    requires j.PublishStatus?
  {
    var c := Status.ReadyCondition(p.disabled, j.tenantDisabled, j.part.desired, j.part.ready, j.dsDesired);
    Condition("Ready", c.status, c.reason, j.message, j.now)
  }

  /** The edit inside each `retryOnConflict`, on the copy that was read. */
  function Edit(j: Job, p: Principal): Request<Principal> {
    match j
    case PublishStatus(part, _, _, _, _) => Update(p.(nodes := part, conditions := WithCondition(p.conditions, Ready(j, p))))
    case WriteKvno(kvno, enctypes, observedAt) =>
      if p.kvno.kvno == kvno && p.kvno.enctypes == enctypes then Done else Update(p.(kvno := KvnoPart(kvno, enctypes, observedAt)))
    case AddFinalizer =>
      if PRINCIPAL_FINALIZER in p.finalizers then Done else Update(p.(finalizers := p.finalizers + [PRINCIPAL_FINALIZER]))
    case RemoveFinalizer =>
      if PRINCIPAL_FINALIZER !in p.finalizers then Done else Update(p.(finalizers := Dropping(p.finalizers, PRINCIPAL_FINALIZER)))
  }

  /** The status and the rest of an object are written through separate endpoints. */
  function Merge(j: Job, cur: Principal, sent: Principal): Principal {
    if j.PublishStatus? || j.WriteKvno? then cur.(nodes := sent.nodes, kvno := sent.kvno, conditions := sent.conditions)
    else sent.(nodes := cur.nodes, kvno := cur.kvno, conditions := cur.conditions)
  }

  datatype Step =
    | Get(w: nat, seen: Option<nat>)   // an attempt reads
    | Finish(w: nat, job: Job)         // and sends its edit, or gives up
    | Outside(p: Principal)            // someone else edits the object
    | Remove                           // the object goes away
    | Recreate(p: Principal)           // and comes back anew

  const FRESH_NODES := NodesPart([], 0, 0)
  const FRESH_KVNO := KvnoPart(0, "", None)

  function Asked(s: Server<Principal>, w: nat, j: Job): Request<Principal> {
    var seen := Seen(s, w);
    if seen.None? then Done else Edit(j, seen.value)
  }

  ghost predicate Next(s: Server<Principal>, s': Server<Principal>, step: Step) {
    match step
    case Get(w, seen) => Reads(s, s', w, seen)
    case Finish(w, j) =>
      && w in s.held
      && var r := Asked(s, w, j);
         s' == Ended(s, w, if Accepts(s, w, r) then Some(Merge(j, Current(s).value, r.value)) else None)
    case Outside(p) =>
      // Nobody else writes the fields of these two writers.
      && Current(s).Some? && p.nodes == Current(s).value.nodes && p.kvno == Current(s).value.kvno
      && s' == s.(history := s.history + [p])
    case Remove => s' == s.(live := false)
    case Recreate(p) =>
      !s.live && p.nodes == FRESH_NODES && p.kvno == FRESH_KVNO && s' == s.(live := true, history := s.history + [p])
  }

  /** Any interleaving. */
  ghost predicate Run(states: seq<Server<Principal>>, steps: seq<Step>) {
    && |states| == |steps| + 1 && Sound(states[0])
    && forall i :: 0 <= i < |steps| ==> Next(states[i], states[i + 1], steps[i])
  }

  lemma SoundStep(s: Server<Principal>, s': Server<Principal>, step: Step)
    requires Sound(s) && Next(s, s', step)
    ensures Sound(s') && s.history <= s'.history && |s'.history| <= |s.history| + 1
  {
  }

  lemma {:induction false} RunIsSound(states: seq<Server<Principal>>, steps: seq<Step>, n: nat)
    requires Run(states, steps) && n <= |steps|
    ensures Sound(states[n]) && states[0].history <= states[n].history
  {
    if n > 0 {
      RunIsSound(states, steps, n - 1);
      SoundStep(states[n - 1], states[n], steps[n - 1]);
    }
  }

  /** The step is an attempt whose write the server took. */
  ghost predicate Written(s: Server<Principal>, step: Step) {
    step.Finish? && step.w in s.held && Accepts(s, step.w, Asked(s, step.w, step.job))
  }

  /**
   A write that goes through changes only what is its own, in the object as it is at that moment: the copy
   it was made from cannot be an older one. The Ready condition follows the present spec.
   */
  lemma WriteKeepsOthers(s: Server<Principal>, s': Server<Principal>, step: Step)
    requires Sound(s) && Next(s, s', step) && Written(s, step)
    ensures s.live && s'.live
    ensures var cur, new_, j := Current(s).value, Current(s').value, step.job;
            match j
            case PublishStatus(part, _, _, _, _) =>
              && new_ == cur.(nodes := part, conditions := new_.conditions)
              && OtherConditions(new_.conditions, "Ready") == OtherConditions(cur.conditions, "Ready")
              && Lookup(new_.conditions, "Ready").Some?
              && Lookup(new_.conditions, "Ready").value.(changed := 0) == Ready(j, cur).(changed := 0)
            case WriteKvno(kvno, enctypes, observedAt) => new_ == cur.(kvno := KvnoPart(kvno, enctypes, observedAt)) && new_ != cur
            case AddFinalizer => PRINCIPAL_FINALIZER !in cur.finalizers && new_ == cur.(finalizers := cur.finalizers + [PRINCIPAL_FINALIZER])
            case RemoveFinalizer => PRINCIPAL_FINALIZER in cur.finalizers && new_ == cur.(finalizers := Dropping(cur.finalizers, PRINCIPAL_FINALIZER))
  {
    var cur := Current(s).value;
    assert Seen(s, step.w) == Some(cur);
    if step.job.PublishStatus? { ConditionIsSet(cur.conditions, Ready(step.job, cur)); }
  }

  /** The stored object is as the job wants it. */
  ghost predicate Fulfilled(j: Job, p: Principal) {
    match j
    case PublishStatus(part, _, _, _, _) =>
      && p.nodes == part && Lookup(p.conditions, "Ready").Some?
      && (Lookup(p.conditions, "Ready").value.status == Status.ConditionTrue <==>
            !p.disabled && !j.tenantDisabled && 0 != part.desired <= part.ready)
    case WriteKvno(kvno, enctypes, _) => p.kvno.kvno == kvno && p.kvno.enctypes == enctypes
    case AddFinalizer => PRINCIPAL_FINALIZER in p.finalizers
    case RemoveFinalizer => PRINCIPAL_FINALIZER !in p.finalizers
  }

  /** An attempt that has read the current version gets its job done. */
  lemma FreshAttemptLands(s: Server<Principal>, s': Server<Principal>, w: nat, j: Job)
    requires Sound(s) && Next(s, s', Finish(w, j)) && s.live && s.held[w] == Some(|s.history| - 1)
    ensures s'.live && s'.history != [] && Fulfilled(j, s'.history[|s'.history| - 1])
  {
    var cur := Current(s).value;
    assert Seen(s, w) == Some(cur);
    match j
    case PublishStatus(part, _, _, _, _) =>
      ConditionIsSet(cur.conditions, Ready(j, cur));
      Status.ReadyConditionMeans(cur.disabled, j.tenantDisabled, part.desired, part.ready, j.dsDesired);
    case WriteKvno(_, _, _) =>
    case AddFinalizer =>
    case RemoveFinalizer => DroppingMembers(cur.finalizers, PRINCIPAL_FINALIZER);
  }

  /** The object last stored, live or not. */
  ghost function Newest(s: Server<Principal>): Principal
    requires s.history != []
  {
    s.history[|s.history| - 1]
  }

  lemma OneWriterAtATime(s: Server<Principal>, s': Server<Principal>, step: Step)
    requires Sound(s) && Next(s, s', step) && s.history != [] && !step.Recreate?
    ensures s'.history != []
    ensures Newest(s').nodes == Newest(s).nodes || (Written(s, step) && step.job.PublishStatus?)
    ensures Newest(s').kvno == Newest(s).kvno || (Written(s, step) && step.job.WriteKvno?)
  {
    if Written(s, step) { WriteKeepsOthers(s, s', step); }
  }

  /** The latest accepted publication, and the latest accepted KVNO, in the first `n` steps of a run. */
  ghost function LastPublished(states: seq<Server<Principal>>, steps: seq<Step>, n: nat, start: NodesPart): NodesPart
    requires Run(states, steps) && n <= |steps|
  {
    if n == 0 then start
    else if steps[n - 1].Recreate? then FRESH_NODES
    else if Written(states[n - 1], steps[n - 1]) && steps[n - 1].job.PublishStatus? then steps[n - 1].job.part
    else LastPublished(states, steps, n - 1, start)
  }

  /** The step stores a KVNO part: an accepted write, or the empty one of a new object. */
  ghost predicate WritesKvno(s: Server<Principal>, step: Step) { step.Recreate? || (Written(s, step) && step.job.WriteKvno?) }

  ghost function KvnoWritten(step: Step): KvnoPart
    requires step.Recreate? || (step.Finish? && step.job.WriteKvno?)
  {
    if step.Recreate? then FRESH_KVNO else KvnoPart(step.job.kvno, step.job.enctypes, step.job.observedAt)
  }

  ghost function LastKvno(states: seq<Server<Principal>>, steps: seq<Step>, n: nat, start: KvnoPart): KvnoPart
    requires Run(states, steps) && n <= |steps|
  {
    if n == 0 then start
    else if WritesKvno(states[n - 1], steps[n - 1]) then KvnoWritten(steps[n - 1])
    else LastKvno(states, steps, n - 1, start)
  }

  /**
   No lost updates: however reads, edits, conflicts and retries interleave, each part of the status is what
   its own writer last wrote, as if the two parts were stored apart.
   */
  lemma {:induction false} StatusIsLastWrites(states: seq<Server<Principal>>, steps: seq<Step>, n: nat)
    requires Run(states, steps) && n <= |steps| && states[0].history != []
    ensures states[n].history != []
    ensures var first, cur := Newest(states[0]), Newest(states[n]);
            cur.nodes == LastPublished(states, steps, n, first.nodes) && cur.kvno == LastKvno(states, steps, n, first.kvno)
  {
    if n > 0 {
      StatusIsLastWrites(states, steps, n - 1);
      var s, s', step := states[n - 1], states[n], steps[n - 1];
      RunIsSound(states, steps, n - 1);
      if !step.Recreate? { OneWriterAtATime(s, s', step); }
      if Written(s, step) { WriteKeepsOthers(s, s', step); }
    }
  }

  /******* Skipped writes *******/

  /** The latest KVNO part stored under a resource version above `v`: in the first `n` steps of a run, or before it. */
  ghost function KvnoSince(states: seq<Server<Principal>>, steps: seq<Step>, n: nat, v: nat): Option<KvnoPart>
    requires Run(states, steps) && n <= |steps|
  {
    if n == 0 then if |states[0].history| > v + 1 then Some(Newest(states[0]).kvno) else None
    else if WritesKvno(states[n - 1], steps[n - 1]) && |states[n - 1].history| > v then Some(KvnoWritten(steps[n - 1]))
    else KvnoSince(states, steps, n - 1, v)
  }

  lemma {:induction false} NothingSince(states: seq<Server<Principal>>, steps: seq<Step>, n: nat, v: nat)
    requires Run(states, steps) && n <= |steps| && |states[n].history| <= v + 1
    ensures KvnoSince(states, steps, n, v) == None
  {
    if n > 0 {
      RunIsSound(states, steps, n - 1);
      SoundStep(states[n - 1], states[n], steps[n - 1]);
      assert WritesKvno(states[n - 1], steps[n - 1]) ==> |states[n].history| == |states[n - 1].history| + 1;
      NothingSince(states, steps, n - 1, v);
    }
  }

  /** The stored part is the latest one written above version `v`, or still that of version `v`. */
  lemma {:induction false} KvnoFrom(states: seq<Server<Principal>>, steps: seq<Step>, n: nat, v: nat)
    requires Run(states, steps) && n <= |steps| && v < |states[n].history|
    ensures Newest(states[n]).kvno == match KvnoSince(states, steps, n, v)
                                      case None => states[n].history[v].kvno
                                      case Some(part) => part
  {
    if |states[n].history| == v + 1 {
      NothingSince(states, steps, n, v);
    } else if n > 0 {
      RunIsSound(states, steps, n - 1);
      var s, s', step := states[n - 1], states[n], steps[n - 1];
      SoundStep(s, s', step);
      KvnoFrom(states, steps, n - 1, v);
      if !step.Recreate? { OneWriterAtATime(s, s', step); }
      if Written(s, step) { WriteKeepsOthers(s, s', step); }
    }
  }

  /** An attempt of `writeKvnoStatus` that has read version `v` finds nothing to do. */
  ghost predicate Skips(s: Server<Principal>, step: Step, v: nat) {
    && step.Finish? && step.job.WriteKvno? && step.w in s.held && s.held[step.w] == Some(v)
    && v < |s.history| && Asked(s, step.w, step.job).Done?
  }

  /**
   In every run, a write that is skipped leaves what it was asked for exactly if no KVNO has been stored above the
   version it read, or the latest one that has been is the same.
   */
  lemma SkipIsRightIff(states: seq<Server<Principal>>, steps: seq<Step>, n: nat, v: nat)
    requires Run(states, steps) && n < |steps| && Skips(states[n], steps[n], v)
    ensures states[n + 1].history == states[n].history
    ensures var j, stored, since := steps[n].job, Newest(states[n + 1]).kvno, KvnoSince(states, steps, n, v);
            stored.kvno == j.kvno && stored.enctypes == j.enctypes <==>
            since.None? || (since.value.kvno == j.kvno && since.value.enctypes == j.enctypes)
  {
    RunIsSound(states, steps, n);
    assert Next(states[n], states[n + 1], steps[n]);
    KvnoFrom(states, steps, n, v);
  }

  /**
   And it does go wrong: whatever the object, if another KVNO is stored between the read and the decision, the write
   that would bring the old one back is skipped.
   */
  lemma StaleSkip(p: Principal, j: Job, other: Job)
    requires j.WriteKvno? && p.kvno.kvno == j.kvno && p.kvno.enctypes == j.enctypes
    requires other.WriteKvno? && !(other.kvno == j.kvno && other.enctypes == j.enctypes)
    ensures exists states: seq<Server<Principal>>, steps: seq<Step> :: Run(states, steps) && |steps| == 4 && Skips(states[3], steps[3], 0) && steps[3].job == j
                                 && Newest(states[4]).kvno == KvnoPart(other.kvno, other.enctypes, other.observedAt)
  {
    var q := p.(kvno := KvnoPart(other.kvno, other.enctypes, other.observedAt));
    var s0: Server<Principal> := Server([p], true, map[]);
    var s1 := s0.(held := map[0 := Some(0)]);
    var s2 := s0.(held := map[0 := Some(0), 1 := Some(0)]);
    var s3: Server<Principal> := Server([p, q], true, map[0 := Some(0)]);
    var s4: Server<Principal> := Server([p, q], true, map[]);
    assert s2.held - {1} == s3.held && s3.held - {0} == s4.held && [p] + [q] == [p, q];
    assert Next(s0, s1, Get(0, Some(0))) && Next(s1, s2, Get(1, Some(0)));
    assert Next(s2, s3, Finish(1, other));
    assert Next(s3, s4, Finish(0, j));
    var states, steps := [s0, s1, s2, s3, s4], [Get(0, Some(0)), Get(1, Some(0)), Finish(1, other), Finish(0, j)];
    assert Run(states, steps);
    assert Skips(states[3], steps[3], 0);
  }

  /******* Owned objects *******/

  datatype OwnerRef = OwnerRef(controller: Option<bool>, uid: string, name: string)
  datatype Tenant = Tenant(uid: string, name: string)

  /** A ConfigMap or a Secret; `kind` is the type of a Secret and empty for a ConfigMap. */
  datatype Owned = Owned(owners: seq<OwnerRef>, data: map<string, Bytes>, labels: map<string, string>, kind: string)

  /** `ownedBy`. */
  predicate OwnedBy(o: Owned, t: Tenant) {
    exists i :: 0 <= i < |o.owners| && o.owners[i] == OwnerRef(Some(true), t.uid, t.name)
  }

  /** `upsertOwnedCM` and `upsertOwnedSecret` on what they read. */
  function Upsert(t: Tenant, desired: Owned, seen: Option<Owned>): Request<Owned> {
    match seen
    case None => Create(desired)
    case Some(cur) =>
      if !OwnedBy(cur, t) then Done
      else if cur.data == desired.data && cur.labels == desired.labels then Done
      else Update(cur.(data := desired.data, labels := desired.labels, kind := desired.kind))
  }

  datatype OwnedStep =
    | Look(w: nat, seen: Option<nat>)
    | Put(w: nat, tenant: Tenant, desired: Owned)  // an attempt of some Tenant's reconciler
    | Write(o: Owned)                              // anyone else writes or creates
    | Drop                                         // or deletes

  ghost predicate OwnedNext(s: Server<Owned>, s': Server<Owned>, step: OwnedStep) {
    match step
    case Look(w, seen) => Reads(s, s', w, seen)
    case Put(w, t, desired) =>
      && w in s.held
      && var r := Upsert(t, desired, Seen(s, w));
         s' == Ended(s, w, if Accepts(s, w, r) then Some(r.value) else None)
    case Write(o) => s' == s.(live := true, history := s.history + [o])
    case Drop => s' == s.(live := false)
  }

  /** Whatever an attempt has read, its write lands only on an object that is its Tenant's at that moment, or on nothing. */
  lemma PutRespectsOwner(s: Server<Owned>, s': Server<Owned>, w: nat, t: Tenant, desired: Owned)
    requires Sound(s) && OwnedNext(s, s', Put(w, t, desired))
    ensures Sound(s')
    ensures Current(s) == Current(s')
         || (Current(s).None? && Current(s') == Some(desired))
         || (Current(s).Some? && OwnedBy(Current(s).value, t) &&
             Current(s') == Some(desired.(owners := Current(s).value.owners)))
  {
  }

  /** An upsert that has read the current state gets its object there, unless it is someone else's. */
  lemma FreshPutLands(s: Server<Owned>, s': Server<Owned>, w: nat, t: Tenant, desired: Owned)
    requires Sound(s) && OwnedNext(s, s', Put(w, t, desired))
    requires s.held[w] == (if s.live then Some(|s.history| - 1) else None)
    ensures Current(s).None? ==> Current(s') == Some(desired)
    ensures Current(s).Some? && OwnedBy(Current(s).value, t) ==>
              Current(s').Some? && Current(s').value.data == desired.data && Current(s').value.labels == desired.labels
    ensures Current(s).Some? && !OwnedBy(Current(s).value, t) ==> Current(s') == Current(s)
  {
    assert Seen(s, w) == Current(s);
  }

  /** The owner is the controller named by UID and name. */
  lemma OwnedByMeans(o: Owned, t: Tenant)
    ensures OwnedBy(o, t) <==> exists ref :: ref in o.owners && ref.controller == Some(true) && ref.uid == t.uid && ref.name == t.name
  {
    if ref :| ref in o.owners && ref.controller == Some(true) && ref.uid == t.uid && ref.name == t.name {
      var i :| 0 <= i < |o.owners| && o.owners[i] == ref;
    }
  }

  ghost predicate OwnedRun(states: seq<Server<Owned>>, steps: seq<OwnedStep>) {
    && |states| == |steps| + 1 && Sound(states[0])
    && forall i :: 0 <= i < |steps| ==> OwnedNext(states[i], states[i + 1], steps[i])
  }

  lemma {:induction false} OwnedRunIsSound(states: seq<Server<Owned>>, steps: seq<OwnedStep>, n: nat)
    requires OwnedRun(states, steps) && n <= |steps|
    ensures Sound(states[n])
  {
    if n > 0 {
      OwnedRunIsSound(states, steps, n - 1);
      assert OwnedNext(states[n - 1], states[n], steps[n - 1]);
    }
  }

  /**
   An object that is not the Tenant's stays as it is, through every interleaving of that Tenant's reconcilers, for
   as long as nobody else writes it. One that is the Tenant's stays the Tenant's.
   */
  lemma {:induction false} ForeignObjectSurvives(states: seq<Server<Owned>>, steps: seq<OwnedStep>, t: Tenant, n: nat)
    requires OwnedRun(states, steps) && n <= |steps| && states[0].live
    requires forall i :: 0 <= i < n ==> steps[i].Look? || (steps[i].Put? && steps[i].tenant == t)
    ensures Current(states[n]).Some? && Current(states[0]).Some?
    ensures OwnedBy(Current(states[n]).value, t) <==> OwnedBy(Current(states[0]).value, t)
    ensures !OwnedBy(Current(states[0]).value, t) ==> Current(states[n]) == Current(states[0])
  {
    if n > 0 {
      ForeignObjectSurvives(states, steps, t, n - 1);
      var s, s', step := states[n - 1], states[n], steps[n - 1];
      OwnedRunIsSound(states, steps, n - 1);
      assert OwnedNext(s, s', step);
      if step.Put? { PutRespectsOwner(s, s', step.w, step.tenant, step.desired); }
    }
  }
}
