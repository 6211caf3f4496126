/**
 Actions in flight in the terminal UI (cli/kubectl-krb/internal/tui/pending.go, with the messages of
 app.go, list.go and forms.go that touch them).
 */
module Pending {
  import opened Common
  import opened Text
  import opened Sorting

  const PENDING_TIMEOUT := 120_000_000_000
  const STABLE_TICKS_REQUIRED := 2
  const PRINCIPAL := "principal"
  const TENANT := "tenant"

  datatype TenantRow = TenantRow(ns: string, name: string, disabled: bool, rosterHash: string)
  datatype NodeReason = NodeReason(name: string, reason: string)
  datatype PrincipalRow = PrincipalRow(ns: string, name: string, tenantRef: string, nodes: seq<NodeReason>, readyNodes: int)

  datatype Action = Action(kind: string, ns: string, name: string, submittedAt: int, beforeSig: string, lastSig: string, stableTicks: nat)

  datatype Model = Model(tenants: seq<TenantRow>, principals: seq<PrincipalRow>, pending: map<string, Action>)

  /******* Keys *******/

  function PendingKey(kind: string, ns: string, name: string): string { kind + ['/'] + (ns + ['/'] + name) }

  predicate SlashFree(s: string) { '/' !in s }

  /** Keys are told apart by kind, namespace and name. */
  lemma KeyInjective(kind: string, ns: string, name: string, kind': string, ns': string, name': string)
    requires SlashFree(kind) && SlashFree(kind') && SlashFree(ns) && SlashFree(ns')
    requires PendingKey(kind, ns, name) == PendingKey(kind', ns', name')
    ensures kind == kind' && ns == ns' && name == name'
  {
    SameHead(kind, kind', '/', ns + ['/'] + name, ns' + ['/'] + name');
    SameHead(ns, ns', '/', name, name');
  }

  /******* Signatures *******/

  function MintedNames(nodes: seq<NodeReason>): seq<string> {
    if nodes == [] then [] else (if nodes[0].reason == "Minted" then [nodes[0].name] else []) + MintedNames(nodes[1..])
  }

  /** `principalSig`: the nodes that report a mint, in order. */
  function PrincipalSig(p: PrincipalRow): string { Glue(Sort(MintedNames(p.nodes), StringLe), ',') }

  predicate PlainName(name: string) { name != "" && ',' !in name }

  lemma {:induction false} MintedNamesMean(nodes: seq<NodeReason>)
    ensures forall name :: name in MintedNames(nodes) <==> NodeReason(name, "Minted") in nodes
  {
    if nodes != [] {
      MintedNamesMean(nodes[1..]);
      assert nodes == [nodes[0]] + nodes[1..];
    }
  }

  /** The signature tells exactly the nodes that report a mint, in whatever order they are listed. */
  lemma SigIff(p: PrincipalRow, q: PrincipalRow)
    requires forall n :: n in p.nodes || n in q.nodes ==> PlainName(n.name)
    ensures PrincipalSig(p) == PrincipalSig(q) <==> multiset(MintedNames(p.nodes)) == multiset(MintedNames(q.nodes))
  {
    var a, b := MintedNames(p.nodes), MintedNames(q.nodes);
    MintedNamesMean(p.nodes);
    MintedNamesMean(q.nodes);
    SortsAlike(a, b);
    SplitSig(a);
    SplitSig(b);
  }

  lemma SplitSig(names: seq<string>)
    requires forall name :: name in names ==> PlainName(name)
    ensures var sorted := Sort(names, StringLe);
            if names == [] then sorted == [] && Glue(sorted, ',') == ""
            else Glue(sorted, ',') != "" && Split(Glue(sorted, ','), ',') == sorted
  {
    var sorted := Sort(names, StringLe);
    StringLeOrders();
    SortSorts(names, StringLe);
    SortMembers(names, StringLe);
    if names != [] {
      assert sorted[0] in sorted && names[0] in names;
      SplitGlue(sorted, ',');
    }
  }

  predicate ChildOf(p: PrincipalRow, t: TenantRow) { p.ns == t.ns && p.tenantRef == t.name }

  function ChildCount(ps: seq<PrincipalRow>, t: TenantRow): nat {
    if ps == [] then 0 else ChildCount(ps[..|ps| - 1], t) + (if ChildOf(ps[|ps| - 1], t) then 1 else 0)
  }

  function ReadyTotal(ps: seq<PrincipalRow>, t: TenantRow): int {
    if ps == [] then 0 else ReadyTotal(ps[..|ps| - 1], t) + (if ChildOf(ps[|ps| - 1], t) then ps[|ps| - 1].readyNodes else 0)
  }

  const EMPTY_PREFIX := "empty|"

  function TenantSig(ps: seq<PrincipalRow>, t: TenantRow): string {
    var count := ChildCount(ps, t);
    if count == 0 then EMPTY_PREFIX + t.rosterHash else Format(ReadyTotal(ps, t)) + ['/'] + Format(count)
  }

  predicate HasPrefix(s: string, prefix: string) { prefix <= s }

  predicate TenantConverged(t: TenantRow, p: Action, currentSig: string) {
    if currentSig == "" then false
    else if HasPrefix(currentSig, EMPTY_PREFIX) then currentSig != p.beforeSig
    else if t.disabled then HasPrefix(currentSig, "0/")
    else if currentSig == p.beforeSig then false
    else p.stableTicks >= STABLE_TICKS_REQUIRED
  }

  lemma DrainedSig(total: int, count: nat)
    ensures HasPrefix(Format(total) + ['/'] + Format(count), "0/") <==> total == 0
    ensures !HasPrefix(Format(total) + ['/'] + Format(count), EMPTY_PREFIX)
  {
    var sig := Format(total) + ['/'] + Format(count);
    assert sig[0] == Format(total)[0];
    if HasPrefix(sig, "0/") {
      assert sig == "0" + ['/'] + sig[2..];
      SameHead(Format(total), "0", '/', Format(count), sig[2..]);
      assert Format(0) == "0";
      FormatInjective(total, 0);
    }
  }

  /** What the text comparisons in `tenantConverged` decide, in terms of the Tenant's principals. */
  lemma ConvergedMeans(ps: seq<PrincipalRow>, t: TenantRow, p: Action)
    ensures var sig := TenantSig(ps, t);
            TenantConverged(t, p, sig) <==>
            if ChildCount(ps, t) == 0 then sig != p.beforeSig
            else if t.disabled then ReadyTotal(ps, t) == 0
            else sig != p.beforeSig && p.stableTicks >= STABLE_TICKS_REQUIRED
  {
    DrainedSig(ReadyTotal(ps, t), ChildCount(ps, t));
  }

  /******* Resolving *******/

  function FindPrincipal(ps: seq<PrincipalRow>, ns: string, name: string): Option<PrincipalRow> {
    if ps == [] then None else if ps[0].ns == ns && ps[0].name == name then Some(ps[0]) else FindPrincipal(ps[1..], ns, name)
  }

  function FindTenant(ts: seq<TenantRow>, ns: string, name: string): Option<TenantRow> {
    if ts == [] then None else if ts[0].ns == ns && ts[0].name == name then Some(ts[0]) else FindTenant(ts[1..], ns, name)
  }

  /** The signature of the action's object in the snapshot, empty if it is gone. */
  function CurrentSig(ts: seq<TenantRow>, ps: seq<PrincipalRow>, p: Action): string {
    if p.kind == PRINCIPAL then
      var t := FindPrincipal(ps, p.ns, p.name);
      if t.Some? then PrincipalSig(t.value) else ""
    else if p.kind == TENANT then
      var t := FindTenant(ts, p.ns, p.name);
      if t.Some? then TenantSig(ps, t.value) else ""
    else ""
  }

  predicate Converged(ts: seq<TenantRow>, ps: seq<PrincipalRow>, p: Action) {
    if p.kind == PRINCIPAL then
      var t := FindPrincipal(ps, p.ns, p.name);
      t.None? || PrincipalSig(t.value) != p.beforeSig
    else if p.kind == TENANT then
      var t := FindTenant(ts, p.ns, p.name);
      t.None? || TenantConverged(t.value, p, TenantSig(ps, t.value))
    else false
  }

  predicate TimedOut(p: Action, now: int) { now - p.submittedAt > PENDING_TIMEOUT }

  /** A principal's action clears exactly when the principal is gone or its nodes' mints have changed; nothing else clears but age. */
  lemma ClearsMean(ts: seq<TenantRow>, ps: seq<PrincipalRow>, p: Action, now: int)
    ensures p.kind == PRINCIPAL ==>
              var found := FindPrincipal(ps, p.ns, p.name);
              Converged(ts, ps, p) <==> found.None? || PrincipalSig(found.value) != p.beforeSig
    ensures p.kind == TENANT && FindTenant(ts, p.ns, p.name).None? ==> Converged(ts, ps, p)
    ensures TimedOut(p, now) <==> p.submittedAt + 120_000_000_000 < now
  {
  }

  /** One more observation of the signature. */
  function Observe(p: Action, sig: string): Action {
    if sig == p.lastSig then p.(stableTicks := p.stableTicks + 1) else p.(lastSig := sig, stableTicks := 0)
  }

  predicate Stays(ts: seq<TenantRow>, ps: seq<PrincipalRow>, p: Action, now: int) { !Converged(ts, ps, p) && !TimedOut(p, now) }

  function Resolved(m: Model, now: int): map<string, Action> {
    map k | k in m.pending && Stays(m.tenants, m.principals, m.pending[k], now) :: Observe(m.pending[k], CurrentSig(m.tenants, m.principals, m.pending[k]))
  }

  /** The entry under `k` has been dealt with in `after`. */
  ghost predicate Visited(m: Model, now: int, k: string, after: map<string, Action>)
    requires k in m.pending
  {
    && (k in after <==> Stays(m.tenants, m.principals, m.pending[k], now))
    && (k in after ==> after[k] == Observe(m.pending[k], CurrentSig(m.tenants, m.principals, m.pending[k])))
  }

  lemma VisitOne(m: Model, now: int, key: string, before: map<string, Action>, after: map<string, Action>)
    requires key in m.pending
    requires after == if Stays(m.tenants, m.principals, m.pending[key], now) then before[key := Observe(m.pending[key], CurrentSig(m.tenants, m.principals, m.pending[key]))]
                      else before - {key}
    ensures Visited(m, now, key, after)
    ensures forall k :: k in m.pending && k != key && Visited(m, now, k, before) ==> Visited(m, now, k, after)
  {
  }

  lemma AllVisited(m: Model, now: int, after: map<string, Action>)
    requires (forall k :: k in after ==> k in m.pending) && (forall k :: k in m.pending ==> Visited(m, now, k, after))
    ensures after == Resolved(m, now)
  {
  }

  function ObserveAll(p: Action, sigs: seq<string>): Action {
    if sigs == [] then p else Observe(ObserveAll(p, sigs[..|sigs| - 1]), sigs[|sigs| - 1])
  }

  predicate LastThreeEqual(sigs: seq<string>) {
    var n := |sigs|;
    n >= 3 && sigs[n - 1] == sigs[n - 2] == sigs[n - 3]
  }

  /** What the counter knows: whether the last three observations, before the present one, were the same. */
  lemma {:induction false} StableTicksMeans(p: Action, sigs: seq<string>)
    requires p.lastSig == "" && p.stableTicks == 0 && "" !in sigs
    ensures var q := ObserveAll(p, sigs);
            && q == p.(lastSig := if sigs == [] then "" else sigs[|sigs| - 1], stableTicks := q.stableTicks)
            && (q.stableTicks >= 1 <==> |sigs| >= 2 && sigs[|sigs| - 1] == sigs[|sigs| - 2])
            && (q.stableTicks >= STABLE_TICKS_REQUIRED <==> LastThreeEqual(sigs))
  {
    if sigs != [] {
      assert sigs[|sigs| - 1] in sigs;
      StableTicksMeans(p, sigs[..|sigs| - 1]);
    }
  }

  /** So an enabled Tenant with principals clears exactly if it differs from before the action and was the same three times in a row. */
  lemma ClearsIff(m: Model, p: Action, t: TenantRow, sigs: seq<string>)
    requires p.kind == TENANT && p.lastSig == "" && p.stableTicks == 0 && "" !in sigs
    requires FindTenant(m.tenants, p.ns, p.name) == Some(t) && !t.disabled && ChildCount(m.principals, t) > 0
    ensures Converged(m.tenants, m.principals, ObserveAll(p, sigs)) <==> TenantSig(m.principals, t) != p.beforeSig && LastThreeEqual(sigs)
  {
    StableTicksMeans(p, sigs);
    ConvergedMeans(m.principals, t, ObserveAll(p, sigs));
  }

  /** The three need not be of the new state: one that has stood still clears at its very first move. */
  lemma ClearsOnFirstMove(m: Model, p: Action, t: TenantRow, sigs: seq<string>)
    requires p.kind == TENANT && p.lastSig == "" && p.stableTicks == 0 && "" !in sigs
    requires FindTenant(m.tenants, p.ns, p.name) == Some(t) && !t.disabled && ChildCount(m.principals, t) > 0
    requires LastThreeEqual(sigs) && sigs[|sigs| - 1] == p.beforeSig != TenantSig(m.principals, t)
    ensures Converged(m.tenants, m.principals, ObserveAll(p, sigs))
  {
    ClearsIff(m, p, t, sigs);
  }

  /******* Messages *******/

  datatype Row = TenantAt(tenant: TenantRow) | PrincipalAt(principal: PrincipalRow)

  datatype Msg =
    | Toggle(row: Row, now: int)                                               // the disable key on a row of the list
    | SubmitSelector(ns: string, name: string, now: int)                       // the selector form
    | Data(tenants: seq<TenantRow>, principals: seq<PrincipalRow>, now: int)   // a refresh
    | DataFailed                                                               // one that failed
    | ActionFailed(key: string)                                                // the API server said no

  /** `checkPendingConflict` names something to wait for. */
  predicate Blocked(m: Model, r: Row) {
    match r
    case PrincipalAt(p) => PendingKey(PRINCIPAL, p.ns, p.name) in m.pending || PendingKey(TENANT, p.ns, p.tenantRef) in m.pending
    case TenantAt(t) =>
      PendingKey(TENANT, t.ns, t.name) in m.pending ||
      exists i :: 0 <= i < |m.principals| && ChildOf(m.principals[i], t) &&
        PendingKey(PRINCIPAL, m.principals[i].ns, m.principals[i].name) in m.pending
  }

  function Marked(m: Model, r: Row, now: int): Model {
    match r
    case PrincipalAt(p) =>
      m.(pending := m.pending[PendingKey(PRINCIPAL, p.ns, p.name) := Action(PRINCIPAL, p.ns, p.name, now, PrincipalSig(p), "", 0)])
    case TenantAt(t) =>
      m.(pending := m.pending[PendingKey(TENANT, t.ns, t.name) := Action(TENANT, t.ns, t.name, now, TenantSig(m.principals, t), "", 0)])
  }

  function Start(m: Model, r: Row, now: int): Model { if Blocked(m, r) then m else Marked(m, r, now) }

  function Update(m: Model, msg: Msg): Model {
    match msg
    case Toggle(r, now) => Start(m, r, now)
    case SubmitSelector(ns, name, now) =>
      var p := FindPrincipal(m.principals, ns, name);
      if p.None? then m else Start(m, PrincipalAt(p.value), now)
    case Data(ts, ps, now) => Model(ts, ps, Resolved(Model(ts, ps, m.pending), now))
    case DataFailed => m
    case ActionFailed(key) => m.(pending := m.pending - {key})
  }

  /** What starting an action records, and that it leaves everything else as it is. */
  lemma StartRecords(m: Model, r: Row, now: int)
    requires !Blocked(m, r)
    ensures var m', k := Start(m, r, now), match r case PrincipalAt(p) => PendingKey("principal", p.ns, p.name)
                                                   case TenantAt(t) => PendingKey("tenant", t.ns, t.name);
            && m'.tenants == m.tenants && m'.principals == m.principals && m'.pending.Keys == m.pending.Keys + {k}
            && (forall l :: l in m.pending && l != k ==> m'.pending[l] == m.pending[l])
            && m'.pending[k].submittedAt == now && m'.pending[k].stableTicks == 0
            && match r
               case PrincipalAt(p) => m'.pending[k].kind == "principal" && m'.pending[k].ns == p.ns && m'.pending[k].name == p.name
               case TenantAt(t) => m'.pending[k].kind == "tenant" && m'.pending[k].ns == t.ns && m'.pending[k].name == t.name
  {
  }

  /** The disable key and the selector form start an action exactly when nothing blocks it and its object is on screen. */
  lemma StartsWhenFree(m: Model, r: Row, ns: string, name: string, now: int)
    ensures Blocked(m, r) ==> Update(m, Toggle(r, now)) == m
    ensures !Blocked(m, r) ==>
              exists k :: k in Update(m, Toggle(r, now)).pending && k !in m.pending && Update(m, Toggle(r, now)).pending[k].submittedAt == now
    ensures var found, m' := FindPrincipal(m.principals, ns, name), Update(m, SubmitSelector(ns, name, now));
            && (found.None? || Blocked(m, PrincipalAt(found.value)) ==> m' == m)
            && (found.Some? && !Blocked(m, PrincipalAt(found.value)) ==>
                 var k := PendingKey("principal", ns, name); k !in m.pending && k in m'.pending && m'.pending[k].submittedAt == now)
  {
    FindPrincipalFinds(m.principals, ns, name);
    if !Blocked(m, r) {
      var k := match r case PrincipalAt(p) => PendingKey(PRINCIPAL, p.ns, p.name) case TenantAt(t) => PendingKey(TENANT, t.ns, t.name);
      assert k in Update(m, Toggle(r, now)).pending && k !in m.pending;
    }
  }

  /** An action does not clear against the snapshot it was started on: of a principal, or of an enabled Tenant. */
  lemma JustStartedStays(m: Model, r: Row, now: int)
    requires !Blocked(m, r)
    requires match r case PrincipalAt(p) => FindPrincipal(m.principals, p.ns, p.name) == Some(p)
                     case TenantAt(t) => FindTenant(m.tenants, t.ns, t.name) == Some(t) && !t.disabled
    ensures forall k :: k in Start(m, r, now).pending && k !in m.pending ==> Stays(m.tenants, m.principals, Start(m, r, now).pending[k], now)
  {
    if r.TenantAt? {
      var t := r.tenant;
      ConvergedMeans(m.principals, t, Action(TENANT, t.ns, t.name, now, TenantSig(m.principals, t), "", 0));
    }
  }

  /** The other messages: a refresh takes over the snapshot and keeps what has neither cleared nor timed out, a failed action is dropped. */
  lemma MessagesMean(m: Model, ts: seq<TenantRow>, ps: seq<PrincipalRow>, now: int, key: string, k: string)
    ensures Update(m, DataFailed) == m
    ensures var m' := Update(m, ActionFailed(key));
            && m'.tenants == m.tenants && m'.principals == m.principals
            && (k in m'.pending <==> k in m.pending && k != key) && (k in m'.pending ==> m'.pending[k] == m.pending[k])
    ensures var m' := Update(m, Data(ts, ps, now));
            && m'.tenants == ts && m'.principals == ps
            && (k in m'.pending <==> k in m.pending && !Converged(ts, ps, m.pending[k]) && now <= m.pending[k].submittedAt + 120_000_000_000)
            && (k in m'.pending ==>
                 var a, b := m.pending[k], m'.pending[k];
                 b == a.(lastSig := b.lastSig, stableTicks := b.stableTicks) && b.lastSig == CurrentSig(ts, ps, a)
                 && b.stableTicks == (if a.lastSig == b.lastSig then a.stableTicks + 1 else 0))
  {
  }

  /** The model's fields, as the source's `appModel` has and updates them. */
  class AppModel {
    var tenants: seq<TenantRow>
    var principals: seq<PrincipalRow>
    var pending: map<string, Action>

    ghost function State(): Model
      reads this
    {
      Model(tenants, principals, pending)
    }

    constructor ()
      ensures State() == Model([], [], map[])
    {
      tenants, principals, pending := [], [], map[];
    }

    /** `tenantSig`. */
    method SigOfTenant(t: TenantRow) returns (sig: string)
      ensures sig == TenantSig(principals, t)
    {
      var total, count := 0, 0;
      for i := 0 to |principals|
        invariant total == ReadyTotal(principals[..i], t) && count == ChildCount(principals[..i], t)
      {
        assert principals[..i + 1][..i] == principals[..i];
        if ChildOf(principals[i], t) {
          count := count + 1;
          total := total + principals[i].readyNodes;
        }
      }
      assert principals[..|principals|] == principals;
      sig := if count == 0 then EMPTY_PREFIX + t.rosterHash else Format(total) + ['/'] + Format(count);
    }

    /** `checkPendingConflict`, without the wording. */
    method CheckPendingConflict(r: Row) returns (blocked: bool)
      ensures blocked <==> Blocked(State(), r)
    {
      match r {
        case PrincipalAt(p) =>
          if PendingKey(PRINCIPAL, p.ns, p.name) in pending { return true; }
          return PendingKey(TENANT, p.ns, p.tenantRef) in pending;
        case TenantAt(t) =>
          if PendingKey(TENANT, t.ns, t.name) in pending { return true; }
          for i := 0 to |principals|
            invariant forall j :: 0 <= j < i && ChildOf(principals[j], t) ==>
                        PendingKey(PRINCIPAL, principals[j].ns, principals[j].name) !in pending
          {
            var p := principals[i];
            if p.ns != t.ns || p.tenantRef != t.name { continue; }
            if PendingKey(PRINCIPAL, p.ns, p.name) in pending { return true; }
          }
          return false;
      }
    }

    /** `markPendingPrincipal` and `markPendingTenant`, behind the conflict test of their callers. */
    method StartAction(r: Row, now: int)
      modifies this`pending
      ensures State() == Start(old(State()), r, now)
    {
      var blocked := CheckPendingConflict(r);
      if blocked { return; }
      match r {
        case PrincipalAt(p) =>
          pending := pending[PendingKey(PRINCIPAL, p.ns, p.name) := Action(PRINCIPAL, p.ns, p.name, now, PrincipalSig(p), "", 0)];
        case TenantAt(t) =>
          var sig := SigOfTenant(t);
          pending := pending[PendingKey(TENANT, t.ns, t.name) := Action(TENANT, t.ns, t.name, now, sig, "", 0)];
      }
    }

    /** The part of `resolvePending` that looks an action's object up. */
    method Inspect(p: Action) returns (converged: bool, currentSig: string)
      ensures converged == Converged(tenants, principals, p) && currentSig == CurrentSig(tenants, principals, p)
    {
      converged, currentSig := false, "";
      if p.kind == PRINCIPAL {
        var t := FindPrincipal(principals, p.ns, p.name);
        if t.None? { return true, ""; }
        currentSig := PrincipalSig(t.value);
        converged := currentSig != p.beforeSig;
      } else if p.kind == TENANT {
        var t := FindTenant(tenants, p.ns, p.name);
        if t.None? { return true, ""; }
        currentSig := SigOfTenant(t.value);
        converged := TenantConverged(t.value, p, currentSig);
      }
    }

    /** One round of the loop in `resolvePending`. */
    method ResolveOne(key: string, now: int) returns (cleared: bool)
      requires key in pending
      modifies this`pending
      ensures var p := old(pending)[key];
              && (cleared <==> !Stays(tenants, principals, p, now))
              && pending == (if cleared then old(pending) - {key} else old(pending)[key := Observe(p, CurrentSig(tenants, principals, p))])
    {
      var p := pending[key];
      var converged, currentSig := Inspect(p);
      pending := pending[key := Observe(p, currentSig)];
      cleared := converged || now - p.submittedAt > PENDING_TIMEOUT;
      if cleared { pending := pending - {key}; }
    }

    /** `resolvePending`: entries are visited in any order, updated in place and deleted on the way. */
    method ResolvePending(now: int) returns (cleared: bool)
      modifies this`pending
      ensures pending == Resolved(old(State()), now)
      ensures cleared <==> exists k :: k in old(pending) && k !in pending
    {
      cleared := false;
      ghost var m := State();
      var todo := pending.Keys;
      while todo != {}
        invariant forall k :: k in pending || k in todo ==> k in m.pending
        invariant forall k :: k in todo ==> k in pending && pending[k] == m.pending[k]
        invariant forall k :: k in m.pending && k !in todo ==> Visited(m, now, k, pending)
        invariant cleared <==> exists k :: k in m.pending && k !in pending
        decreases todo
      {
        var key :| key in todo;
        todo := todo - {key};
        ghost var before := pending;
        var dropped := ResolveOne(key, now);
        VisitOne(m, now, key, before, pending);
        if dropped { cleared := true; }
      }
      AllVisited(m, now, pending);
    }

    /** `Update` on the messages that touch pending actions. */
    method Handle(msg: Msg)
      modifies this
      ensures State() == Update(old(State()), msg)
    {
      match msg {
        case Toggle(r, now) => StartAction(r, now);
        case SubmitSelector(ns, name, now) =>
          var p := FindPrincipal(principals, ns, name);
          if p.Some? { StartAction(PrincipalAt(p.value), now); }
        case Data(ts, ps, now) =>
          tenants := ts;
          principals := ps;
          var _ := ResolvePending(now);
        case DataFailed =>
        case ActionFailed(key) => pending := pending - {key};
      }
    }
  }

  /******* What holds in every reachable state *******/

  /** Principals keep their Tenant, and names have no slash. */
  ghost predicate SnapshotOk(parent: (string, string) -> string, ts: seq<TenantRow>, ps: seq<PrincipalRow>) {
    && (forall t :: t in ts ==> SlashFree(t.ns) && SlashFree(t.name))
    && (forall p :: p in ps ==> SlashFree(p.ns) && SlashFree(p.name) && p.tenantRef == parent(p.ns, p.name))
  }

  /** Rows come from the list on screen. */
  ghost predicate MsgOk(parent: (string, string) -> string, m: Model, msg: Msg) {
    match msg
    case Toggle(TenantAt(t), _) => t in m.tenants
    case Toggle(PrincipalAt(p), _) => p in m.principals
    case Data(ts, ps, _) => SnapshotOk(parent, ts, ps)
    case _ => true
  }

  ghost predicate Listed(m: Model, ns: string, name: string) { exists p :: p in m.principals && p.ns == ns && p.name == name }

  /** Every entry sits under its own key, and a pending principal is in the snapshot. */
  ghost predicate WellKeyed(m: Model) {
    forall k :: k in m.pending ==>
      var a := m.pending[k];
      && k == PendingKey(a.kind, a.ns, a.name) && (a.kind == PRINCIPAL || a.kind == TENANT) && SlashFree(a.ns)
      && (a.kind == PRINCIPAL ==> Listed(m, a.ns, a.name))
  }

  /** A Tenant and one of its principals are never both pending. */
  ghost predicate Exclusive(parent: (string, string) -> string, m: Model) {
    forall k, l :: k in m.pending && l in m.pending && m.pending[k].kind == PRINCIPAL && m.pending[l].kind == TENANT ==>
      !(m.pending[k].ns == m.pending[l].ns && parent(m.pending[k].ns, m.pending[k].name) == m.pending[l].name)
  }

  ghost predicate Inv(parent: (string, string) -> string, m: Model) {
    SnapshotOk(parent, m.tenants, m.principals) && WellKeyed(m) && Exclusive(parent, m)
  }

  lemma {:induction false} FindPrincipalFinds(ps: seq<PrincipalRow>, ns: string, name: string)
    ensures var r := FindPrincipal(ps, ns, name);
            && (r.Some? ==> r.value in ps && r.value.ns == ns && r.value.name == name)
            && (r.None? ==> forall p :: p in ps ==> !(p.ns == ns && p.name == name))
  {
    if ps != [] {
      FindPrincipalFinds(ps[1..], ns, name);
      assert forall p :: p in ps <==> p == ps[0] || p in ps[1..];
    }
  }

  ghost predicate IsPending(m: Model, kind: string, ns: string, name: string) {
    exists k :: k in m.pending && m.pending[k].kind == kind && m.pending[k].ns == ns && m.pending[k].name == name
  }

  lemma KeyMeans(m: Model, kind: string, ns: string, name: string)
    requires WellKeyed(m) && SlashFree(kind) && SlashFree(ns)
    ensures PendingKey(kind, ns, name) in m.pending <==> IsPending(m, kind, ns, name)
  {
    var k := PendingKey(kind, ns, name);
    if k in m.pending {
      var a := m.pending[k];
      KeyInjective(kind, ns, name, a.kind, a.ns, a.name);
    }
  }

  /** An action waits exactly for its own object, a Tenant's for its principals, and a principal's for its Tenant. */
  lemma BlockedMeans(parent: (string, string) -> string, m: Model, r: Row)
    requires Inv(parent, m) && MsgOk(parent, m, Toggle(r, 0))
    ensures Blocked(m, r) <==>
            match r
            case PrincipalAt(p) => IsPending(m, PRINCIPAL, p.ns, p.name) || IsPending(m, TENANT, p.ns, p.tenantRef)
            case TenantAt(t) =>
              || IsPending(m, TENANT, t.ns, t.name)
              || exists name :: IsPending(m, PRINCIPAL, t.ns, name) && parent(t.ns, name) == t.name
  {
    match r
    case PrincipalAt(p) =>
      KeyMeans(m, PRINCIPAL, p.ns, p.name);
      KeyMeans(m, TENANT, p.ns, p.tenantRef);
    case TenantAt(t) =>
      KeyMeans(m, TENANT, t.ns, t.name);
      forall name { KeyMeans(m, PRINCIPAL, t.ns, name); }
      forall name | IsPending(m, PRINCIPAL, t.ns, name) && parent(t.ns, name) == t.name ensures Blocked(m, r) {
        assert Listed(m, t.ns, name);
        var p :| p in m.principals && p.ns == t.ns && p.name == name;
        var i :| 0 <= i < |m.principals| && m.principals[i] == p;
        assert ChildOf(m.principals[i], t);
      }
      if i :| 0 <= i < |m.principals| && ChildOf(m.principals[i], t) &&
              PendingKey(PRINCIPAL, m.principals[i].ns, m.principals[i].name) in m.pending
      {
        assert m.principals[i] in m.principals && IsPending(m, PRINCIPAL, t.ns, m.principals[i].name);
      }
  }

  lemma StartPrincipal(parent: (string, string) -> string, m: Model, p: PrincipalRow, now: int)
    requires Inv(parent, m) && p in m.principals
    ensures Inv(parent, Start(m, PrincipalAt(p), now))
  {
    if !Blocked(m, PrincipalAt(p)) {
      var m' := Marked(m, PrincipalAt(p), now);
      assert forall ns, name :: Listed(m, ns, name) ==> Listed(m', ns, name);
      forall l | l in m.pending && m.pending[l].kind == TENANT ensures !(m.pending[l].ns == p.ns && m.pending[l].name == p.tenantRef) {
        assert l == PendingKey(TENANT, m.pending[l].ns, m.pending[l].name);
      }
    }
  }

  lemma StartTenant(parent: (string, string) -> string, m: Model, t: TenantRow, now: int)
    requires Inv(parent, m) && t in m.tenants
    ensures Inv(parent, Start(m, TenantAt(t), now))
  {
    if !Blocked(m, TenantAt(t)) {
      var m' := Marked(m, TenantAt(t), now);
      assert forall ns, name :: Listed(m, ns, name) ==> Listed(m', ns, name);
      forall k | k in m.pending && m.pending[k].kind == PRINCIPAL
        ensures !(m.pending[k].ns == t.ns && parent(m.pending[k].ns, m.pending[k].name) == t.name)
      {
        var a := m.pending[k];
        var p :| p in m.principals && p.ns == a.ns && p.name == a.name;
        var i :| 0 <= i < |m.principals| && m.principals[i] == p;
        assert ChildOf(m.principals[i], t) ==> PendingKey(PRINCIPAL, p.ns, p.name) !in m.pending;
      }
    }
  }

  /** What stays pending is the same action, and was not to be cleared. */
  lemma ResolvedFrom(m: Model, now: int, k: string)
    requires k in Resolved(m, now)
    ensures k in m.pending && Stays(m.tenants, m.principals, m.pending[k], now)
    ensures var a, b := m.pending[k], Resolved(m, now)[k];
            b.kind == a.kind && b.ns == a.ns && b.name == a.name && b.submittedAt == a.submittedAt
  {
  }

  /** A principal's action stays pending only while the principal is in the snapshot. */
  lemma StaysListed(m: Model, a: Action, now: int)
    requires a.kind == PRINCIPAL && Stays(m.tenants, m.principals, a, now)
    ensures Listed(m, a.ns, a.name)
  {
    FindPrincipalFinds(m.principals, a.ns, a.name);
  }

  lemma ResolveKeepsInv(parent: (string, string) -> string, m: Model, ts: seq<TenantRow>, ps: seq<PrincipalRow>, now: int)
    requires Inv(parent, m) && SnapshotOk(parent, ts, ps)
    ensures Inv(parent, Update(m, Data(ts, ps, now)))
  {
    var snapshot := Model(ts, ps, m.pending);
    var m' := Update(m, Data(ts, ps, now));
    forall k | k in m'.pending
      ensures k in m.pending && m'.pending[k].kind == m.pending[k].kind && m'.pending[k].ns == m.pending[k].ns && m'.pending[k].name == m.pending[k].name
      ensures m'.pending[k].kind == PRINCIPAL ==> Listed(m', m'.pending[k].ns, m'.pending[k].name)
    {
      ResolvedFrom(snapshot, now, k);
      if m.pending[k].kind == PRINCIPAL {
        StaysListed(snapshot, m.pending[k], now);
        assert m'.principals == snapshot.principals;
      }
    }
  }

  lemma UpdateKeepsInv(parent: (string, string) -> string, m: Model, msg: Msg)
    requires Inv(parent, m) && MsgOk(parent, m, msg)
    ensures Inv(parent, Update(m, msg))
  {
    match msg
    case Toggle(PrincipalAt(p), now) => StartPrincipal(parent, m, p, now);
    case Toggle(TenantAt(t), now) => StartTenant(parent, m, t, now);
    case SubmitSelector(ns, name, now) =>
      FindPrincipalFinds(m.principals, ns, name);
      var p := FindPrincipal(m.principals, ns, name);
      if p.Some? { StartPrincipal(parent, m, p.value, now); }
    case Data(ts, ps, now) => ResolveKeepsInv(parent, m, ts, ps, now);
    case DataFailed =>
    case ActionFailed(key) =>
      assert forall ns, name :: Listed(m, ns, name) ==> Listed(Update(m, msg), ns, name);
  }

  function After(msgs: seq<Msg>): Model {
    if msgs == [] then Model([], [], map[]) else Update(After(msgs[..|msgs| - 1]), msgs[|msgs| - 1])
  }

  ghost predicate Session(parent: (string, string) -> string, msgs: seq<Msg>) {
    forall i :: 0 <= i < |msgs| ==> MsgOk(parent, After(msgs[..i]), msgs[i])
  }

  lemma SessionPrefix(parent: (string, string) -> string, msgs: seq<Msg>, n: nat)
    requires Session(parent, msgs) && n <= |msgs|
    ensures Session(parent, msgs[..n])
  {
    forall i | 0 <= i < n ensures MsgOk(parent, After(msgs[..n][..i]), msgs[..n][i]) { assert msgs[..n][..i] == msgs[..i]; }
  }

  /**
   In every session: the pending principals are all on screen, no Tenant is pending together with one of its
   principals, and each entry is under its own key.
   */
  lemma {:induction false} SessionSafe(parent: (string, string) -> string, msgs: seq<Msg>)
    requires Session(parent, msgs)
    ensures Inv(parent, After(msgs))
  {
    if msgs != [] {
      var n := |msgs| - 1;
      SessionPrefix(parent, msgs, n);
      SessionSafe(parent, msgs[..n]);
      UpdateKeepsInv(parent, After(msgs[..n]), msgs[n]);
    }
  }

  /** After a successful refresh nothing has been pending for more than 120s, and every pending object is there. */
  lemma RefreshBounds(parent: (string, string) -> string, msgs: seq<Msg>)
    requires Session(parent, msgs) && msgs != [] && msgs[|msgs| - 1].Data?
    ensures var m, now := After(msgs), msgs[|msgs| - 1].now;
            forall k :: k in m.pending ==>
              var a := m.pending[k];
              && now - a.submittedAt <= PENDING_TIMEOUT
              && (if a.kind == PRINCIPAL then Listed(m, a.ns, a.name) else FindTenant(m.tenants, a.ns, a.name).Some?)
  {
    SessionSafe(parent, msgs);
    var n := |msgs| - 1;
    var before, msg := After(msgs[..n]), msgs[n];
    var snapshot := Model(msg.tenants, msg.principals, before.pending);
    forall k | k in After(msgs).pending
      ensures Stays(snapshot.tenants, snapshot.principals, before.pending[k], msg.now)
      ensures var a, b := before.pending[k], After(msgs).pending[k];
              b.kind == a.kind && b.ns == a.ns && b.name == a.name && b.submittedAt == a.submittedAt
    {
      ResolvedFrom(snapshot, msg.now, k);
    }
  }
}
