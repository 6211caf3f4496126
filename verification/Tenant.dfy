/**
 From the objects in a namespace to a Tenant's roster (operator/internal/controller/tenant_reconciler.go):
 which principals are listed, and how their keytabs are resolved.
 */
module Tenant {
  import opened Common
  import opened Aggregate
  import opened AggregateTheorems
  import opened RosterFile

  datatype SecretRef = SecretRef(name: string, key: string)

  /** A Principal object as the Tenant's reconciler reads it. */
  datatype Object = Object(principal: Principal, tenantRef: string, deleting: bool, disabled: bool, keytabRef: Option<SecretRef>, keytab: string)

  datatype TenantView = TenantView(name: string, disabled: bool)

  /** The data of a Secret; a value may be nil. */
  type SecretData = map<string, Option<Bytes>>

  /** Secrets by name; one that cannot be read is missing. */
  type Secrets = map<string, SecretData>

  /** The object takes part in the Tenant's roster. */
  predicate Active(o: Object, t: TenantView) { !t.disabled && o.tenantRef == t.name && !o.deleting && !o.disabled }

  function ActiveAmong(all: seq<Object>, t: TenantView): seq<Object> {
    if all == [] then []
    else
      var last := all[|all| - 1];
      ActiveAmong(all[..|all| - 1], t) + (if Active(last, t) then [last] else [])
  }

  /** `listPrincipalsFor`. */
  method ListPrincipalsFor(all: seq<Object>, t: TenantView) returns (out: seq<Object>)
    ensures out == ActiveAmong(all, t)
  {
    out := [];
    if t.disabled {
      NoneActive(all, t);
      return;
    }
    for i := 0 to |all|
      invariant out == ActiveAmong(all[..i], t)
    {
      assert all[..i + 1][..i] == all[..i];
      if all[i].tenantRef != t.name { continue; }
      if all[i].deleting { continue; }
      if all[i].disabled { continue; }
      out := out + [all[i]];
    }
    assert all[..|all|] == all;
  }

  lemma {:induction false} NoneActive(all: seq<Object>, t: TenantView)
    requires t.disabled
    ensures ActiveAmong(all, t) == []
  {
    if all != [] { NoneActive(all[..|all| - 1], t); }
  }

  /** What is listed: the Tenant's own principals, neither under deletion nor disabled, unless it is disabled itself. */
  lemma {:induction false} ActiveMembers(all: seq<Object>, t: TenantView)
    ensures forall o :: o in ActiveAmong(all, t) <==>
              o in all && o.tenantRef == t.name && !o.deleting && !o.disabled && !t.disabled
  {
    if all != [] {
      var n := |all| - 1;
      ActiveMembers(all[..n], t);
      assert forall o :: o in all <==> o in all[..n] || o == all[n];
    }
  }

  lemma {:induction false} ActiveAppend(a: seq<Object>, b: seq<Object>, t: TenantView)
    ensures ActiveAmong(a + b, t) == ActiveAmong(a, t) + ActiveAmong(b, t)
  {
    if b == [] {
      assert a + b == a;
    } else {
      var n := |b| - 1;
      ActiveAppend(a, b[..n], t);
      assert (a + b)[..|a + b| - 1] == a + b[..n];
    }
  }

  /** An object of another Tenant, one under deletion and a disabled one change nothing, wherever they stand in the list. */
  lemma OthersChangeNothing(before: seq<Object>, o: Object, after: seq<Object>, t: TenantView)
    requires o.tenantRef != t.name || o.deleting || o.disabled
    ensures ActiveAmong(before + [o] + after, t) == ActiveAmong(before + after, t)
  {
    ActiveAppend(before + [o], after, t);
    ActiveAppend(before, [o], t);
    ActiveAppend(before, after, t);
    assert [o][..0] == [];
  }

  /** Object names are unique in a namespace. */
  predicate DistinctNames(os: seq<Object>) {
    forall i, j :: 0 <= i < j < |os| ==> os[i].principal.name != os[j].principal.name
  }

  lemma {:induction false} ActiveDistinct(all: seq<Object>, t: TenantView)
    requires DistinctNames(all)
    ensures DistinctNames(ActiveAmong(all, t))
  {
    if all != [] {
      var n := |all| - 1;
      ActiveDistinct(all[..n], t);
      ActiveMembers(all[..n], t);
      forall o | o in ActiveAmong(all[..n], t) ensures o.principal.name != all[n].principal.name { assert o in all[..n]; }
    }
  }

  /******* Keytabs *******/

  predicate Resolves(o: Object, secrets: Secrets) {
    o.keytabRef.Some? && o.keytabRef.value.name in secrets && o.keytabRef.value.key in secrets[o.keytabRef.value.name]
  }

  function SourceFor(o: Object, secrets: Secrets): KeytabSource
    requires Resolves(o, secrets)
  {
    var ref := o.keytabRef.value;
    KeytabSource(o.principal.name, if o.keytab == "" then ref.key else o.keytab, secrets[ref.name][ref.key])
  }

  function SourcesFor(os: seq<Object>, secrets: Secrets): seq<KeytabSource> {
    if os == [] then []
    else
      var last := os[|os| - 1];
      SourcesFor(os[..|os| - 1], secrets) + (if Resolves(last, secrets) then [SourceFor(last, secrets)] else [])
  }

  /** `resolveKeytabs`. */
  method ResolveKeytabs(os: seq<Object>, secrets: Secrets) returns (sources: seq<KeytabSource>, allResolved: bool)
    ensures sources == SourcesFor(os, secrets)
    ensures allResolved <==> forall o :: o in os ==>
              o.keytabRef.Some? && o.keytabRef.value.name in secrets && o.keytabRef.value.key in secrets[o.keytabRef.value.name]
  {
    sources, allResolved := [], true;
    for i := 0 to |os|
      invariant sources == SourcesFor(os[..i], secrets)
      invariant allResolved <==> forall j :: 0 <= j < i ==> Resolves(os[j], secrets)
    {
      var o := os[i];
      assert os[..i + 1][..i] == os[..i];
      if o.keytabRef.None? {
        allResolved := false;
        continue;
      }
      var ref := o.keytabRef.value;
      if ref.name !in secrets {
        allResolved := false;
        continue;
      }
      if ref.key !in secrets[ref.name] {
        allResolved := false;
        continue;
      }
      var filename := o.keytab;
      if filename == "" { filename := ref.key; }
      sources := sources + [KeytabSource(o.principal.name, filename, secrets[ref.name][ref.key])];
    }
    assert os[..|os|] == os;
    assert forall o :: o in os ==> exists i :: 0 <= i < |os| && os[i] == o;
  }

  lemma {:induction false} SourcesMembers(os: seq<Object>, secrets: Secrets)
    ensures forall s :: s in SourcesFor(os, secrets) <==> exists o :: o in os && Resolves(o, secrets) && s == SourceFor(o, secrets)
  {
    if os != [] {
      var n := |os| - 1;
      SourcesMembers(os[..n], secrets);
      assert forall o :: o in os <==> o in os[..n] || o == os[n];
    }
  }

  /** What the aggregator asks of its sources. */
  lemma {:induction false} SourcesDistinct(os: seq<Object>, secrets: Secrets)
    requires DistinctNames(os)
    ensures DistinctSources(SourcesFor(os, secrets))
  {
    if os != [] {
      var n := |os| - 1;
      SourcesDistinct(os[..n], secrets);
      SourcesMembers(os[..n], secrets);
      forall s | s in SourcesFor(os[..n], secrets) ensures s.principalName != os[n].principal.name {
        var o :| o in os[..n] && Resolves(o, secrets) && s == SourceFor(o, secrets);
      }
    }
  }

  /******* The roster *******/

  function Principals(os: seq<Object>): seq<Principal> { seq(|os|, i requires 0 <= i < |os| => os[i].principal) }

  /** The aggregation part of `reconcileTenant`. */
  method ReconcileRoster(all: seq<Object>, t: TenantView, secrets: Secrets) returns (r: Aggregation)
    requires DistinctNames(all)
    ensures var os := ActiveAmong(all, t); Declares(Principals(os), SourcesFor(os, secrets), r)
  {
    var os := ListPrincipalsFor(all, t);
    var sources, _ := ResolveKeytabs(os, secrets);
    ActiveDistinct(all, t);
    SourcesDistinct(os, secrets);
    r := Aggregate.Aggregate(Principals(os), sources);
  }

  /** An enabled Tenant's own principal, neither under deletion nor disabled, has the UID. */
  ghost predicate UidActive(all: seq<Object>, t: TenantView, uid: int) {
    !t.disabled && exists o :: o in all && o.tenantRef == t.name && !o.deleting && !o.disabled && o.principal.uid == uid
  }

  /** `r` is the aggregation of what is listed for the Tenant, and its lines can be read back. */
  ghost predicate RosterOf(all: seq<Object>, t: TenantView, secrets: Secrets, r: Aggregation) {
    var os := ActiveAmong(all, t);
    Declares(Principals(os), SourcesFor(os, secrets), r) && AllPrintable(Roster(Principals(os), SourcesFor(os, secrets)))
  }

  /** The request a daemon reads back is for this object: its UID, its Kerberos principal and its keytab's file name. */
  ghost predicate RequestFor(req: TicketRequest, o: Object) {
    && req.uid == o.principal.uid && req.principal == o.principal.principal
    && o.keytabRef.Some? && req.keytab == (if o.keytab != "" then o.keytab else o.keytabRef.value.key)
  }

  lemma SourceIsOwn(all: seq<Object>, t: TenantView, secrets: Secrets, p: Principal) returns (o: Object)
    requires DistinctNames(all)
    requires var os := ActiveAmong(all, t); p in Principals(os) && SourceOf(SourcesFor(os, secrets), p.name).Some?
    ensures o in ActiveAmong(all, t) && o.principal == p && Resolves(o, secrets)
    ensures SourceOf(SourcesFor(ActiveAmong(all, t), secrets), p.name) == Some(SourceFor(o, secrets))
  {
    var os := ActiveAmong(all, t);
    var sources := SourcesFor(os, secrets);
    ActiveDistinct(all, t);
    SourcesDistinct(os, secrets);
    SourceMeans(sources, p.name);
    SourcesMembers(os, secrets);
    var i :| 0 <= i < |os| && os[i].principal == p;
    var src := SourceOf(sources, p.name).value;
    o :| o in os && Resolves(o, secrets) && src == SourceFor(o, secrets);
    var j :| 0 <= j < |os| && os[j] == o;
    assert os[i].principal.name == os[j].principal.name;
  }

  /**
   The roster a daemon reads back: no errors, UIDs ascending, and every request is for one of the Tenant's own
   principals that is neither under deletion nor disabled.
   */
  lemma RosterListsActive(all: seq<Object>, t: TenantView, secrets: Secrets, r: Aggregation)
    requires DistinctNames(all) && RosterOf(all, t, secrets, r)
    ensures var parsed := ParseFile(r.rosterBlob);
            && parsed.errs == []
            && (forall i, j :: 0 <= i < j < |parsed.reqs| ==> parsed.reqs[i].uid < parsed.reqs[j].uid)
            && (forall req :: req in parsed.reqs ==>
                  !t.disabled && exists o :: o in all && o.tenantRef == t.name && !o.deleting && !o.disabled && RequestFor(req, o))
  {
    var os := ActiveAmong(all, t);
    var ps, sources := Principals(os), SourcesFor(os, secrets);
    AggregatedRosterRoundTrip(ps, sources, r);
    ActiveMembers(all, t);
    forall req | req in ParseFile(r.rosterBlob).reqs
      ensures !t.disabled && exists o :: o in all && o.tenantRef == t.name && !o.deleting && !o.disabled && RequestFor(req, o)
    {
      var p :| p in ps && Included(ps, sources, p) && req == RequestOf(AcceptedOf(sources, p));
      var o := SourceIsOwn(all, t, secrets, p);
      assert o in os && RequestFor(req, o);
    }
  }

  /** Someone else among the listed claims the UID, or brings other bytes under the file name. */
  ghost predicate Contested(os: seq<Object>, secrets: Secrets, i: int)
    requires 0 <= i < |os| && os[i].keytabRef.Some?
  {
    || (exists j :: 0 <= j < |os| && j != i && os[j].principal.uid == os[i].principal.uid)
    || Collides(Principals(os), SourcesFor(os, secrets), if os[i].keytab != "" then os[i].keytab else os[i].keytabRef.value.key)
  }

  /** Conversely, each of those whose Secret has a keytab under its key, with a file name, and that nobody contests has a request. */
  lemma ActiveIsListed(all: seq<Object>, t: TenantView, secrets: Secrets, r: Aggregation, i: nat)
    requires DistinctNames(all) && RosterOf(all, t, secrets, r)
    requires var os := ActiveAmong(all, t);
             && i < |os| && os[i].keytabRef.Some?
             && var ref := os[i].keytabRef.value;
                && ref.name in secrets && ref.key in secrets[ref.name] && secrets[ref.name][ref.key].Some?
                && (os[i].keytab != "" || ref.key != "") && !Contested(os, secrets, i)
    ensures exists req :: req in ParseFile(r.rosterBlob).reqs && RequestFor(req, ActiveAmong(all, t)[i])
  {
    var os := ActiveAmong(all, t);
    var ps, sources, o := Principals(os), SourcesFor(os, secrets), os[i];
    ActiveDistinct(all, t);
    SourcesDistinct(os, secrets);
    SourcesMembers(os, secrets);
    SourceMeans(sources, o.principal.name);
    assert SourceOf(sources, o.principal.name) == Some(SourceFor(o, secrets));
    CountOne(ps, i);
    assert ps[i] == o.principal && Included(ps, sources, o.principal);
    AggregatedRosterRoundTrip(ps, sources, r);
    assert RequestFor(RequestOf(AcceptedOf(sources, o.principal)), o);
  }

  /** The keytab Secret holds, under the name in the roster line, the very bytes of the Secret the principal refers to. */
  lemma KeytabsAreTheSecrets(all: seq<Object>, t: TenantView, secrets: Secrets, r: Aggregation, a: Accepted)
    requires DistinctNames(all)
    requires var os := ActiveAmong(all, t);
             Declares(Principals(os), SourcesFor(os, secrets), r) && a in Roster(Principals(os), SourcesFor(os, secrets))
    ensures exists o :: o in all && o.principal == a.principal && o.keytabRef.Some?
                     && a.filename == (if o.keytab != "" then o.keytab else o.keytabRef.value.key)
                     && o.keytabRef.value.name in secrets && o.keytabRef.value.key in secrets[o.keytabRef.value.name]
                     && a.filename in r.keytabData
                     && secrets[o.keytabRef.value.name][o.keytabRef.value.key] == Some(r.keytabData[a.filename])
  {
    var os := ActiveAmong(all, t);
    var ps, sources := Principals(os), SourcesFor(os, secrets);
    RosterMembers(ps, sources);
    RosterOwnsKeytabs(ps, sources, a);
    var o := SourceIsOwn(all, t, secrets, a.principal);
    ActiveMembers(all, t);
    assert o in all;
  }

  /** So a principal under deletion, or disabled, is gone from every roster built since, unless another active one shares its UID. */
  lemma DeletedLeavesRoster(all: seq<Object>, t: TenantView, secrets: Secrets, r: Aggregation, d: Object)
    requires DistinctNames(all) && RosterOf(all, t, secrets, r)
    requires d in all && (d.deleting || d.disabled)
    requires forall o :: o in all && o != d && o.tenantRef == t.name && !o.deleting && !o.disabled ==> o.principal.uid != d.principal.uid
    ensures forall req :: req in ParseFile(r.rosterBlob).reqs ==> req.uid != d.principal.uid
  {
    RosterListsActive(all, t, secrets, r);
  }

  /** A disabled Tenant has an empty roster, so that its daemons prune everything they manage. */
  lemma DisabledTenantIsEmpty(all: seq<Object>, t: TenantView, secrets: Secrets, r: Aggregation)
    requires t.disabled
    requires var os := ActiveAmong(all, t); Declares(Principals(os), SourcesFor(os, secrets), r)
    ensures r.rosterBlob == "" && r.keytabData == map[PLACEHOLDER := []] && r.selectors == map[]
  {
    NoneActive(all, t);
  }
}
