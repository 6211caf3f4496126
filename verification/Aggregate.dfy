/**
 How the operator turns the Principals of a Tenant into one roster and one keytab Secret
 (operator/internal/tenant/aggregate.go), and where its inputs come from
 (operator/internal/controller/tenant_reconciler.go).
 */
module Aggregate {
  import opened Common
  import opened Text
  import opened Sorting


  datatype Principal = Principal(name: string, uid: int, principal: string, selector: Labels)

  /** A resolved keytab; `bytes` is None for a nil slice. */
  datatype KeytabSource = KeytabSource(principalName: string, filename: string, bytes: Option<Bytes>)

  datatype Reason = DuplicateUid | KeytabSecretMissing | EmptyKeytabFilename | KeytabFilenameCollision

  /** `rejected` is None for an included principal. */
  datatype Verdict = Verdict(principalName: string, uid: int, rosterLine: string, rejected: Option<Reason>)

  datatype Aggregation = Aggregation(rosterBlob: string, keytabData: map<string, Bytes>, selectors: map<string, Labels>,
                                     verdicts: seq<Verdict>, duplicateUids: seq<int>)

  /** An accepted principal with its keytab. */
  datatype Accepted = Accepted(principal: Principal, filename: string, bytes: Bytes)

  const PLACEHOLDER := ".placeholder"

  predicate DistinctSources(sources: seq<KeytabSource>) {
    forall i, j :: 0 <= i < j < |sources| ==> sources[i].principalName != sources[j].principalName
  }

  function RosterLine(uid: int, principal: string, filename: string): string {
    Format(uid) + ":" + principal + ":" + filename
  }

  /******* The one-shot definition *******/

  function UidCount(ps: seq<Principal>, uid: int): nat {
    if ps == [] then 0
    else UidCount(ps[..|ps| - 1], uid) + (if ps[|ps| - 1].uid == uid then 1 else 0)
  }

  /** The last source given under a principal's name. */
  function SourceOf(sources: seq<KeytabSource>, name: string): Option<KeytabSource> {
    if sources == [] then None
    else
      var last := |sources| - 1;
      if sources[last].principalName == name then Some(sources[last]) else SourceOf(sources[..last], name)
  }

  /** Everything about `p` is in order on its own: a UID nobody else claims, and a named, non-nil keytab. */
  predicate Acceptable(ps: seq<Principal>, sources: seq<KeytabSource>, p: Principal) {
    UidCount(ps, p.uid) == 1 &&
    var src := SourceOf(sources, p.name);
    src.Some? && src.value.bytes.Some? && src.value.filename != ""
  }

  function AcceptedOf(sources: seq<KeytabSource>, p: Principal): Accepted
    requires SourceOf(sources, p.name).Some? && SourceOf(sources, p.name).value.bytes.Some?
  {
    var src := SourceOf(sources, p.name).value;
    Accepted(p, src.filename, src.bytes.value)
  }

  /** Two acceptable principals bring different keytabs under the name `f`. */
  predicate Collides(ps: seq<Principal>, sources: seq<KeytabSource>, f: string) {
    exists p, q :: p in ps && q in ps && Clash(ps, sources, f, p, q)
  }

  predicate Clash(ps: seq<Principal>, sources: seq<KeytabSource>, f: string, p: Principal, q: Principal) {
    && Acceptable(ps, sources, p) && Acceptable(ps, sources, q)
    && AcceptedOf(sources, p).filename == f && AcceptedOf(sources, q).filename == f
    && AcceptedOf(sources, p).bytes != AcceptedOf(sources, q).bytes
  }

  function Decision(ps: seq<Principal>, sources: seq<KeytabSource>, p: Principal): Option<Reason> {
    if UidCount(ps, p.uid) != 1 then Some(DuplicateUid)
    else
      match SourceOf(sources, p.name)
      case None => Some(KeytabSecretMissing)
      case Some(src) =>
        if Collides(ps, sources, src.filename) then Some(KeytabFilenameCollision)
        else if src.bytes.None? then Some(KeytabSecretMissing)
        else if src.filename == "" then Some(EmptyKeytabFilename)
        else None
  }

  predicate Included(ps: seq<Principal>, sources: seq<KeytabSource>, p: Principal)
    ensures Included(ps, sources, p) ==> Acceptable(ps, sources, p)
  {
    Decision(ps, sources, p) == None
  }

  function VerdictOf(ps: seq<Principal>, sources: seq<KeytabSource>, p: Principal): Verdict {
    var d := Decision(ps, sources, p);
    Verdict(p.name, p.uid, if d.None? then RosterLine(p.uid, p.principal, SourceOf(sources, p.name).value.filename) else "", d)
  }

  function AcceptedAmong(ps: seq<Principal>, sources: seq<KeytabSource>, items: seq<Principal>): seq<Accepted> {
    if items == [] then []
    else
      var last := items[|items| - 1];
      AcceptedAmong(ps, sources, items[..|items| - 1]) +
      (if Included(ps, sources, last) then [AcceptedOf(sources, last)] else [])
  }

  predicate UidLe(a: Accepted, b: Accepted) { a.principal.uid <= b.principal.uid }

  /** The accepted principals by ascending UID. */
  function Roster(ps: seq<Principal>, sources: seq<KeytabSource>): seq<Accepted> {
    Sort(AcceptedAmong(ps, sources, ps), UidLe)
  }

  function Line(a: Accepted): string { RosterLine(a.principal.uid, a.principal.principal, a.filename) }

  function Row(a: Accepted): string { Line(a) + "\n" }

  function Blob(roster: seq<Accepted>): string {
    if roster == [] then "" else Blob(roster[..|roster| - 1]) + Row(roster[|roster| - 1])
  }

  function Keytabs(roster: seq<Accepted>): map<string, Bytes> {
    if roster == [] then map[]
    else
      var a := roster[|roster| - 1];
      Keytabs(roster[..|roster| - 1])[a.filename := a.bytes]
  }

  function Selectors(roster: seq<Accepted>): map<string, Labels> {
    if roster == [] then map[]
    else
      var p := roster[|roster| - 1].principal;
      var before := Selectors(roster[..|roster| - 1]);
      if p.selector == map[] then before else before[Format(p.uid) := p.selector]
  }

  function VerdictsOf(ps: seq<Principal>, sources: seq<KeytabSource>): seq<Verdict> {
    seq(|ps|, i requires 0 <= i < |ps| => VerdictOf(ps, sources, ps[i]))
  }

  predicate Ascending(s: seq<int>) { forall i, j :: 0 <= i < j < |s| ==> s[i] < s[j] }

  /** The data of the aggregation, all but the verdicts. */
  ghost predicate DeclaresData(ps: seq<Principal>, sources: seq<KeytabSource>, r: Aggregation) {
    var roster := Roster(ps, sources);
    && r.rosterBlob == Blob(roster)
    && r.keytabData == (if roster == [] then map[PLACEHOLDER := []] else Keytabs(roster))
    && r.selectors == Selectors(roster)
    && Ascending(r.duplicateUids)
    && forall uid :: uid in r.duplicateUids <==> UidCount(ps, uid) > 1
  }

  /** `r` is the aggregation of `ps` and `sources`, said in one shot. */
  ghost predicate Declares(ps: seq<Principal>, sources: seq<KeytabSource>, r: Aggregation) {
    DeclaresData(ps, sources, r) && r.verdicts == VerdictsOf(ps, sources)
  }

  /******* Facts about counts and sources *******/

  lemma {:induction false} CountPositive(ps: seq<Principal>, p: Principal)
    requires p in ps
    ensures UidCount(ps, p.uid) >= 1
  {
    var n := |ps| - 1;
    if ps[n] != p {
      assert p in ps[..n];
      CountPositive(ps[..n], p);
    }
  }

  lemma {:induction false} SourceMeans(sources: seq<KeytabSource>, name: string)
    requires DistinctSources(sources)
    ensures forall s :: SourceOf(sources, name) == Some(s) <==> s in sources && s.principalName == name
  {
    if sources != [] {
      var n := |sources| - 1;
      SourceMeans(sources[..n], name);
      assert forall s :: s in sources <==> s in sources[..n] || s == sources[n];
    }
  }

  /******* Dropping a colliding file name *******/

  function Without(sources: seq<KeytabSource>, f: string): seq<KeytabSource> {
    if sources == [] then []
    else
      var last := sources[|sources| - 1];
      Without(sources[..|sources| - 1], f) + (if last.filename == f then [] else [last])
  }

  lemma {:induction false} WithoutMembers(sources: seq<KeytabSource>, f: string)
    ensures forall s :: s in Without(sources, f) <==> s in sources && s.filename != f
  {
    if sources != [] {
      var n := |sources| - 1;
      WithoutMembers(sources[..n], f);
      assert forall s :: s in sources <==> s in sources[..n] || s == sources[n];
    }
  }

  lemma {:induction false} WithoutShrinks(sources: seq<KeytabSource>, f: string)
    ensures |Without(sources, f)| <= |sources|
    ensures (exists s :: s in sources && s.filename == f) ==> |Without(sources, f)| < |sources|
  {
    if sources != [] {
      var n := |sources| - 1;
      WithoutShrinks(sources[..n], f);
      assert forall s :: s in sources <==> s in sources[..n] || s == sources[n];
    }
  }

  lemma {:induction false} WithoutDistinct(sources: seq<KeytabSource>, f: string)
    requires DistinctSources(sources)
    ensures DistinctSources(Without(sources, f))
  {
    if sources != [] {
      var n := |sources| - 1;
      WithoutDistinct(sources[..n], f);
      WithoutMembers(sources[..n], f);
      forall s | s in Without(sources[..n], f) ensures s.principalName != sources[n].principalName { assert s in sources[..n]; }
    }
  }

  lemma SourceWithout(sources: seq<KeytabSource>, f: string, name: string)
    requires DistinctSources(sources)
    ensures SourceOf(Without(sources, f), name) ==
            match SourceOf(sources, name)
            case None => None
            case Some(s) => if s.filename == f then None else Some(s)
  {
    WithoutMembers(sources, f);
    WithoutDistinct(sources, f);
    SourceMeans(sources, name);
    SourceMeans(Without(sources, f), name);
    var s := SourceOf(Without(sources, f), name);
    if s.Some? { assert s.value in sources; }
  }

  lemma CollidesWithout(ps: seq<Principal>, sources: seq<KeytabSource>, f: string, g: string)
    requires DistinctSources(sources)
    ensures Collides(ps, Without(sources, f), g) <==> g != f && Collides(ps, sources, g)
  {
    var rest := Without(sources, f);
    forall p, q ensures Clash(ps, rest, g, p, q) <==> g != f && Clash(ps, sources, g, p, q) {
      SourceWithout(sources, f, p.name);
      SourceWithout(sources, f, q.name);
    }
    if Collides(ps, rest, g) {
      var p, q :| p in ps && q in ps && Clash(ps, rest, g, p, q);
      assert Clash(ps, sources, g, p, q);
    }
    if g != f && Collides(ps, sources, g) {
      var p, q :| p in ps && q in ps && Clash(ps, sources, g, p, q);
      assert Clash(ps, rest, g, p, q);
    }
  }

  /******* Several sources for one principal *******/

  function Keeping(sources: seq<KeytabSource>, dropped: set<string>): seq<KeytabSource> {
    if sources == [] then []
    else
      var last := sources[|sources| - 1];
      Keeping(sources[..|sources| - 1], dropped) + (if last.filename in dropped then [] else [last])
  }

  lemma {:induction false} KeepingAll(sources: seq<KeytabSource>)
    ensures Keeping(sources, {}) == sources
  {
    if sources != [] { KeepingAll(sources[..|sources| - 1]); }
  }

  lemma {:induction false} KeepingWithout(sources: seq<KeytabSource>, f: string, dropped: set<string>)
    ensures Keeping(Without(sources, f), dropped) == Keeping(sources, dropped + {f})
  {
    if sources != [] {
      var n := |sources| - 1;
      var rest := Without(sources[..n], f);
      KeepingWithout(sources[..n], f, dropped);
      if sources[n].filename != f {
        assert Without(sources, f) == rest + [sources[n]];
        assert (rest + [sources[n]])[..|rest|] == rest;
      } else {
        assert Without(sources, f) == rest;
      }
    }
  }

  /** Once the sources of the `dropped` files are gone nothing collides, and `r` is what the others give. */
  ghost predicate SettlesOn(ps: seq<Principal>, sources: seq<KeytabSource>, dropped: set<string>, r: Aggregation) {
    var kept := Keeping(sources, dropped);
    && (forall f :: !Collides(ps, kept, f)) && DeclaresData(ps, kept, r)
    && |r.verdicts| == |ps| && forall i :: 0 <= i < |ps| ==> (r.verdicts[i].rejected.None? <==> Included(ps, kept, ps[i]))
  }

  lemma OverlaySettles(ps: seq<Principal>, sources: seq<KeytabSource>, f: string, small: Aggregation, r: Aggregation)
    requires exists dropped :: SettlesOn(ps, Without(sources, f), dropped, small)
    requires r == small.(verdicts := r.verdicts) && |r.verdicts| == |small.verdicts|
    requires forall i :: 0 <= i < |r.verdicts| ==> r.verdicts[i] == Overlaid(sources, f, small.verdicts[i])
    ensures exists dropped :: SettlesOn(ps, sources, dropped, r)
  {
    var dropped :| SettlesOn(ps, Without(sources, f), dropped, small);
    KeepingWithout(sources, f, dropped);
    assert SettlesOn(ps, sources, dropped + {f}, r);
  }

  /** What `rebuildAfterFilenameCollision` writes over a verdict of the smaller aggregation. */
  function Overlaid(sources: seq<KeytabSource>, f: string, v: Verdict): Verdict {
    if v.rejected == Some(KeytabSecretMissing) && (exists s :: s in sources && s.principalName == v.principalName && s.filename == f)
    then v.(rejected := Some(KeytabFilenameCollision)) else v
  }

  lemma OverlayIsDecision(ps: seq<Principal>, sources: seq<KeytabSource>, f: string, p: Principal)
    requires DistinctSources(sources) && Collides(ps, sources, f)
    ensures VerdictOf(ps, sources, p) == Overlaid(sources, f, VerdictOf(ps, Without(sources, f), p))
    ensures Included(ps, sources, p) <==> Included(ps, Without(sources, f), p)
    ensures Included(ps, sources, p) ==> AcceptedOf(sources, p) == AcceptedOf(Without(sources, f), p)
  {
    SourceWithout(sources, f, p.name);
    SourceMeans(sources, p.name);
    var src := SourceOf(sources, p.name);
    if src.Some? { CollidesWithout(ps, sources, f, src.value.filename); }
  }

  lemma {:induction false} RosterWithout(ps: seq<Principal>, sources: seq<KeytabSource>, f: string, items: seq<Principal>)
    requires DistinctSources(sources) && Collides(ps, sources, f)
    ensures AcceptedAmong(ps, sources, items) == AcceptedAmong(ps, Without(sources, f), items)
  {
    if items != [] {
      RosterWithout(ps, sources, f, items[..|items| - 1]);
      OverlayIsDecision(ps, sources, f, items[|items| - 1]);
    }
  }

  /** Aggregating without the colliding name, then overlaying, is aggregating. */
  lemma OverlayDeclares(ps: seq<Principal>, sources: seq<KeytabSource>, f: string, small: Aggregation, r: Aggregation)
    requires DistinctSources(sources) && Collides(ps, sources, f)
    requires Declares(ps, Without(sources, f), small)
    requires r == small.(verdicts := r.verdicts) && |r.verdicts| == |small.verdicts|
    requires forall i :: 0 <= i < |r.verdicts| ==> r.verdicts[i] == Overlaid(sources, f, small.verdicts[i])
    ensures Declares(ps, sources, r)
  {
    RosterWithout(ps, sources, f, ps);
    assert r.verdicts == VerdictsOf(ps, sources) by {
      forall i | 0 <= i < |ps| ensures VerdictOf(ps, sources, ps[i]) == r.verdicts[i] { OverlayIsDecision(ps, sources, f, ps[i]); }
    }
  }

  /******* One pass of the source's loops *******/

  /** The verdict of the main loop, which looks at no other principal's keytab. */
  function FirstVerdict(ps: seq<Principal>, sources: seq<KeytabSource>, p: Principal): Verdict {
    var src := SourceOf(sources, p.name);
    if UidCount(ps, p.uid) > 1 then Verdict(p.name, p.uid, "", Some(DuplicateUid))
    else if src.None? || src.value.bytes.None? then Verdict(p.name, p.uid, "", Some(KeytabSecretMissing))
    else if src.value.filename == "" then Verdict(p.name, p.uid, "", Some(EmptyKeytabFilename))
    else Verdict(p.name, p.uid, RosterLine(p.uid, p.principal, src.value.filename), None)
  }

  function AcceptableAmong(ps: seq<Principal>, sources: seq<KeytabSource>, items: seq<Principal>): seq<Accepted> {
    if items == [] then []
    else
      var last := items[|items| - 1];
      AcceptableAmong(ps, sources, items[..|items| - 1]) +
      (if Acceptable(ps, sources, last) then [AcceptedOf(sources, last)] else [])
  }

  lemma {:induction false} AcceptableMembers(ps: seq<Principal>, sources: seq<KeytabSource>, items: seq<Principal>)
    ensures forall p :: p in items && Acceptable(ps, sources, p) ==> AcceptedOf(sources, p) in AcceptableAmong(ps, sources, items)
    ensures forall a :: a in AcceptableAmong(ps, sources, items) ==>
              a.principal in items && Acceptable(ps, sources, a.principal) && a == AcceptedOf(sources, a.principal)
  {
    if items != [] {
      var n := |items| - 1;
      AcceptableMembers(ps, sources, items[..n]);
      assert forall p :: p in items <==> p in items[..n] || p == items[n];
    }
  }

  ghost predicate Consistent(roster: seq<Accepted>) {
    forall i, j :: 0 <= i < |roster| && 0 <= j < |roster| && roster[i].filename == roster[j].filename ==>
      roster[i].bytes == roster[j].bytes
  }

  lemma {:induction false} KeytabsHold(roster: seq<Accepted>)
    requires Consistent(roster)
    ensures forall i :: 0 <= i < |roster| ==> roster[i].filename in Keytabs(roster) && Keytabs(roster)[roster[i].filename] == roster[i].bytes
    ensures forall f :: f in Keytabs(roster) ==> exists i :: 0 <= i < |roster| && roster[i].filename == f
  {
    if roster != [] {
      var n := |roster| - 1;
      KeytabsHold(roster[..n]);
    }
  }

  /** Without a clash among the acceptable principals nothing collides, and the first pass decides. */
  lemma ConsistentDecides(ps: seq<Principal>, sources: seq<KeytabSource>, roster: seq<Accepted>)
    requires Consistent(roster)
    requires forall a :: a in AcceptableAmong(ps, sources, ps) ==> a in roster
    ensures forall f :: !Collides(ps, sources, f)
    ensures forall p :: p in ps ==> VerdictOf(ps, sources, p) == FirstVerdict(ps, sources, p)
    ensures AcceptedAmong(ps, sources, ps) == AcceptableAmong(ps, sources, ps)
  {
    AcceptableMembers(ps, sources, ps);
    forall f ensures !Collides(ps, sources, f) {
      forall p, q | p in ps && q in ps ensures !Clash(ps, sources, f, p, q) {
        assert Acceptable(ps, sources, p) ==> AcceptedOf(sources, p) in roster;
        assert Acceptable(ps, sources, q) ==> AcceptedOf(sources, q) in roster;
      }
    }
    forall p | p in ps ensures VerdictOf(ps, sources, p) == FirstVerdict(ps, sources, p) { CountPositive(ps, p); }
    SameAmong(ps, sources, ps);
  }

  lemma {:induction false} SameAmong(ps: seq<Principal>, sources: seq<KeytabSource>, items: seq<Principal>)
    requires forall f :: !Collides(ps, sources, f)
    ensures AcceptedAmong(ps, sources, items) == AcceptableAmong(ps, sources, items)
  {
    if items != [] { SameAmong(ps, sources, items[..|items| - 1]); }
  }

  lemma UidLeOrders()
    ensures TotalPreorder(UidLe)
  {
  }

  method IndexSources(sources: seq<KeytabSource>) returns (index: map<string, KeytabSource>)
    ensures forall name :: SourceOf(sources, name) == if name in index then Some(index[name]) else None
  {
    index := map[];
    for i := 0 to |sources|
      invariant forall name :: SourceOf(sources[..i], name) == if name in index then Some(index[name]) else None
    {
      assert sources[..i + 1][..i] == sources[..i];
      index := index[sources[i].principalName := sources[i]];
    }
    assert sources[..|sources|] == sources;
  }

  /** The UIDs claimed more than once. */
  method DuplicateUids(ps: seq<Principal>) returns (dups: set<int>)
    ensures forall uid :: uid in dups <==> UidCount(ps, uid) > 1
  {
    var uidCount: map<int, nat> := map[];
    for i := 0 to |ps|
      invariant forall uid :: UidCount(ps[..i], uid) == if uid in uidCount then uidCount[uid] else 0
    {
      assert ps[..i + 1][..i] == ps[..i];
      var n := if ps[i].uid in uidCount then uidCount[ps[i].uid] else 0;
      uidCount := uidCount[ps[i].uid := n + 1];
    }
    assert ps[..|ps|] == ps;
    dups := set uid | uid in uidCount && uidCount[uid] > 1;
  }

  lemma AcceptableStep(ps: seq<Principal>, sources: seq<KeytabSource>, items: seq<Principal>, p: Principal)
    ensures AcceptableAmong(ps, sources, items + [p]) ==
            AcceptableAmong(ps, sources, items) + (if Acceptable(ps, sources, p) then [AcceptedOf(sources, p)] else [])
  {
    assert (items + [p])[..|items|] == items;
  }

  /** The body of the main loop: the verdict, and what is accepted. */
  method JudgeOne(ps: seq<Principal>, ghost sources: seq<KeytabSource>, index: map<string, KeytabSource>, dups: set<int>, p: Principal)
    returns (v: Verdict, a: Option<Accepted>)
    requires p in ps && SourceOf(sources, p.name) == if p.name in index then Some(index[p.name]) else None
    requires p.uid in dups <==> UidCount(ps, p.uid) > 1
    ensures v == FirstVerdict(ps, sources, p)
    ensures a == if Acceptable(ps, sources, p) then Some(AcceptedOf(sources, p)) else None
  {
    CountPositive(ps, p);
    if p.uid in dups { return Verdict(p.name, p.uid, "", Some(DuplicateUid)), None; }
    if p.name !in index || index[p.name].bytes.None? { return Verdict(p.name, p.uid, "", Some(KeytabSecretMissing)), None; }
    var src := index[p.name];
    if src.filename == "" { return Verdict(p.name, p.uid, "", Some(EmptyKeytabFilename)), None; }
    v := Verdict(p.name, p.uid, RosterLine(p.uid, p.principal, src.filename), None);
    a := Some(Accepted(p, src.filename, src.bytes.value));
  }

  /** The main loop. */
  method Judge(ps: seq<Principal>, ghost sources: seq<KeytabSource>, index: map<string, KeytabSource>, dups: set<int>)
    returns (verdicts: seq<Verdict>, acc: seq<Accepted>)
    requires forall name :: SourceOf(sources, name) == if name in index then Some(index[name]) else None
    requires forall uid :: uid in dups <==> UidCount(ps, uid) > 1
    ensures |verdicts| == |ps| && forall i :: 0 <= i < |ps| ==> verdicts[i] == FirstVerdict(ps, sources, ps[i])
    ensures acc == AcceptableAmong(ps, sources, ps)
  {
    verdicts, acc := [], [];
    for i := 0 to |ps|
      invariant |verdicts| == i && forall j :: 0 <= j < i ==> verdicts[j] == FirstVerdict(ps, sources, ps[j])
      invariant acc == AcceptableAmong(ps, sources, ps[..i])
    {
      assert ps[..i + 1] == ps[..i] + [ps[i]];
      AcceptableStep(ps, sources, ps[..i], ps[i]);
      var v, a := JudgeOne(ps, sources, index, dups, ps[i]);
      verdicts := verdicts + [v];
      if a.Some? { acc := acc + [a.value]; }
    }
    assert ps[..|ps|] == ps;
  }

  /** The roster loop has printed `done`. */
  ghost predicate Printed(done: seq<Accepted>, blob: string, keytabs: map<string, Bytes>) {
    blob == Blob(done) && keytabs == Keytabs(done) && Consistent(done)
  }

  lemma PrintAppends(done: seq<Accepted>, a: Accepted)
    ensures Blob(done + [a]) == Blob(done) + Row(a) && Keytabs(done + [a]) == Keytabs(done)[a.filename := a.bytes]
  {
    assert (done + [a])[..|done|] == done;
  }

  lemma PrintAgrees(done: seq<Accepted>, a: Accepted)
    requires Consistent(done) && (a.filename !in Keytabs(done) || Keytabs(done)[a.filename] == a.bytes)
    ensures Consistent(done + [a])
  {
    KeytabsHold(done);
  }

  lemma PrintNext(acc: seq<Accepted>, i: nat, blob: string, keytabs: map<string, Bytes>)
    requires i < |acc| && Printed(acc[..i], blob, keytabs) && (acc[i].filename !in keytabs || keytabs[acc[i].filename] == acc[i].bytes)
    ensures Printed(acc[..i + 1], blob + Row(acc[i]), keytabs[acc[i].filename := acc[i].bytes])
  {
    assert acc[..i + 1] == acc[..i] + [acc[i]];
    PrintAppends(acc[..i], acc[i]);
    PrintAgrees(acc[..i], acc[i]);
  }

  /** Two of `roster` bring different keytabs under the name `f`. */
  ghost predicate ClashAmong(roster: seq<Accepted>, f: string) {
    exists a, b :: a in roster && b in roster && a.filename == b.filename == f && a.bytes != b.bytes
  }

  lemma PrintClashes(acc: seq<Accepted>, i: nat, blob: string, keytabs: map<string, Bytes>)
    requires i < |acc| && Printed(acc[..i], blob, keytabs) && acc[i].filename in keytabs && keytabs[acc[i].filename] != acc[i].bytes
    ensures ClashAmong(acc, acc[i].filename)
  {
    KeytabsHold(acc[..i]);
    var j :| 0 <= j < i && acc[..i][j].filename == acc[i].filename;
    assert acc[j] in acc && acc[i] in acc;
  }

  /** The roster loop: the blob and the keytabs, or the first colliding file name. */
  method Print(acc: seq<Accepted>) returns (blob: string, keytabs: map<string, Bytes>, collision: Option<string>)
    ensures collision.None? ==> Printed(acc, blob, keytabs)
    ensures collision.Some? ==> ClashAmong(acc, collision.value)
  {
    blob, keytabs, collision := "", map[], None;
    for i := 0 to |acc|
      invariant Printed(acc[..i], blob, keytabs)
    {
      var a := acc[i];
      if a.filename in keytabs && keytabs[a.filename] != a.bytes {
        PrintClashes(acc, i, blob, keytabs);
        collision := Some(a.filename);
        return;
      }
      PrintNext(acc, i, blob, keytabs);
      blob := blob + Row(a);
      keytabs := keytabs[a.filename := a.bytes];
    }
    assert acc[..|acc|] == acc;
  }

  /** `buildSelectorsJSON`, before encoding. */
  method BuildSelectors(roster: seq<Accepted>) returns (obj: map<string, Labels>)
    ensures obj == Selectors(roster)
  {
    obj := map[];
    for i := 0 to |roster|
      invariant obj == Selectors(roster[..i])
    {
      assert roster[..i + 1][..i] == roster[..i];
      var p := roster[i].principal;
      if |p.selector| > 0 { obj := obj[Format(p.uid) := p.selector]; }
    }
    assert roster[..|roster|] == roster;
  }

  predicate IntLe(a: int, b: int) { a <= b }

  method SortedUids(uids: set<int>) returns (out: seq<int>)
    ensures Ascending(out) && forall uid :: uid in out <==> uid in uids
  {
    out := [];
    var todo := uids;
    while todo != {}
      invariant todo <= uids && (forall uid :: uid in out <==> uid in uids - todo) && Distinct(out)
      decreases todo
    {
      Inhabited(todo);
      var uid :| uid in todo;
      assert uid !in out;
      out := out + [uid];
      todo := todo - {uid};
    }
    SortSorts(out, IntLe);
    SortDistinct(out, IntLe);
    SortMembers(out, IntLe);
    out := Sort(out, IntLe);
  }

  /**
   `Aggregate`, with the recursion of `rebuildAfterFilenameCollision` folded in: it is the one-shot
   definition. The sources shrink at every collision. If a principal has several sources, the last one
   counts, and an earlier one may take its place when it is dropped; the result is then that of the
   sources that are left.
   */
  method Aggregate(ps: seq<Principal>, sources: seq<KeytabSource>) returns (r: Aggregation)
    ensures DistinctSources(sources) ==> Declares(ps, sources, r)
    ensures exists dropped :: SettlesOn(ps, sources, dropped, r)
    decreases |sources|
  {
    var index := IndexSources(sources);
    var dups := DuplicateUids(ps);
    var verdicts, acc := Judge(ps, sources, index, dups);
    UidLeOrders();
    SortMembers(acc, UidLe);
    acc := Sort(acc, UidLe);
    var blob, keytabs, collision := Print(acc);
    if collision.Some? {
      ClashCollides(ps, sources, acc, collision.value);
      r := RebuildAfterCollision(ps, sources, collision.value);
    } else {
      var selectors := BuildSelectors(acc);
      var duplicateUids := SortedUids(dups);
      if acc == [] { keytabs := map[PLACEHOLDER := []]; }
      r := Aggregation(blob, keytabs, selectors, verdicts, duplicateUids);
      FirstPassDeclares(ps, sources, acc, r);
    }
  }

  lemma ClashCollides(ps: seq<Principal>, sources: seq<KeytabSource>, roster: seq<Accepted>, f: string)
    requires forall a :: a in roster ==> a in AcceptableAmong(ps, sources, ps)
    requires ClashAmong(roster, f)
    ensures Collides(ps, sources, f)
  {
    AcceptableMembers(ps, sources, ps);
    var a, b :| a in roster && b in roster && a.filename == b.filename == f && a.bytes != b.bytes;
    assert Clash(ps, sources, f, a.principal, b.principal);
  }

  lemma FirstPassDeclares(ps: seq<Principal>, sources: seq<KeytabSource>, roster: seq<Accepted>, r: Aggregation)
    requires roster == Sort(AcceptableAmong(ps, sources, ps), UidLe) && Consistent(roster)
    requires r.rosterBlob == Blob(roster) && r.selectors == Selectors(roster)
    requires r.keytabData == if roster == [] then map[PLACEHOLDER := []] else Keytabs(roster)
    requires |r.verdicts| == |ps| && forall i :: 0 <= i < |ps| ==> r.verdicts[i] == FirstVerdict(ps, sources, ps[i])
    requires Ascending(r.duplicateUids) && forall uid :: uid in r.duplicateUids <==> UidCount(ps, uid) > 1
    ensures Declares(ps, sources, r) && SettlesOn(ps, sources, {}, r)
  {
    UidLeOrders();
    SortMembers(AcceptableAmong(ps, sources, ps), UidLe);
    ConsistentDecides(ps, sources, roster);
    KeepingAll(sources);
  }

  method RebuildAfterCollision(ps: seq<Principal>, sources: seq<KeytabSource>, f: string) returns (r: Aggregation)
    requires Collides(ps, sources, f)
    ensures DistinctSources(sources) ==> Declares(ps, sources, r)
    ensures exists dropped :: SettlesOn(ps, sources, dropped, r)
    decreases |sources|, 0
  {
    var filtered := FilterSources(sources, f);
    CollisionHasSource(ps, sources, f);
    WithoutShrinks(sources, f);
    var small := Aggregate(ps, filtered);
    var verdicts := Overlay(sources, f, small.verdicts);
    r := small.(verdicts := verdicts);
    OverlaySettles(ps, sources, f, small, r);
    if DistinctSources(sources) {
      WithoutDistinct(sources, f);
      OverlayDeclares(ps, sources, f, small, r);
    }
  }

  method FilterSources(sources: seq<KeytabSource>, f: string) returns (filtered: seq<KeytabSource>)
    ensures filtered == Without(sources, f)
  {
    filtered := [];
    for i := 0 to |sources|
      invariant filtered == Without(sources[..i], f)
    {
      assert sources[..i + 1][..i] == sources[..i];
      if sources[i].filename != f { filtered := filtered + [sources[i]]; }
    }
    assert sources[..|sources|] == sources;
  }

  method Overlay(sources: seq<KeytabSource>, f: string, verdicts: seq<Verdict>) returns (out: seq<Verdict>)
    ensures |out| == |verdicts| && forall i :: 0 <= i < |out| ==> out[i] == Overlaid(sources, f, verdicts[i])
  {
    out := verdicts;
    for i := 0 to |verdicts|
      invariant |out| == |verdicts|
      invariant forall j :: 0 <= j < |out| ==> out[j] == if j < i then Overlaid(sources, f, verdicts[j]) else verdicts[j]
    {
      if out[i].rejected == Some(KeytabSecretMissing) {
        for k := 0 to |sources|
          invariant |out| == |verdicts|
          invariant forall j :: 0 <= j < |out| ==> out[j] == if j < i then Overlaid(sources, f, verdicts[j]) else verdicts[j]
          invariant forall j :: 0 <= j < k ==> !(sources[j].principalName == verdicts[i].principalName && sources[j].filename == f)
        {
          if sources[k].principalName == out[i].principalName && sources[k].filename == f {
            assert sources[k] in sources;
            out := out[i := out[i].(rejected := Some(KeytabFilenameCollision))];
            break;
          }
        }
      }
    }
  }

  lemma {:induction false} SourceIsThere(sources: seq<KeytabSource>, name: string)
    ensures SourceOf(sources, name).Some? ==> SourceOf(sources, name).value in sources
  {
    if sources != [] { SourceIsThere(sources[..|sources| - 1], name); }
  }

  lemma CollisionHasSource(ps: seq<Principal>, sources: seq<KeytabSource>, f: string)
    requires Collides(ps, sources, f)
    ensures exists s :: s in sources && s.filename == f
  {
    var p, q :| p in ps && q in ps && Clash(ps, sources, f, p, q);
    SourceIsThere(sources, p.name);
    assert SourceOf(sources, p.name).value in sources;
  }
}
