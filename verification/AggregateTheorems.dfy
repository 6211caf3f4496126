/** What an aggregation means, and that it does not depend on the order of its inputs. */
module AggregateTheorems {
  import opened Common
  import opened Text
  import opened Sorting
  import opened Aggregate

  /******* Counting *******/

  lemma {:induction false} CountAppend(a: seq<Principal>, b: seq<Principal>, uid: int)
    ensures UidCount(a + b, uid) == UidCount(a, uid) + UidCount(b, uid)
  {
    if b == [] {
      assert a + b == a;
    } else {
      var n := |b| - 1;
      assert (a + b)[..|a + b| - 1] == a + b[..n];
      CountAppend(a, b[..n], uid);
    }
  }

  lemma CountAround(ps: seq<Principal>, i: nat, uid: int)
    requires i < |ps|
    ensures UidCount(ps, uid) == UidCount(ps[..i] + ps[i + 1..], uid) + (if ps[i].uid == uid then 1 else 0)
  {
    assert ps == ps[..i] + [ps[i]] + ps[i + 1..];
    CountAppend(ps[..i] + [ps[i]], ps[i + 1..], uid);
    CountAppend(ps[..i], [ps[i]], uid);
    CountAppend(ps[..i], ps[i + 1..], uid);
    assert [ps[i]][..0] == [];
  }

  lemma {:induction false} CountZero(ps: seq<Principal>, uid: int)
    ensures UidCount(ps, uid) == 0 <==> forall i :: 0 <= i < |ps| ==> ps[i].uid != uid
  {
    if ps != [] {
      var n := |ps| - 1;
      CountZero(ps[..n], uid);
      assert forall i :: 0 <= i < n ==> ps[..n][i] == ps[i];
    }
  }

  /** A UID counts once exactly if no other principal has it. */
  lemma CountOne(ps: seq<Principal>, i: nat)
    requires i < |ps|
    ensures UidCount(ps, ps[i].uid) == 1 <==> forall j :: 0 <= j < |ps| && j != i ==> ps[j].uid != ps[i].uid
  {
    var before, after, uid := ps[..i], ps[i + 1..], ps[i].uid;
    CountAround(ps, i, uid);
    CountAppend(before, after, uid);
    CountZero(before, uid);
    CountZero(after, uid);
    assert forall j :: 0 <= j < i ==> ps[j] == before[j];
    assert forall j :: i < j < |ps| ==> ps[j] == after[j - i - 1];
    assert forall k :: 0 <= k < |after| ==> after[k] == ps[i + 1 + k];
  }

  lemma RemoveAt<T>(s: seq<T>, i: nat)
    requires i < |s|
    ensures multiset(s[..i] + s[i + 1..]) == multiset(s) - multiset{s[i]}
  {
    assert s == s[..i] + [s[i]] + s[i + 1..];
  }

  lemma PermutedRest<T>(a: seq<T>, b: seq<T>) returns (j: nat)
    requires a != [] && multiset(a) == multiset(b)
    ensures j < |b| && b[j] == a[0] && multiset(a[..0] + a[1..]) == multiset(b[..j] + b[j + 1..])
  {
    assert a[0] in multiset(b);
    j :| 0 <= j < |b| && b[j] == a[0];
    RemoveAt(a, 0);
    RemoveAt(b, j);
  }

  lemma {:induction false} CountPermuted(a: seq<Principal>, b: seq<Principal>, uid: int)
    requires multiset(a) == multiset(b)
    ensures UidCount(a, uid) == UidCount(b, uid)
    decreases |a|
  {
    SameSize(a, b);
    if a != [] {
      var j := PermutedRest(a, b);
      CountAround(a, 0, uid);
      CountAround(b, j, uid);
      CountPermuted(a[..0] + a[1..], b[..j] + b[j + 1..], uid);
    }
  }

  /******* Meaning *******/

  ghost predicate HasSource(sources: seq<KeytabSource>, p: Principal, f: string, bytes: Bytes) {
    KeytabSource(p.name, f, Some(bytes)) in sources
  }

  /** The UID of `ps[i]` is its own, and it has a keytab under a non-empty name. */
  ghost predicate StandsAlone(ps: seq<Principal>, sources: seq<KeytabSource>, i: int, f: string, bytes: Bytes) {
    && 0 <= i < |ps|
    && (forall j :: 0 <= j < |ps| && j != i ==> ps[j].uid != ps[i].uid)
    && f != "" && HasSource(sources, ps[i], f, bytes)
  }

  lemma AcceptableMeans(ps: seq<Principal>, sources: seq<KeytabSource>, i: nat)
    requires DistinctSources(sources) && i < |ps|
    ensures forall f, bytes ::
              StandsAlone(ps, sources, i, f, bytes) <==>
              Acceptable(ps, sources, ps[i]) && AcceptedOf(sources, ps[i]) == Accepted(ps[i], f, bytes)
  {
    CountOne(ps, i);
    SourceMeans(sources, ps[i].name);
  }

  /**
   A principal is included exactly if its UID is its own, it has a keytab under a non-empty name, and
   no other principal that stands alone brings different bytes under that name.
   */
  lemma IncludedIff(ps: seq<Principal>, sources: seq<KeytabSource>, i: nat)
    requires DistinctSources(sources) && i < |ps|
    ensures Included(ps, sources, ps[i]) <==>
            exists f, bytes :: StandsAlone(ps, sources, i, f, bytes) &&
              forall j, other :: StandsAlone(ps, sources, j, f, other) ==> other == bytes
  {
    forall j: nat | j < |ps| { AcceptableMeans(ps, sources, j); }
    var p := ps[i];
    if Acceptable(ps, sources, p) {
      var a := AcceptedOf(sources, p);
      assert StandsAlone(ps, sources, i, a.filename, a.bytes);
      if Collides(ps, sources, a.filename) {
        var q, q' :| q in ps && q' in ps && Clash(ps, sources, a.filename, q, q');
        var j :| 0 <= j < |ps| && ps[j] == q;
        var j' :| 0 <= j' < |ps| && ps[j'] == q';
        assert StandsAlone(ps, sources, j, a.filename, AcceptedOf(sources, q).bytes);
        assert StandsAlone(ps, sources, j', a.filename, AcceptedOf(sources, q').bytes);
      } else {
        forall j, other | StandsAlone(ps, sources, j, a.filename, other) ensures other == a.bytes {
          assert Clash(ps, sources, a.filename, p, ps[j]) <==> other != a.bytes;
        }
      }
    }
  }

  /** Each rejection names its cause. */
  lemma RejectedIff(ps: seq<Principal>, sources: seq<KeytabSource>, i: nat)
    requires DistinctSources(sources) && i < |ps|
    ensures var d, p := Decision(ps, sources, ps[i]), ps[i];
            var shared := exists j :: 0 <= j < |ps| && j != i && ps[j].uid == p.uid;
            && (d == Some(DuplicateUid) <==> shared)
            && (d == Some(KeytabFilenameCollision) <==>
                 !shared && exists s :: s in sources && s.principalName == p.name && Collides(ps, sources, s.filename))
            && (d == Some(EmptyKeytabFilename) <==> !shared && exists bytes :: HasSource(sources, p, "", bytes))
            && (d == Some(KeytabSecretMissing) <==>
                 !shared && forall s :: s in sources && s.principalName == p.name ==>
                   s.bytes.None? && !Collides(ps, sources, s.filename))
  {
    CountOne(ps, i);
    SourceMeans(sources, ps[i].name);
    assert !Collides(ps, sources, "");
    var src := SourceOf(sources, ps[i].name);
    if src.Some? && src.value.bytes.Some? && src.value.filename == "" {
      assert HasSource(sources, ps[i], "", src.value.bytes.value);
    }
    assert src.Some? ==> src.value in sources;
  }

  lemma {:induction false} AcceptedMembers(ps: seq<Principal>, sources: seq<KeytabSource>, items: seq<Principal>)
    ensures forall p :: p in items && Included(ps, sources, p) ==> AcceptedOf(sources, p) in AcceptedAmong(ps, sources, items)
    ensures forall a :: a in AcceptedAmong(ps, sources, items) ==>
              a.principal in items && Included(ps, sources, a.principal) && a == AcceptedOf(sources, a.principal)
  {
    if items != [] {
      var n := |items| - 1;
      AcceptedMembers(ps, sources, items[..n]);
      assert forall p :: p in items <==> p in items[..n] || p == items[n];
    }
  }

  ghost predicate DistinctUids(s: seq<Accepted>) {
    forall i, j :: 0 <= i < j < |s| ==> s[i].principal.uid != s[j].principal.uid
  }

  lemma {:induction false} AcceptedDistinct(ps: seq<Principal>, sources: seq<KeytabSource>, n: nat)
    requires n <= |ps|
    ensures DistinctUids(AcceptedAmong(ps, sources, ps[..n]))
  {
    if n > 0 {
      var pre, last := ps[..n - 1], ps[n - 1];
      assert ps[..n][..n - 1] == pre;
      AcceptedDistinct(ps, sources, n - 1);
      AcceptedMembers(ps, sources, pre);
      CountOne(ps, n - 1);
      var before := AcceptedAmong(ps, sources, pre);
      forall a | a in before && Included(ps, sources, last) ensures a.principal.uid != last.uid {
        var j :| 0 <= j < n - 1 && ps[j] == a.principal;
      }
    }
  }

  /** Every included principal is in the roster, with its own keytab, and nobody else. */
  lemma RosterMembers(ps: seq<Principal>, sources: seq<KeytabSource>)
    ensures forall p :: p in ps && Included(ps, sources, p) ==> AcceptedOf(sources, p) in Roster(ps, sources)
    ensures forall a :: a in Roster(ps, sources) ==>
              a.principal in ps && Included(ps, sources, a.principal) && a == AcceptedOf(sources, a.principal)
  {
    AcceptedMembers(ps, sources, ps);
    UidLeOrders();
    SortMembers(AcceptedAmong(ps, sources, ps), UidLe);
  }

  /** The roster is strictly ascending by UID. */
  lemma RosterAscends(ps: seq<Principal>, sources: seq<KeytabSource>)
    ensures forall i, j :: 0 <= i < j < |Roster(ps, sources)| ==>
              Roster(ps, sources)[i].principal.uid < Roster(ps, sources)[j].principal.uid
  {
    var raw, roster := AcceptedAmong(ps, sources, ps), Roster(ps, sources);
    assert ps[..|ps|] == ps;
    AcceptedDistinct(ps, sources, |ps|);
    UidLeOrders();
    SortSorts(raw, UidLe);
    SortDistinct(raw, UidLe);
    SortMembers(raw, UidLe);
    forall i, j | 0 <= i < j < |roster| ensures roster[i].principal.uid < roster[j].principal.uid {
      assert roster[i] in raw && roster[j] in raw;
      assert UidLe(roster[i], roster[j]);
    }
  }

  /** Every roster line's file name maps to that principal's own bytes. */
  lemma RosterOwnsKeytabs(ps: seq<Principal>, sources: seq<KeytabSource>, a: Accepted)
    requires a in Roster(ps, sources)
    ensures a.filename in Keytabs(Roster(ps, sources)) && Keytabs(Roster(ps, sources))[a.filename] == a.bytes
  {
    var roster := Roster(ps, sources);
    RosterMembers(ps, sources);
    forall i, j | 0 <= i < |roster| && 0 <= j < |roster| && roster[i].filename == roster[j].filename
      ensures roster[i].bytes == roster[j].bytes
    {
      var x, y := roster[i], roster[j];
      assert x in roster && y in roster;
      if x.bytes != y.bytes { assert Clash(ps, sources, x.filename, x.principal, y.principal); }
    }
    KeytabsHold(roster);
  }

  /** A roster entry carries its principal's own source. */
  lemma RosterCarriesSource(ps: seq<Principal>, sources: seq<KeytabSource>, a: Accepted)
    requires DistinctSources(sources) && a in Roster(ps, sources)
    ensures a.principal in ps && a.filename != "" && KeytabSource(a.principal.name, a.filename, Some(a.bytes)) in sources
  {
    RosterMembers(ps, sources);
    SourceMeans(sources, a.principal.name);
  }

  /** What each verdict reports: its principal, and the roster line exactly if it is included. */
  lemma VerdictsReport(ps: seq<Principal>, sources: seq<KeytabSource>, r: Aggregation, i: nat)
    requires DistinctSources(sources) && Declares(ps, sources, r) && i < |ps|
    ensures |r.verdicts| == |ps|
    ensures var v, p := r.verdicts[i], ps[i];
            && v.principalName == p.name && v.uid == p.uid && v.rejected == Decision(ps, sources, p)
            && (v.rejected.Some? ==> v.rosterLine == "")
            && (v.rejected.None? ==>
                 exists f, bytes :: HasSource(sources, p, f, bytes) && f != "" && v.rosterLine == Format(p.uid) + ":" + p.principal + ":" + f)
  {
    var p := ps[i];
    SourceMeans(sources, p.name);
    if Included(ps, sources, p) {
      var src := SourceOf(sources, p.name).value;
      assert HasSource(sources, p, src.filename, src.bytes.value);
    }
  }

  /** The duplicate UIDs are those of two principals, in ascending order. */
  lemma DuplicatesIff(ps: seq<Principal>, sources: seq<KeytabSource>, r: Aggregation, uid: int)
    requires Declares(ps, sources, r)
    ensures uid in r.duplicateUids <==> exists i, j :: 0 <= i < j < |ps| && ps[i].uid == ps[j].uid == uid
    ensures forall i, j :: 0 <= i < j < |r.duplicateUids| ==> r.duplicateUids[i] < r.duplicateUids[j]
  {
    if i, j :| 0 <= i < j < |ps| && ps[i].uid == ps[j].uid == uid {
      CountOne(ps, i);
      CountPositive(ps, ps[i]);
    }
    if UidCount(ps, uid) > 1 {
      CountZero(ps, uid);
      var i :| 0 <= i < |ps| && ps[i].uid == uid;
      CountOne(ps, i);
      var j :| 0 <= j < |ps| && j != i && ps[j].uid == uid;
      assert i < j || j < i;
    }
  }

  /******* Order of the inputs *******/

  lemma SourcesPermuted(s: seq<KeytabSource>, t: seq<KeytabSource>, name: string)
    requires multiset(s) == multiset(t) && DistinctSources(s)
    ensures DistinctSources(t) && SourceOf(s, name) == SourceOf(t, name)
  {
    DistinctIsCountOne(s);
    DistinctIsCountOne(t);
    assert forall x :: x in s <==> x in multiset(s);
    assert forall x :: x in t <==> x in multiset(t);
    forall i, j | 0 <= i < j < |t| ensures t[i].principalName != t[j].principalName {
      assert t[i] in s && t[j] in s && t[i] != t[j];
    }
    SourceMeans(s, name);
    SourceMeans(t, name);
    if SourceOf(s, name).Some? { assert SourceOf(s, name).value in t; }
    if SourceOf(t, name).Some? { assert SourceOf(t, name).value in s; }
  }

  lemma CollidesPermuted(ps: seq<Principal>, qs: seq<Principal>, s: seq<KeytabSource>, t: seq<KeytabSource>, f: string)
    requires SameMembers(ps, qs) && (forall uid :: UidCount(ps, uid) == UidCount(qs, uid))
    requires forall name :: SourceOf(s, name) == SourceOf(t, name)
    ensures Collides(ps, s, f) ==> Collides(qs, t, f)
  {
    if Collides(ps, s, f) {
      var x, y :| x in ps && y in ps && Clash(ps, s, f, x, y);
      assert UidCount(qs, x.uid) == 1 && UidCount(qs, y.uid) == 1;
      assert Clash(qs, t, f, x, y);
    }
  }

  lemma DecisionPermuted(ps: seq<Principal>, qs: seq<Principal>, s: seq<KeytabSource>, t: seq<KeytabSource>, p: Principal)
    requires multiset(ps) == multiset(qs) && multiset(s) == multiset(t) && DistinctSources(s)
    ensures VerdictOf(ps, s, p) == VerdictOf(qs, t, p)
    ensures Included(ps, s, p) <==> Included(qs, t, p)
    ensures Included(ps, s, p) ==> AcceptedOf(s, p) == AcceptedOf(t, p)
  {
    SameMultisetSameMembers(ps, qs);
    forall uid ensures UidCount(ps, uid) == UidCount(qs, uid) { CountPermuted(ps, qs, uid); }
    forall name ensures SourceOf(s, name) == SourceOf(t, name) { SourcesPermuted(s, t, name); }
    var src := SourceOf(s, p.name);
    if src.Some? {
      CollidesPermuted(ps, qs, s, t, src.value.filename);
      CollidesPermuted(qs, ps, t, s, src.value.filename);
    }
  }

  lemma SameMultisetSameMembers<T(!new)>(a: seq<T>, b: seq<T>)
    requires multiset(a) == multiset(b)
    ensures SameMembers(a, b)
  {
    forall x ensures x in a <==> x in b {
      assert x in a <==> x in multiset(a);
      assert x in b <==> x in multiset(b);
    }
  }

  ghost predicate SameMembers<T(!new)>(a: seq<T>, b: seq<T>) { forall x :: x in a <==> x in b }

  lemma SameMembersSameMultiset<T(!new)>(a: seq<T>, b: seq<T>)
    requires Distinct(a) && Distinct(b) && SameMembers(a, b)
    ensures multiset(a) == multiset(b)
  {
    DistinctIsCountOne(a);
    DistinctIsCountOne(b);
    forall x ensures multiset(a)[x] == multiset(b)[x] {
      assert x in multiset(a) <==> x in a;
      assert x in multiset(b) <==> x in b;
    }
  }

  lemma AscendingUnique(a: seq<int>, b: seq<int>)
    requires Ascending(a) && Ascending(b) && forall x :: x in a <==> x in b
    ensures a == b
  {
    assert Distinct(a) && Distinct(b) && SameMembers(a, b);
    SameMembersSameMultiset(a, b);
    SortedUnique(a, b, IntLe);
  }

  lemma RosterPermuted(ps: seq<Principal>, qs: seq<Principal>, s: seq<KeytabSource>, t: seq<KeytabSource>)
    requires multiset(ps) == multiset(qs) && multiset(s) == multiset(t) && DistinctSources(s)
    ensures Roster(ps, s) == Roster(qs, t)
  {
    var a, b := Roster(ps, s), Roster(qs, t);
    RosterAscends(ps, s);
    RosterAscends(qs, t);
    forall x ensures x in a <==> x in b {
      RosterMembers(ps, s);
      RosterMembers(qs, t);
      DecisionPermuted(ps, qs, s, t, x.principal);
      assert x.principal in ps <==> x.principal in multiset(ps);
      assert x.principal in qs <==> x.principal in multiset(qs);
    }
    SameMembersSameMultiset(a, b);
    SortedUnique(a, b, UidLe);
  }

  /**
   Aggregation is a function of the input set: permuting principals and sources changes neither the
   roster, the keytabs, the selectors nor the duplicate UIDs, and each principal keeps its verdict.
   */
  lemma PermutationInvariant(ps: seq<Principal>, qs: seq<Principal>, s: seq<KeytabSource>, t: seq<KeytabSource>,
                             r: Aggregation, r': Aggregation)
    requires multiset(ps) == multiset(qs) && multiset(s) == multiset(t) && DistinctSources(s)
    requires Declares(ps, s, r) && Declares(qs, t, r')
    ensures r.(verdicts := []) == r'.(verdicts := [])
    ensures forall i, j :: 0 <= i < |ps| && 0 <= j < |qs| && ps[i] == qs[j] ==> r.verdicts[i] == r'.verdicts[j]
  {
    RosterPermuted(ps, qs, s, t);
    forall uid ensures UidCount(ps, uid) == UidCount(qs, uid) { CountPermuted(ps, qs, uid); }
    AscendingUnique(r.duplicateUids, r'.duplicateUids);
    forall i, j | 0 <= i < |ps| && 0 <= j < |qs| && ps[i] == qs[j] ensures r.verdicts[i] == r'.verdicts[j] {
      DecisionPermuted(ps, qs, s, t, ps[i]);
    }
  }
}
