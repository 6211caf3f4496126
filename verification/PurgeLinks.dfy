/** The steps of the purge protocol are what the operator and the daemon do, seen from one UID. */
module PurgeLinks {
  import opened Common
  import opened Text
  import opened Aggregate
  import opened NodeFilter
  import opened RosterFile
  import opened Purge
  import Daemon
  import Tenant

  /******* The daemon *******/

  ghost function BitsOf(s: Daemon.Node, uid: int): Bits { Bits(uid in s.managed, uid in s.files) }

  /** The daemon's sweep is, for each UID, a mint attempt if the UID applies and then the prune. */
  lemma SweepIsMintThenEnd(s: Daemon.Node, reqs: seq<RosterFile.TicketRequest>, hosts: seq<Daemon.Host>, stuck: set<int>, prune: bool,
                           uid: int) returns (mid: Bits)
    requires |hosts| == |reqs| && uid >= 0
    ensures var applies := uid in Daemon.Uids(reqs);
            && (if applies then MintStep(BitsOf(s, uid), mid) else mid == BitsOf(s, uid))
            && EndStep(applies, mid, BitsOf(Daemon.SweptNode(s, reqs, hosts, stuck, prune), uid),
                       uid in Daemon.RemovedBy(s, reqs, hosts, stuck, prune))
    ensures uid in Daemon.RemovedBy(s, reqs, hosts, stuck, prune) <==>
            prune && !Daemon.InRoster(reqs, uid) && BitsOf(s, uid) == Bits(true, true) && uid !in stuck
    ensures (exists i :: Daemon.MintsAt(reqs, hosts, uid, i)) ==> mid == Bits(true, true)
  {
    Daemon.RemovedIff(s, reqs, hosts, stuck, prune, uid);
    Daemon.WrittenIff(reqs, hosts, uid);
    if i :| Daemon.MintsAt(reqs, hosts, uid, i) { assert Daemon.WritesAt(reqs, hosts, uid, i); }
    Daemon.GuardIff(uid);
    mid := Bits(uid in s.managed || uid in Daemon.Minted(reqs, hosts, |reqs|), uid in s.files || uid in Daemon.Written(reqs, hosts, |reqs|));
    if uid !in Daemon.Uids(reqs) {
      assert forall i :: 0 <= i < |reqs| ==> reqs[i] in reqs && reqs[i].uid != uid;
    }
  }

  /** The directory lists the files that are on disk. */
  ghost predicate Shows(entries: seq<Daemon.DirEntry>, files: set<int>, uid: int) {
    uid in files <==> Daemon.DirEntry(Daemon.CcacheName(uid), false) in entries
  }

  /** Another file whose name reads as the UID, by leading zeros. */
  ghost predicate Alias(entries: seq<Daemon.DirEntry>, uid: int) {
    exists e :: e in entries && Daemon.ClaimedUid(e) == Some(uid) && e.name != Daemon.CcacheName(uid)
  }

  lemma OwnNameClaims(uid: int)
    requires 0 <= uid && IsInt64(uid)
    ensures Daemon.ClaimedUid(Daemon.DirEntry(Daemon.CcacheName(uid), false)) == Some(uid)
  {
    Daemon.GuardIff(uid);
    AtoiFormat(uid);
    assert Daemon.CcacheName(uid)[|Daemon.CCACHE_PREFIX|..] == Format(uid);
  }

  /** What a daemon adopts when it starts is what the protocol's restart says. */
  lemma RestartAdopts(reqs: seq<TicketRequest>, entries: seq<Daemon.DirEntry>, files: set<int>, uid: int)
    requires 0 <= uid && IsInt64(uid) && Shows(entries, files, uid)
    ensures uid in Daemon.Adoptable(reqs, entries) <==> (uid in files || Alias(entries, uid)) && uid in Daemon.Uids(reqs)
  {
    OwnNameClaims(uid);
    var own := Daemon.DirEntry(Daemon.CcacheName(uid), false);
    if uid in Daemon.Adoptable(reqs, entries) {
      var e :| e in entries && Daemon.ClaimedUid(e) == Some(uid);
      assert e.name == Daemon.CcacheName(uid) ==> e == own;
    }
    if uid in files && uid in Daemon.Uids(reqs) { assert own in entries; }
    if Alias(entries, uid) && uid in Daemon.Uids(reqs) {
      var e :| e in entries && Daemon.ClaimedUid(e) == Some(uid) && e.name != Daemon.CcacheName(uid);
    }
  }

  /******* The operator *******/

  /** A published roster seen from one UID, with the nodes the pods are on. */
  ghost function VersionOf(uid: int, reqs: seq<TicketRequest>, pods: set<Pod>, nodeOf: Pod -> string, selectors: SelectorsMap,
                           nodeLabels: NodeLabelsMap): Version
  {
    Version(uid in Daemon.Uids(reqs), set p | p in pods && uid in Daemon.Uids(Filtered(reqs, nodeOf(p), selectors, nodeLabels)))
  }

  /** A roster without the UID applies nowhere. */
  lemma UnlistedIsGone(uid: int, reqs: seq<TicketRequest>, pods: set<Pod>, nodeOf: Pod -> string, selectors: SelectorsMap,
                       nodeLabels: NodeLabelsMap)
    requires uid !in Daemon.Uids(reqs)
    ensures VersionOf(uid, reqs, pods, nodeOf, selectors, nodeLabels) == GONE
  {
    forall p | p in pods ensures uid !in Daemon.Uids(Filtered(reqs, nodeOf(p), selectors, nodeLabels)) {
      FilteredMembers(reqs, nodeOf(p), selectors, nodeLabels);
    }
  }

  /**
   The roster the objects call for has the UID only if an active principal has it. So once a principal is deleted it is
   the protocol's empty version, unless another principal shares the UID.
   */
  lemma DeletionCallsForGone(all: seq<Tenant.Object>, t: Tenant.TenantView, secrets: Tenant.Secrets, r: Aggregation, uid: int,
                             pods: set<Pod>, nodeOf: Pod -> string, selectors: SelectorsMap, nodeLabels: NodeLabelsMap)
    requires Tenant.DistinctNames(all) && Tenant.RosterOf(all, t, secrets, r)
    ensures VersionOf(uid, ParseFile(r.rosterBlob).reqs, pods, nodeOf, selectors, nodeLabels) == GONE || Tenant.UidActive(all, t, uid)
  {
    Tenant.RosterListsActive(all, t, secrets, r);
    var reqs := ParseFile(r.rosterBlob).reqs;
    if uid in Daemon.Uids(reqs) {
      var req :| req in reqs && req.uid == uid;
    } else {
      UnlistedIsGone(uid, reqs, pods, nodeOf, selectors, nodeLabels);
    }
  }
}
