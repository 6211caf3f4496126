/**
 The daemon on one node (daemon/pkg/watcher/watcher.go, daemon/pkg/kerberos/kerberos.go): adopting
 ticket caches at startup, minting the filtered roster, and pruning what it manages no longer.

 A ticket cache is known by its UID; `files` are the UIDs whose `krb5cc_<uid>` is on disk.
 */
module Daemon {
  import opened Common
  import opened Text
  import opened RosterFile
  import opened NodeFilter

  /******* Names *******/

  const CCACHE_PREFIX := "krb5cc_"

  function CcacheName(uid: int): string { CCACHE_PREFIX + Format(uid) }

  /** The pattern `^krb5cc_(\d+)$`. */
  predicate MatchesCcacheName(name: string) {
    CCACHE_PREFIX < name && AllDigits(name[|CCACHE_PREFIX|..])
  }

  /** The guard in `pruneStale` lets exactly the non-negative UIDs through. */
  lemma GuardIff(uid: int)
    ensures MatchesCcacheName(CcacheName(uid)) <==> uid >= 0
  {
    assert CcacheName(uid)[|CCACHE_PREFIX|..] == Format(uid);
    if uid < 0 { assert Format(uid)[0] == '-'; }
  }

  /******* Minting one ticket *******/

  /** How the host answers for one request: whether the keytab is there and how each step of a mint goes. */
  datatype Host = Host(keytab: bool, kinit: bool, leavesFile: bool, chown: bool, chmod: bool)

  /** `TicketRequest.Validate`. */
  predicate Validates(req: TicketRequest) { req.uid >= 0 && req.principal != "" && req.keytab != "" }

  predicate MintSucceeds(req: TicketRequest, h: Host) { Validates(req) && h.kinit && h.chown && h.chmod }

  /** After the attempt the cache file is there, even if the mint failed later on. */
  predicate MintWrites(req: TicketRequest, h: Host) { Validates(req) && (h.kinit || h.leavesFile) }

  /** `HostMinter.Mint`: the order of its effects on the cache file. */
  method Mint(req: TicketRequest, h: Host, files: set<int>) returns (ok: bool, after: set<int>)
    ensures ok <==> MintSucceeds(req, h)
    ensures ok <==> req.uid >= 0 && req.principal != "" && req.keytab != "" && h.kinit && h.chown && h.chmod
    ensures after == if MintWrites(req, h) then files + {req.uid} else files
    ensures ok ==> req.uid >= 0 && req.uid in after
  {
    after := files;
    if req.uid < 0 || req.principal == "" || req.keytab == "" { return false, after; }
    if h.kinit || h.leavesFile { after := after + {req.uid}; }
    if !h.kinit { return false, after; }
    if !h.chown { return false, after; }
    if !h.chmod { return false, after; }
    ok := true;
  }

  /******* A sweep *******/

  function Uids(reqs: seq<TicketRequest>): set<int> { set r | r in reqs :: r.uid }

  /** UIDs whose attempt among the first `n` requests wrote a file, or succeeded. */
  function Written(reqs: seq<TicketRequest>, hosts: seq<Host>, n: nat): set<int>
    requires n <= |reqs| && |hosts| == |reqs|
  {
    set i | 0 <= i < n && hosts[i].keytab && MintWrites(reqs[i], hosts[i]) :: reqs[i].uid
  }

  function Minted(reqs: seq<TicketRequest>, hosts: seq<Host>, n: nat): set<int>
    requires n <= |reqs| && |hosts| == |reqs|
  {
    set i | 0 <= i < n && hosts[i].keytab && MintSucceeds(reqs[i], hosts[i]) :: reqs[i].uid
  }

  /** How many of the first `n` attempts succeeded. */
  function Successes(reqs: seq<TicketRequest>, hosts: seq<Host>, n: nat): nat
    requires n <= |reqs| && |hosts| == |reqs|
  {
    if n == 0 then 0
    else Successes(reqs, hosts, n - 1) + (if hosts[n - 1].keytab && MintSucceeds(reqs[n - 1], hosts[n - 1]) then 1 else 0)
  }

  /** A managed UID that a prune acts on. */
  predicate Prunable(uid: int, current: set<int>) { uid !in current && MatchesCcacheName(CcacheName(uid)) }

  /** The files a prune takes away; `stuck` are those the file system refuses to remove. */
  function Removable(managed: set<int>, current: set<int>, files: set<int>, stuck: set<int>): set<int> {
    set uid | uid in managed && Prunable(uid, current) && uid in files && uid !in stuck
  }

  /** What stays managed: roster UIDs, and any UID the name guard refused. */
  function StillManaged(managed: set<int>, current: set<int>): set<int> {
    set uid | uid in managed && !Prunable(uid, current)
  }

  class Processor {
    const pruneStale: bool
    var managed: set<int>
    var files: set<int>

    constructor (pruneStale: bool, files: set<int>)
      ensures this.pruneStale == pruneStale && managed == {} && this.files == files
    {
      this.pruneStale := pruneStale;
      managed := {};
      this.files := files;
    }

    /** `adoptPreExisting`, for a roster and a directory that could be read. */
    method AdoptPreExisting(reqs: seq<TicketRequest>, entries: seq<DirEntry>)
      modifies this
      ensures managed == old(managed) + Adoptable(reqs, entries) && files == old(files)
    {
      var inRoster := Uids(reqs);
      for i := 0 to |entries|
        invariant managed == old(managed) + Adoptable(reqs, entries[..i]) && files == old(files)
      {
        var e := entries[i];
        assert entries[..i + 1] == entries[..i] + [e];
        AdoptOne(reqs, entries[..i], e);
        if e.isDir { continue; }
        if !MatchesCcacheName(e.name) { continue; }
        var uid := Atoi(e.name[|CCACHE_PREFIX|..]);
        if uid.None? { continue; }
        if uid.value !in inRoster { continue; }
        managed := managed + {uid.value};
      }
      assert entries[..|entries|] == entries;
    }

    /** `pruneStale`. A file that cannot be removed is dropped from the managed set all the same. */
    method PruneStale(current: set<int>, stuck: set<int>) returns (removed: set<int>)
      modifies this
      ensures removed == Removable(old(managed), current, old(files), stuck)
      ensures managed == StillManaged(old(managed), current) && files == old(files) - removed
    {
      removed := {};
      var todo := managed;
      while todo != {}
        invariant todo <= old(managed)
        invariant managed == StillManaged(old(managed) - todo, current) + todo
        invariant removed == Removable(old(managed) - todo, current, old(files), stuck)
        invariant files == old(files) - removed
        decreases todo
      {
        Inhabited(todo);
        var uid :| uid in todo;
        todo := todo - {uid};
        if uid in current { continue; }
        if !MatchesCcacheName(CcacheName(uid)) { continue; }
        if uid in files && uid !in stuck {
          files := files - {uid};
          removed := removed + {uid};
        }
        managed := managed - {uid};
      }
    }

    /** The part of `ProcessRoster` after parsing and filtering. */
    method Sweep(reqs: seq<TicketRequest>, hosts: seq<Host>, stuck: set<int>) returns (ok: nat, fail: nat, removed: set<int>)
      requires |hosts| == |reqs|
      modifies this
      ensures ok == Successes(reqs, hosts, |reqs|) && ok + fail == |reqs|
      ensures Node(managed, files) == SweptNode(Node(old(managed), old(files)), reqs, hosts, stuck, pruneStale)
      ensures removed == RemovedBy(Node(old(managed), old(files)), reqs, hosts, stuck, pruneStale)
    {
      var inRoster := Uids(reqs);
      var minted: set<int> := {};
      ok, fail := 0, 0;
      for i := 0 to |reqs|
        invariant ok == Successes(reqs, hosts, i) && ok + fail == i && managed == old(managed)
        invariant minted == Minted(reqs, hosts, i) && files == old(files) + Written(reqs, hosts, i)
      {
        if !hosts[i].keytab {
          fail := fail + 1;
          continue;
        }
        var minting, after := Mint(reqs[i], hosts[i], files);
        files := after;
        if !minting {
          fail := fail + 1;
          continue;
        }
        ok := ok + 1;
        minted := minted + {reqs[i].uid};
      }
      removed := {};
      if pruneStale { removed := PruneStale(inRoster, stuck); }
      managed := managed + minted;
    }

    /** `ProcessRoster`; None is a roster that cannot be opened. */
    method ProcessRoster(roster: Option<string>, node: string, selectorsFile: File<map<string, Labels>>,
                         labelsFile: File<NodeLabelsMap>, hosts: seq<Host>, stuck: set<int>)
      returns (ok: nat, fail: nat, removed: set<int>, ghost reqs: seq<TicketRequest>)
      requires roster.Some? ==> |hosts| >= |ParseFile(roster.value).reqs|
      modifies this
      ensures roster.None? ==> managed == old(managed) && files == old(files) && removed == {} && ok == 0 && fail == 1
      ensures roster.Some? ==>
                && FilterAllows(ParseFile(roster.value).reqs, node, selectorsFile, labelsFile, reqs) && |reqs| <= |hosts|
                && Node(managed, files) == SweptNode(Node(old(managed), old(files)), reqs, hosts[..|reqs|], stuck, pruneStale)
                && removed == RemovedBy(Node(old(managed), old(files)), reqs, hosts[..|reqs|], stuck, pruneStale)
                && ok == Successes(reqs, hosts[..|reqs|], |reqs|) && ok + fail == |reqs| + |ParseFile(roster.value).errs|
    {
      if roster.None? { return 0, 1, {}, []; }
      var parsed, errs := ParseRoster(roster.value);
      var filtered := ApplyNodeFilter(parsed, node, selectorsFile, labelsFile);
      ghost var selectors :| Restricts(selectorsFile, selectors) && filtered == Filtered(parsed, node, selectors, LoadNodeLabels(labelsFile));
      FilteredShorter(parsed, node, selectors, LoadNodeLabels(labelsFile));
      reqs := filtered;
      ok, fail, removed := Sweep(filtered, hosts[..|filtered|], stuck);
      fail := fail + |errs|;
    }
  }

  lemma {:induction false} FilteredShorter(reqs: seq<TicketRequest>, node: string, selectors: SelectorsMap, nodeLabels: NodeLabelsMap)
    ensures |Filtered(reqs, node, selectors, nodeLabels)| <= |reqs|
  {
    if reqs != [] { FilteredShorter(reqs[..|reqs| - 1], node, selectors, nodeLabels); }
  }

  datatype DirEntry = DirEntry(name: string, isDir: bool)

  /** The UID that a directory entry is a ticket cache of. */
  function ClaimedUid(e: DirEntry): Option<int> {
    if e.isDir || !MatchesCcacheName(e.name) then None else Atoi(e.name[|CCACHE_PREFIX|..])
  }

  /** UIDs of cache files on disk that the roster claims. */
  function Adoptable(reqs: seq<TicketRequest>, entries: seq<DirEntry>): set<int> {
    set e | e in entries && ClaimedUid(e).Some? && ClaimedUid(e).value in Uids(reqs) :: ClaimedUid(e).value
  }

  lemma AdoptOne(reqs: seq<TicketRequest>, entries: seq<DirEntry>, e: DirEntry)
    ensures var uid := ClaimedUid(e);
            Adoptable(reqs, entries + [e]) ==
            Adoptable(reqs, entries) + (if uid.Some? && uid.value in Uids(reqs) then {uid.value} else {})
  {
  }

  /** The daemon's state on its node. */
  datatype Node = Node(managed: set<int>, files: set<int>)

  function RemovedBy(s: Node, reqs: seq<TicketRequest>, hosts: seq<Host>, stuck: set<int>, prune: bool): set<int>
    requires |hosts| == |reqs|
  {
    if prune then Removable(s.managed, Uids(reqs), s.files + Written(reqs, hosts, |reqs|), stuck) else {}
  }

  function SweptNode(s: Node, reqs: seq<TicketRequest>, hosts: seq<Host>, stuck: set<int>, prune: bool): Node
    requires |hosts| == |reqs|
  {
    Node((if prune then StillManaged(s.managed, Uids(reqs)) else s.managed) + Minted(reqs, hosts, |reqs|),
         s.files + Written(reqs, hosts, |reqs|) - RemovedBy(s, reqs, hosts, stuck, prune))
  }

  /******* What a sweep does to one UID *******/

  /** The request is valid, its keytab is there, and every step of the mint works. */
  ghost predicate MintsAt(reqs: seq<TicketRequest>, hosts: seq<Host>, uid: int, i: int) {
    && 0 <= i < |reqs| && i < |hosts| && reqs[i].uid == uid && uid >= 0 && reqs[i].principal != "" && reqs[i].keytab != ""
    && hosts[i].keytab && hosts[i].kinit && hosts[i].chown && hosts[i].chmod
  }

  /** A valid request gets as far as kinit, which succeeds or at least leaves a file. */
  ghost predicate WritesAt(reqs: seq<TicketRequest>, hosts: seq<Host>, uid: int, i: int) {
    && 0 <= i < |reqs| && i < |hosts| && reqs[i].uid == uid && uid >= 0 && reqs[i].principal != "" && reqs[i].keytab != ""
    && hosts[i].keytab && (hosts[i].kinit || hosts[i].leavesFile)
  }

  ghost predicate InRoster(reqs: seq<TicketRequest>, uid: int) { exists i :: 0 <= i < |reqs| && reqs[i].uid == uid }

  lemma InRosterIff(reqs: seq<TicketRequest>, uid: int)
    ensures uid in Uids(reqs) <==> InRoster(reqs, uid)
  {
    if i :| 0 <= i < |reqs| && reqs[i].uid == uid { assert reqs[i] in reqs; }
    if uid in Uids(reqs) { var r :| r in reqs && r.uid == uid; }
  }

  /** A sweep removes the file exactly of the UIDs it manages, that are not in the roster, and whose file is there and can be removed. */
  lemma RemovedIff(s: Node, reqs: seq<TicketRequest>, hosts: seq<Host>, stuck: set<int>, prune: bool, uid: int)
    requires |hosts| == |reqs|
    ensures uid in RemovedBy(s, reqs, hosts, stuck, prune) <==>
            prune && uid >= 0 && uid in s.managed && !InRoster(reqs, uid) && uid in s.files && uid !in stuck
  {
    GuardIff(uid);
    InRosterIff(reqs, uid);
    assert uid in Written(reqs, hosts, |reqs|) ==> InRoster(reqs, uid);
  }

  /** After it a file is there exactly if it was, or was written by a mint, and was not removed. */
  lemma FileAfterIff(s: Node, reqs: seq<TicketRequest>, hosts: seq<Host>, stuck: set<int>, prune: bool, uid: int)
    requires |hosts| == |reqs|
    ensures uid in SweptNode(s, reqs, hosts, stuck, prune).files <==>
            || (exists i :: WritesAt(reqs, hosts, uid, i))
            || (uid in s.files && !(prune && uid >= 0 && uid in s.managed && !InRoster(reqs, uid) && uid !in stuck))
  {
    RemovedIff(s, reqs, hosts, stuck, prune, uid);
    WrittenIff(reqs, hosts, uid);
    if i :| WritesAt(reqs, hosts, uid, i) { assert InRoster(reqs, uid); }
  }

  lemma WrittenIff(reqs: seq<TicketRequest>, hosts: seq<Host>, uid: int)
    requires |hosts| == |reqs|
    ensures uid in Written(reqs, hosts, |reqs|) <==> exists i :: WritesAt(reqs, hosts, uid, i)
    ensures uid in Minted(reqs, hosts, |reqs|) <==> exists i :: MintsAt(reqs, hosts, uid, i)
  {
    if uid in Written(reqs, hosts, |reqs|) {
      var i :| 0 <= i < |reqs| && hosts[i].keytab && MintWrites(reqs[i], hosts[i]) && reqs[i].uid == uid;
      assert WritesAt(reqs, hosts, uid, i);
    }
    if uid in Minted(reqs, hosts, |reqs|) {
      var i :| 0 <= i < |reqs| && hosts[i].keytab && MintSucceeds(reqs[i], hosts[i]) && reqs[i].uid == uid;
      assert MintsAt(reqs, hosts, uid, i);
    }
  }

  /** And a UID is managed exactly if it was just minted, or was managed and is kept: by the roster, or for want of pruning. */
  lemma ManagedAfterIff(s: Node, reqs: seq<TicketRequest>, hosts: seq<Host>, stuck: set<int>, prune: bool, uid: int)
    requires |hosts| == |reqs| && uid >= 0
    ensures uid in SweptNode(s, reqs, hosts, stuck, prune).managed <==>
            (exists i :: MintsAt(reqs, hosts, uid, i)) || (uid in s.managed && (!prune || InRoster(reqs, uid)))
  {
    GuardIff(uid);
    InRosterIff(reqs, uid);
    WrittenIff(reqs, hosts, uid);
  }

  /** The count of successes: all of the requests succeeded, none did, and what one more adds. */
  lemma {:induction false} SuccessesMean(reqs: seq<TicketRequest>, hosts: seq<Host>, n: nat)
    requires n <= |reqs| && |hosts| == |reqs|
    ensures Successes(reqs, hosts, n) <= n
    ensures Successes(reqs, hosts, n) == n <==> forall i :: 0 <= i < n ==> MintsAt(reqs, hosts, reqs[i].uid, i)
    ensures Successes(reqs, hosts, n) == 0 <==> forall i :: 0 <= i < n ==> !MintsAt(reqs, hosts, reqs[i].uid, i)
  {
    if n > 0 { SuccessesMean(reqs, hosts, n - 1); }
  }

  /******* Runs *******/

  /** Between sweeps other processes may create and delete files; a sweep may find no roster. */
  datatype Round = Round(appear: set<int>, vanish: set<int>, reqs: Option<seq<TicketRequest>>, hosts: seq<Host>, stuck: set<int>)

  ghost predicate WellFormed(rounds: seq<Round>) {
    forall i :: 0 <= i < |rounds| && rounds[i].reqs.Some? ==> |rounds[i].hosts| == |rounds[i].reqs.value|
  }

  function Disturbed(s: Node, r: Round): Node { s.(files := s.files - r.vanish + r.appear) }

  function AfterRound(s: Node, r: Round, prune: bool): Node
    requires r.reqs.Some? ==> |r.hosts| == |r.reqs.value|
  {
    if r.reqs.None? then Disturbed(s, r) else SweptNode(Disturbed(s, r), r.reqs.value, r.hosts, r.stuck, prune)
  }

  function RemovedIn(s: Node, r: Round, prune: bool): set<int>
    requires r.reqs.Some? ==> |r.hosts| == |r.reqs.value|
  {
    if r.reqs.None? then {} else RemovedBy(Disturbed(s, r), r.reqs.value, r.hosts, r.stuck, prune)
  }

  /** The node after adopting at startup and then running `rounds`. */
  ghost function AfterRun(start: Node, rounds: seq<Round>, prune: bool): Node
    requires WellFormed(rounds)
  {
    if rounds == [] then start
    else
      var n := |rounds| - 1;
      AfterRound(AfterRun(start, rounds[..n], prune), rounds[n], prune)
  }

  /** Everything this process minted in `rounds`. */
  ghost function MintedIn(rounds: seq<Round>): set<int>
    requires WellFormed(rounds)
  {
    if rounds == [] then {}
    else
      var n := |rounds| - 1;
      MintedIn(rounds[..n]) +
      (if rounds[n].reqs.None? then {} else Minted(rounds[n].reqs.value, rounds[n].hosts, |rounds[n].hosts|))
  }

  /** The state right after startup: what was adopted comes from the startup roster. */
  ghost predicate Started(start: Node, startup: seq<TicketRequest>, entries: seq<DirEntry>) {
    start.managed == Adoptable(startup, entries)
  }

  lemma AdoptedAreOurs(startup: seq<TicketRequest>, entries: seq<DirEntry>, uid: int)
    requires uid in Adoptable(startup, entries)
    ensures uid >= 0 && uid in Uids(startup)
  {
    var e :| e in entries && ClaimedUid(e) == Some(uid) && uid in Uids(startup);
    var digits := e.name[|CCACHE_PREFIX|..];
    assert IsDigit(digits[0]);
  }

  /**
   In every run, whatever the rosters, the mints and the other processes on the node: a managed UID is
   non-negative and came from this process's startup roster or an own mint.
   */
  lemma {:induction false} ManagedIsOurs(start: Node, startup: seq<TicketRequest>, entries: seq<DirEntry>, rounds: seq<Round>, prune: bool)
    requires Started(start, startup, entries) && WellFormed(rounds)
    ensures forall uid :: uid in AfterRun(start, rounds, prune).managed ==>
              uid >= 0 && (uid in Uids(startup) || uid in MintedIn(rounds))
  {
    if rounds == [] {
      forall uid | uid in start.managed ensures uid >= 0 && uid in Uids(startup) { AdoptedAreOurs(startup, entries, uid); }
    } else {
      ManagedIsOurs(start, startup, entries, rounds[..|rounds| - 1], prune);
    }
  }

  /**
   What a round removes belongs to the startup roster or an earlier mint of this process, never to the
   roster being swept; the name guard never stops it; and after a pruning sweep only roster UIDs are managed.
   */
  lemma PruneIsSafe(start: Node, startup: seq<TicketRequest>, entries: seq<DirEntry>, rounds: seq<Round>, r: Round, prune: bool)
    requires Started(start, startup, entries) && WellFormed(rounds) && (r.reqs.Some? ==> |r.hosts| == |r.reqs.value|)
    ensures var s := AfterRun(start, rounds, prune);
            && (forall uid :: uid in RemovedIn(s, r, prune) ==>
                  (uid in Uids(startup) || uid in MintedIn(rounds)) && r.reqs.Some? && uid !in Uids(r.reqs.value))
            && (forall uid :: uid in s.managed ==> MatchesCcacheName(CcacheName(uid)))
            && (prune && r.reqs.Some? ==> AfterRound(s, r, prune).managed <= Uids(r.reqs.value))
  {
    ManagedIsOurs(start, startup, entries, rounds, prune);
    forall uid { GuardIff(uid); }
  }

  /**
   What is no longer wanted goes: after a pruning sweep, a file of a UID that was managed before it and is not in its roster
   is gone, unless the removal failed.
   */
  lemma UnwantedFilesGo(start: Node, rounds: seq<Round>, r: Round, uid: int)
    requires WellFormed(rounds) && r.reqs.Some? && |r.hosts| == |r.reqs.value|
    requires uid >= 0 && uid in AfterRun(start, rounds, true).managed && !InRoster(r.reqs.value, uid) && uid !in r.stuck
    ensures uid !in AfterRound(AfterRun(start, rounds, true), r, true).files
    ensures uid in Disturbed(AfterRun(start, rounds, true), r).files <==> uid in RemovedIn(AfterRun(start, rounds, true), r, true)
  {
    var s := Disturbed(AfterRun(start, rounds, true), r);
    RemovedIff(s, r.reqs.value, r.hosts, r.stuck, true, uid);
    FileAfterIff(s, r.reqs.value, r.hosts, r.stuck, true, uid);
    if i :| WritesAt(r.reqs.value, r.hosts, uid, i) { assert InRoster(r.reqs.value, uid); }
  }

  /** A file of a UID this process neither adopted nor minted stays, as long as nobody else removes it. */
  lemma {:induction false} ForeignFilesSurvive(start: Node, startup: seq<TicketRequest>, entries: seq<DirEntry>, rounds: seq<Round>,
                                               prune: bool, uid: int)
    requires Started(start, startup, entries) && WellFormed(rounds)
    requires uid in start.files && uid !in Uids(startup) && uid !in MintedIn(rounds)
    requires forall i :: 0 <= i < |rounds| ==> uid !in rounds[i].vanish
    ensures uid in AfterRun(start, rounds, prune).files
  {
    if rounds != [] {
      var n := |rounds| - 1;
      ForeignFilesSurvive(start, startup, entries, rounds[..n], prune, uid);
      PruneIsSafe(start, startup, entries, rounds[..n], rounds[n], prune);
    }
  }
}
