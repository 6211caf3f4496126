/**
 The daemon's poll loop (daemon/pkg/watcher/watcher.go): what is hashed to notice a change, and when
 `StartLoop` sweeps.
 */
module PollLoop {
  import opened Common
  import opened Text
  import opened Aggregate
  import opened NodeFilter

  /******* What is hashed *******/

  const NUL := '\0'

  /** The mounted files; None is a missing one. */
  datatype Inputs = Inputs(roster: Option<string>, selectors: Option<string>, nodeLabels: Option<string>)

  /** `hashFileInto`: a file is followed by a NUL, a missing one leaves no trace. */
  function Part(f: Option<string>): string { if f.None? then "" else f.value + [NUL] }

  /** `hashInputs`, up to the hash: the bytes it is fed, or None without a roster. */
  function HashStream(x: Inputs): Option<string> {
    if x.roster.None? then None else Some(Part(x.roster) + (Part(x.selectors) + Part(x.nodeLabels)))
  }

  predicate NulFree(f: Option<string>) { f.Some? ==> NUL !in f.value }

  predicate AllNulFree(x: Inputs) { NulFree(x.roster) && NulFree(x.selectors) && NulFree(x.nodeLabels) }

  /** Node labels come only with selectors. */
  predicate Layered(x: Inputs) { x.nodeLabels.Some? ==> x.selectors.Some? }

  /** `a` has as its only companion, the selectors, what `b` has as its only one, the node labels. */
  predicate Swapped(a: Inputs, b: Inputs) {
    && a.roster == b.roster && a.selectors.Some? && a.selectors == b.nodeLabels
    && a.nodeLabels.None? && b.selectors.None?
  }

  lemma SamePart(f: Option<string>, g: Option<string>, s: string, t: string)
    requires NulFree(f) && NulFree(g) && f.Some? && g.Some? && Part(f) + s == Part(g) + t
    ensures f == g && s == t
  {
    SameHead(f.value, g.value, NUL, s, t);
  }

  /** Two companions against one: the second would have to be empty, but it ends in a NUL. */
  lemma TwoAreNotOne(f: Option<string>, g: Option<string>, h: Option<string>)
    requires f.Some? && g.Some? && NulFree(f) && NulFree(h)
    ensures Part(f) + Part(g) != Part(h)
  {
    if Part(f) + Part(g) == Part(h) && h.Some? {
      assert Part(h) + "" == Part(h);
      SamePart(f, h, Part(g), "");
    }
  }

  lemma SameCompanions(a: Inputs, b: Inputs)
    requires AllNulFree(a) && AllNulFree(b) && a.roster == b.roster
    requires Part(a.selectors) + Part(a.nodeLabels) == Part(b.selectors) + Part(b.nodeLabels)
    ensures a == b || Swapped(a, b) || Swapped(b, a)
  {
    assert forall s: string :: s + "" == s && "" + s == s;
    if a.selectors.Some? && b.selectors.Some? {
      SamePart(a.selectors, b.selectors, Part(a.nodeLabels), Part(b.nodeLabels));
      if a.nodeLabels.Some? && b.nodeLabels.Some? { SamePart(a.nodeLabels, b.nodeLabels, "", ""); }
    } else if a.selectors.Some? {
      if a.nodeLabels.Some? {
        TwoAreNotOne(a.selectors, a.nodeLabels, b.nodeLabels);
      } else if b.nodeLabels.Some? {
        SamePart(a.selectors, b.nodeLabels, "", "");
      }
    } else if b.selectors.Some? {
      if b.nodeLabels.Some? {
        TwoAreNotOne(b.selectors, b.nodeLabels, a.nodeLabels);
      } else if a.nodeLabels.Some? {
        SamePart(b.selectors, a.nodeLabels, "", "");
      }
    } else if a.nodeLabels.Some? && b.nodeLabels.Some? {
      SamePart(a.nodeLabels, b.nodeLabels, "", "");
    }
  }

  /**
   Exactly what the hashed bytes leave open: on NUL-free files they give away all three, absent or
   empty, except when one side has only selectors and the other the same text as only node labels.
   */
  lemma StreamIff(a: Inputs, b: Inputs)
    requires AllNulFree(a) && AllNulFree(b) && a.roster.Some? && b.roster.Some?
    ensures HashStream(a) == HashStream(b) <==> a == b || Swapped(a, b) || Swapped(b, a)
  {
    var s, t := Part(a.selectors) + Part(a.nodeLabels), Part(b.selectors) + Part(b.nodeLabels);
    if HashStream(a) == HashStream(b) {
      SamePart(a.roster, b.roster, s, t);
      SameCompanions(a, b);
    }
    assert Swapped(a, b) || Swapped(b, a) ==> s == t;
  }

  /** So a change is never lost before hashing if node labels come only with selectors. */
  lemma StreamInjective(a: Inputs, b: Inputs)
    requires AllNulFree(a) && AllNulFree(b) && Layered(a) && Layered(b)
    ensures HashStream(a) == HashStream(b) && a.roster.Some? <==> a == b && a.roster.Some?
  {
    if a.roster.Some? && b.roster.Some? { StreamIff(a, b); }
  }

  /** Without that, any text at all gives two different inputs with the same stream. */
  lemma StreamAmbiguous(roster: string, text: string)
    ensures var a, b := Inputs(Some(roster), Some(text), None), Inputs(Some(roster), None, Some(text));
            a != b && !Layered(b) && HashStream(a) == HashStream(b)
  {
    assert Part(Some(text)) + "" == "" + Part(Some(text));
  }

  /** The files a ConfigMap is mounted as. */
  function MountedFiles(cm: ConfigMap, writeSelectors: map<string, Labels> -> string, writeLabels: NodeLabelsMap -> string): Inputs {
    Inputs(Some(cm.roster), if cm.selectors.None? then None else Some(writeSelectors(cm.selectors.value)),
           if cm.nodeLabels.None? then None else Some(writeLabels(cm.nodeLabels.value)))
  }

  ghost predicate Injective<A(!new), B>(f: A -> B) { forall x, y :: f(x) == f(y) ==> x == y }

  /** Of what the operator publishes, no two different rosters, selectors or node labels look alike to the daemon. */
  lemma PublishedChangesShow(r: Aggregation, r': Aggregation, n: Option<NodeLabelsMap>, n': Option<NodeLabelsMap>,
                             cm: ConfigMap, cm': ConfigMap,
                             writeSelectors: map<string, Labels> -> string, writeLabels: NodeLabelsMap -> string)
    requires Publishes(r, n, cm) && Publishes(r', n', cm') && Injective(writeSelectors) && Injective(writeLabels)
    requires AllNulFree(MountedFiles(cm, writeSelectors, writeLabels)) && AllNulFree(MountedFiles(cm', writeSelectors, writeLabels))
    ensures HashStream(MountedFiles(cm, writeSelectors, writeLabels)) == HashStream(MountedFiles(cm', writeSelectors, writeLabels)) <==>
            cm.roster == cm'.roster && cm.selectors == cm'.selectors && cm.nodeLabels == cm'.nodeLabels
  {
    StreamInjective(MountedFiles(cm, writeSelectors, writeLabels), MountedFiles(cm', writeSelectors, writeLabels));
  }

  /******* When the loop sweeps *******/

  /**
   One round of the loop: it hashes at `at`; if it sweeps, the sweep reads the files at `read` and is
   over at `end`. A failed hash is None. The startup hash and sweep are a round as well.
   */
  datatype Tick = Tick(at: int, digest: Option<string>, read: int, end: int)

  datatype Loop = Loop(lastHash: string, lastRenew: int)

  function Started(first: Tick): Loop
    requires first.digest.Some?
  {
    Loop(first.digest.value, first.end)
  }

  /** Something changed, or the tickets are due. */
  predicate Sweeps(l: Loop, t: Tick, renew: int) {
    t.digest.Some? && (t.digest.value != l.lastHash || t.at - l.lastRenew >= renew)
  }

  /** The loop's variables after a round. */
  function Next(l: Loop, t: Tick, renew: int): Loop {
    if Sweeps(l, t, renew) then Loop(t.digest.value, t.end) else l
  }

  function After(first: Tick, ticks: seq<Tick>, renew: int, n: nat): Loop
    requires first.digest.Some? && n <= |ticks|
  {
    if n == 0 then Started(first) else Next(After(first, ticks, renew, n - 1), ticks[n - 1], renew)
  }

  predicate SweepsAt(first: Tick, ticks: seq<Tick>, renew: int, n: nat)
    requires first.digest.Some? && n < |ticks|
  {
    Sweeps(After(first, ticks, renew, n), ticks[n], renew)
  }

  /** `StartLoop` over the ticks until shutdown: which of them sweep, or None if it cannot start. */
  method StartLoop(first: Tick, ticks: seq<Tick>, renew: int) returns (swept: Option<seq<bool>>)
    ensures swept.None? <==> first.digest.None?
    ensures swept.Some? ==> |swept.value| == |ticks|
    ensures swept.Some? ==> forall i :: 0 <= i < |ticks| ==> swept.value[i] == SweepsAt(first, ticks, renew, i)
  {
    if first.digest.None? { return None; }
    var lastHash := first.digest.value;
    var lastRenewTime := first.end;
    var log: seq<bool> := [];
    for i := 0 to |ticks|
      invariant Loop(lastHash, lastRenewTime) == After(first, ticks, renew, i)
      invariant |log| == i && forall j :: 0 <= j < i ==> log[j] == SweepsAt(first, ticks, renew, j)
    {
      var t := ticks[i];
      if t.digest.None? {
        log := log + [false];
        continue;
      }
      if t.digest.value != lastHash {
        log := log + [true];
        lastHash := t.digest.value;
        lastRenewTime := t.end;
        continue;
      }
      var due := t.at - lastRenewTime >= renew;
      log := log + [due];
      if due { lastRenewTime := t.end; }
    }
    swept := Some(log);
  }

  /** The round of the latest sweep among the first `n` ticks, startup included. */
  function LastSweep(first: Tick, ticks: seq<Tick>, renew: int, n: nat): Tick
    requires first.digest.Some? && n <= |ticks|
  {
    if n == 0 then first
    else if SweepsAt(first, ticks, renew, n - 1) then ticks[n - 1]
    else LastSweep(first, ticks, renew, n - 1)
  }

  lemma {:induction false} LoopRemembersSweep(first: Tick, ticks: seq<Tick>, renew: int, n: nat)
    requires first.digest.Some? && n <= |ticks|
    ensures After(first, ticks, renew, n).lastRenew == LastSweep(first, ticks, renew, n).end
    ensures Some(After(first, ticks, renew, n).lastHash) == LastSweep(first, ticks, renew, n).digest
  {
    if n > 0 { LoopRemembersSweep(first, ticks, renew, n - 1); }
  }

  /** A tick sweeps exactly if it hashes something else than the latest sweep did, or `renew` has passed since that ended. */
  lemma SweepsIff(first: Tick, ticks: seq<Tick>, renew: int, n: nat)
    requires first.digest.Some? && n < |ticks|
    ensures var s := LastSweep(first, ticks, renew, n);
            SweepsAt(first, ticks, renew, n) <==>
            ticks[n].digest.Some? && (ticks[n].digest != s.digest || ticks[n].at >= s.end + renew)
  {
    LoopRemembersSweep(first, ticks, renew, n);
  }

  /** When the loop is back to waiting, after the first `n` ticks. */
  function Waiting(first: Tick, ticks: seq<Tick>, renew: int, n: nat): int
    requires first.digest.Some? && n <= |ticks|
  {
    if n == 0 then first.end
    else if SweepsAt(first, ticks, renew, n - 1) then ticks[n - 1].end
    else ticks[n - 1].at
  }

  /** Every hash succeeds, and a tick comes at most `period` after the loop starts to wait for it. */
  ghost predicate Paced(first: Tick, ticks: seq<Tick>, renew: int, period: int) {
    && first.digest.Some?
    && forall i :: 0 <= i < |ticks| ==>
         ticks[i].digest.Some? && Waiting(first, ticks, renew, i) <= ticks[i].at <= Waiting(first, ticks, renew, i) + period
  }

  /**
   Tickets are renewed in time: whichever tick comes next, it comes within `renew + period` of the end of
   the latest sweep, and once `renew` has passed it sweeps.
   */
  lemma {:induction false} NextSweepInTime(first: Tick, ticks: seq<Tick>, renew: int, period: int, n: nat)
    requires renew >= 0 && Paced(first, ticks, renew, period) && n < |ticks|
    ensures ticks[n].at <= LastSweep(first, ticks, renew, n).end + renew + period
    ensures SweepsAt(first, ticks, renew, n) || ticks[n].at < LastSweep(first, ticks, renew, n).end + renew
  {
    LoopRemembersSweep(first, ticks, renew, n);
    if n > 0 { NextSweepInTime(first, ticks, renew, period, n - 1); }
  }

  /******* Changes *******/

  /** The digest of what is mounted at a moment. */
  function Digest(hash: string -> string, x: Inputs): Option<string> {
    match HashStream(x)
    case None => None
    case Some(s) => Some(hash(s))
  }

  /** The rounds hash what is mounted at their moment; files are NUL-free, node labels come only with selectors. */
  ghost predicate Watches(mounted: int -> Inputs, hash: string -> string, first: Tick, ticks: seq<Tick>) {
    && Injective(hash) && first.digest.Some?
    && (forall at :: AllNulFree(mounted(at)) && Layered(mounted(at)))
    && first.digest == Digest(hash, mounted(first.at))
    && forall i :: 0 <= i < |ticks| ==> ticks[i].digest == Digest(hash, mounted(ticks[i].at))
  }

  lemma SameDigest(mounted: int -> Inputs, hash: string -> string, first: Tick, ticks: seq<Tick>, s: int, t: int)
    requires Watches(mounted, hash, first, ticks) && Digest(hash, mounted(s)) == Digest(hash, mounted(t)) != None
    ensures mounted(s) == mounted(t)
  {
    StreamInjective(mounted(s), mounted(t));
  }

  lemma {:induction false} LastSweepHashed(mounted: int -> Inputs, hash: string -> string, first: Tick, ticks: seq<Tick>, renew: int, n: nat)
    requires Watches(mounted, hash, first, ticks) && n <= |ticks|
    ensures var s := LastSweep(first, ticks, renew, n); s.digest == Digest(hash, mounted(s.at)) && s.digest.Some?
  {
    if n > 0 { LastSweepHashed(mounted, hash, first, ticks, renew, n - 1); }
  }

  /**
   A tick that hashes and does not sweep finds what the latest sweep hashed. So what that sweep acted on is
   up to date exactly if nothing changed between its hash and its read.
   */
  lemma QuietTickIff(mounted: int -> Inputs, hash: string -> string, first: Tick, ticks: seq<Tick>, renew: int, n: nat)
    requires Watches(mounted, hash, first, ticks) && n < |ticks| && ticks[n].digest.Some? && !SweepsAt(first, ticks, renew, n)
    ensures var s := LastSweep(first, ticks, renew, n);
            mounted(ticks[n].at) == mounted(s.at) && (mounted(s.read) == mounted(ticks[n].at) <==> mounted(s.read) == mounted(s.at))
  {
    var s := LastSweep(first, ticks, renew, n);
    LoopRemembersSweep(first, ticks, renew, n);
    LastSweepHashed(mounted, hash, first, ticks, renew, n);
    SameDigest(mounted, hash, first, ticks, ticks[n].at, s.at);
  }

  /** In terms of what is mounted: a tick with a roster sweeps exactly if something has changed since the latest hash, or tickets are due. */
  lemma SweepsOnChange(mounted: int -> Inputs, hash: string -> string, first: Tick, ticks: seq<Tick>, renew: int, n: nat)
    requires Watches(mounted, hash, first, ticks) && n < |ticks|
    ensures var s := LastSweep(first, ticks, renew, n);
            SweepsAt(first, ticks, renew, n) <==>
            mounted(ticks[n].at).roster.Some? && (mounted(ticks[n].at) != mounted(s.at) || ticks[n].at >= s.end + renew)
  {
    var s := LastSweep(first, ticks, renew, n);
    SweepsIff(first, ticks, renew, n);
    LastSweepHashed(mounted, hash, first, ticks, renew, n);
    if ticks[n].digest.Some? && ticks[n].digest == s.digest { SameDigest(mounted, hash, first, ticks, ticks[n].at, s.at); }
  }

  /** What differs from the start of a tick interval at some moment within still differs at its end. */
  ghost predicate NoRevert(mounted: int -> Inputs, from: int, to: int) {
    forall t :: from <= t <= to && mounted(t) != mounted(from) ==> mounted(to) != mounted(from)
  }

  /** The tick before tick `n`, startup included. */
  function Before(first: Tick, ticks: seq<Tick>, n: nat): Tick
    requires n <= |ticks|
  {
    if n == 0 then first else ticks[n - 1]
  }

  ghost predicate ReadsInTime(t: Tick, next: Tick) { t.at <= t.read <= next.at }

  /** The hash at tick `n` succeeds, what was swept before it was read before it, and nothing reverts on the way to it. */
  ghost predicate CalmAt(mounted: int -> Inputs, first: Tick, ticks: seq<Tick>, n: nat) {
    && n < |ticks| && ticks[n].digest.Some?
    && ReadsInTime(Before(first, ticks, n), ticks[n]) && NoRevert(mounted, Before(first, ticks, n).at, ticks[n].at)
  }

  ghost predicate Calm(mounted: int -> Inputs, first: Tick, ticks: seq<Tick>, n: nat) {
    forall i: nat :: i <= n ==> CalmAt(mounted, first, ticks, i)
  }

  /** A quiet tick right after a sweep: what the sweep read would still differ if it differed from what it hashed. */
  lemma QuietAfterSweep(mounted: int -> Inputs, hash: string -> string, first: Tick, ticks: seq<Tick>, renew: int, n: nat)
    requires Watches(mounted, hash, first, ticks) && CalmAt(mounted, first, ticks, n) && !SweepsAt(first, ticks, renew, n)
    requires LastSweep(first, ticks, renew, n) == Before(first, ticks, n)
    ensures var s := LastSweep(first, ticks, renew, n); mounted(s.read) == mounted(s.at)
  {
    QuietTickIff(mounted, hash, first, ticks, renew, n);
  }

  /** A quiet tick right before this one: the latest sweep is an earlier one, which the same rounds follow. */
  lemma {:induction false} SweepThenQuiet(mounted: int -> Inputs, hash: string -> string, first: Tick, ticks: seq<Tick>, renew: int, n: nat)
    requires Watches(mounted, hash, first, ticks) && n < |ticks| && Calm(mounted, first, ticks, n)
    requires !SweepsAt(first, ticks, renew, n)
    ensures var s := LastSweep(first, ticks, renew, n); mounted(s.read) == mounted(s.at)
  {
    if n == 0 || SweepsAt(first, ticks, renew, n - 1) {
      QuietAfterSweep(mounted, hash, first, ticks, renew, n);
    } else {
      SweepThenQuiet(mounted, hash, first, ticks, renew, n - 1);
    }
  }

  /**
   No change is missed: if nothing reverts within a tick interval, then at every tick either it sweeps, reading
   the files after the hash, or what the daemon last acted on is what is mounted.
   */
  lemma ChangesAreSwept(mounted: int -> Inputs, hash: string -> string, first: Tick, ticks: seq<Tick>, renew: int, n: nat)
    requires Watches(mounted, hash, first, ticks) && n < |ticks| && Calm(mounted, first, ticks, n)
    ensures SweepsAt(first, ticks, renew, n) || mounted(LastSweep(first, ticks, renew, n).read) == mounted(ticks[n].at)
  {
    assert CalmAt(mounted, first, ticks, n);
    if !SweepsAt(first, ticks, renew, n) {
      QuietTickIff(mounted, hash, first, ticks, renew, n);
      SweepThenQuiet(mounted, hash, first, ticks, renew, n);
    }
  }

  /** A change that comes after the hash of a sweep, is read by it, and reverts before the next tick stays unnoticed. */
  lemma RevertIsMissed(hash: string -> string, a: Inputs, b: Inputs, renew: int)
    requires Injective(hash) && a != b && AllNulFree(a) && AllNulFree(b) && Layered(a) && Layered(b) && a.roster.Some? && renew > 2
    ensures var mounted := (t: int) => if t == 1 then b else a;
            var first, tick := Tick(0, Digest(hash, a), 1, 1), Tick(2, Digest(hash, a), 2, 2);
            && Watches(mounted, hash, first, [tick]) && ReadsInTime(first, tick)
            && !SweepsAt(first, [tick], renew, 0)
            && mounted(LastSweep(first, [tick], renew, 0).read) != mounted(tick.at)
  {
  }
}
