/**
 The wire contract of daemon Events (shared/events/reasons.go) and their way into the operator
 (operator/internal/events/reconciler.go).

 Instants are nanoseconds counted from Go's zero time, so 0 is the time for which `IsZero` holds.
 */
module Events {
  import opened Common
  import opened Text

  const ZERO_TIME := 0

  const REASON_MINT_SUCCEEDED := "KerberosMintSucceeded"
  const REASON_MINT_FAILED := "KerberosMintFailed"
  const REASON_CCACHE_PRUNED := "KerberosCcachePruned"
  const REASON_KEYTAB_MISSING := "KerberosKeytabMissing"

  const KNOWN_REASONS := {REASON_MINT_SUCCEEDED, REASON_MINT_FAILED, REASON_CCACHE_PRUNED, REASON_KEYTAB_MISSING}

  /** `ShortReason`. */
  function ShortReason(reason: string): string {
    if reason == REASON_MINT_SUCCEEDED then "Minted"
    else if reason == REASON_MINT_FAILED then "MintFailed"
    else if reason == REASON_CCACHE_PRUNED then "Pruned"
    else if reason == REASON_KEYTAB_MISSING then "KeytabMissing"
    else reason
  }

  /** A corev1 Event; `messageUid` is what the pattern `\buid=(\d+)\b` finds in the message. */
  datatype Event = Event(kind: string, reason: string, pod: string, annotation: Option<string>, message: string,
                         messageUid: Option<int>, lastTimestamp: int, eventTime: int, creationTimestamp: int)

  /** One per-UID observation, as the cache keeps it. */
  datatype Observation = Observation(reason: string, message: string, timestamp: int, pod: string, uid: int)

  /** `ParseUIDFromEvent`: a malformed annotation is final. */
  function ParseUid(ev: Event): Option<int> {
    match ev.annotation
    case Some(raw) => Atoi(raw)
    case None => ev.messageUid
  }

  /** What `EventReconciler.Reconcile` puts into the cache for an Event, if anything. */
  function Observed(ev: Event): Option<Observation> {
    if ev.kind != "Pod" || ev.reason !in KNOWN_REASONS || ev.pod == "" then None
    else
      match ParseUid(ev)
      case None => None
      case Some(uid) =>
        var latest := if ev.eventTime != ZERO_TIME && ev.eventTime > ev.lastTimestamp then ev.eventTime else ev.lastTimestamp;
        var ts := if latest == ZERO_TIME then ev.creationTimestamp else latest;
        Some(Observation(ev.reason, ev.message, ts, ev.pod, uid))
  }

  /** Which Events are observed, and as what. */
  lemma ObservedMeans(ev: Event)
    ensures Observed(ev).Some? <==>
            && ev.kind == "Pod" && ev.pod != "" && ParseUid(ev).Some?
            && ev.reason in {"KerberosMintSucceeded", "KerberosMintFailed", "KerberosCcachePruned", "KerberosKeytabMissing"}
    ensures Observed(ev).Some? ==>
              var o := Observed(ev).value;
              && o.pod == ev.pod && Some(o.uid) == ParseUid(ev) && o.reason == ev.reason && o.message == ev.message
              && (o.timestamp == ev.lastTimestamp || o.timestamp == ev.eventTime || o.timestamp == ev.creationTimestamp)
    ensures Observed(ev).Some? && ev.lastTimestamp >= ZERO_TIME && ev.eventTime >= ZERO_TIME ==>
              var ts := Observed(ev).value.timestamp;
              if ev.lastTimestamp == ev.eventTime == ZERO_TIME then ts == ev.creationTimestamp
              else ts >= ev.lastTimestamp && ts >= ev.eventTime && (ts == ev.lastTimestamp || ts == ev.eventTime)
  {
  }

  /** An annotation decides alone, even if it is malformed; without one the message does. */
  lemma ParseUidMeans(ev: Event, uid: int)
    requires IsInt64(uid)
    ensures ev.annotation == Some(Format(uid)) ==> ParseUid(ev) == Some(uid)
    ensures ev.annotation.Some? && Atoi(ev.annotation.value).None? ==> ParseUid(ev).None?
    ensures ev.annotation.None? ==> ParseUid(ev) == ev.messageUid
  {
    AtoiFormat(uid);
  }
}
