/** Network time synchronisation: when a sync is due, which UTC offset is asked
    for, and how the warm-up re-sync and the last-sync timestamp behave. The
    network time query and the clock update are an oracle: each query the code
    makes is answered by the next scripted attempt. */
module TimeSync {
  import opened Calendar

  /** Four hours, in seconds. */
  const SyncInterval := 60 * 60 * 4

  /** The answer to one time query: it raised, or it set the clock, after which
      `time.time()` reads `clockAfter`. */
  datatype NtpReply = NtpFailed | NtpTime(clockAfter: int)

  /** One query: the local wall-clock reading at its start (used for the DST
      check) and the reply. */
  datatype SyncAttempt = SyncAttempt(local: DateTime, reply: NtpReply)

  /** is_time_synced and last_time_sync. */
  datatype SyncState = SyncState(synced: bool, lastSync: int)

  const InitialSync := SyncState(false, 0)

  /** The gate in the main loop. */
  predicate SyncDue(connected: bool, apStarted: bool, lastSync: int, now: int) {
    connected && lastSync + SyncInterval < now && !apStarted
  }

  /** The offset handed to the time query, in whole hours. */
  function EffectiveOffset(tz: int, autoDst: bool, local: DateTime): int
    requires ValidDateTime(local)
  {
    if autoDst && IsDaylightSavingTime(local) then tz + 1 else tz
  }

  /** The most queries one call can make: one, plus the warm-up repeat while the
      clock has never been synced. */
  function QueriesAllowed(synced: bool): nat {
    if synced then 1 else 2
  }

  /** adjust_time on the sync state. */
  function SyncRun(s: SyncState, attempts: seq<SyncAttempt>): SyncState
    requires |attempts| >= QueriesAllowed(s.synced)
    decreases QueriesAllowed(s.synced)
  {
    match attempts[0].reply
    case NtpFailed => s
    case NtpTime(t) =>
      if s.synced then SyncState(true, t)
      else SyncRun(SyncState(true, s.lastSync), attempts[1..])
  }

  /** How many queries adjust_time issues. */
  function QueriesMade(s: SyncState, attempts: seq<SyncAttempt>): nat
    requires |attempts| >= 1
  {
    if attempts[0].reply.NtpFailed? || s.synced then 1 else 2
  }

  /** The offsets passed to the time queries, in order. */
  function RequestedOffsets(tz: int, autoDst: bool, s: SyncState, attempts: seq<SyncAttempt>): seq<int>
    requires |attempts| >= QueriesAllowed(s.synced)
    requires forall k :: 0 <= k < |attempts| ==> ValidDateTime(attempts[k].local)
  {
    seq(QueriesMade(s, attempts), k requires 0 <= k < QueriesMade(s, attempts) =>
      EffectiveOffset(tz, autoDst, attempts[k].local))
  }

  /** A failed query changes nothing. */
  lemma SyncFailureKeepsState(s: SyncState, attempts: seq<SyncAttempt>)
    requires |attempts| >= QueriesAllowed(s.synced) && attempts[0].reply.NtpFailed?
    ensures SyncRun(s, attempts) == s
  {
  }

  /** The clock counts as synced after a call exactly when it was before or the
      first query succeeded. */
  lemma SyncFlag(s: SyncState, attempts: seq<SyncAttempt>)
    requires |attempts| >= QueriesAllowed(s.synced)
    ensures SyncRun(s, attempts).synced <==> s.synced || attempts[0].reply.NtpTime?
  {
  }

  /** The first success after boot repeats the query once and starts the
      four-hour countdown only if the repeat succeeds. */
  lemma WarmUpResync(s: SyncState, attempts: seq<SyncAttempt>)
    requires |attempts| >= QueriesAllowed(s.synced)
    requires !s.synced && attempts[0].reply.NtpTime?
    ensures QueriesMade(s, attempts) == 2
    ensures SyncRun(s, attempts) ==
      if attempts[1].reply.NtpTime? then SyncState(true, attempts[1].reply.clockAfter)
      else SyncState(true, s.lastSync)
  {
  }

  /** last_time_sync moves only to the clock reading after a successful query
      made while the clock already counted as synced. */
  lemma LastSyncMovesOnlyOnResync(s: SyncState, attempts: seq<SyncAttempt>)
    requires |attempts| >= QueriesAllowed(s.synced)
    ensures var r := SyncRun(s, attempts);
      r.lastSync != s.lastSync ==>
        exists k :: 0 <= k < QueriesMade(s, attempts) && (s.synced || k == 1) &&
          attempts[k].reply.NtpTime? && r.lastSync == attempts[k].reply.clockAfter
  {
    var r := SyncRun(s, attempts);
    if r.lastSync != s.lastSync {
      if s.synced {
        assert attempts[0].reply.NtpTime?;
      } else {
        assert attempts[0].reply.NtpTime?;
        WarmUpResync(s, attempts);
      }
    }
  }

  /** With automatic DST the offset is one hour more exactly inside the summer-time
      window read off the calendar; without it, it is the configured zone. */
  lemma {:induction false} OffsetByCalendar(tz: int, autoDst: bool, now: DateTime)
    requires ValidDateTime(now)
    ensures EffectiveOffset(tz, autoDst, now) == tz + 1 <==>
      autoDst && ((3 < now.month < 10) ||
      (now.month == 3 && (now.day > LastSunday(now.year, 3).day ||
                          (now.day == LastSunday(now.year, 3).day && now.hour >= 2))) ||
      (now.month == 10 && (now.day < LastSunday(now.year, 10).day ||
                           (now.day == LastSunday(now.year, 10).day && now.hour < 3))))
    ensures EffectiveOffset(tz, autoDst, now) != tz + 1 ==> EffectiveOffset(tz, autoDst, now) == tz
  {
    DstByCalendar(now);
  }
}
