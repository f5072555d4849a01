/** The runtime monitor, its recovery from a log, and the order in which a revocation is written. */
module Monitor {
  import opened ByteStrings
  import opened Outcomes
  import opened Evaluate
  import opened Quarantine
  import opened SnapshotHash
  import opened Persistence

  function LookupIn(snapshot: Option<RuntimeSnapshot>, id: Id): RuntimeDecision {
    match snapshot
    case None => RuntimeDecision(Use, RuntimeStateUninitialized, Zeros(16))
    case Some(s) => Lookup(s.maps, id)
  }

  /** `Version + 1` on a `uint64`; a monitor without a snapshot starts at 1. */
  function NextVersion(snapshot: Option<RuntimeSnapshot>): U64 {
    match snapshot
    case None => 1
    case Some(s) => (s.version + 1) % 0x1_0000_0000_0000_0000
  }

  class RuntimeMonitor {
    var snapshot: Option<RuntimeSnapshot>
    var ledger: Ledger

    constructor (h: Hash, sort: IdSort, now: int)
      ensures ledger == [] && snapshot == Some(Compile(h, [], 0, now))
    {
      var empty := CompileSnapshot(h, sort, [], 0, now);
      snapshot, ledger := Some(empty), [];
    }

    method LookupNow(id: Id) returns (d: RuntimeDecision)
      ensures d == LookupIn(snapshot, id)
      ensures snapshot.None? ==> d == RuntimeDecision(Use, RuntimeStateUninitialized, Zeros(16))
      ensures snapshot.Some? ==>
                var m := snapshot.value.maps;
                && (id in m.tombstoned ==> d == RuntimeDecision(DeleteRequested, DeletionRequested, m.tombstoned[id]))
                && (id !in m.tombstoned && id in m.quarantined ==>
                      var q := m.quarantined[id]; d == RuntimeDecision(Decision.Quarantine, q.reasonCode, q.eventId))
                && (id !in m.tombstoned && id !in m.quarantined && id in m.revoked ==>
                      d == RuntimeDecision(Refuse, MemoryRevoked, m.revoked[id]))
                && (id !in m.tombstoned && id !in m.quarantined && id !in m.revoked ==>
                      d == RuntimeDecision(Use, RuntimeStateClear, Zeros(16)))
    {
      match snapshot {
        case None => d := RuntimeDecision(Use, RuntimeStateUninitialized, Zeros(16));
        case Some(s) => d := Lookup(s.maps, id);
      }
    }

    /** What an auditor is told: hash and version of the snapshot active at the moment of asking. */
    method ActiveSnapshotInfo() returns (hash: Digest, version: U64)
      ensures snapshot.Some? ==> hash == snapshot.value.snapshotHash && version == snapshot.value.version
      ensures snapshot.None? ==> hash == Zeros(32) && version == 0
    {
      match snapshot {
        case None => return Zeros(32), 0;
        case Some(s) => return s.snapshotHash, s.version;
      }
    }

    method SwapActiveSnapshot(next: Option<RuntimeSnapshot>)
      modifies this`snapshot
      ensures snapshot == if next.Some? then next else old(snapshot)
    {
      if next.Some? {
        snapshot := next;
      }
    }

    method AppendEvent(event: RevocationEvent)
      modifies this`ledger
      ensures ledger == old(ledger) + [event]
    {
      ledger := ledger + [event];
    }

    method CompileAndSwap(h: Hash, sort: IdSort, createdAtUnix: int) returns (snap: RuntimeSnapshot)
      modifies this`snapshot
      ensures snap == Compile(h, ledger, NextVersion(old(snapshot)), createdAtUnix)
      ensures snapshot == Some(snap)
      ensures snap.version == match old(snapshot)
                              case None => 1
                              case Some(s) => (s.version + 1) % 0x1_0000_0000_0000_0000
    {
      var events := ledger;
      var version := NextVersion(snapshot);
      snap := CompileSnapshot(h, sort, events, version, createdAtUnix);
      SwapActiveSnapshot(Some(snap));
    }
  }

  method AppendAll(monitor: RuntimeMonitor, events: Ledger)
    modifies monitor`ledger
    ensures monitor.ledger == old(monitor.ledger) + events
  {
    for i := 0 to |events|
      invariant monitor.ledger == old(monitor.ledger) + events[..i]
    {
      monitor.AppendEvent(events[i]);
    }
  }

  /** Replays a file into a new monitor; an unreadable file yields none. */
  method RecoverMonitorFromFile(h: Hash, sort: IdSort, c: Codec, file: Bytes, version: U64, now: int)
    returns (monitor: RuntimeMonitor?, failure: Option<LogError>)
    ensures Replay(h, c, file).Err? ==> monitor == null && failure == Some(Replay(h, c, file).error)
    ensures Replay(h, c, file).Ok? ==>
              && failure == None && monitor != null && fresh(monitor)
              && monitor.ledger == Replay(h, c, file).value
              && monitor.snapshot == Some(Compile(h, Replay(h, c, file).value, version, now))
  {
    var replayed := ReplayFile(h, c, file);
    if replayed.Err? {
      return null, Some(replayed.error);
    }
    var events := replayed.value;
    monitor := new RuntimeMonitor(h, sort, now);
    AppendAll(monitor, events);
    var snap := CompileSnapshot(h, sort, events, version, now);
    monitor.SwapActiveSnapshot(Some(snap));
    failure := None;
  }

  /**
    One revocation by a single writer: durable first, then in the ledger, then in the snapshot.
    When the write fails nothing becomes visible.
    */
  method CommitRevocation(
    h: Hash, sort: IdSort, c: Codec, log: FileLedger?, monitor: RuntimeMonitor?, event: RevocationEvent,
    room: nat, synced: bool, now: int
  ) returns (failure: Option<AppendError>)
    modifies monitor, log
    ensures log == null ==> failure == None
    ensures log != null ==>
              && failure == AppendFailure(c, old(log.isOpen), event, room, synced)
              && log.file == old(log.file) + Landed(h, c, old(log.isOpen), event, room) && log.isOpen == old(log.isOpen)
    ensures failure.Some? && monitor != null ==>
              monitor.ledger == old(monitor.ledger) && monitor.snapshot == old(monitor.snapshot)
    ensures failure.None? && monitor != null ==>
              && monitor.ledger == old(monitor.ledger) + [event]
              && monitor.snapshot == Some(Compile(h, monitor.ledger, NextVersion(old(monitor.snapshot)), now))
  {
    failure := None;
    if log != null {
      failure := log.AppendEvent(h, c, event, room, synced);
      if failure.Some? {
        return;
      }
    }
    if monitor != null {
      monitor.AppendEvent(event);
      var snap := monitor.CompileAndSwap(h, sort, now);
    }
  }

  // ------------------------------------------------------------ crash continuity

  /**
    Crash after `n` bytes of the record of `e`, recover, and go on with `fs`. Recovery fails with a
    corruption exactly when the crash left part of the record. Otherwise the history is the one just
    before or just after `e`; what is appended after recovery replays with it; and a snapshot of the
    recovered history that goes on holds, under any version, what the run that never crashed holds.
    */
  lemma CrashContinuity(
    h: Hash, c: Codec, es: Ledger, e: RevocationEvent, n: nat, fs: Ledger, v: U64, w: U64, now: int, later: int
  )
    requires AllFaithful(c, es) && Faithful(c, e) && AllFaithful(c, fs)
    ensures var file := LogOf(h, c, es) + UpTo(Record(h, c.marshal(e).value), n);
            var whole := |c.marshal(e).value| + 38;
            var history := if n == 0 then es else es + [e];
            && (Replay(h, c, file).Err? <==> 0 < n < whole)
            && (Replay(h, c, file).Err? ==> Corruption(Replay(h, c, file).error))
            && (n == 0 || n >= whole ==>
                  && Replay(h, c, file) == Ok(history)
                  && Replay(h, c, file + LogOf(h, c, fs)) == Ok(history + fs)
                  && Fold(Compile(h, history, v, now).maps, fs) == Compile(h, history + fs, w, later).maps)
  {
    var r := Record(h, c.marshal(e).value);
    var m := if n < |r| then n else |r|;
    CutInLastRecord(h, c, es, e, m);
    if m == 0 {
      assert LogOf(h, c, es) + r[..0] == LogOf(h, c, es);
      HistoryGoesOn(h, c, es, fs);
    } else if m == |r| {
      LogOfConcat(h, c, es, [e]);
      LogOfOne(h, c, e);
      assert r[..m] == r;
      HistoryGoesOn(h, c, es + [e], fs);
    }
  }

  lemma HistoryGoesOn(h: Hash, c: Codec, es: Ledger, fs: Ledger)
    requires AllFaithful(c, es) && AllFaithful(c, fs)
    ensures Replay(h, c, LogOf(h, c, es) + LogOf(h, c, fs)) == Ok(es + fs)
    ensures Fold(Fold(NoMaps, es), fs) == Fold(NoMaps, es + fs)
  {
    BothReplay(h, c, es, fs);
    FoldConcat(NoMaps, es, fs);
  }

  /**
    What tamper detection does not cover: a whole record taken out of the middle. The rest replays
    without an error, and with it goes the deletion it recorded.
    */
  lemma DroppedRecordIsUnnoticed(h: Hash, c: Codec, es: Ledger, e: RevocationEvent, fs: Ledger)
    requires AllFaithful(c, es) && Faithful(c, e) && AllFaithful(c, fs)
    requires ClassOf(e) == Deleting
    ensures Replay(h, c, LogOf(h, c, es) + Record(h, c.marshal(e).value) + LogOf(h, c, fs)) == Ok(es + [e] + fs)
    ensures Replay(h, c, LogOf(h, c, es) + LogOf(h, c, fs)) == Ok(es + fs)
    ensures Lookup(Fold(NoMaps, es + [e] + fs), e.memoryId).decision == DeleteRequested
    ensures Lookup(Fold(NoMaps, es + fs), e.memoryId).decision == DeleteRequested <==>
            LastOf(es, e.memoryId, Deletes) >= 0 || LastOf(fs, e.memoryId, Deletes) >= 0
  {
    LogOfConcat(h, c, es, [e]);
    LogOfOne(h, c, e);
    BothReplay(h, c, es + [e], fs);
    BothReplay(h, c, es, fs);
    FoldTouches(es, e, e.memoryId);
    LookupAt(Fold(NoMaps, es + [e]), e.memoryId);
    DeletionIsPermanent(es + [e], fs, e.memoryId);
    LookupVerdict(es + fs, e.memoryId);
    LastOfConcat(es, fs, e.memoryId, Deletes);
  }
}
