/**
  RPC and axis writers sharing one log and one monitor, interleaved at every point where another
  goroutine can run: byte by byte inside the file lock, and between durable append, ledger append,
  ledger copy, version load and snapshot store. Readers capture the published snapshot at any time.
  */
module Writers {
  import opened Bags
  import opened ByteStrings
  import opened Outcomes
  import opened Evaluate
  import opened Quarantine
  import opened SnapshotHash
  import opened Persistence
  import opened Monitor

  datatype Phase =
    | Idle
    | Writing(event: RevocationEvent, written: nat)
    | Durable(event: RevocationEvent)
    | Appended
    | Captured(events: Ledger)
    | Versioned(events: Ledger, version: U64)

  /** What broken writes did to the log: nothing, one partial record with records behind it, or more. */
  datatype Damage = Intact | Torn(before: seq<Bytes>, payload: Bytes, kept: nat, later: seq<Bytes>) | Worse

  /**
    History for the proofs: `frames` and `committed` are the complete records, payloads and events, in
    log order; `refused` are the events whose append failed after its record was complete.
    */
  datatype State = State(
    log: Bytes,
    damage: Damage,
    frames: seq<Bytes>,
    committed: Ledger,
    refused: multiset<RevocationEvent>,
    holder: Option<nat>,
    ledger: Ledger,
    snapshot: RuntimeSnapshot,
    writers: seq<Phase>,
    captured: seq<RuntimeSnapshot>
  )

  /** A writer may fail: its sync after the last byte, or a write before it. Either way it gives up the event. */
  datatype Action =
    | Lock(w: nat, event: RevocationEvent)
    | WriteByte(w: nat)
    | Unlock(w: nat)
    | SyncFails(w: nat)
    | BreakOff(w: nat)
    | Append(w: nat)
    | Copy(w: nat)
    | LoadVersion(w: nat)
    | Store(w: nat, now: int)
    | Read

  function Grown(d: Damage, p: Bytes): Damage {
    if d.Torn? then d.(later := d.later + [p]) else d
  }

  function Broken(d: Damage, frames: seq<Bytes>, p: Bytes, n: nat): Damage {
    if n == 0 then d else if d.Intact? then Torn(frames, p, n, []) else Worse
  }

  function RecordOf(h: Hash, c: Codec, e: RevocationEvent): Bytes
    requires Appendable(c, e)
  {
    Record(h, c.marshal(e).value)
  }

  ghost predicate Enabled(h: Hash, c: Codec, s: State, a: Action) {
    if a.Read? then true
    else
      && a.w < |s.writers|
      && var p := s.writers[a.w];
         match a
         case Lock(_, e) => p.Idle? && s.holder.None? && Appendable(c, e)
         case WriteByte(_) => p.Writing? && Appendable(c, p.event) && p.written < |RecordOf(h, c, p.event)|
         case Unlock(_) => p.Writing? && Appendable(c, p.event) && p.written == |RecordOf(h, c, p.event)|
         case SyncFails(_) => p.Writing? && Appendable(c, p.event) && p.written == |RecordOf(h, c, p.event)|
         case BreakOff(_) => p.Writing? && Appendable(c, p.event) && p.written < |RecordOf(h, c, p.event)|
         case Append(_) => p.Durable?
         case Copy(_) => p.Appended?
         case LoadVersion(_) => p.Captured?
         case Store(_, _) => p.Versioned?
  }

  /** The record of `w` is complete and the lock released. */
  ghost function Complete(c: Codec, s: State, w: nat): State
    requires w < |s.writers| && s.writers[w].Writing? && Appendable(c, s.writers[w].event)
  {
    var e := s.writers[w].event;
    var p := c.marshal(e).value;
    s.(damage := Grown(s.damage, p), frames := s.frames + [p], committed := s.committed + [e],
       holder := None, writers := s.writers[w := Idle])
  }

  ghost function Step(h: Hash, c: Codec, s: State, a: Action): State
    requires Enabled(h, c, s, a)
  {
    match a
    case Lock(w, e) => s.(holder := Some(w), writers := s.writers[w := Writing(e, 0)])
    case WriteByte(w) =>
      var p := s.writers[w];
      s.(log := s.log + [RecordOf(h, c, p.event)[p.written]],
         writers := s.writers[w := Writing(p.event, p.written + 1)])
    case Unlock(w) => Complete(c, s, w).(writers := s.writers[w := Durable(s.writers[w].event)])
    case SyncFails(w) => Complete(c, s, w).(refused := s.refused + multiset{s.writers[w].event})
    case BreakOff(w) =>
      var p := s.writers[w];
      s.(damage := Broken(s.damage, s.frames, c.marshal(p.event).value, p.written), holder := None,
         writers := s.writers[w := Idle])
    case Append(w) => s.(ledger := s.ledger + [s.writers[w].event], writers := s.writers[w := Appended])
    case Copy(w) => s.(writers := s.writers[w := Captured(s.ledger)])
    case LoadVersion(w) =>
      s.(writers := s.writers[w := Versioned(s.writers[w].events, NextVersion(Some(s.snapshot)))])
    case Store(w, now) =>
      var p := s.writers[w];
      s.(snapshot := Compile(h, p.events, p.version, now), writers := s.writers[w := Idle])
    case Read => s.(captured := s.captured + [s.snapshot])
  }

  ghost predicate Possible(h: Hash, c: Codec, s: State, run: seq<Action>)
    decreases |run|
  {
    run == [] || (Enabled(h, c, s, run[0]) && Possible(h, c, Step(h, c, s, run[0]), run[1..]))
  }

  ghost function After(h: Hash, c: Codec, s: State, run: seq<Action>): State
    requires Possible(h, c, s, run)
    decreases |run|
  {
    if run == [] then s else After(h, c, Step(h, c, s, run[0]), run[1..])
  }

  /** A new or recovered system: the log replays to the ledger, the snapshot compiles it, nobody writes. */
  ghost predicate Fresh(h: Hash, c: Codec, s: State) {
    && AllFit(s.frames) && Decoded(c, s.frames) == Some(s.committed)
    && s.log == Log(h, s.frames) && s.damage.Intact?
    && s.ledger == s.committed && s.refused == multiset{}
    && s.snapshot == Compile(h, s.ledger, s.snapshot.version, s.snapshot.createdAtUnix)
    && s.holder.None?
    && (forall w :: 0 <= w < |s.writers| ==> s.writers[w].Idle?)
    && s.captured == []
  }

  // ------------------------------------------------------------ the invariant

  /** Events whose record is complete but which the monitor does not have yet. */
  function Pending(ws: seq<Phase>): multiset<RevocationEvent> {
    if ws == [] then multiset{}
    else Pending(ws[..|ws| - 1]) + PendingOf(ws[|ws| - 1])
  }

  function PendingOf(p: Phase): multiset<RevocationEvent> {
    if p.Durable? then multiset{p.event} else multiset{}
  }

  lemma PendingLast(ws: seq<Phase>, p: Phase)
    ensures Pending(ws + [p]) == Pending(ws) + PendingOf(p)
  {
    assert (ws + [p])[..|ws|] == ws;
  }

  lemma {:induction false} PendingUpdate(ws: seq<Phase>, w: nat, p: Phase)
    requires w < |ws|
    ensures Pending(ws[w := p]) + PendingOf(ws[w]) == Pending(ws) + PendingOf(p)
  {
    var n := |ws| - 1;
    var init, last := ws[..n], PendingOf(ws[n]);
    assert ws == init + [ws[n]];
    PendingLast(init, ws[n]);
    if w == n {
      assert ws[w := p] == init + [p];
      PendingLast(init, p);
      Swap(Pending(init), PendingOf(p), last);
    } else {
      assert ws[w := p] == init[w := p] + [ws[n]];
      PendingLast(init[w := p], ws[n]);
      PendingUpdate(init, w, p);
      Carry(Pending(init[w := p]), PendingOf(ws[w]), Pending(init), PendingOf(p), last);
    }
  }

  lemma PendingChanges(ws: seq<Phase>, w: nat, p: Phase)
    requires w < |ws|
    ensures !ws[w].Durable? && !p.Durable? ==> Pending(ws[w := p]) == Pending(ws)
    ensures !ws[w].Durable? && p.Durable? ==> Pending(ws[w := p]) == Pending(ws) + multiset{p.event}
    ensures ws[w].Durable? && !p.Durable? ==> Pending(ws[w := p]) + multiset{ws[w].event} == Pending(ws)
  {
    PendingUpdate(ws, w, p);
    Unit(Pending(ws));
    Unit(Pending(ws[w := p]));
  }

  lemma {:induction false} NothingPending(ws: seq<Phase>)
    requires forall w :: 0 <= w < |ws| ==> !ws[w].Durable?
    ensures Pending(ws) == multiset{}
  {
    if ws != [] {
      NothingPending(ws[..|ws| - 1]);
    }
  }

  /** The snapshot is the compilation of the first `k` ledger events. */
  ghost predicate OfPrefix(h: Hash, snap: RuntimeSnapshot, ledger: Ledger, k: nat) {
    k <= |ledger| && snap == Compile(h, ledger[..k], snap.version, snap.createdAtUnix)
  }

  ghost predicate Historical(h: Hash, snap: RuntimeSnapshot, ledger: Ledger) {
    exists k :: OfPrefix(h, snap, ledger, k)
  }

  /** What the lock holder has put behind the complete records. */
  function InProgress(h: Hash, c: Codec, s: State): Option<Bytes> {
    match s.holder
    case None => Some([])
    case Some(w) =>
      if w < |s.writers| && s.writers[w].Writing? && Appendable(c, s.writers[w].event)
         && s.writers[w].written <= |RecordOf(h, c, s.writers[w].event)|
      then Some(RecordOf(h, c, s.writers[w].event)[..s.writers[w].written])
      else None
  }

  /** The bytes of the log, as far as broken writes let them be known; `part` is the record in progress. */
  ghost predicate LogIs(h: Hash, d: Damage, frames: seq<Bytes>, log: Bytes, part: Bytes) {
    match d
    case Intact => log == Log(h, frames) + part
    case Torn(before, p, n, later) =>
      && AllFit(before) && AllFit(later) && Fits(p) && 0 < n < |p| + 38 && frames == before + later
      && log == Log(h, before) + Record(h, p)[..n] + Log(h, later) + part
    case Worse => true
  }

  ghost predicate LogInv(h: Hash, c: Codec, s: State) {
    && AllFit(s.frames)
    && InProgress(h, c, s).Some?
    && LogIs(h, s.damage, s.frames, s.log, InProgress(h, c, s).value)
    && (forall w :: 0 <= w < |s.writers| && s.writers[w].Writing? ==> s.holder == Some(w))
  }

  ghost predicate CopyInv(s: State) {
    forall w :: 0 <= w < |s.writers| && (s.writers[w].Captured? || s.writers[w].Versioned?) ==>
      s.writers[w].events <= s.ledger
  }

  ghost predicate SnapshotInv(h: Hash, s: State) {
    && Historical(h, s.snapshot, s.ledger)
    && (forall i :: 0 <= i < |s.captured| ==> Historical(h, s.captured[i], s.ledger))
  }

  ghost predicate Inv(h: Hash, c: Codec, s: State) {
    && LogInv(h, c, s)
    && multiset(s.ledger) + Pending(s.writers) + s.refused == multiset(s.committed)
    && CopyInv(s)
    && SnapshotInv(h, s)
  }

  lemma FreshInv(h: Hash, c: Codec, s: State)
    requires Fresh(h, c, s)
    ensures Inv(h, c, s)
  {
    NothingPending(s.writers);
    assert s.ledger[..|s.ledger|] == s.ledger;
    assert OfPrefix(h, s.snapshot, s.ledger, |s.ledger|);
    assert Log(h, s.frames) + [] == Log(h, s.frames);
  }

  lemma LogTakes(h: Hash, d: Damage, frames: seq<Bytes>, log: Bytes, part: Bytes, x: byte)
    requires LogIs(h, d, frames, log, part)
    ensures LogIs(h, d, frames, log + [x], part + [x])
  {
    if d.Intact? {
      assert Log(h, frames) + part + [x] == Log(h, frames) + (part + [x]);
    } else if d.Torn? {
      var all := Log(h, d.before) + Record(h, d.payload)[..d.kept] + Log(h, d.later);
      assert all + part + [x] == all + (part + [x]);
    }
  }

  lemma LogCompletes(h: Hash, d: Damage, frames: seq<Bytes>, log: Bytes, p: Bytes)
    requires LogIs(h, d, frames, log, Record(h, p)) && Fits(p)
    ensures LogIs(h, Grown(d, p), frames + [p], log, [])
  {
    if d.Intact? {
      LogGrows(h, frames, p);
      assert Log(h, frames + [p]) + [] == Log(h, frames + [p]);
    } else if d.Torn? {
      LogGrows(h, d.later, p);
      var front := Log(h, d.before) + Record(h, d.payload)[..d.kept];
      assert front + Log(h, d.later) + Record(h, p) == front + Log(h, d.later + [p]) + [];
      assert d.before + d.later + [p] == d.before + (d.later + [p]);
    }
  }

  lemma LogBreaks(h: Hash, d: Damage, frames: seq<Bytes>, log: Bytes, p: Bytes, n: nat)
    requires Fits(p) && n < |p| + 38 && AllFit(frames) && LogIs(h, d, frames, log, Record(h, p)[..n])
    ensures LogIs(h, Broken(d, frames, p, n), frames, log, [])
  {
    var torn := Record(h, p)[..n];
    if n == 0 {
      assert torn == [];
    } else if d.Intact? {
      assert Log(h, frames) + torn == Log(h, frames) + torn + [] + [];
      assert frames + [] == frames;
    }
  }

  lemma WriteKeepsLog(h: Hash, c: Codec, s: State, w: nat)
    requires LogInv(h, c, s) && Enabled(h, c, s, WriteByte(w))
    ensures LogInv(h, c, Step(h, c, s, WriteByte(w)))
  {
    var p := s.writers[w];
    var r := RecordOf(h, c, p.event);
    assert r[..p.written + 1] == r[..p.written] + [r[p.written]];
    LogTakes(h, s.damage, s.frames, s.log, r[..p.written], r[p.written]);
  }

  lemma UnlockKeepsLog(h: Hash, c: Codec, s: State, a: Action)
    requires LogInv(h, c, s) && Enabled(h, c, s, a) && (a.Unlock? || a.SyncFails?)
    ensures LogInv(h, c, Step(h, c, s, a))
  {
    var p := c.marshal(s.writers[a.w].event).value;
    assert Record(h, p)[..|Record(h, p)|] == Record(h, p);
    LogCompletes(h, s.damage, s.frames, s.log, p);
  }

  lemma BreakKeepsLog(h: Hash, c: Codec, s: State, w: nat)
    requires LogInv(h, c, s) && Enabled(h, c, s, BreakOff(w))
    ensures LogInv(h, c, Step(h, c, s, BreakOff(w)))
  {
    var p := s.writers[w];
    LogBreaks(h, s.damage, s.frames, s.log, c.marshal(p.event).value, p.written);
  }

  lemma StepKeepsLog(h: Hash, c: Codec, s: State, a: Action)
    requires LogInv(h, c, s) && Enabled(h, c, s, a)
    ensures LogInv(h, c, Step(h, c, s, a))
  {
    match a
    case WriteByte(w) => WriteKeepsLog(h, c, s, w);
    case Unlock(_) => UnlockKeepsLog(h, c, s, a);
    case SyncFails(_) => UnlockKeepsLog(h, c, s, a);
    case BreakOff(w) => BreakKeepsLog(h, c, s, w);
    case _ =>
  }

  lemma UnlockLists(h: Hash, c: Codec, s: State, w: nat)
    requires Enabled(h, c, s, Unlock(w))
    ensures var s' := Step(h, c, s, Unlock(w));
            multiset(s'.ledger) + Pending(s'.writers)
            == multiset(s.ledger) + Pending(s.writers) + multiset{s.writers[w].event}
  {
    var e := s.writers[w].event;
    PendingChanges(s.writers, w, Durable(e));
    Associate(multiset(s.ledger), Pending(s.writers), multiset{e});
    assert s.writers[w := Idle][w := Durable(e)] == s.writers[w := Durable(e)];
  }

  lemma AppendLists(h: Hash, c: Codec, s: State, w: nat)
    requires Enabled(h, c, s, Append(w))
    ensures var s' := Step(h, c, s, Append(w));
            multiset(s'.ledger) + Pending(s'.writers) == multiset(s.ledger) + Pending(s.writers)
  {
    var e := s.writers[w].event;
    var after := Pending(s.writers[w := Appended]);
    PendingChanges(s.writers, w, Appended);
    assert multiset(s.ledger + [e]) == multiset(s.ledger) + multiset{e};
    Swap(multiset(s.ledger), multiset{e}, after);
    Associate(multiset(s.ledger), after, multiset{e});
  }

  lemma OthersList(h: Hash, c: Codec, s: State, a: Action)
    requires Enabled(h, c, s, a) && !a.Unlock? && !a.Append?
    ensures var s' := Step(h, c, s, a);
            s'.ledger == s.ledger && Pending(s'.writers) == Pending(s.writers)
  {
    if !a.Read? {
      PendingChanges(s.writers, a.w, Step(h, c, s, a).writers[a.w]);
    }
  }

  /** Listed and pending events: only a record completed with success adds one. */
  lemma StepKeepsListed(h: Hash, c: Codec, s: State, a: Action)
    requires Enabled(h, c, s, a)
    ensures var s' := Step(h, c, s, a);
            multiset(s'.ledger) + Pending(s'.writers)
            == multiset(s.ledger) + Pending(s.writers)
               + if a.Unlock? then multiset{s.writers[a.w].event} else multiset{}
  {
    Unit(multiset(s.ledger) + Pending(s.writers));
    if a.Unlock? {
      UnlockLists(h, c, s, a.w);
    } else if a.Append? {
      AppendLists(h, c, s, a.w);
    } else {
      OthersList(h, c, s, a);
    }
  }

  lemma StepKeepsEvents(h: Hash, c: Codec, s: State, a: Action)
    requires multiset(s.ledger) + Pending(s.writers) + s.refused == multiset(s.committed)
    requires Enabled(h, c, s, a)
    ensures var s' := Step(h, c, s, a);
            multiset(s'.ledger) + Pending(s'.writers) + s'.refused == multiset(s'.committed)
  {
    StepKeepsListed(h, c, s, a);
    var listed := multiset(s.ledger) + Pending(s.writers);
    Unit(listed);
    if a.Unlock? || a.SyncFails? {
      var e := s.writers[a.w].event;
      assert multiset(s.committed + [e]) == multiset(s.committed) + multiset{e};
      Swap(listed, multiset{e}, s.refused);
      Associate(listed, s.refused, multiset{e});
    }
  }

  lemma LedgerGrows(h: Hash, c: Codec, s: State, a: Action)
    requires Enabled(h, c, s, a)
    ensures s.ledger <= Step(h, c, s, a).ledger
    ensures |Step(h, c, s, a).ledger| == |s.ledger| + if a.Append? then 1 else 0
  {
  }

  lemma PrefixOfPrefix(a: Ledger, b: Ledger, k: nat)
    requires a <= b && k <= |a|
    ensures k <= |b| && b[..k] == a[..k]
  {
  }

  lemma HistoricalGrows(h: Hash, snap: RuntimeSnapshot, ledger: Ledger, more: Ledger)
    requires ledger <= more
    ensures Historical(h, snap, ledger) ==> Historical(h, snap, more)
  {
    if Historical(h, snap, ledger) {
      var k :| OfPrefix(h, snap, ledger, k);
      PrefixOfPrefix(ledger, more, k);
      assert OfPrefix(h, snap, more, k);
    }
  }

  lemma StepKeepsCopies(h: Hash, c: Codec, s: State, a: Action)
    requires CopyInv(s) && Enabled(h, c, s, a)
    ensures CopyInv(Step(h, c, s, a))
  {
    var s' := Step(h, c, s, a);
    LedgerGrows(h, c, s, a);
    forall w | 0 <= w < |s'.writers| && (s'.writers[w].Captured? || s'.writers[w].Versioned?)
      ensures s'.writers[w].events <= s'.ledger
    {
      if s.writers[w].Captured? || s.writers[w].Versioned? {
        assert s.writers[w].events <= s.ledger;
      }
    }
  }

  lemma CopyIsHistorical(h: Hash, copy: Ledger, ledger: Ledger, v: U64, now: int)
    requires copy <= ledger
    ensures Historical(h, Compile(h, copy, v, now), ledger)
  {
    assert ledger[..|copy|] == copy;
    assert OfPrefix(h, Compile(h, copy, v, now), ledger, |copy|);
  }

  lemma StepKeepsSnapshots(h: Hash, c: Codec, s: State, a: Action)
    requires CopyInv(s) && SnapshotInv(h, s) && Enabled(h, c, s, a)
    ensures CopyInv(Step(h, c, s, a)) && SnapshotInv(h, Step(h, c, s, a))
  {
    var s' := Step(h, c, s, a);
    StepKeepsCopies(h, c, s, a);
    LedgerGrows(h, c, s, a);
    HistoricalGrows(h, s.snapshot, s.ledger, s'.ledger);
    if a.Store? {
      CopyIsHistorical(h, s.writers[a.w].events, s.ledger, s.writers[a.w].version, a.now);
    }
    forall i | 0 <= i < |s'.captured|
      ensures Historical(h, s'.captured[i], s'.ledger)
    {
      if i < |s.captured| {
        HistoricalGrows(h, s.captured[i], s.ledger, s'.ledger);
      }
    }
  }

  /** Every run from a fresh system, of any number of writers and readers, keeps the invariant. */
  lemma {:induction false} RunKeepsInv(h: Hash, c: Codec, s: State, run: seq<Action>)
    requires Possible(h, c, s, run)
    ensures Inv(h, c, s) ==> Inv(h, c, After(h, c, s, run))
    decreases |run|
  {
    if run != [] && Inv(h, c, s) {
      StepKeepsLog(h, c, s, run[0]);
      StepKeepsEvents(h, c, s, run[0]);
      StepKeepsSnapshots(h, c, s, run[0]);
      RunKeepsInv(h, c, Step(h, c, s, run[0]), run[1..]);
    }
  }

  // ------------------------------------------------------------ what every run guarantees

  /**
    The event is in the log before the monitor has it, once for each time the monitor has it. What the
    log has beyond that is on its way, or was refused because its sync failed.
    */
  lemma DurableBeforeVisible(h: Hash, c: Codec, s: State, run: seq<Action>)
    requires Fresh(h, c, s) && Possible(h, c, s, run)
    ensures var t := After(h, c, s, run);
            && multiset(t.ledger) <= multiset(t.committed)
            && multiset(t.committed) - multiset(t.ledger) == Pending(t.writers) + t.refused
  {
    FreshInv(h, c, s);
    RunKeepsInv(h, c, s, run);
    var t := After(h, c, s, run);
    Associate(multiset(t.ledger), Pending(t.writers), t.refused);
  }

  /** Whatever a reader captured, now or earlier, is the compilation of a prefix of the ledger. */
  lemma ReadersSeeHistory(h: Hash, c: Codec, s: State, run: seq<Action>, i: nat) returns (k: nat)
    requires Fresh(h, c, s) && Possible(h, c, s, run)
    ensures var t := After(h, c, s, run);
            i < |t.captured| ==> k <= |t.ledger| && t.captured[i].maps == Fold(NoMaps, t.ledger[..k])
  {
    FreshInv(h, c, s);
    RunKeepsInv(h, c, s, run);
    var t := After(h, c, s, run);
    k := 0;
    if i < |t.captured| {
      assert Historical(h, t.captured[i], t.ledger);
      k :| OfPrefix(h, t.captured[i], t.ledger, k);
    }
  }

  lemma StateRefIsAnEvent(es: Ledger, id: Id)
    requires Lookup(Fold(NoMaps, es), id).decision != Use
    ensures exists e :: e in es && e.memoryId == id && e.eventId == Lookup(Fold(NoMaps, es), id).stateRef
  {
    LookupReadsHistory(es, id);
    var d, q := LastOf(es, id, Deletes), LastOf(es, id, Blocks);
    var e := es[if d >= 0 then d else q];
    assert e in es;
  }

  /** A reader never blocks a memory on an event that a crash could lose. */
  lemma DecisionsAreDurable(h: Hash, c: Codec, s: State, run: seq<Action>, i: nat, id: Id)
    requires Fresh(h, c, s) && Possible(h, c, s, run)
    requires i < |After(h, c, s, run).captured|
    ensures var t := After(h, c, s, run);
            var d := Lookup(t.captured[i].maps, id);
            d.decision != Use ==> exists e :: e in t.committed && e.memoryId == id && e.eventId == d.stateRef
  {
    var t := After(h, c, s, run);
    var d := Lookup(t.captured[i].maps, id);
    var k := ReadersSeeHistory(h, c, s, run, i);
    if d.decision != Use {
      StateRefIsAnEvent(t.ledger[..k], id);
      var e :| e in t.ledger[..k] && e.memoryId == id && e.eventId == d.stateRef;
      DurableBeforeVisible(h, c, s, run);
      assert e in multiset(t.ledger);
      assert e in multiset(t.committed);
    }
  }

  lemma OneMoreRecord(c: Codec, frames: seq<Bytes>, before: Ledger, e: RevocationEvent, after: Ledger)
    requires before + [e] <= after && Appendable(c, e) && AllAppendable(c, after[|before| + 1..])
    ensures AllAppendable(c, after[|before|..])
    ensures frames + Payloads(c, after[|before|..])
            == frames + [c.marshal(e).value] + Payloads(c, after[|before| + 1..])
  {
    var rest := after[|before| + 1..];
    assert after[|before|..] == [e] + rest;
    assert Payloads(c, [e] + rest) == [c.marshal(e).value] + Payloads(c, rest);
  }

  /** What a run adds to the log: one record for each event it commits. */
  lemma {:induction false} RunAddsRecords(h: Hash, c: Codec, s: State, run: seq<Action>)
    requires Possible(h, c, s, run)
    ensures s.committed <= After(h, c, s, run).committed
    ensures AllAppendable(c, After(h, c, s, run).committed[|s.committed|..])
    ensures After(h, c, s, run).frames == s.frames + Payloads(c, After(h, c, s, run).committed[|s.committed|..])
    decreases |run|
  {
    if run == [] {
      assert s.committed[|s.committed|..] == [];
      assert s.frames + [] == s.frames;
    } else {
      RunAddsRecords(h, c, Step(h, c, s, run[0]), run[1..]);
      if run[0].Unlock? || run[0].SyncFails? {
        OneMoreRecord(c, s.frames, s.committed, s.writers[run[0].w].event, After(h, c, s, run).committed);
      }
    }
  }

  /** The complete records decode to the committed events exactly when the codec is faithful on those of this run. */
  lemma DecodesExactly(h: Hash, c: Codec, s: State, run: seq<Action>)
    requires Fresh(h, c, s) && Possible(h, c, s, run)
    ensures var t := After(h, c, s, run);
            && s.committed <= t.committed
            && (Decoded(c, t.frames) == Some(t.committed) <==> AllFaithful(c, t.committed[|s.committed|..]))
  {
    var t := After(h, c, s, run);
    RunAddsRecords(h, c, s, run);
    var more := t.committed[|s.committed|..];
    assert t.committed == s.committed + more;
    DecodedConcat(c, s.frames, Payloads(c, more));
    DecodedExactly(c, more);
    var d := Decoded(c, Payloads(c, more));
    if d.Some? && s.committed + d.value == s.committed + more {
      assert (s.committed + d.value)[|s.committed|..] == d.value && (s.committed + more)[|s.committed|..] == more;
    }
  }

  /**
    A crash at any moment of any run, whatever the codec does: recovery returns what the complete
    records decode to, plus the one just completed under the lock if all its bytes are there, or
    reports a corruption exactly when part of a record was written.
    */
  lemma CrashAnywhere(h: Hash, c: Codec, s: State, run: seq<Action>)
    requires Fresh(h, c, s) && Possible(h, c, s, run)
    ensures var t := After(h, c, s, run);
            && s.committed <= t.committed
            && (Decoded(c, t.frames) == Some(t.committed) <==> AllFaithful(c, t.committed[|s.committed|..]))
    ensures var t := After(h, c, s, run);
            t.damage.Intact? ==>
            match t.holder
            case None => Replay(h, c, t.log) == Recovered(c, t.frames)
            case Some(w) =>
              && w < |t.writers| && t.writers[w].Writing? && Appendable(c, t.writers[w].event)
              && var p, n := c.marshal(t.writers[w].event).value, t.writers[w].written;
                 && n <= |p| + 38
                 && (n == 0 ==> Replay(h, c, t.log) == Recovered(c, t.frames))
                 && (n == |p| + 38 ==> Replay(h, c, t.log) == Recovered(c, t.frames + [p]))
                 && (0 < n < |p| + 38 && Decoded(c, t.frames).Some? ==>
                       Replay(h, c, t.log).Err? && Corruption(Replay(h, c, t.log).error))
  {
    DecodesExactly(h, c, s, run);
    FreshInv(h, c, s);
    RunKeepsInv(h, c, s, run);
    var t := After(h, c, s, run);
    if t.damage.Intact? {
      match t.holder
      case None => CrashUnlocked(h, c, t.frames);
      case Some(w) => CrashUnderLock(h, c, t.frames, c.marshal(t.writers[w].event).value, t.writers[w].written);
    }
  }

  lemma CrashUnlocked(h: Hash, c: Codec, frames: seq<Bytes>)
    requires AllFit(frames)
    ensures Replay(h, c, Log(h, frames) + []) == Recovered(c, frames)
  {
    assert Log(h, frames) + [] == Log(h, frames);
    ReplayOfLog(h, c, frames);
  }

  /** Once a write broke off, a restart between writes fails, or what it reads collides with what was appended since. */
  lemma TornLogIsRefused(h: Hash, c: Codec, s: State, run: seq<Action>) returns (read: seq<Bytes>)
    requires Fresh(h, c, s) && Possible(h, c, s, run)
    ensures var t := After(h, c, s, run);
            t.damage.Torn? && t.holder.None? ==>
              || Replay(h, c, t.log).Err?
              || (AllFit(read) && t.log == Log(h, read) && CollisionBetween(h, Sealed(read), Sealed(t.damage.later)))
  {
    FreshInv(h, c, s);
    RunKeepsInv(h, c, s, run);
    var t := After(h, c, s, run);
    read := [];
    if t.damage.Torn? && t.holder.None? {
      var d := t.damage;
      var file := Log(h, d.before) + Record(h, d.payload)[..d.kept] + Log(h, d.later);
      assert file + [] == file;
      read := AppendsBehindBreakAreLost(h, c, d.before, d.payload, d.kept, d.later);
    }
  }

  /** What replay gives for complete records: their events, or a malformed payload. */
  function Recovered(c: Codec, frames: seq<Bytes>): Result<Ledger, LogError> {
    match Decoded(c, frames)
    case None => Err(Malformed)
    case Some(es) => Ok(es)
  }

  lemma CrashUnderLock(h: Hash, c: Codec, frames: seq<Bytes>, p: Bytes, n: nat)
    requires AllFit(frames) && Fits(p) && n <= |p| + 38
    ensures var r := Replay(h, c, Log(h, frames) + Record(h, p)[..n]);
            && (n == 0 ==> r == Recovered(c, frames))
            && (n == |p| + 38 ==> r == Recovered(c, frames + [p]))
            && (0 < n < |p| + 38 && Decoded(c, frames).Some? ==> r.Err? && Corruption(r.error))
  {
    if n == |p| + 38 {
      assert Record(h, p)[..n] == Record(h, p);
      LogGrows(h, frames, p);
      ReplayOfLog(h, c, frames + [p]);
    } else {
      ReplayFrames(h, c, frames, Record(h, p)[..n]);
      CutRecordReplays(h, c, p, n);
      if n == 0 && Decoded(c, frames).Some? {
        assert Decoded(c, frames).value + [] == Decoded(c, frames).value;
      }
    }
  }

  /** The complete records decode to events alike those committed. */
  lemma DecodesAlike(h: Hash, c: Codec, s: State, run: seq<Action>)
    requires Fresh(h, c, s) && Possible(h, c, s, run) && KeepsAll(c)
    ensures var t := After(h, c, s, run);
            Decoded(c, t.frames).Some? && AllAlike(Decoded(c, t.frames).value, t.committed)
  {
    var t := After(h, c, s, run);
    RunAddsRecords(h, c, s, run);
    var more := t.committed[|s.committed|..];
    assert t.committed == s.committed + more;
    DecodedConcat(c, s.frames, Payloads(c, more));
    DecodedAlike(c, more);
    AlikeConcat(s.committed, Decoded(c, Payloads(c, more)).value, more);
  }

  /**
    Between writes, a codec that keeps ID, memory, type and reason is enough: the recovered events are
    alike, and the recovered snapshot is that of the committed events, fingerprint included.
    */
  lemma RecoveredIsAlike(h: Hash, c: Codec, s: State, run: seq<Action>)
    requires Fresh(h, c, s) && Possible(h, c, s, run) && KeepsAll(c)
    requires After(h, c, s, run).holder.None? && After(h, c, s, run).damage.Intact?
    ensures var t := After(h, c, s, run);
            && Replay(h, c, t.log).Ok? && AllAlike(Replay(h, c, t.log).value, t.committed)
            && forall v: U64, now: int ::
                 Compile(h, Replay(h, c, t.log).value, v, now) == Compile(h, t.committed, v, now)
  {
    var t := After(h, c, s, run);
    CrashAnywhere(h, c, s, run);
    DecodesAlike(h, c, s, run);
    var es := Replay(h, c, t.log).value;
    forall v: U64, now: int
      ensures Compile(h, es, v, now) == Compile(h, t.committed, v, now)
    {
      AlikeCompile(h, es, t.committed, v, now);
    }
  }

  lemma RecoveredFold(h: Hash, c: Codec, s: State, run: seq<Action>)
    requires Fresh(h, c, s) && Possible(h, c, s, run) && KeepsAll(c)
    requires After(h, c, s, run).holder.None? && After(h, c, s, run).damage.Intact?
    ensures var t := After(h, c, s, run);
            Replay(h, c, t.log).Ok? && Fold(NoMaps, Replay(h, c, t.log).value) == Fold(NoMaps, t.committed)
  {
    RecoveredIsAlike(h, c, s, run);
    AlikeFold(NoMaps, Replay(h, c, After(h, c, s, run).log).value, After(h, c, s, run).committed);
  }

  lemma AlikeConcat(es: Ledger, fs: Ledger, gs: Ledger)
    requires AllAlike(fs, gs)
    ensures AllAlike(es + fs, es + gs)
  {
  }

  lemma SameEventsSameHits(es: Ledger, fs: Ledger, id: Id, what: Query)
    requires multiset(es) == multiset(fs) && LastOf(es, id, what) >= 0
    ensures LastOf(fs, id, what) >= 0
  {
    var e := es[LastOf(es, id, what)];
    assert e in multiset(fs);
    var i :| 0 <= i < |fs| && fs[i] == e;
    if LastOf(fs, id, what) < 0 {
      LastOfIsLast(fs, id, what, i);
    }
  }

  /** Two orders of one set of events agree on what decides about `id`. */
  predicate SameDeciders(es: Ledger, fs: Ledger, id: Id) {
    || LastOf(fs, id, Deletes) >= 0
    || (&& BlockClass(es, id) == BlockClass(fs, id)
        && (BlockClass(fs, id) == Some(Quarantining) ==> Cleared(es, id) == Cleared(fs, id)))
  }

  lemma OrdersAgreeExactly(es: Ledger, fs: Ledger, id: Id)
    requires multiset(es) == multiset(fs)
    ensures Lookup(Fold(NoMaps, es), id).decision == Lookup(Fold(NoMaps, fs), id).decision <==> SameDeciders(es, fs, id)
  {
    LookupVerdict(es, id);
    LookupVerdict(fs, id);
    BlockClassIs(es, id);
    BlockClassIs(fs, id);
    forall what | what in {Deletes, Blocks}
      ensures LastOf(es, id, what) >= 0 <==> LastOf(fs, id, what) >= 0
    {
      if LastOf(es, id, what) >= 0 {
        SameEventsSameHits(es, fs, id, what);
      }
      if LastOf(fs, id, what) >= 0 {
        SameEventsSameHits(fs, es, id, what);
      }
    }
  }

  lemma AllListed(h: Hash, c: Codec, s: State, run: seq<Action>)
    requires Fresh(h, c, s) && Possible(h, c, s, run)
    ensures var t := After(h, c, s, run);
            Pending(t.writers) == multiset{} && t.refused == multiset{} ==> multiset(t.committed) == multiset(t.ledger)
  {
    FreshInv(h, c, s);
    RunKeepsInv(h, c, s, run);
    Unit(multiset(After(h, c, s, run).ledger));
  }

  /**
    Log order and ledger order may differ under concurrency. Once every durable event is listed, a
    restart keeps the verdict on a memory exactly when it is deleted, or both orders end its blocks in
    the same class and, for a quarantine, agree on whether a clear follows.
    */
  lemma RecoveryAgreesExactly(h: Hash, c: Codec, s: State, run: seq<Action>, id: Id)
    requires Fresh(h, c, s) && Possible(h, c, s, run) && KeepsAll(c)
    requires After(h, c, s, run).holder.None? && After(h, c, s, run).damage.Intact?
    ensures var t := After(h, c, s, run);
            && Replay(h, c, t.log).Ok?
            && (Pending(t.writers) == multiset{} && t.refused == multiset{} ==>
                  (Lookup(Fold(NoMaps, Replay(h, c, t.log).value), id).decision
                   == Lookup(Fold(NoMaps, t.ledger), id).decision
                   <==> SameDeciders(t.committed, t.ledger, id)))
  {
    var t := After(h, c, s, run);
    RecoveredFold(h, c, s, run);
    AllListed(h, c, s, run);
    if multiset(t.committed) == multiset(t.ledger) {
      OrdersAgreeExactly(t.committed, t.ledger, id);
    }
  }

  /** In particular on a memory whose own events went into both in one order: there the whole answer agrees. */
  lemma RecoveryAgreesPerMemory(h: Hash, c: Codec, s: State, run: seq<Action>, id: Id)
    requires Fresh(h, c, s) && Possible(h, c, s, run) && KeepsAll(c)
    requires After(h, c, s, run).holder.None? && After(h, c, s, run).damage.Intact?
    ensures var t := After(h, c, s, run);
            && Replay(h, c, t.log).Ok?
            && (Project(t.committed, id) == Project(t.ledger, id) ==>
                  Lookup(Fold(NoMaps, Replay(h, c, t.log).value), id) == Lookup(Fold(NoMaps, t.ledger), id))
  {
    var t := After(h, c, s, run);
    RecoveredFold(h, c, s, run);
    if Project(t.committed, id) == Project(t.ledger, id) {
      LookupIsLocal(t.committed, t.ledger, id);
    }
  }

  // ------------------------------------------------------------ when the published snapshot is current

  function Appends(run: seq<Action>): nat {
    if run == [] then 0 else (if run[0].Append? then 1 else 0) + Appends(run[1..])
  }

  function Stores(run: seq<Action>): nat {
    if run == [] then 0 else (if run[0].Store? then 1 else 0) + Stores(run[1..])
  }

  predicate NoStoreBy(run: seq<Action>, w: nat) {
    forall i :: 0 <= i < |run| && run[i].Store? ==> run[i].w != w
  }

  lemma {:induction false} LedgerCountsAppends(h: Hash, c: Codec, s: State, run: seq<Action>)
    requires Possible(h, c, s, run)
    ensures s.ledger <= After(h, c, s, run).ledger
    ensures |After(h, c, s, run).ledger| == |s.ledger| + Appends(run)
    decreases |run|
  {
    if run != [] {
      LedgerCountsAppends(h, c, Step(h, c, s, run[0]), run[1..]);
    }
  }

  predicate Holds(s: State, w: nat, copy: Ledger) {
    w < |s.writers| && (s.writers[w].Captured? || s.writers[w].Versioned?) && s.writers[w].events == copy
  }

  lemma {:induction false} CopySurvives(h: Hash, c: Codec, s: State, run: seq<Action>, w: nat, copy: Ledger)
    requires Possible(h, c, s, run) && Holds(s, w, copy) && NoStoreBy(run, w)
    ensures Holds(After(h, c, s, run), w, copy)
    decreases |run|
  {
    if run != [] {
      CopySurvives(h, c, Step(h, c, s, run[0]), run[1..], w, copy);
    }
  }

  lemma {:induction false} SnapshotSurvives(h: Hash, c: Codec, s: State, run: seq<Action>)
    requires Possible(h, c, s, run) && Stores(run) == 0
    ensures After(h, c, s, run).snapshot == s.snapshot
    decreases |run|
  {
    if run != [] {
      SnapshotSurvives(h, c, Step(h, c, s, run[0]), run[1..]);
    }
  }

  /** The copy writer `w` made at `s` still is the whole ledger later exactly when nobody appended in between. */
  lemma CopyIsCurrentExactly(h: Hash, c: Codec, s: State, w: nat, run: seq<Action>)
    requires Enabled(h, c, s, Copy(w))
    requires Possible(h, c, Step(h, c, s, Copy(w)), run)
    ensures var copy := Step(h, c, s, Copy(w)).writers[w].events;
            var t := After(h, c, Step(h, c, s, Copy(w)), run);
            copy <= t.ledger && (copy == t.ledger <==> Appends(run) == 0)
  {
    LedgerCountsAppends(h, c, Step(h, c, s, Copy(w)), run);
  }

  /** A snapshot of part of a ledger is none of all of it. */
  lemma PartIsNotWhole(h: Hash, es: Ledger, fs: Ledger, v: U64, t: int, u: U64, r: int)
    requires es <= fs && |fs| < 0x1_0000_0000_0000_0000
    ensures Compile(h, es, v, t) == Compile(h, fs, u, r) ==> es == fs
  {
    CountIsLength(es);
    CountIsLength(fs);
  }

  /** What a writer that holds `copy` publishes, as long as nobody else stores. */
  lemma StoredCopy(h: Hash, c: Codec, ready: State, w: nat, copy: Ledger, now: int, rest: seq<Action>)
    requires Holds(ready, w, copy) && Enabled(h, c, ready, Store(w, now))
    requires Possible(h, c, Step(h, c, ready, Store(w, now)), rest) && Stores(rest) == 0
    ensures var t := After(h, c, Step(h, c, ready, Store(w, now)), rest);
            && t.snapshot == Compile(h, copy, t.snapshot.version, now)
            && ready.ledger <= t.ledger && |t.ledger| == |ready.ledger| + Appends(rest)
  {
    SnapshotSurvives(h, c, Step(h, c, ready, Store(w, now)), rest);
    LedgerCountsAppends(h, c, Step(h, c, ready, Store(w, now)), rest);
  }

  lemma {:induction false} RunSplits(h: Hash, c: Codec, s: State, a: seq<Action>, b: seq<Action>)
    requires Possible(h, c, s, a + b)
    ensures Possible(h, c, s, a) && Possible(h, c, After(h, c, s, a), b)
    ensures After(h, c, s, a + b) == After(h, c, After(h, c, s, a), b)
    decreases |a|
  {
    if a == [] {
      assert a + b == b;
    } else {
      assert (a + b)[1..] == a[1..] + b;
      RunSplits(h, c, Step(h, c, s, a[0]), a[1..], b);
    }
  }

  /**
    One compile section: writer `w` copies the ledger, stores after `mid`, and nobody stores in `rest`.
    The published snapshot then is the compilation of the whole ledger exactly when nobody appended
    since the copy.
    */
  lemma SectionIsCurrentExactly(h: Hash, c: Codec, s: State, w: nat, mid: seq<Action>, now: int, rest: seq<Action>)
    requires Possible(h, c, s, [Copy(w)] + (mid + ([Store(w, now)] + rest)))
    requires NoStoreBy(mid, w) && Stores(rest) == 0
    ensures var t := After(h, c, s, [Copy(w)] + (mid + ([Store(w, now)] + rest)));
            |t.ledger| < 0x1_0000_0000_0000_0000 ==>
              (t.snapshot == Compile(h, t.ledger, t.snapshot.version, now) <==> Appends(mid) + Appends(rest) == 0)
  {
    var tail := [Store(w, now)] + rest;
    FirstStep(h, c, s, Copy(w), mid + tail);
    var copied := Step(h, c, s, Copy(w));
    RunSplits(h, c, copied, mid, tail);
    var ready := After(h, c, copied, mid);
    FirstStep(h, c, ready, Store(w, now), rest);
    CopySurvives(h, c, copied, mid, w, s.ledger);
    CopyIsCurrentExactly(h, c, s, w, mid);
    LedgerCountsAppends(h, c, copied, mid);
    StoredCopy(h, c, ready, w, s.ledger, now, rest);
    var t := After(h, c, Step(h, c, ready, Store(w, now)), rest);
    WholeExactly(h, s.ledger, t.ledger, t.snapshot.version, now);
  }

  lemma FirstStep(h: Hash, c: Codec, s: State, a: Action, run: seq<Action>)
    requires Possible(h, c, s, [a] + run)
    ensures Enabled(h, c, s, a) && Possible(h, c, Step(h, c, s, a), run)
    ensures After(h, c, s, [a] + run) == After(h, c, Step(h, c, s, a), run)
  {
    assert ([a] + run)[1..] == run;
  }

  lemma WholeExactly(h: Hash, es: Ledger, fs: Ledger, v: U64, now: int)
    requires es <= fs
    ensures |fs| < 0x1_0000_0000_0000_0000 ==> (Compile(h, es, v, now) == Compile(h, fs, v, now) <==> |es| == |fs|)
  {
    if |es| == |fs| {
      assert es == fs;
    } else if |fs| < 0x1_0000_0000_0000_0000 && Compile(h, es, v, now) == Compile(h, fs, v, now) {
      PartIsNotWhole(h, es, fs, v, now, v, now);
    }
  }

  /**
    Read off the actions of a run alone: `young` are the writers whose copy is younger than the last
    append, `current` says that the last store was of such a copy.
    */
  predicate EndsCurrent(run: seq<Action>, young: set<nat>, current: bool) {
    if run == [] then current
    else EndsCurrent(run[1..], Younger(young, run[0]), Currently(young, current, run[0]))
  }

  /** The copies in hand are parts of the ledger, the young ones all of it. */
  ghost predicate CopiesTracked(s: State, young: set<nat>) {
    forall w :: 0 <= w < |s.writers| && (s.writers[w].Captured? || s.writers[w].Versioned?) ==>
      s.writers[w].events <= s.ledger && (w in young <==> s.writers[w].events == s.ledger)
  }

  ghost predicate OfPart(h: Hash, snap: RuntimeSnapshot, ledger: Ledger) {
    exists k: nat :: k < |ledger| && OfPrefix(h, snap, ledger, k)
  }

  ghost predicate Tracks(h: Hash, s: State, young: set<nat>, current: bool) {
    && CopiesTracked(s, young)
    && (if current then OfPrefix(h, s.snapshot, s.ledger, |s.ledger|) else OfPart(h, s.snapshot, s.ledger))
  }

  function Younger(young: set<nat>, a: Action): set<nat> {
    if a.Append? then {} else if a.Copy? then young + {a.w} else young
  }

  predicate Currently(young: set<nat>, current: bool, a: Action) {
    if a.Append? then false else if a.Store? then a.w in young else current
  }

  lemma StepTracksCopies(h: Hash, c: Codec, s: State, a: Action, young: set<nat>)
    requires CopiesTracked(s, young) && Enabled(h, c, s, a)
    ensures CopiesTracked(Step(h, c, s, a), Younger(young, a))
  {
    var s' := Step(h, c, s, a);
    LedgerGrows(h, c, s, a);
    forall w | 0 <= w < |s'.writers| && (s'.writers[w].Captured? || s'.writers[w].Versioned?)
      ensures s'.writers[w].events <= s'.ledger && (w in Younger(young, a) <==> s'.writers[w].events == s'.ledger)
    {
      if s.writers[w].Captured? || s.writers[w].Versioned? {
        assert s.writers[w].events <= s.ledger;
      }
    }
  }

  lemma PartGrows(h: Hash, snap: RuntimeSnapshot, ledger: Ledger, k: nat, e: RevocationEvent)
    requires OfPrefix(h, snap, ledger, k)
    ensures OfPart(h, snap, ledger + [e])
  {
    PrefixOfPrefix(ledger, ledger + [e], k);
    assert OfPrefix(h, snap, ledger + [e], k);
  }

  lemma CompiledCopy(h: Hash, copy: Ledger, ledger: Ledger, v: U64, now: int)
    requires copy <= ledger
    ensures copy == ledger ==> OfPrefix(h, Compile(h, copy, v, now), ledger, |ledger|)
    ensures copy != ledger ==> OfPart(h, Compile(h, copy, v, now), ledger)
  {
    assert ledger[..|copy|] == copy;
    assert OfPrefix(h, Compile(h, copy, v, now), ledger, |copy|);
  }

  lemma StepTracks(h: Hash, c: Codec, s: State, a: Action, young: set<nat>, current: bool)
    requires Tracks(h, s, young, current) && Enabled(h, c, s, a)
    ensures Tracks(h, Step(h, c, s, a), Younger(young, a), Currently(young, current, a))
  {
    StepTracksCopies(h, c, s, a, young);
    if a.Append? {
      var k: nat :| OfPrefix(h, s.snapshot, s.ledger, k);
      PartGrows(h, s.snapshot, s.ledger, k, s.writers[a.w].event);
    } else if a.Store? {
      CompiledCopy(h, s.writers[a.w].events, s.ledger, s.writers[a.w].version, a.now);
    }
  }

  lemma TracksTells(h: Hash, s: State, young: set<nat>, current: bool)
    requires Tracks(h, s, young, current) && |s.ledger| < 0x1_0000_0000_0000_0000
    ensures OfPrefix(h, s.snapshot, s.ledger, |s.ledger|) <==> current
  {
    if !current && OfPrefix(h, s.snapshot, s.ledger, |s.ledger|) {
      var k: nat :| k < |s.ledger| && OfPrefix(h, s.snapshot, s.ledger, k);
      var v, t := s.snapshot.version, s.snapshot.createdAtUnix;
      assert s.ledger[..|s.ledger|] == s.ledger;
      PartIsNotWhole(h, s.ledger[..k], s.ledger, v, t, v, t);
    }
  }

  lemma {:induction false} RunTracks(h: Hash, c: Codec, s: State, run: seq<Action>, young: set<nat>, current: bool)
    returns (endYoung: set<nat>)
    requires Tracks(h, s, young, current) && Possible(h, c, s, run)
    ensures Tracks(h, After(h, c, s, run), endYoung, EndsCurrent(run, young, current))
    decreases |run|
  {
    if run == [] {
      endYoung := young;
    } else {
      var a := run[0];
      StepTracks(h, c, s, a, young, current);
      endYoung := RunTracks(h, c, Step(h, c, s, a), run[1..], Younger(young, a), Currently(young, current, a));
    }
  }

  lemma WholePrefix(h: Hash, snap: RuntimeSnapshot, ledger: Ledger)
    ensures OfPrefix(h, snap, ledger, |ledger|) <==> snap == Compile(h, ledger, snap.version, snap.createdAtUnix)
  {
    assert ledger[..|ledger|] == ledger;
  }

  lemma FreshTracks(h: Hash, c: Codec, s: State)
    requires Fresh(h, c, s)
    ensures Tracks(h, s, {}, true)
  {
    WholePrefix(h, s.snapshot, s.ledger);
  }

  /**
    Over a whole run of any number of writers, the snapshot published at the end reflects the ledger
    exactly when the last store was of a copy made after the last append.
    */
  lemma PublishedIsCurrentExactly(h: Hash, c: Codec, s: State, run: seq<Action>)
    requires Fresh(h, c, s) && Possible(h, c, s, run)
    requires |After(h, c, s, run).ledger| < 0x1_0000_0000_0000_0000
    ensures var t := After(h, c, s, run);
            t.snapshot == Compile(h, t.ledger, t.snapshot.version, t.snapshot.createdAtUnix) <==>
            EndsCurrent(run, {}, true)
  {
    FreshTracks(h, c, s);
    var t := After(h, c, s, run);
    var young := RunTracks(h, c, s, run, {}, true);
    TracksTells(h, t, young, EndsCurrent(run, {}, true));
    WholePrefix(h, t.snapshot, t.ledger);
  }

  /** No store falls between a writer's version load and its own; `open` are those who loaded since the last store. */
  predicate Exclusive(run: seq<Action>, open: set<nat>) {
    run == [] || ((run[0].Store? ==> run[0].w in open) && Exclusive(run[1..], Opened(open, run[0])))
  }

  function Opened(open: set<nat>, a: Action): set<nat> {
    if a.LoadVersion? then open + {a.w} else if a.Store? then {} else open
  }

  /** Every store publishes a higher version than the one it replaces. */
  ghost predicate Increasing(h: Hash, c: Codec, s: State, run: seq<Action>)
    requires Possible(h, c, s, run)
    decreases |run|
  {
    run == [] ||
    (&& (run[0].Store? ==> Step(h, c, s, run[0]).snapshot.version > s.snapshot.version)
     && Increasing(h, c, Step(h, c, s, run[0]), run[1..]))
  }

  ghost predicate VersionsTracked(s: State, open: set<nat>) {
    forall w :: 0 <= w < |s.writers| && s.writers[w].Versioned? ==>
      if w in open then s.writers[w].version == s.snapshot.version + 1 else s.writers[w].version <= s.snapshot.version
  }

  lemma StepVersions(h: Hash, c: Codec, s: State, a: Action, open: set<nat>)
    requires VersionsTracked(s, open) && Enabled(h, c, s, a)
    requires s.snapshot.version + (if a.Store? then 2 else 1) < 0x1_0000_0000_0000_0000
    ensures a.Store? ==> (Step(h, c, s, a).snapshot.version > s.snapshot.version <==> a.w in open)
    ensures a.Store? && a.w in open ==> Step(h, c, s, a).snapshot.version == s.snapshot.version + 1
    ensures !a.Store? ==> Step(h, c, s, a).snapshot == s.snapshot
    ensures !a.Store? || a.w in open ==> VersionsTracked(Step(h, c, s, a), Opened(open, a))
  {
  }

  lemma {:induction false} RunVersions(h: Hash, c: Codec, s: State, run: seq<Action>, open: set<nat>)
    requires Possible(h, c, s, run) && VersionsTracked(s, open)
    requires s.snapshot.version + Stores(run) + 1 < 0x1_0000_0000_0000_0000
    ensures Increasing(h, c, s, run) <==> Exclusive(run, open)
    ensures Exclusive(run, open) ==> After(h, c, s, run).snapshot.version == s.snapshot.version + Stores(run)
    decreases |run|
  {
    if run != [] {
      var a := run[0];
      StepVersions(h, c, s, a, open);
      if !a.Store? || a.w in open {
        RunVersions(h, c, Step(h, c, s, a), run[1..], Opened(open, a));
      }
    }
  }

  /**
    Short of the wrap at 2^64, published versions strictly increase exactly when no store falls
    between another writer's version load and its store; then every store raises the version by one.
    */
  lemma VersionsIncreaseExactly(h: Hash, c: Codec, s: State, run: seq<Action>)
    requires Fresh(h, c, s) && Possible(h, c, s, run)
    requires s.snapshot.version + Stores(run) + 1 < 0x1_0000_0000_0000_0000
    ensures Increasing(h, c, s, run) <==> Exclusive(run, {})
    ensures Exclusive(run, {}) ==> After(h, c, s, run).snapshot.version == s.snapshot.version + Stores(run)
  {
    RunVersions(h, c, s, run, {});
  }

  // ------------------------------------------------------------ what concurrency does not guarantee

  lemma {:induction false} Extend(h: Hash, c: Codec, s: State, run: seq<Action>, a: Action)
    requires Possible(h, c, s, run) && Enabled(h, c, After(h, c, s, run), a)
    ensures Possible(h, c, s, run + [a])
    ensures After(h, c, s, run + [a]) == Step(h, c, After(h, c, s, run), a)
    decreases |run|
  {
    if run != [] {
      assert (run + [a])[1..] == run[1..] + [a];
      Extend(h, c, Step(h, c, s, run[0]), run[1..], a);
    } else {
      var one := run + [a];
      assert one[1..] == [];
    }
  }

  /** What writing out the record of `w` makes of a state. */
  ghost function WrittenOut(h: Hash, c: Codec, t: State, w: nat): State
    requires w < |t.writers| && t.writers[w].Writing? && Appendable(c, t.writers[w].event)
    requires t.writers[w].written <= |RecordOf(h, c, t.writers[w].event)|
  {
    var e := t.writers[w].event;
    t.(log := t.log + RecordOf(h, c, e)[t.writers[w].written..],
       writers := t.writers[w := Writing(e, |RecordOf(h, c, e)|)])
  }

  lemma OneByteLess(h: Hash, c: Codec, t: State, w: nat)
    requires Enabled(h, c, t, WriteByte(w))
    ensures WrittenOut(h, c, Step(h, c, t, WriteByte(w)), w) == WrittenOut(h, c, t, w)
  {
    var e, k := t.writers[w].event, t.writers[w].written;
    var r := RecordOf(h, c, e);
    assert t.log + [r[k]] + r[k + 1..] == t.log + r[k..];
    assert t.writers[w := Writing(e, k + 1)][w := Writing(e, |r|)] == t.writers[w := Writing(e, |r|)];
  }

  lemma {:induction false} WriteMore(h: Hash, c: Codec, s: State, before: seq<Action>, w: nat, n: nat)
    returns (run: seq<Action>)
    requires Possible(h, c, s, before)
    requires var t := After(h, c, s, before);
             && w < |t.writers| && t.writers[w].Writing? && Appendable(c, t.writers[w].event)
             && t.writers[w].written + n == |RecordOf(h, c, t.writers[w].event)|
    ensures Possible(h, c, s, run)
    ensures After(h, c, s, run) == WrittenOut(h, c, After(h, c, s, before), w)
    decreases n
  {
    var t := After(h, c, s, before);
    if n == 0 {
      var e := t.writers[w].event;
      run := before;
      assert t.writers[w := Writing(e, |RecordOf(h, c, e)|)] == t.writers;
      assert t.log + RecordOf(h, c, e)[|RecordOf(h, c, e)|..] == t.log;
    } else {
      Extend(h, c, s, before, WriteByte(w));
      OneByteLess(h, c, t, w);
      run := WriteMore(h, c, s, before + [WriteByte(w)], w, n - 1);
    }
  }

  /** An idle writer can take an event all the way into the log. */
  lemma Commit(h: Hash, c: Codec, s: State, before: seq<Action>, w: nat, e: RevocationEvent) returns (run: seq<Action>)
    requires Possible(h, c, s, before) && Enabled(h, c, After(h, c, s, before), Lock(w, e))
    ensures Possible(h, c, s, run)
    ensures var t := After(h, c, s, before);
            After(h, c, s, run) == t.(log := t.log + RecordOf(h, c, e), frames := t.frames + [c.marshal(e).value],
                                      damage := Grown(t.damage, c.marshal(e).value),
                                      committed := t.committed + [e], writers := t.writers[w := Durable(e)])
  {
    Extend(h, c, s, before, Lock(w, e));
    var locked := before + [Lock(w, e)];
    var written := WriteMore(h, c, s, locked, w, |RecordOf(h, c, e)|);
    Extend(h, c, s, written, Unlock(w));
    run := written + [Unlock(w)];
  }

  /** Two writers, both durable, neither yet visible. */
  lemma BothCommit(h: Hash, c: Codec, s: State, e: RevocationEvent, f: RevocationEvent) returns (run: seq<Action>)
    requires s.writers == [Idle, Idle] && s.holder.None? && Appendable(c, e) && Appendable(c, f)
    ensures Possible(h, c, s, run)
    ensures var t := After(h, c, s, run);
            && t.committed == s.committed + [e, f] && t.ledger == s.ledger && t.holder.None?
            && t.writers == [Durable(e), Durable(f)] && t.snapshot == s.snapshot
            && (s.damage.Intact? ==> t.damage.Intact?)
  {
    var first := Commit(h, c, s, [], 0, e);
    run := Commit(h, c, s, first, 1, f);
    assert s.committed + [e] + [f] == s.committed + [e, f];
  }

  /** Both have copied the ledger; the copy of the first lacks the second's event. */
  lemma BothCopy(h: Hash, c: Codec, s: State, e: RevocationEvent, f: RevocationEvent) returns (run: seq<Action>)
    requires s.writers == [Idle, Idle] && s.holder.None? && Appendable(c, e) && Appendable(c, f)
    ensures Possible(h, c, s, run)
    ensures var t := After(h, c, s, run);
            && t.committed == s.committed + [e, f] && t.ledger == s.ledger + [e] + [f] && t.snapshot == s.snapshot
            && t.writers == [Captured(s.ledger + [e]), Captured(s.ledger + [e] + [f])]
  {
    var r0 := BothCommit(h, c, s, e, f);
    Extend(h, c, s, r0, Append(0));
    var r1 := r0 + [Append(0)];
    Extend(h, c, s, r1, Copy(0));
    var r2 := r1 + [Copy(0)];
    Extend(h, c, s, r2, Append(1));
    var r3 := r2 + [Append(1)];
    Extend(h, c, s, r3, Copy(1));
    run := r3 + [Copy(1)];
  }

  /** Both have loaded the version before either stores. */
  lemma BothLoad(h: Hash, c: Codec, s: State, e: RevocationEvent, f: RevocationEvent) returns (run: seq<Action>)
    requires s.writers == [Idle, Idle] && s.holder.None? && Appendable(c, e) && Appendable(c, f)
    ensures Possible(h, c, s, run)
    ensures var t, v := After(h, c, s, run), NextVersion(Some(s.snapshot));
            && t.committed == s.committed + [e, f] && t.ledger == s.ledger + [e] + [f]
            && t.writers == [Versioned(s.ledger + [e], v), Versioned(s.ledger + [e] + [f], v)]
  {
    var r0 := BothCopy(h, c, s, e, f);
    Extend(h, c, s, r0, LoadVersion(0));
    var r1 := r0 + [LoadVersion(0)];
    Extend(h, c, s, r1, LoadVersion(1));
    run := r1 + [LoadVersion(1)];
  }

  /** The one with the longer copy stores first. */
  lemma OverlappingStores(h: Hash, c: Codec, s: State, e: RevocationEvent, f: RevocationEvent, now: int)
    returns (mid: seq<Action>, run: seq<Action>)
    requires s.writers == [Idle, Idle] && s.holder.None? && Appendable(c, e) && Appendable(c, f)
    ensures Possible(h, c, s, run) && Possible(h, c, s, mid)
    ensures var t, v := After(h, c, s, run), NextVersion(Some(s.snapshot));
            && t.writers == [Idle, Idle] && t.ledger == s.ledger + [e] + [f] && t.committed == s.committed + [e, f]
            && After(h, c, s, mid).snapshot == Compile(h, s.ledger + [e] + [f], v, now)
            && t.snapshot == Compile(h, s.ledger + [e], v, now)
  {
    var loaded := BothLoad(h, c, s, e, f);
    Extend(h, c, s, loaded, Store(1, now));
    mid := loaded + [Store(1, now)];
    Extend(h, c, s, mid, Store(0, now));
    run := mid + [Store(0, now)];
  }

  /**
    Two overlapping writers can leave the newer event out of the final snapshot, under a version that
    was already used: the memory `f` deletes is what it was before, although `f` is durable and in the
    ledger.
    */
  lemma StaleSnapshotWins(h: Hash, c: Codec, s: State, e: RevocationEvent, f: RevocationEvent, now: int)
    returns (mid: seq<Action>, run: seq<Action>)
    requires s.writers == [Idle, Idle] && s.holder.None? && s.snapshot.maps == Fold(NoMaps, s.ledger)
    requires Appendable(c, e) && Appendable(c, f)
    requires e.memoryId != f.memoryId && ClassOf(f) == Deleting
    ensures Possible(h, c, s, run) && Possible(h, c, s, mid)
    ensures After(h, c, s, run).writers == [Idle, Idle]
    ensures f in After(h, c, s, run).ledger && f in After(h, c, s, run).committed
    ensures Lookup(After(h, c, s, mid).snapshot.maps, f.memoryId).decision == DeleteRequested
    ensures Lookup(After(h, c, s, run).snapshot.maps, f.memoryId).decision
            == Lookup(s.snapshot.maps, f.memoryId).decision
    ensures After(h, c, s, run).snapshot.version == After(h, c, s, mid).snapshot.version
  {
    mid, run := OverlappingStores(h, c, s, e, f, now);
    FoldTouches(s.ledger, e, f.memoryId);
    FoldTouches(s.ledger + [e], f, f.memoryId);
    LookupAt(s.snapshot.maps, f.memoryId);
    LookupAt(Fold(NoMaps, s.ledger + [e]), f.memoryId);
    LookupAt(Fold(NoMaps, s.ledger + [e] + [f]), f.memoryId);
  }

  /** Durable in one order, listed in the other. */
  lemma CrossedOrders(h: Hash, c: Codec, s: State, e: RevocationEvent, f: RevocationEvent) returns (run: seq<Action>)
    requires s.writers == [Idle, Idle] && s.holder.None? && Appendable(c, e) && Appendable(c, f)
    ensures Possible(h, c, s, run)
    ensures var t := After(h, c, s, run);
            && t.committed == s.committed + [e, f] && t.ledger == s.ledger + [f] + [e] && t.holder.None?
            && (s.damage.Intact? ==> t.damage.Intact?)
  {
    var r0 := BothCommit(h, c, s, e, f);
    Extend(h, c, s, r0, Append(1));
    var r1 := r0 + [Append(1)];
    Extend(h, c, s, r1, Append(0));
    run := r1 + [Append(0)];
  }

  /**
    Two overlapping writers can enter the ledger in the opposite of their log order, and then a
    restart changes the verdict on a memory they both touch.
    */
  lemma RestartChangesVerdict(h: Hash, c: Codec, s: State, q: RevocationEvent, r: RevocationEvent)
    returns (run: seq<Action>)
    requires Fresh(h, c, s) && |s.writers| == 2 && KeepsAll(c) && Appendable(c, q) && Appendable(c, r)
    requires s.committed == [] && q.memoryId == r.memoryId
    requires ClassOf(q) == Quarantining && ClassOf(r) == Revoking
    ensures Possible(h, c, s, run)
    ensures var t := After(h, c, s, run);
            && Lookup(Fold(NoMaps, t.ledger), q.memoryId).decision == Decision.Quarantine
            && Replay(h, c, t.log).Ok?
            && Lookup(Fold(NoMaps, Replay(h, c, t.log).value), q.memoryId).decision == Refuse
  {
    run := CrossedOrders(h, c, s, q, r);
    RecoveredFold(h, c, s, run);
    CrossedVerdicts(q, r, After(h, c, s, run).committed, After(h, c, s, run).ledger);
  }

  lemma CrossedVerdicts(q: RevocationEvent, r: RevocationEvent, committed: Ledger, ledger: Ledger)
    requires q.memoryId == r.memoryId && ClassOf(q) == Quarantining && ClassOf(r) == Revoking
    requires committed == [] + [q, r] && ledger == [] + [r] + [q]
    ensures Lookup(Fold(NoMaps, ledger), q.memoryId).decision == Decision.Quarantine
    ensures Lookup(Fold(NoMaps, committed), q.memoryId).decision == Refuse
  {
    assert committed == [q, r] && ledger == [r, q];
    TwoEvents(r, q);
    TwoEvents(q, r);
  }

  lemma TwoEvents(e: RevocationEvent, f: RevocationEvent)
    requires e.memoryId == f.memoryId
    requires ClassOf(e) != Deleting
    ensures ClassOf(f) == Quarantining ==> Lookup(Fold(NoMaps, [e, f]), e.memoryId).decision == Decision.Quarantine
    ensures ClassOf(f) == Revoking ==> Lookup(Fold(NoMaps, [e, f]), e.memoryId).decision == Refuse
  {
    var none: Ledger := [];
    assert none + [e] == [e] && [e] + [f] == [e, f];
    FoldTouches(none, e, e.memoryId);
    FoldTouches([e], f, e.memoryId);
    LookupAt(Fold(NoMaps, [e, f]), e.memoryId);
  }
}
