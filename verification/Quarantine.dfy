/** pkg/quarantine/quarantine.go: revocation events, the fold that compiles them, and the lookup. */
module Quarantine {
  import opened ByteStrings
  import opened Evaluate
  import opened Outcomes

  // ------------------------------------------------------------ events

  /** Event types and reasons are bytes: a number outside the named constants is a legal value. */
  const EventQuarantineMemory: byte := 0
  const EventDeleteRequested: byte := 1
  const EventRevokeMemory: byte := 2
  const EventClearQuarantine: byte := 3
  const EventPoisoningSuspected: byte := 4
  const EventPromptInjectionDetected: byte := 5
  const EventCrossSessionLeak: byte := 6
  const EventCrossAgentLeak: byte := 7

  const ReasonPoisoningSuspected: byte := 0
  const ReasonPromptInjectionDetected: byte := 1
  const ReasonCrossSessionLeak: byte := 2
  const ReasonRetroactiveRevocation: byte := 3

  datatype RevocationEvent = RevocationEvent(
    eventId: Id,
    memoryId: Id,
    eventType: byte,
    reason: byte,
    operatorId: Bytes,
    source: Bytes,
    createdAt: int,
    policyHash: Digest,
    previousState: Bytes,
    newState: Bytes,
    signature: Sig,
    signingKeyId: Bytes
  )

  type Ledger = seq<RevocationEvent>

  datatype Class = Quarantining | Deleting | Revoking | Clearing | Inert

  function ClassOf(e: RevocationEvent): Class {
    if e.eventType == EventDeleteRequested then Deleting
    else if e.eventType == EventRevokeMemory then Revoking
    else if e.eventType == EventClearQuarantine then Clearing
    else if e.eventType in {EventQuarantineMemory, EventPoisoningSuspected, EventPromptInjectionDetected,
                            EventCrossSessionLeak, EventCrossAgentLeak} then Quarantining
    else Inert
  }

  function ReasonCode(e: RevocationEvent): Reason {
    if e.eventType == EventPoisoningSuspected then MemoryPoisoningSuspected
    else if e.eventType == EventPromptInjectionDetected then PromptInjectionDetected
    else if e.eventType == EventCrossSessionLeak then CrossSessionLeak
    else if e.eventType == EventCrossAgentLeak then CrossAgentLeak
    else if e.eventType == EventQuarantineMemory then
      if e.reason == ReasonPromptInjectionDetected then PromptInjectionDetected
      else if e.reason == ReasonCrossSessionLeak then CrossSessionLeak
      else if e.reason == ReasonRetroactiveRevocation then RetroactiveRevocation
      else MemoryPoisoningSuspected
    else MemoryQuarantined
  }

  // ------------------------------------------------------------ the fold

  datatype QuarantineState = QuarantineState(eventId: Id, reasonCode: Reason)

  /** The three maps of a snapshot; a tombstone or revocation keeps only its event ID. */
  datatype Maps = Maps(
    quarantined: map<Id, QuarantineState>,
    tombstoned: map<Id, Id>,
    revoked: map<Id, Id>
  )

  const NoMaps := Maps(map[], map[], map[])

  function Apply(m: Maps, e: RevocationEvent): Maps {
    match ClassOf(e)
    case Deleting =>
      Maps(m.quarantined - {e.memoryId}, m.tombstoned[e.memoryId := e.eventId], m.revoked - {e.memoryId})
    case Quarantining =>
      m.(quarantined := m.quarantined[e.memoryId := QuarantineState(e.eventId, ReasonCode(e))],
         revoked := m.revoked - {e.memoryId})
    case Revoking =>
      m.(quarantined := m.quarantined - {e.memoryId}, revoked := m.revoked[e.memoryId := e.eventId])
    case Clearing =>
      m.(quarantined := m.quarantined - {e.memoryId})
    case Inert => m
  }

  function Fold(m: Maps, es: Ledger): Maps {
    if es == [] then m else Apply(Fold(m, es[..|es| - 1]), es[|es| - 1])
  }

  /** Equal in the fields compilation reads. */
  predicate Alike(e: RevocationEvent, f: RevocationEvent) {
    e.eventId == f.eventId && e.memoryId == f.memoryId && e.eventType == f.eventType && e.reason == f.reason
  }

  predicate AllAlike(es: Ledger, fs: Ledger) {
    |es| == |fs| && forall i :: 0 <= i < |es| ==> Alike(es[i], fs[i])
  }

  lemma AlikeApply(m: Maps, e: RevocationEvent, f: RevocationEvent)
    requires Alike(e, f)
    ensures Apply(m, e) == Apply(m, f)
  {
    assert ClassOf(e) == ClassOf(f) && ReasonCode(e) == ReasonCode(f);
  }

  lemma {:induction false} AlikeFold(m: Maps, es: Ledger, fs: Ledger)
    requires AllAlike(es, fs)
    ensures Fold(m, es) == Fold(m, fs)
  {
    if es != [] {
      var n := |es| - 1;
      AlikeFold(m, es[..n], fs[..n]);
      AlikeApply(Fold(m, es[..n]), es[n], fs[n]);
    }
  }

  /** Compiling a concatenation continues the fold of the first part. */
  lemma {:induction false} FoldConcat(m: Maps, a: Ledger, b: Ledger)
    ensures Fold(m, a + b) == Fold(Fold(m, a), b)
  {
    if b == [] {
      assert a + b == a;
    } else {
      assert (a + b)[..|a + b| - 1] == a + b[..|b| - 1];
      FoldConcat(m, a, b[..|b| - 1]);
    }
  }

  // ------------------------------------------------------------ lookup

  datatype RuntimeDecision = RuntimeDecision(decision: Decision, reason: Reason, stateRef: Id)

  function Lookup(m: Maps, id: Id): RuntimeDecision {
    if id in m.tombstoned then
      RuntimeDecision(DeleteRequested, DeletionRequested, m.tombstoned[id])
    else if id in m.quarantined then
      RuntimeDecision(Decision.Quarantine, m.quarantined[id].reasonCode, m.quarantined[id].eventId)
    else if id in m.revoked then
      RuntimeDecision(Refuse, MemoryRevoked, m.revoked[id])
    else
      RuntimeDecision(Use, RuntimeStateClear, Zeros(16))
  }

  datatype Query = Deletes | Blocks | Clears

  predicate Hits(what: Query, c: Class) {
    match what
    case Deletes => c == Deleting
    case Blocks => c == Quarantining || c == Revoking
    case Clears => c == Clearing
  }

  /** The position of the last event about `id` that `what` asks for, or -1. */
  function LastOf(es: Ledger, id: Id, what: Query): (r: int)
    ensures -1 <= r < |es|
    ensures r >= 0 ==> es[r].memoryId == id && Hits(what, ClassOf(es[r]))
  {
    if es == [] then -1
    else
      var last := es[|es| - 1];
      if last.memoryId == id && Hits(what, ClassOf(last)) then |es| - 1
      else LastOf(es[..|es| - 1], id, what)
  }

  lemma {:induction false} LastOfIsLast(es: Ledger, id: Id, what: Query, i: nat)
    requires LastOf(es, id, what) < i < |es|
    requires es[i].memoryId == id
    ensures !Hits(what, ClassOf(es[i]))
  {
    if i < |es| - 1 {
      LastOfIsLast(es[..|es| - 1], id, what, i);
    }
  }

  /**
    What a history says of a memory: a delete anywhere decides; otherwise the latest quarantine or
    revocation does, and only a quarantine is undone by a later clear.
    */
  function Reading(es: Ledger, id: Id): RuntimeDecision {
    var d, q := LastOf(es, id, Deletes), LastOf(es, id, Blocks);
    if d >= 0 then RuntimeDecision(DeleteRequested, DeletionRequested, es[d].eventId)
    else if q < 0 then RuntimeDecision(Use, RuntimeStateClear, Zeros(16))
    else if ClassOf(es[q]) == Revoking then RuntimeDecision(Refuse, MemoryRevoked, es[q].eventId)
    else if Cleared(es, id) then RuntimeDecision(Use, RuntimeStateClear, Zeros(16))
    else RuntimeDecision(Decision.Quarantine, ReasonCode(es[q]), es[q].eventId)
  }

  /** A clear stands after the last quarantine or revocation. */
  predicate Cleared(es: Ledger, id: Id) {
    LastOf(es, id, Clears) > LastOf(es, id, Blocks)
  }

  /** What the three maps hold for one memory. */
  datatype Entry = Entry(q: Option<QuarantineState>, t: Option<Id>, r: Option<Id>)

  function At(m: Maps, id: Id): Entry {
    Entry(
      if id in m.quarantined then Some(m.quarantined[id]) else None,
      if id in m.tombstoned then Some(m.tombstoned[id]) else None,
      if id in m.revoked then Some(m.revoked[id]) else None)
  }

  function Touch(e: Entry, ev: RevocationEvent): Entry {
    match ClassOf(ev)
    case Deleting => Entry(None, Some(ev.eventId), None)
    case Quarantining => e.(q := Some(QuarantineState(ev.eventId, ReasonCode(ev))), r := None)
    case Revoking => e.(q := None, r := Some(ev.eventId))
    case Clearing => e.(q := None)
    case Inert => e
  }

  lemma ApplyTouches(m: Maps, ev: RevocationEvent, id: Id)
    ensures At(Apply(m, ev), id) == if ev.memoryId == id then Touch(At(m, id), ev) else At(m, id)
  {
  }

  lemma FoldTouches(es: Ledger, ev: RevocationEvent, id: Id)
    ensures At(Fold(NoMaps, es + [ev]), id)
            == if ev.memoryId == id then Touch(At(Fold(NoMaps, es), id), ev) else At(Fold(NoMaps, es), id)
  {
    assert (es + [ev])[..|es|] == es;
    ApplyTouches(Fold(NoMaps, es), ev, id);
  }

  lemma LookupAt(m: Maps, id: Id)
    ensures var e := At(m, id);
            Lookup(m, id).decision == if e.t.Some? then DeleteRequested
                                      else if e.q.Some? then Decision.Quarantine
                                      else if e.r.Some? then Refuse else Use
  {
  }

  lemma {:induction false} EntryReadsHistory(es: Ledger, id: Id)
    ensures var e := At(Fold(NoMaps, es), id);
            var d, q := LastOf(es, id, Deletes), LastOf(es, id, Blocks);
            && e.t == (if d >= 0 then Some(es[d].eventId) else None)
            && (d < 0 ==> && e.r == (if q >= 0 && ClassOf(es[q]) == Revoking then Some(es[q].eventId) else None)
                          && e.q == (if q >= 0 && ClassOf(es[q]) == Quarantining && !Cleared(es, id)
                                     then Some(QuarantineState(es[q].eventId, ReasonCode(es[q]))) else None))
            && (e.q == None || e.r == None)
  {
    if es != [] {
      var init, last := es[..|es| - 1], es[|es| - 1];
      EntryReadsHistory(init, id);
      ApplyTouches(Fold(NoMaps, init), last, id);
    }
  }

  /** The compiled lookup agrees with the reading, and no memory is both quarantined and revoked. */
  lemma LookupReadsHistory(es: Ledger, id: Id)
    ensures Lookup(Fold(NoMaps, es), id) == Reading(es, id)
    ensures !(id in Fold(NoMaps, es).quarantined && id in Fold(NoMaps, es).revoked)
  {
    EntryReadsHistory(es, id);
  }

  // ------------------------------------------------------------ histories that go on

  lemma {:induction false} LastOfConcat(es: Ledger, fs: Ledger, id: Id, what: Query)
    ensures LastOf(es + fs, id, what)
            == if LastOf(fs, id, what) >= 0 then |es| + LastOf(fs, id, what) else LastOf(es, id, what)
  {
    if fs == [] {
      assert es + fs == es;
    } else {
      assert (es + fs)[..|es + fs| - 1] == es + fs[..|fs| - 1];
      LastOfConcat(es, fs[..|fs| - 1], id, what);
    }
  }

  /** The class of the last quarantine or revocation. */
  function BlockClass(es: Ledger, id: Id): Option<Class> {
    var q := LastOf(es, id, Blocks);
    if q >= 0 then Some(ClassOf(es[q])) else None
  }

  function Verdict(deleted: bool, last: Option<Class>, cleared: bool): Decision {
    if deleted then DeleteRequested
    else if last == None then Use
    else if last == Some(Revoking) then Refuse
    else if cleared then Use
    else Decision.Quarantine
  }

  lemma LookupVerdict(es: Ledger, id: Id)
    ensures Lookup(Fold(NoMaps, es), id).decision
            == Verdict(LastOf(es, id, Deletes) >= 0, BlockClass(es, id), Cleared(es, id))
  {
    LookupReadsHistory(es, id);
  }

  lemma BlockConcat(es: Ledger, fs: Ledger, id: Id)
    ensures BlockClass(es + fs, id) == if BlockClass(fs, id).Some? then BlockClass(fs, id) else BlockClass(es, id)
    ensures Cleared(es + fs, id) <==> Cleared(fs, id) || (BlockClass(fs, id).None? && Cleared(es, id))
  {
    LastOfConcat(es, fs, id, Blocks);
    LastOfConcat(es, fs, id, Clears);
  }

  /** The verdict on a history that goes on. */
  lemma VerdictConcat(es: Ledger, fs: Ledger, id: Id)
    ensures Lookup(Fold(NoMaps, es + fs), id).decision
            == Verdict(LastOf(es, id, Deletes) >= 0 || LastOf(fs, id, Deletes) >= 0,
                       if BlockClass(fs, id).Some? then BlockClass(fs, id) else BlockClass(es, id),
                       Cleared(fs, id) || (BlockClass(fs, id).None? && Cleared(es, id)))
  {
    LookupVerdict(es + fs, id);
    LastOfConcat(es, fs, id, Deletes);
    BlockConcat(es, fs, id);
  }

  /** Whatever follows, a deleted memory stays deleted. */
  lemma DeletionIsPermanent(es: Ledger, fs: Ledger, id: Id)
    requires Lookup(Fold(NoMaps, es), id).decision == DeleteRequested
    ensures Lookup(Fold(NoMaps, es + fs), id).decision == DeleteRequested
  {
    LookupVerdict(es, id);
    VerdictConcat(es, fs, id);
  }

  /**
    Revocation is not: what follows frees a revoked memory exactly when it holds no delete, its last
    quarantine or revocation is a quarantine, and a clear comes after that.
    */
  lemma RevocationLiftedExactly(es: Ledger, fs: Ledger, id: Id)
    requires Lookup(Fold(NoMaps, es), id).decision == Refuse
    ensures Lookup(Fold(NoMaps, es + fs), id).decision == Use <==>
            LastOf(fs, id, Deletes) < 0 && BlockClass(fs, id) == Some(Quarantining) && Cleared(fs, id)
  {
    LookupVerdict(es, id);
    VerdictConcat(es, fs, id);
    BlockClassIs(es, id);
    BlockClassIs(fs, id);
  }

  lemma BlockClassIs(es: Ledger, id: Id)
    ensures BlockClass(es, id) in {None, Some(Quarantining), Some(Revoking)}
  {
  }

  /** So a quarantine and a clear free a revoked memory. */
  lemma RevocationIsNotPermanent(es: Ledger, q: RevocationEvent, c: RevocationEvent, id: Id)
    requires Lookup(Fold(NoMaps, es), id).decision == Refuse
    requires q.memoryId == c.memoryId == id
    requires q.eventType == EventQuarantineMemory && c.eventType == EventClearQuarantine
    ensures Lookup(Fold(NoMaps, es + [q] + [c]), id).decision == Use
  {
    FoldTouches(es, q, id);
    FoldTouches(es + [q], c, id);
    LookupAt(Fold(NoMaps, es), id);
    LookupAt(Fold(NoMaps, es + [q] + [c]), id);
  }

  /** Events that hold no clear of `id` never free it. */
  lemma WithoutClearStaysBlocked(es: Ledger, fs: Ledger, id: Id)
    requires LastOf(fs, id, Clears) < 0
    requires Lookup(Fold(NoMaps, es), id).decision != Use
    ensures Lookup(Fold(NoMaps, es + fs), id).decision != Use
  {
    LookupVerdict(es, id);
    VerdictConcat(es, fs, id);
  }

  // ------------------------------------------------------------ locality

  /** The events about one memory, in order. */
  function Project(es: Ledger, id: Id): Ledger {
    if es == [] then []
    else
      var last := es[|es| - 1];
      Project(es[..|es| - 1], id) + if last.memoryId == id then [last] else []
  }

  lemma {:induction false} OnlyOwnEventsMatter(es: Ledger, id: Id)
    ensures At(Fold(NoMaps, es), id) == At(Fold(NoMaps, Project(es, id)), id)
  {
    if es != [] {
      var init, last := es[..|es| - 1], es[|es| - 1];
      OnlyOwnEventsMatter(init, id);
      ApplyTouches(Fold(NoMaps, init), last, id);
      if last.memoryId == id {
        var p := Project(init, id);
        assert Project(es, id) == p + [last] && (p + [last])[..|p|] == p;
        ApplyTouches(Fold(NoMaps, p), last, id);
      } else {
        assert Project(es, id) == Project(init, id);
      }
    }
  }

  lemma SameEntriesSameMaps(m: Maps, n: Maps)
    requires forall id: Id :: At(m, id) == At(n, id)
    ensures m == n
  {
    forall id: Id
      ensures id in m.quarantined <==> id in n.quarantined
      ensures id in m.tombstoned <==> id in n.tombstoned
      ensures id in m.revoked <==> id in n.revoked
      ensures id in m.quarantined ==> m.quarantined[id] == n.quarantined[id]
      ensures id in m.tombstoned ==> m.tombstoned[id] == n.tombstoned[id]
      ensures id in m.revoked ==> m.revoked[id] == n.revoked[id]
    {
      assert At(m, id) == At(n, id);
    }
    assert m.quarantined.Keys == n.quarantined.Keys && m.tombstoned.Keys == n.tombstoned.Keys;
    assert m.revoked.Keys == n.revoked.Keys;
    assert m.quarantined == n.quarantined && m.tombstoned == n.tombstoned && m.revoked == n.revoked;
  }

  /** Two ledgers with the same events about `id`, in the same order, agree on it. */
  lemma LookupIsLocal(es: Ledger, fs: Ledger, id: Id)
    requires Project(es, id) == Project(fs, id)
    ensures At(Fold(NoMaps, es), id) == At(Fold(NoMaps, fs), id)
    ensures Lookup(Fold(NoMaps, es), id) == Lookup(Fold(NoMaps, fs), id)
  {
    OnlyOwnEventsMatter(es, id);
    OnlyOwnEventsMatter(fs, id);
  }

  /** Events about different memories commute: equal per-memory histories compile to equal maps. */
  lemma SameHistoriesSameMaps(es: Ledger, fs: Ledger)
    requires forall id: Id :: Project(es, id) == Project(fs, id)
    ensures Fold(NoMaps, es) == Fold(NoMaps, fs)
  {
    forall id: Id
      ensures At(Fold(NoMaps, es), id) == At(Fold(NoMaps, fs), id)
    {
      LookupIsLocal(es, fs, id);
    }
    SameEntriesSameMaps(Fold(NoMaps, es), Fold(NoMaps, fs));
  }

  // ------------------------------------------------------------ the reading, over the fields of the events

  /** Event `i` is the last about `id` with a type among `types`. */
  ghost predicate LastAbout(es: Ledger, id: Id, types: set<int>, i: int) {
    && 0 <= i < |es| && es[i].memoryId == id && es[i].eventType in types
    && forall j :: i < j < |es| && es[j].memoryId == id ==> es[j].eventType !in types
  }

  /** A query asks for the events of `types`. */
  ghost predicate Asks(what: Query, types: set<int>) {
    forall e: RevocationEvent :: Hits(what, ClassOf(e)) <==> e.eventType in types
  }

  lemma LastAboutIsLast(es: Ledger, id: Id, what: Query, types: set<int>, i: int)
    requires Asks(what, types) && LastAbout(es, id, types, i)
    ensures LastOf(es, id, what) == i
  {
    var k := LastOf(es, id, what);
    if k < i {
      LastOfIsLast(es, id, what, i);
    }
  }

  lemma LastOfIsAbout(es: Ledger, id: Id, what: Query, types: set<int>)
    requires Asks(what, types)
    ensures var k := LastOf(es, id, what);
            && (k >= 0 ==> LastAbout(es, id, types, k))
            && (k < 0 ==> forall j :: 0 <= j < |es| && es[j].memoryId == id ==> es[j].eventType !in types)
  {
    var k := LastOf(es, id, what);
    forall j | k < j < |es| && es[j].memoryId == id
      ensures es[j].eventType !in types
    {
      LastOfIsLast(es, id, what, j);
    }
  }

  lemma WhatIsAsked()
    ensures Asks(Deletes, {1}) && Asks(Blocks, {0, 2, 4, 5, 6, 7}) && Asks(Clears, {3})
  {
  }

  /** Event type 1 deletes, for good; the last one is cited. */
  lemma DeletedExactly(es: Ledger, id: Id)
    ensures var d := Lookup(Fold(NoMaps, es), id);
            && (d.decision == DeleteRequested <==>
                exists i :: 0 <= i < |es| && es[i].memoryId == id && es[i].eventType == 1)
            && (forall i :: LastAbout(es, id, {1}, i) ==>
                  d == RuntimeDecision(DeleteRequested, DeletionRequested, es[i].eventId))
  {
    WhatIsAsked();
    LookupReadsHistory(es, id);
    LastOfIsAbout(es, id, Deletes, {1});
    forall i | LastAbout(es, id, {1}, i)
      ensures LastOf(es, id, Deletes) == i
    {
      LastAboutIsLast(es, id, Deletes, {1}, i);
    }
  }

  ghost predicate Undeleted(es: Ledger, id: Id) {
    forall i :: 0 <= i < |es| && es[i].memoryId == id ==> es[i].eventType != 1
  }

  /** Without a deletion the last event of the blocking types decides; type 2 revokes, whatever clears follow. */
  lemma RevokedExactly(es: Ledger, id: Id, i: int)
    requires Undeleted(es, id) && LastAbout(es, id, {0, 2, 4, 5, 6, 7}, i)
    ensures var d := Lookup(Fold(NoMaps, es), id);
            && (d.decision == Refuse <==> es[i].eventType == 2)
            && (es[i].eventType == 2 ==> d == RuntimeDecision(Refuse, MemoryRevoked, es[i].eventId))
  {
    WhatIsAsked();
    LookupReadsHistory(es, id);
    LastOfIsAbout(es, id, Deletes, {1});
    LastAboutIsLast(es, id, Blocks, {0, 2, 4, 5, 6, 7}, i);
  }

  /** The reason a quarantining event gives, by its type and, for type 0, its reason byte. */
  ghost predicate Gives(e: RevocationEvent, r: Reason) {
    && (e.eventType == 4 ==> r == MemoryPoisoningSuspected)
    && (e.eventType == 5 ==> r == PromptInjectionDetected)
    && (e.eventType == 6 ==> r == CrossSessionLeak)
    && (e.eventType == 7 ==> r == CrossAgentLeak)
    && (e.eventType == 0 && e.reason == 1 ==> r == PromptInjectionDetected)
    && (e.eventType == 0 && e.reason == 2 ==> r == CrossSessionLeak)
    && (e.eventType == 0 && e.reason == 3 ==> r == RetroactiveRevocation)
    && (e.eventType == 0 && e.reason !in {1, 2, 3} ==> r == MemoryPoisoningSuspected)
  }

  lemma ReasonGiven(e: RevocationEvent)
    requires e.eventType in {0, 4, 5, 6, 7}
    ensures Gives(e, ReasonCode(e)) && ClassOf(e) == Quarantining
  {
  }

  /** A clear (type 3) of `id` after event `i`. */
  ghost predicate ClearedAfter(es: Ledger, id: Id, i: int) {
    exists j :: i < j < |es| && 0 <= j && es[j].memoryId == id && es[j].eventType == 3
  }

  lemma ClearedAfterLast(es: Ledger, id: Id, i: int)
    requires LastAbout(es, id, {0, 2, 4, 5, 6, 7}, i)
    ensures LastOf(es, id, Blocks) == i && (Cleared(es, id) <==> ClearedAfter(es, id, i))
  {
    WhatIsAsked();
    LastAboutIsLast(es, id, Blocks, {0, 2, 4, 5, 6, 7}, i);
    LastOfIsAbout(es, id, Clears, {3});
  }

  /** Any other blocking type quarantines, with its reason, unless a clear follows it. */
  lemma QuarantinedExactly(es: Ledger, id: Id, i: int)
    requires Undeleted(es, id) && LastAbout(es, id, {0, 2, 4, 5, 6, 7}, i) && es[i].eventType != 2
    ensures var d := Lookup(Fold(NoMaps, es), id);
            && (ClearedAfter(es, id, i) ==> d == RuntimeDecision(Use, RuntimeStateClear, Zeros(16)))
            && (!ClearedAfter(es, id, i) ==>
                  d.decision == Decision.Quarantine && d.stateRef == es[i].eventId && Gives(es[i], d.reason))
  {
    WhatIsAsked();
    LookupReadsHistory(es, id);
    LastOfIsAbout(es, id, Deletes, {1});
    ClearedAfterLast(es, id, i);
    ReasonGiven(es[i]);
  }

  /** A memory that no event blocks or deletes is free. */
  lemma UntouchedIsFree(es: Ledger, id: Id)
    requires Undeleted(es, id)
    requires forall i :: 0 <= i < |es| && es[i].memoryId == id ==> es[i].eventType !in {0, 2, 4, 5, 6, 7}
    ensures Lookup(Fold(NoMaps, es), id) == RuntimeDecision(Use, RuntimeStateClear, Zeros(16))
  {
    WhatIsAsked();
    LookupReadsHistory(es, id);
    LastOfIsAbout(es, id, Deletes, {1});
    LastOfIsAbout(es, id, Blocks, {0, 2, 4, 5, 6, 7});
  }
}
