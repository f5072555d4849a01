/** pkg/rpc/server.go: evaluation against one captured snapshot, and registration of revocations. */
module Rpc {
  import opened ByteStrings
  import opened Outcomes
  import opened Merkle
  import opened Evaluate
  import opened Quarantine
  import opened SnapshotHash
  import opened Persistence
  import opened Monitor
  import Gateway
  import Writers

  datatype RuntimeContext = RuntimeContext(
    tenantHash: Bytes, domainHash: Bytes,
    requiredLifecycle: Flags, prohibitedSafety: Flags, allowedUseClasses: Flags, prohibitedUseBlocks: Flags
  )

  datatype MemoryCandidate = MemoryCandidate(memoryId: Bytes, memoryHash: Bytes, flags: Flags)

  /** A pointer that may be nil is an option. */
  datatype EvaluateRequest = EvaluateRequest(
    sessionId: Bytes, context: Option<RuntimeContext>, candidates: seq<Option<MemoryCandidate>>
  )

  datatype MemoryDecisionLeaf = MemoryDecisionLeaf(
    memoryId: Bytes, decisionCode: nat, reasonCode: Reason, injected: bool
  )

  datatype EvaluateResponse = EvaluateResponse(
    sessionId: Bytes, merkleRoot: Digest, decisions: seq<MemoryDecisionLeaf>, version: U64
  )

  datatype RpcError =
    | ContextDone | ServerNotReady | MissingArgument | MalformedContext | NilCandidate | MalformedCandidate
    | MalformedRevocation | NoEventId | AppendFailed(cause: AppendError)

  function MaskOf(x: RuntimeContext): EvaluationMask {
    EvaluationMask(x.requiredLifecycle, x.prohibitedSafety, x.allowedUseClasses, x.prohibitedUseBlocks, 0)
  }

  predicate WellFormed(c: Option<MemoryCandidate>) {
    c.Some? && |c.value.memoryId| == 16 && |c.value.memoryHash| == 32
  }

  /** The snapshot decides first; only a memory it leaves free is put to the mask. */
  function Decide(m: Maps, x: RuntimeContext, c: MemoryCandidate): (Decision, Reason)
    requires |c.memoryId| == 16 && |x.tenantHash| == 32 && |x.domainHash| == 32
  {
    var d := Lookup(m, c.memoryId);
    if d.decision != Use then (d.decision, d.reason)
    else EvaluateMemoryHotPath(x.tenantHash, x.tenantHash, x.domainHash, x.domainHash, c.flags, MaskOf(x))
  }

  predicate Admits(d: Decision) {
    d == Use || d == Qualify
  }

  function DecisionLeaf(c: MemoryCandidate, d: (Decision, Reason)): MemoryDecisionLeaf {
    MemoryDecisionLeaf(c.memoryId, d.0.Code(), d.1, Admits(d.0))
  }

  /** The Merkle leaf; policy and reason hashes stay zero on this path. */
  function TreeLeaf(c: MemoryCandidate, d: Decision): LeafRecord
    requires |c.memoryId| == 16 && |c.memoryHash| == 32
  {
    LeafRecord(c.memoryId, c.memoryHash, d.Code(), Admits(d), Zeros(32), Zeros(32))
  }

  predicate Acceptable(q: EvaluateRequest) {
    && q.context.Some? && q.candidates != []
    && |q.context.value.tenantHash| == 32 && |q.context.value.domainHash| == 32
    && forall i :: 0 <= i < |q.candidates| ==> WellFormed(q.candidates[i])
  }

  function Decisions(m: Maps, q: EvaluateRequest): (ds: seq<MemoryDecisionLeaf>)
    requires Acceptable(q)
    ensures |ds| == |q.candidates|
  {
    seq(|q.candidates|, i requires 0 <= i < |q.candidates| =>
      DecisionLeaf(q.candidates[i].value, Decide(m, q.context.value, q.candidates[i].value)))
  }

  function TreeLeaves(m: Maps, q: EvaluateRequest): (ls: seq<LeafRecord>)
    requires Acceptable(q)
    ensures |ls| == |q.candidates|
  {
    seq(|q.candidates|, i requires 0 <= i < |q.candidates| =>
      TreeLeaf(q.candidates[i].value, Decide(m, q.context.value, q.candidates[i].value).0))
  }

  /** The response is a function of the request and of one snapshot. */
  function Respond(h: Hash, sort: LeafSort, s: RuntimeSnapshot, q: EvaluateRequest): EvaluateResponse
    requires Acceptable(q)
  {
    EvaluateResponse(q.sessionId, TurnRoot(h, sort, TreeLeaves(s.maps, q)), Decisions(s.maps, q), s.version)
  }

  method EvaluateMemoryUse(
    h: Hash, sort: LeafSort, ids: IdSort, done: bool, monitor: RuntimeMonitor?, q: EvaluateRequest, now: int
  ) returns (r: Result<EvaluateResponse, RpcError>)
    ensures r.Ok? <==> !done && monitor != null && Acceptable(q)
    ensures r.Ok? ==>
              var active := if monitor.snapshot.Some? then monitor.snapshot.value else Compile(h, [], 0, now);
              r.value == Respond(h, sort, active, q)
    ensures done ==> r == Err(ContextDone)
    ensures !done && monitor == null ==> r == Err(ServerNotReady)
    ensures !done && monitor != null && (q.context.None? || q.candidates == []) ==> r == Err(MissingArgument)
    ensures !done && monitor != null && q.context.Some? && q.candidates != []
              && !(|q.context.value.tenantHash| == |q.context.value.domainHash| == 32) ==>
              r == Err(MalformedContext)
    ensures r.Err? && !done && monitor != null && q.context.Some? && q.candidates != []
              && |q.context.value.tenantHash| == 32 && |q.context.value.domainHash| == 32 ==>
              exists i :: 0 <= i < |q.candidates| && !WellFormed(q.candidates[i])
                          && (forall j :: 0 <= j < i ==> WellFormed(q.candidates[j]))
                          && r == Err(if q.candidates[i].None? then NilCandidate else MalformedCandidate)
  {
    if done {
      return Err(ContextDone);
    }
    if monitor == null {
      return Err(ServerNotReady);
    }
    if q.context.None? || |q.candidates| == 0 {
      return Err(MissingArgument);
    }
    var x := q.context.value;
    if |x.tenantHash| != 32 || |x.domainHash| != 32 {
      return Err(MalformedContext);
    }
    var active: RuntimeSnapshot;
    if monitor.snapshot.Some? {
      active := monitor.snapshot.value;
    } else {
      active := CompileSnapshot(h, ids, [], 0, now);
    }
    var decisions: seq<MemoryDecisionLeaf>, leaves: seq<LeafRecord> := [], [];
    for i := 0 to |q.candidates|
      invariant forall j :: 0 <= j < i ==> WellFormed(q.candidates[j])
      invariant |decisions| == |leaves| == i
      invariant forall j :: 0 <= j < i ==>
                  && decisions[j] == DecisionLeaf(q.candidates[j].value, Decide(active.maps, x, q.candidates[j].value))
                  && leaves[j] == TreeLeaf(q.candidates[j].value, Decide(active.maps, x, q.candidates[j].value).0)
    {
      if q.candidates[i].None? {
        return Err(NilCandidate);
      }
      var c := q.candidates[i].value;
      if |c.memoryId| != 16 || |c.memoryHash| != 32 {
        return Err(MalformedCandidate);
      }
      var d := Decide(active.maps, x, c);
      decisions := decisions + [DecisionLeaf(c, d)];
      leaves := leaves + [TreeLeaf(c, d.0)];
    }
    assert decisions == Decisions(active.maps, q);
    assert leaves == TreeLeaves(active.maps, q);
    ghost var nodes, rounds;
    var root;
    root, nodes, rounds := BuildTurnTree(h, sort, leaves);
    r := Ok(EvaluateResponse(q.sessionId, root, decisions, active.version));
  }

  // ------------------------------------------------------------ one moment per response

  /**
    However writers interleave with a request, its decisions are the reading of one prefix of the
    ledger, its version is that of the snapshot captured at the start, and its root is the tree over
    exactly these decisions.
    */
  lemma ResponseShowsOneMoment(
    h: Hash, sort: LeafSort, c: Codec, s: Writers.State, run: seq<Writers.Action>, i: nat, q: EvaluateRequest
  ) returns (k: nat)
    requires Writers.Fresh(h, c, s) && Writers.Possible(h, c, s, run) && Acceptable(q)
    ensures var t := Writers.After(h, c, s, run);
            i < |t.captured| ==>
              var r := Respond(h, sort, t.captured[i], q);
              && k <= |t.ledger|
              && r.version == t.captured[i].version
              && r.decisions == Decisions(Fold(NoMaps, t.ledger[..k]), q)
              && r.merkleRoot == TurnRoot(h, sort, TreeLeaves(Fold(NoMaps, t.ledger[..k]), q))
              && forall j :: 0 <= j < |q.candidates| ==>
                   var seen := Reading(t.ledger[..k], q.candidates[j].value.memoryId);
                   seen.decision != Use ==>
                     r.decisions[j]
                     == MemoryDecisionLeaf(q.candidates[j].value.memoryId, seen.decision.Code(), seen.reason, false)
  {
    var t := Writers.After(h, c, s, run);
    k := Writers.ReadersSeeHistory(h, c, s, run, i);
    if i < |t.captured| {
      forall j | 0 <= j < |q.candidates| && Reading(t.ledger[..k], q.candidates[j].value.memoryId).decision != Use
        ensures Respond(h, sort, t.captured[i], q).decisions[j]
                == MemoryDecisionLeaf(q.candidates[j].value.memoryId,
                                      Reading(t.ledger[..k], q.candidates[j].value.memoryId).decision.Code(),
                                      Reading(t.ledger[..k], q.candidates[j].value.memoryId).reason, false)
      {
        BlockedDecision(t.captured[i].maps, t.ledger[..k], q, j);
      }
    }
  }

  lemma BlockedDecision(m: Maps, es: Ledger, q: EvaluateRequest, j: nat)
    requires Acceptable(q) && j < |q.candidates| && m == Fold(NoMaps, es)
    ensures var id := q.candidates[j].value.memoryId;
            Reading(es, id).decision != Use ==>
              Decisions(m, q)[j]
              == MemoryDecisionLeaf(id, Reading(es, id).decision.Code(), Reading(es, id).reason, false)
  {
    assert WellFormed(q.candidates[j]);
    LookupReadsHistory(es, q.candidates[j].value.memoryId);
  }

  /** A request's masks, as they meet the flags of a candidate. */
  lemma RequestMasks(x: RuntimeContext, f: Flags)
    ensures SafetyClear(f, MaskOf(x)) <==>
            !Meets(f, x.prohibitedSafety) && !Meets(f, x.prohibitedUseBlocks) && Meets(f, x.allowedUseClasses)
  {
  }

  /** Over the bits of the request: injectable exactly when the history leaves it free and no boundary is crossed. */
  lemma InjectableExactly(h: Hash, sort: LeafSort, es: Ledger, v: U64, t: int, q: EvaluateRequest, j: nat)
    requires Acceptable(q) && j < |q.candidates|
    ensures var c, x := q.candidates[j].value, q.context.value;
            Respond(h, sort, Compile(h, es, v, t), q).decisions[j].injected <==>
            && Reading(es, c.memoryId).decision == Use && LifecycleClear(c.flags)
            && !Meets(c.flags, x.prohibitedSafety) && !Meets(c.flags, x.prohibitedUseBlocks)
            && Meets(c.flags, x.allowedUseClasses)
  {
    var c, x := q.candidates[j].value, q.context.value;
    assert WellFormed(q.candidates[j]);
    LookupReadsHistory(es, c.memoryId);
    Gateway.LookupNeverQualifies(Some(Compile(h, es, v, t)), c.memoryId);
    UseExactly(x.tenantHash, x.tenantHash, x.domainHash, x.domainHash, c.flags, MaskOf(x));
    RequestMasks(x, c.flags);
  }

  /** The same over single bits, spelled out. */
  lemma BitsOfRequest(x: RuntimeContext, f: Flags)
    ensures Meets(f, x.prohibitedSafety) <==> f & x.prohibitedSafety != 0
    ensures Meets(f, x.prohibitedUseBlocks) <==> f & x.prohibitedUseBlocks != 0
    ensures Meets(f, x.allowedUseClasses) <==> f & x.allowedUseClasses != 0
    ensures LifecycleClear(f) <==> f & 2 == 0 && f & 4 == 0 && f & 8 == 0
  {
    MaskBits(f, x.prohibitedSafety);
    MaskBits(f, x.prohibitedUseBlocks);
    MaskBits(f, x.allowedUseClasses);
  }

  /** What is decided on a candidate, and why: the history, the lifecycle flags, then the masks of the request. */
  ghost predicate Decided(es: Ledger, x: RuntimeContext, c: MemoryCandidate, d: Decision, reason: Reason)
    requires |c.memoryId| == 16
  {
    var seen := Reading(es, c.memoryId);
    if seen.decision != Use then d == seen.decision && reason == seen.reason
    else
      && (Meets(c.flags, 4) ==> d == DeleteRequested && reason == DeletionRequested)
      && (!Meets(c.flags, 4) && Meets(c.flags, 2) ==> d == Refresh && reason == MemoryExpired)
      && (!Meets(c.flags, 4) && !Meets(c.flags, 2) && Meets(c.flags, 8) ==> d == Refuse && reason == MemoryRevoked)
      && (!Meets(c.flags, 4) && !Meets(c.flags, 2) && !Meets(c.flags, 8) ==>
            && (Meets(c.flags, x.prohibitedSafety) ==> d == Decision.Quarantine && reason == SafetyIsolationTriggered)
            && (!Meets(c.flags, x.prohibitedSafety) ==>
                  && (Meets(c.flags, x.prohibitedUseBlocks) ==> d == Refuse && reason == ProhibitedUseEnforced)
                  && (!Meets(c.flags, x.prohibitedUseBlocks) ==>
                        && (!Meets(c.flags, x.allowedUseClasses) ==> d == Ignore && reason == NoExplicitUsePermitted)
                        && (Meets(c.flags, x.allowedUseClasses) ==> d == Use && reason == UseReason))))
  }

  lemma DecideDecides(es: Ledger, x: RuntimeContext, c: MemoryCandidate)
    requires |c.memoryId| == 16 && |x.tenantHash| == 32 && |x.domainHash| == 32
    ensures var (d, reason) := Decide(Fold(NoMaps, es), x, c); Decided(es, x, c, d, reason)
  {
    LookupReadsHistory(es, c.memoryId);
    EachBoundaryExactly(x.tenantHash, x.tenantHash, x.domainHash, x.domainHash, c.flags, MaskOf(x));
  }

  /** Entry `m` of a response and leaf `l` of its tree report decision `d` on candidate `c`. */
  ghost predicate Reports(c: MemoryCandidate, m: MemoryDecisionLeaf, l: LeafRecord, d: Decision, reason: Reason) {
    && m.memoryId == c.memoryId && m.reasonCode == reason
    && (d == Use ==> m.decisionCode == 0) && (d == Qualify ==> m.decisionCode == 1)
    && (d == Refresh ==> m.decisionCode == 2) && (d == Escalate ==> m.decisionCode == 3)
    && (d == Refuse ==> m.decisionCode == 4) && (d == Ignore ==> m.decisionCode == 5)
    && (d == Decision.Quarantine ==> m.decisionCode == 6) && (d == DeleteRequested ==> m.decisionCode == 7)
    && (d == HardRefuse ==> m.decisionCode == 8)
    && (m.injected <==> m.decisionCode == 0 || m.decisionCode == 1)
    && l.memoryId == c.memoryId && l.memoryHash == c.memoryHash
    && l.decisionCode == m.decisionCode && l.injected == m.injected
    && l.policyHash == Zeros(32) && l.reasonCodeHash == Zeros(32)
  }

  /**
    A response to a request, without its own functions: session and version are passed on, entry `j`
    reports what is decided on candidate `j`, and the root is the tree over leaves that say the same.
    */
  lemma ResponseReports(h: Hash, sort: LeafSort, es: Ledger, v: U64, t: int, q: EvaluateRequest)
    returns (leaves: seq<LeafRecord>)
    requires Acceptable(q)
    ensures var r := Respond(h, sort, Compile(h, es, v, t), q);
            && r.sessionId == q.sessionId && r.version == v && r.merkleRoot == TurnRoot(h, sort, leaves)
            && |r.decisions| == |leaves| == |q.candidates|
            && forall j :: 0 <= j < |q.candidates| ==>
                 WellFormed(q.candidates[j]) &&
                 exists d, reason ::
                   && Decided(es, q.context.value, q.candidates[j].value, d, reason)
                   && Reports(q.candidates[j].value, r.decisions[j], leaves[j], d, reason)
  {
    var m, x := Fold(NoMaps, es), q.context.value;
    var r := Respond(h, sort, Compile(h, es, v, t), q);
    leaves := TreeLeaves(m, q);
    forall j | 0 <= j < |q.candidates|
      ensures WellFormed(q.candidates[j])
      ensures exists d, reason ::
                && Decided(es, x, q.candidates[j].value, d, reason)
                && Reports(q.candidates[j].value, r.decisions[j], leaves[j], d, reason)
    {
      assert WellFormed(q.candidates[j]);
      DecideDecides(es, x, q.candidates[j].value);
      DecisionReports(m, q, j);
    }
  }

  lemma DecisionReports(m: Maps, q: EvaluateRequest, j: nat)
    requires Acceptable(q) && j < |q.candidates|
    ensures WellFormed(q.candidates[j])
    ensures var c := q.candidates[j].value;
            var (d, reason) := Decide(m, q.context.value, c);
            Reports(c, Decisions(m, q)[j], TreeLeaves(m, q)[j], d, reason)
  {
    assert WellFormed(q.candidates[j]);
    DecisionNumbers();
  }

  /**
    On one snapshot and equal masks the gateway rules as the server does, for an unconstrained profile
    of this tenant and domain.
    */
  lemma GatewayAgreesWithServer(
    g: Gateway.Scrub, b: Gateway.MemoryContextBinding, p: Gateway.MemoryProfile, s: RuntimeSnapshot,
    x: RuntimeContext, c: MemoryCandidate
  )
    requires g.monitored && |x.tenantHash| == 32 && |x.domainHash| == 32
    requires g.mask.requiredLifecycle == x.requiredLifecycle && g.mask.prohibitedSafety == x.prohibitedSafety
    requires g.mask.allowedUseClasses == x.allowedUseClasses && g.mask.prohibitedUseBlocks == x.prohibitedUseBlocks
    requires p.tenantHash == g.tenant == x.tenantHash && p.domainHash == g.domain == x.domainHash
    requires p.usageConstraints == [] && p.flags == c.flags && c.memoryId == b.memoryId
    ensures var r := Gateway.Rule(g, b, true, Gateway.View(Some(p), Some(s)));
            && r.decision == Decide(s.maps, x, c).0 && r.reason == Decide(s.maps, x, c).1
            && r.injected == Admits(r.decision)
  {
    Gateway.LookupNeverQualifies(Some(s), b.memoryId);
    TwoMaskFieldsAreUnread(x.tenantHash, x.tenantHash, x.domainHash, x.domainHash, c.flags, MaskOf(x),
                           g.mask.requiredLifecycle, g.mask.sensitivityLimit);
    assert g.mask
           == MaskOf(x).(requiredLifecycle := g.mask.requiredLifecycle, sensitivityLimit := g.mask.sensitivityLimit);
  }

  // ------------------------------------------------------------ RegisterRevocationEvent

  datatype RevocationRequest = RevocationRequest(
    memoryId: Bytes, eventType: U32, reasonCode: U32, operatorId: Bytes, source: Bytes
  )

  datatype RevocationResponse = RevocationResponse(eventId: Id, version: U64, snapshotHash: Digest)

  /** Type and reason are cut to their low byte. */
  function EventOf(q: RevocationRequest, eventId: Id, now: int): RevocationEvent
    requires |q.memoryId| == 16
  {
    RevocationEvent(eventId, q.memoryId, q.eventType % 256, q.reasonCode % 256, q.operatorId, q.source, now,
                    Zeros(32), [], Ascii("active"), Zeros(64), [])
  }

  /** Event `e` is what `q` asks for: its memory, and the low bytes of type and reason, in their own fields. */
  ghost predicate Requests(q: RevocationRequest, e: RevocationEvent, eventId: Id, now: int) {
    && e.eventId == eventId && e.memoryId == q.memoryId && e.createdAt == now
    && e.eventType == q.eventType % 256 && e.reason == q.reasonCode % 256
    && e.operatorId == q.operatorId && e.source == q.source
    && e.policyHash == Zeros(32) && e.signature == Zeros(64) && e.signingKeyId == [] && e.previousState == []
    && e.newState == Ascii("active")
  }

  class AdmissibilityServer {
    const monitor: RuntimeMonitor?
    const log: FileLedger?

    constructor (monitor: RuntimeMonitor?, log: FileLedger?)
      ensures this.monitor == monitor && this.log == log
    {
      this.monitor, this.log := monitor, log;
    }

    /** An error leaves ledger and snapshot alone; success means durable, listed and published. */
    method RegisterRevocationEvent(
      h: Hash, ids: IdSort, c: Codec, done: bool, q: RevocationRequest, eventId: Option<Id>,
      room: nat, synced: bool, now: int, later: int
    ) returns (r: Result<RevocationResponse, RpcError>)
      modifies monitor, log
      ensures done ==> r == Err(ContextDone)
      ensures !done && monitor == null ==> r == Err(ServerNotReady)
      ensures !done && monitor != null && |q.memoryId| != 16 ==> r == Err(MalformedRevocation)
      ensures !done && monitor != null && |q.memoryId| == 16 && eventId.None? ==> r == Err(NoEventId)
      ensures !done && monitor != null && |q.memoryId| == 16 && eventId.Some? ==>
                var e := EventOf(q, eventId.value, now);
                var cause := if log == null then None else AppendFailure(c, old(log.isOpen), e, room, synced);
                && (r.Ok? <==> cause == None)
                && (cause.Some? ==> r == Err(AppendFailed(cause.value)))
                && (log != null ==> log.file == old(log.file) + Landed(h, c, old(log.isOpen), e, room))
      ensures r.Err? && monitor != null ==>
                monitor.ledger == old(monitor.ledger) && monitor.snapshot == old(monitor.snapshot)
      ensures r.Ok? ==>
                && monitor != null && |q.memoryId| == 16 && eventId.Some?
                && monitor.ledger == old(monitor.ledger) + [EventOf(q, eventId.value, now)]
                && Requests(q, monitor.ledger[|monitor.ledger| - 1], eventId.value, now)
                && monitor.snapshot == Some(Compile(h, monitor.ledger, NextVersion(old(monitor.snapshot)), later))
                && var snap := monitor.snapshot.value;
                   r.value == RevocationResponse(eventId.value, snap.version, snap.snapshotHash)
    {
      if done {
        return Err(ContextDone);
      }
      if monitor == null {
        return Err(ServerNotReady);
      }
      if |q.memoryId| != 16 {
        return Err(MalformedRevocation);
      }
      if eventId.None? {
        return Err(NoEventId);
      }
      var event := EventOf(q, eventId.value, now);
      var failure := CommitRevocation(h, ids, c, log, monitor, event, room, synced, later);
      if failure.Some? {
        return Err(AppendFailed(failure.value));
      }
      var snap := monitor.snapshot.value;
      return Ok(RevocationResponse(eventId.value, snap.version, snap.snapshotHash));
    }
  }
}
