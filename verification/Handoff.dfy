/** pkg/orchestrator/handoff.go: admission, scrubbing, the provider call and the sealed evidence. */
module Handoff {
  import opened ByteStrings
  import opened Outcomes
  import opened Sorting
  import opened Merkle
  import opened Evaluate
  import opened Quarantine
  import opened SnapshotHash
  import opened Monitor
  import opened Gateway
  import opened SessionMap
  import opened Lineage

  const HourNanos := 3_600_000_000_000

  /** Hashing, sorting and signing, as one parameter. */
  datatype Crypto = Crypto(h: Hash, sort: LeafSort, ed: Ed25519)

  datatype Coordinator = Coordinator(
    wired: bool, texts: Texts, policyHash: Digest, monitored: bool, signingKey: Bytes, keyId: Bytes
  )

  datatype Request = Request(
    mcrId: Id, mapId: Id, sessionId: Bytes, taskId: Bytes, actorId: Bytes,
    agentId: Bytes, tenant: Digest, domain: Digest, mask: EvaluationMask,
    messages: seq<LLMMessage>, bindings: seq<MemoryContextBinding>, eepId: Bytes, aepId: Bytes
  )

  datatype ProviderResponse = ProviderResponse(text: Bytes, tokens: int)

  /** What the world answers during one handoff; `sealed` is the snapshot active after the provider call. */
  datatype World = World(
    doneEarly: bool, doneLate: bool, doneScrubbing: bool, cached: bool, views: seq<View>,
    provider: seq<LLMMessage> -> Option<ProviderResponse>,
    sealed: Option<RuntimeSnapshot>, now: int, unix: I64
  )

  datatype HandoffError =
    | EarlyDone | NotWired | BadKey | Backpressure | LateDone
    | ScrubbingFault | InvocationFailure | EvidenceError | LineageFault

  datatype HandoffResult = HandoffResult(
    sanitizedPayload: seq<LLMMessage>, response: ProviderResponse, sessionMap: SessionMAP,
    consequence: MachineConsequenceRecord
  )

  function ScrubOf(c: Coordinator, q: Request): Scrub {
    Scrub(c.texts, c.policyHash, c.monitored, q.tenant, q.domain, q.mask)
  }

  function SnapshotInfo(c: Coordinator, s: Option<RuntimeSnapshot>): (Digest, U64) {
    if c.monitored && s.Some? then (s.value.snapshotHash, s.value.version) else (Zeros(32), 0)
  }

  function Draft(c: Coordinator, q: Request, leaves: seq<LeafRecord>, info: (Digest, U64), now: int): SessionMAP {
    SessionMAP([], q.mapId, q.sessionId, q.agentId, q.actorId, q.tenant, q.taskId, Zeros(32), c.policyHash,
               info.0, info.1, Zeros(32), Zeros(64), c.keyId, now, now, leaves)
  }

  /** From the provider's answer to the result. */
  function Seal(
    k: Crypto, c: Coordinator, q: Request, window: seq<LLMMessage>, leaves: seq<LeafRecord>,
    response: ProviderResponse, sealed: Option<RuntimeSnapshot>, now: int, unix: I64
  ): Result<HandoffResult, HandoffError>
  {
    match Generate(k.h, k.sort, k.ed, Draft(c, q, leaves, SnapshotInfo(c, sealed), now), c.signingKey, HourNanos)
    case Err(_) => Err(EvidenceError)
    case Ok(smap) =>
      match CompileLineageRecord(k.h, q.mcrId, smap, q.eepId, q.aepId, unix)
      case Err(_) => Err(LineageFault)
      case Ok(mcr) => Ok(HandoffResult(window, response, smap, mcr))
  }

  /** A handoff's result and the window it sent to the provider, if it got that far. */
  datatype Outcome = Outcome(result: Result<HandoffResult, HandoffError>, call: Option<seq<LLMMessage>>)

  function Execute(k: Crypto, c: Coordinator, q: Request, w: World, free: bool): Outcome
    requires |w.views| == |q.bindings|
  {
    if w.doneEarly then Outcome(Err(EarlyDone), None)
    else if !c.wired then Outcome(Err(NotWired), None)
    else if |c.signingKey| != 64 then Outcome(Err(BadKey), None)
    else if !free then Outcome(Err(Backpressure), None)
    else if w.doneLate then Outcome(Err(LateDone), None)
    else if w.doneScrubbing || !w.cached then Outcome(Err(ScrubbingFault), None)
    else
      var window := Window(ScrubOf(c, q), q.messages, q.bindings, w.views);
      var leaves := Leaves(k.h, ScrubOf(c, q), |q.messages|, q.bindings, w.views);
      match w.provider(window)
      case None => Outcome(Err(InvocationFailure), Some(window))
      case Some(response) => Outcome(Seal(k, c, q, window, leaves, response, w.sealed, w.now, w.unix), Some(window))
  }

  /** The coordinator's slots and, as a record of what it did, its provider calls. */
  class HandoffCoordinator {
    const config: Coordinator
    const cap: nat
    var slots: nat
    ghost var calls: seq<seq<LLMMessage>>

    ghost predicate Valid()
      reads this
    {
      slots <= cap && cap > 0
    }

    constructor (config: Coordinator, maxConcurrentHandoffs: int)
      ensures Valid() && slots == 0 && calls == [] && this.config == config
      ensures cap == if maxConcurrentHandoffs <= 0 then 1 else maxConcurrentHandoffs
    {
      this.config := config;
      cap := if maxConcurrentHandoffs <= 0 then 1 else maxConcurrentHandoffs;
      slots, calls := 0, [];
    }

    /** Every exit path gives back exactly the slot it took. */
    method ExecuteAgentHandoff(k: Crypto, q: Request, w: World) returns (r: Result<HandoffResult, HandoffError>)
      requires Valid() && |w.views| == |q.bindings|
      modifies this
      ensures Valid() && slots == old(slots)
      ensures var o := Execute(k, config, q, w, old(slots) < cap);
              r == o.result && calls == old(calls) + if o.call.Some? then [o.call.value] else []
    {
      if w.doneEarly {
        return Err(EarlyDone);
      }
      if !config.wired {
        return Err(NotWired);
      }
      if |config.signingKey| != 64 {
        return Err(BadKey);
      }
      if slots == cap {
        return Err(Backpressure);
      }
      slots := slots + 1;
      if w.doneLate {
        slots := slots - 1;
        return Err(LateDone);
      }
      var failure, window, leaves :=
        SanitizeContextWindow(k.h, ScrubOf(config, q), w.doneScrubbing, w.cached, q.messages, q.bindings, w.views);
      if failure.Some? {
        slots := slots - 1;
        return Err(ScrubbingFault);
      }
      calls := calls + [window];
      var response := w.provider(window);
      if response.None? {
        slots := slots - 1;
        return Err(InvocationFailure);
      }
      r := Seal(k, config, q, window, leaves, response.value, w.sealed, w.now, w.unix);
      slots := slots - 1;
    }
  }

  // ------------------------------------------------------------ evidence

  /** The evidence of every handoff that succeeds verifies, and was made from the window it sent. */
  lemma EvidenceClosure(k: Crypto, c: Coordinator, q: Request, w: World, free: bool, pub: Bytes)
    requires |w.views| == |q.bindings|
    requires KeyPair(k.ed, c.signingKey, pub)
    ensures var o := Execute(k, c, q, w, free);
            o.result.Ok? ==>
              var r := o.result.value;
              && VerifySessionMAP(k.h, k.sort, k.ed, pub, r.sessionMap) == Ok(Verification(true, true, true))
              && VerifyLineageRecord(k.h, r.consequence, r.sessionMap)
              && r.sessionMap.leafRecords == Leaves(k.h, ScrubOf(c, q), |q.messages|, q.bindings, w.views)
              && o.call == Some(r.sanitizedPayload)
  {
    var o := Execute(k, c, q, w, free);
    if o.result.Ok? {
      var r := o.result.value;
      var draft := Draft(c, q, r.sessionMap.leafRecords, SnapshotInfo(c, w.sealed), w.now);
      GeneratedReplays(k.h, k.sort, k.ed, draft, c.signingKey, pub, HourNanos);
      VerifiesExactlyWhatIsCompiled(k.h, r.consequence, r.sessionMap);
    }
  }

  /** ... and still does after any reordering of leaves that do not disagree on an ID. */
  lemma EvidenceSurvivesReordering(
    k: Crypto, c: Coordinator, q: Request, w: World, free: bool, pub: Bytes, leaves: seq<LeafRecord>
  )
    requires |w.views| == |q.bindings|
    requires KeyPair(k.ed, c.signingKey, pub)
    ensures var r := Execute(k, c, q, w, free).result;
            r.Ok? && multiset(leaves) == multiset(r.value.sessionMap.leafRecords)
            && KeysIdentify(MemoryIdOf, r.value.sessionMap.leafRecords) ==>
              VerifySessionMAP(k.h, k.sort, k.ed, pub, r.value.sessionMap.(leafRecords := leaves))
              == Ok(Verification(true, true, true))
  {
    var r := Execute(k, c, q, w, free).result;
    if r.Ok? && multiset(leaves) == multiset(r.value.sessionMap.leafRecords)
       && KeysIdentify(MemoryIdOf, r.value.sessionMap.leafRecords) {
      EvidenceClosure(k, c, q, w, free, pub);
      ReorderingReplays(k.h, k.sort, k.ed, pub, r.value.sessionMap, leaves);
    }
  }

  /**
    A provider is called exactly when admission, all three context checks and scrubbing pass; a call stays
    without evidence exactly when the provider fails, nothing was bound, or a tracker is missing.
    */
  lemma UnsealedCallExactly(k: Crypto, c: Coordinator, q: Request, w: World, free: bool)
    requires |w.views| == |q.bindings|
    ensures var o := Execute(k, c, q, w, free);
            && (o.call.Some? <==>
                !w.doneEarly && c.wired && |c.signingKey| == 64 && free && !w.doneLate && !w.doneScrubbing && w.cached)
            && (o.result.Ok? ==> o.call.Some?)
            && (o.call.Some? ==>
                  (o.result.Err? <==>
                   w.provider(o.call.value).None? || q.bindings == [] || q.eepId == [] || q.aepId == []))
  {
    assert |Leaves(k.h, ScrubOf(c, q), |q.messages|, q.bindings, w.views)| == |q.bindings|;
  }

  /** The map of a result names a snapshot by hash and version. */
  predicate Names(r: HandoffResult, s: RuntimeSnapshot) {
    r.sessionMap.runtimeSnapshotHash == s.snapshotHash && r.sessionMap.runtimeSnapshotVersion == s.version
  }

  lemma SealNamesSealed(k: Crypto, c: Coordinator, q: Request, w: World, free: bool, s: RuntimeSnapshot)
    requires |w.views| == |q.bindings| && c.monitored && w.sealed == Some(s)
    requires Execute(k, c, q, w, free).result.Ok?
    ensures Names(Execute(k, c, q, w, free).result.value, s)
  {
  }

  /**
    The snapshot a map names is read after the provider call. It is the one that decided binding `i`
    exactly when both compile the same part of the ledger under the same version, unless the two
    preimages collide. Each binding may have seen another snapshot.
    */
  lemma NamesDecidingSnapshotExactly(
    k: Crypto, c: Coordinator, q: Request, w: World, free: bool, i: nat,
    es: Ledger, v: U64, s: int, fs: Ledger, u: U64, t: int
  )
    requires |w.views| == |q.bindings| && c.monitored && i < |w.views|
    requires (es <= fs || fs <= es) && |es| < 0x1_0000_0000_0000_0000 && |fs| < 0x1_0000_0000_0000_0000
    ensures w.views[i].snapshot == Some(Compile(k.h, es, v, s)) && w.sealed == Some(Compile(k.h, fs, u, t))
            && Execute(k, c, q, w, free).result.Ok? ==>
              || CollisionBetween(k.h, {PreimageOf(es, v)}, {PreimageOf(fs, u)})
              || (Names(Execute(k, c, q, w, free).result.value, Compile(k.h, es, v, s)) <==> es == fs && u == v)
  {
    if w.sealed == Some(Compile(k.h, fs, u, t)) && Execute(k, c, q, w, free).result.Ok? {
      SealNamesSealed(k, c, q, w, free, Compile(k.h, fs, u, t));
      PrefixFingerprints(k.h, es, v, fs, u);
    }
  }

  /** With a key, a provider, bindings and trackers there is a handoff that succeeds, whatever it sees and seals. */
  lemma SomeHandoffSucceeds(
    k: Crypto, c: Coordinator, q: Request, views: seq<View>, answer: ProviderResponse, sealed: RuntimeSnapshot,
    now: int, unix: I64
  ) returns (w: World, r: HandoffResult)
    requires c.wired && |c.signingKey| == 64 && |views| == |q.bindings| > 0 && q.eepId != [] && q.aepId != []
    ensures w.views == views && w.sealed == Some(sealed) && Execute(k, c, q, w, true).result == Ok(r)
    ensures r.sessionMap.leafRecords == Leaves(k.h, ScrubOf(c, q), |q.messages|, q.bindings, views)
  {
    w := World(false, false, false, true, views, _ => Some(answer), Some(sealed), now, unix);
    UnsealedCallExactly(k, c, q, w, true);
    r := Execute(k, c, q, w, true).result.value;
  }

  /**
    A handoff whose map names a snapshot that decided none of its leaves: while the provider answers,
    the first memory is deleted. Its leaf records the ruling on what was seen before, be it an injection,
    and the named snapshot blocks it.
    */
  lemma SealsLaterSnapshot(
    k: Crypto, c: Coordinator, q: Request, profiles: seq<Option<MemoryProfile>>, answer: ProviderResponse,
    es: Ledger, v: U64, e: RevocationEvent, s: int, t: int, unix: I64
  ) returns (w: World, r: HandoffResult)
    requires c.wired && |c.signingKey| == 64 && c.monitored
    requires |profiles| == |q.bindings| > 0 && q.eepId != [] && q.aepId != []
    requires ClassOf(e) == Deleting && e.memoryId == q.bindings[0].memoryId
    requires |es| < 0xFFFF_FFFF_FFFF_FFFF
    ensures |w.views| == |q.bindings| && Execute(k, c, q, w, true).result == Ok(r)
    ensures var seen := Compile(k.h, es, v, s);
            var named := Compile(k.h, es + [e], NextVersion(Some(seen)), t);
            && (forall i :: 0 <= i < |w.views| ==> w.views[i] == View(profiles[i], Some(seen)))
            && r.sessionMap.leafRecords == Leaves(k.h, ScrubOf(c, q), |q.messages|, q.bindings, w.views)
            && Names(r, named) && Lookup(named.maps, e.memoryId).decision == DeleteRequested
            && (CollisionBetween(k.h, {PreimageOf(es, v)}, {PreimageOf(es + [e], named.version)}) || !Names(r, seen))
  {
    var seen := Compile(k.h, es, v, s);
    var named := Compile(k.h, es + [e], NextVersion(Some(seen)), t);
    var views := seq(|profiles|, i requires 0 <= i < |profiles| => View(profiles[i], Some(seen)));
    w, r := SomeHandoffSucceeds(k, c, q, views, answer, named, t, unix);
    SealNamesSealed(k, c, q, w, true, named);
    NamesDecidingSnapshotExactly(k, c, q, w, true, 0, es, v, s, es + [e], named.version, t);
    assert |es + [e]| != |es|;
    DeleteBlocks(es, e);
  }

  lemma DeleteBlocks(es: Ledger, e: RevocationEvent)
    requires ClassOf(e) == Deleting
    ensures Lookup(Fold(NoMaps, es + [e]), e.memoryId).decision == DeleteRequested
  {
    FoldTouches(es, e, e.memoryId);
    LookupAt(Fold(NoMaps, es + [e]), e.memoryId);
  }

  // ------------------------------------------------------------ what a result says, field by field

  /** The map of a result: whose session, agent, task, policy and key it names, and until when it lives. */
  ghost predicate Attests(c: Coordinator, q: Request, w: World, s: SessionMAP) {
    && s.sessionMapId == q.mapId && s.sessionId == q.sessionId && s.agentId == q.agentId && s.actorId == q.actorId
    && s.tenantHash == q.tenant && s.taskId == q.taskId && s.runtimeContextHash == Zeros(32)
    && s.policySnapshotHash == c.policyHash && s.signingKeyId == c.keyId
    && (c.monitored && w.sealed.Some? ==>
          s.runtimeSnapshotHash == w.sealed.value.snapshotHash && s.runtimeSnapshotVersion == w.sealed.value.version)
    && (!c.monitored || w.sealed.None? ==> s.runtimeSnapshotHash == Zeros(32) && s.runtimeSnapshotVersion == 0)
    && s.createdAt == w.now && s.expiresAt == w.now + 3_600_000_000_000
  }

  /** The record of a result closes that map with the trackers of the request. */
  ghost predicate Closes(q: Request, w: World, s: SessionMAP, m: MachineConsequenceRecord) {
    && m.mcrId == q.mcrId && m.sessionMapId == s.sessionMapId && m.merkleRoot == s.merkleRoot
    && m.policySnapshotHash == s.policySnapshotHash && m.runtimeSnapshotHash == s.runtimeSnapshotHash
    && m.runtimeSnapshotVersion == s.runtimeSnapshotVersion
    && m.eepId == q.eepId && m.aepId == q.aepId && m.linkedAtUnix == w.unix
  }

  /**
    A result, without the functions that make it: window and leaves are the scrubber's for this
    coordinator's texts, policy and monitor and this agent's tenant, domain and mask; the response is the
    provider's to that window; map and record carry the fields of the request.
    */
  lemma ResultCarries(k: Crypto, c: Coordinator, q: Request, w: World, free: bool)
    requires |w.views| == |q.bindings|
    ensures var o := Execute(k, c, q, w, free);
            var g := Scrub(c.texts, c.policyHash, c.monitored, q.tenant, q.domain, q.mask);
            && (o.call.Some? ==> o.call.value == Window(g, q.messages, q.bindings, w.views))
            && (o.result.Ok? ==>
                  var r := o.result.value;
                  && r.sanitizedPayload == Window(g, q.messages, q.bindings, w.views)
                  && w.provider(r.sanitizedPayload) == Some(r.response)
                  && r.sessionMap.leafRecords == Leaves(k.h, g, |q.messages|, q.bindings, w.views)
                  && Attests(c, q, w, r.sessionMap) && Closes(q, w, r.sessionMap, r.consequence))
  {
  }

  /** Each error, by what the world answered first. */
  lemma EachHandoffErrorExactly(k: Crypto, c: Coordinator, q: Request, w: World, free: bool)
    requires |w.views| == |q.bindings|
    ensures var r := Execute(k, c, q, w, free).result;
            && (r == Err(EarlyDone) <==> w.doneEarly)
            && (r == Err(NotWired) <==> !w.doneEarly && !c.wired)
            && (r == Err(BadKey) <==> !w.doneEarly && c.wired && |c.signingKey| != 64)
            && (!w.doneEarly && c.wired && |c.signingKey| == 64 ==>
                  && (r == Err(Backpressure) <==> !free)
                  && (r == Err(LateDone) <==> free && w.doneLate)
                  && (r == Err(ScrubbingFault) <==> free && !w.doneLate && (w.doneScrubbing || !w.cached)))
  {
  }

  lemma EachLateErrorExactly(k: Crypto, c: Coordinator, q: Request, w: World, free: bool)
    requires |w.views| == |q.bindings|
    ensures var o := Execute(k, c, q, w, free);
            o.call.Some? ==>
              var answer := w.provider(o.call.value);
              && (o.result == Err(InvocationFailure) <==> answer.None?)
              && (o.result == Err(EvidenceError) <==> answer.Some? && q.bindings == [])
              && (o.result == Err(LineageFault) <==>
                  answer.Some? && q.bindings != [] && (q.eepId == [] || q.aepId == []))
  {
    assert |Leaves(k.h, ScrubOf(c, q), |q.messages|, q.bindings, w.views)| == |q.bindings|;
  }
}
