/** pkg/axis/worker.go and the vector-store interceptor: the bounded queue of drift jobs. */
module DriftQueue {
  import opened ByteStrings
  import opened Outcomes
  import opened Evaluate
  import opened Quarantine
  import opened SnapshotHash
  import opened Persistence
  import opened Monitor
  import opened AxisDrift

  datatype Job = Job(
    memoryId: Id, anchor: Vector, mutated: Vector, operatorId: Bytes, sourcePipeline: Bytes, policySnapshot: Digest
  )

  function EventFor(job: Job, d: DriftType, eventId: Id, now: int): RevocationEvent {
    RevocationEvent(eventId, job.memoryId, MapDriftToQuarantine(d).1, MapDriftToQuarantine(d).0, job.operatorId,
                    job.sourcePipeline, now, job.policySnapshot, [], Ascii("quarantined"), Zeros(64), [])
  }

  /** Event `e` reports that `job` drifted as `d`: type and reason as logged, and the job's own fields. */
  ghost predicate Files(job: Job, d: DriftType, eventId: Id, now: int, e: RevocationEvent) {
    && e.eventId == eventId && e.memoryId == job.memoryId
    && (d == Temporality || d == Epistemic ==> e.eventType == 4 && e.reason == 0)
    && (d == Scope ==> e.eventType == 6 && e.reason == 2) && (d == Trust ==> e.eventType == 0 && e.reason == 3)
    && (d == Mandate ==> e.eventType == 5 && e.reason == 1)
    && (d == InvalidAxisInput || d == NoDrift ==> e.eventType == 0 && e.reason == 0)
    && e.operatorId == job.operatorId && e.source == job.sourcePipeline
    && e.createdAt == now && e.policyHash == job.policySnapshot
    && e.newState == Ascii("quarantined")
    && e.previousState == [] && e.signingKeyId == [] && forall i :: 0 <= i < 64 ==> e.signature[i] == 0
  }

  lemma EventFiles(job: Job, d: DriftType, eventId: Id, now: int)
    ensures Files(job, d, eventId, now, EventFor(job, d, eventId, now))
  {
    DriftNumbers();
  }

  datatype JobFailure = NoEventId | LedgerFailure(cause: AppendError)

  class DriftMonitorCoordinator {
    const log: FileLedger?
    const monitor: RuntimeMonitor?
    const axes: seq<Axis>
    const threshold: real
    const cap: nat
    var queue: seq<Job>
    var processed: U64
    var quarantined: U64
    var dropped: U64
    var errors: U64

    ghost predicate Valid()
      reads this
    {
      |queue| <= cap && cap > 0
    }

    constructor (log: FileLedger?, monitor: RuntimeMonitor?, axes: seq<Axis>, threshold: real, queueBuffer: int)
      ensures Valid() && queue == []
      ensures this.log == log && this.monitor == monitor && this.axes == axes && this.threshold == threshold
      ensures cap == if queueBuffer <= 0 then 1 else queueBuffer
      ensures processed == quarantined == dropped == errors == 0
    {
      this.log, this.monitor, this.axes, this.threshold := log, monitor, axes, threshold;
      cap := if queueBuffer <= 0 then 1 else queueBuffer;
      queue, processed, quarantined, dropped, errors := [], 0, 0, 0, 0;
    }

    /** A job is queued when there is room, and otherwise counted as dropped. */
    method SubmitNonBlocking(job: Job) returns (ok: bool)
      requires Valid()
      modifies this`queue, this`dropped
      ensures Valid()
      ensures ok <==> old(|queue|) < cap
      ensures ok ==> queue == old(queue) + [job] && dropped == old(dropped)
      ensures !ok ==> queue == old(queue) && dropped == Plus(old(dropped), 1)
    {
      if |queue| < cap {
        queue := queue + [job];
        return true;
      }
      dropped := Plus(dropped, 1);
      return false;
    }

    /** The event a job leads to: none when the axes are preserved, or when no event id can be drawn. */
    ghost function Emitted(sqrt: real -> real, job: Job, eventId: Option<Id>, now: int): Option<RevocationEvent>
      requires IsSqrt(sqrt)
    {
      var drift := Checked(sqrt, job.anchor, job.mutated, axes, threshold);
      if drift.axisPreserved || eventId.None? then None
      else Some(EventFor(job, drift.driftType, eventId.value, now))
    }

    /** An event is filed exactly for a drifted job with an event id, and it reports that drift. */
    lemma EmittedExactly(sqrt: real -> real, job: Job, eventId: Option<Id>, now: int)
      requires IsSqrt(sqrt)
      ensures var drift, e := Checked(sqrt, job.anchor, job.mutated, axes, threshold), Emitted(sqrt, job, eventId, now);
              && (e.Some? <==> !drift.axisPreserved && eventId.Some?)
              && (e.Some? ==> Files(job, drift.driftType, eventId.value, now, e.value))
    {
      if eventId.Some? {
        EventFiles(job, Checked(sqrt, job.anchor, job.mutated, axes, threshold).driftType, eventId.value, now);
      }
    }

    /**
      A preserved job changes nothing but the count of processed jobs. A drifted one quarantines its
      memory, durably first; when it cannot, only the log and the count of errors can tell.
      */
    method ProcessJob(
      sqrt: real -> real, h: Hash, ids: IdSort, c: Codec, job: Job,
      eventId: Option<Id>, room: nat, synced: bool, now: int, later: int
    ) returns (failure: Option<JobFailure>)
      requires IsSqrt(sqrt)
      modifies this`processed, this`quarantined, this`errors, monitor, log
      ensures processed == Plus(old(processed), 1)
      ensures errors == Plus(old(errors), if failure.Some? then 1 else 0)
      ensures quarantined
              == Plus(old(quarantined), if failure.None? && Emitted(sqrt, job, eventId, now).Some? then 1 else 0)
      ensures failure == Some(NoEventId) <==>
              eventId.None? && !Checked(sqrt, job.anchor, job.mutated, axes, threshold).axisPreserved
      ensures var e := Emitted(sqrt, job, eventId, now);
              failure.Some? && failure != Some(NoEventId) <==>
                e.Some? && log != null && AppendFailure(c, old(log.isOpen), e.value, room, synced).Some?
      ensures log != null && Emitted(sqrt, job, eventId, now).Some? && failure.Some? ==>
                var cause := AppendFailure(c, old(log.isOpen), Emitted(sqrt, job, eventId, now).value, room, synced);
                failure == Some(LedgerFailure(cause.value))
      ensures log != null ==>
                var e := Emitted(sqrt, job, eventId, now);
                && (e.None? ==> log.file == old(log.file))
                && (e.Some? ==> log.file == old(log.file) + Landed(h, c, old(log.isOpen), e.value, room))
      ensures monitor != null ==>
                var e := Emitted(sqrt, job, eventId, now);
                if e.Some? && failure.None? then
                  && monitor.ledger == old(monitor.ledger) + [e.value]
                  && monitor.snapshot == Some(Compile(h, monitor.ledger, NextVersion(old(monitor.snapshot)), later))
                else monitor.ledger == old(monitor.ledger) && monitor.snapshot == old(monitor.snapshot)
    {
      processed := Plus(processed, 1);
      var drift := EvaluateDrift(sqrt, job.anchor, job.mutated, axes, threshold);
      if drift.axisPreserved {
        return None;
      }
      if eventId.None? {
        errors := Plus(errors, 1);
        return Some(NoEventId);
      }
      var event := EventFor(job, drift.driftType, eventId.value, now);
      var failed := CommitRevocation(h, ids, c, log, monitor, event, room, synced, later);
      if failed.Some? {
        errors := Plus(errors, 1);
        return Some(LedgerFailure(failed.value));
      }
      quarantined := Plus(quarantined, 1);
      return None;
    }
  }

  /** Whatever drift was found, the snapshot published for it takes the memory out of use. */
  lemma DriftedMemoryIsBlocked(
    h: Hash, es: Ledger, job: Job, d: DriftType, eventId: Id, version: U64, now: int, later: int
  )
    ensures var next := Compile(h, es + [EventFor(job, d, eventId, now)], version, later);
            LookupIn(Some(next), job.memoryId).decision in {DeleteRequested, Decision.Quarantine}
  {
    DriftEventBlocks(es, EventFor(job, d, eventId, now), d);
  }

  // ------------------------------------------------------------ the interceptor

  datatype VectorRecord = VectorRecord(memoryId: Id, embedding: Vector, payloadText: Bytes)

  datatype InterceptorError = NilCoordinator | LengthMismatch | ContextDone

  class InterceptorWrapper {
    const coordinator: DriftMonitorCoordinator?
    const operatorId: Bytes
    const pipelineId: Bytes
    const policyHash: Digest
    var submitted: U64
    var dropped: U64
    var skipped: U64

    constructor (coordinator: DriftMonitorCoordinator?, operatorId: Bytes, pipelineId: Bytes, policyHash: Digest)
      ensures this.coordinator == coordinator && submitted == dropped == skipped == 0
      ensures this.operatorId == operatorId && this.pipelineId == pipelineId && this.policyHash == policyHash
    {
      this.coordinator, this.operatorId := coordinator, operatorId;
      this.pipelineId, this.policyHash := pipelineId, policyHash;
      submitted, dropped, skipped := 0, 0, 0;
    }

    function JobOf(a: VectorRecord, r: VectorRecord): Job {
      Job(r.memoryId, a.embedding, r.embedding, operatorId, pipelineId, policyHash)
    }

    /** The jobs of the pairs that name one memory, in order. */
    function Jobs(anchors: seq<VectorRecord>, records: seq<VectorRecord>): (js: seq<Job>)
      requires |anchors| == |records|
      ensures |js| <= |records|
    {
      if records == [] then []
      else
        var n := |records| - 1;
        Jobs(anchors[..n], records[..n])
        + if anchors[n].memoryId == records[n].memoryId then [JobOf(anchors[n], records[n])] else []
    }

    /** The jobs `js` are those of the pairs `ks`, which are all pairs that name one memory, in order. */
    predicate OfPairs(js: seq<Job>, anchors: seq<VectorRecord>, records: seq<VectorRecord>, ks: seq<nat>) {
      && |ks| == |js| && |anchors| == |records|
      && (forall j :: 0 <= j < |ks| ==> ks[j] < |records| && OfPair(js[j], anchors, records, ks[j]))
      && (forall i, j :: 0 <= i < j < |ks| ==> ks[i] < ks[j])
      && (forall k :: 0 <= k < |records| && anchors[k].memoryId == records[k].memoryId ==> k in ks)
    }

    lemma {:induction false} JobsExactly(anchors: seq<VectorRecord>, records: seq<VectorRecord>) returns (ks: seq<nat>)
      requires |anchors| == |records|
      ensures OfPairs(Jobs(anchors, records), anchors, records, ks)
    {
      if records == [] {
        ks := [];
      } else {
        var n := |records| - 1;
        var js := Jobs(anchors[..n], records[..n]);
        ks := JobsExactly(anchors[..n], records[..n]);
        OnePairMore(js, anchors, records, ks);
        if anchors[n].memoryId == records[n].memoryId {
          ks := ks + [n];
        } else {
          assert js + [] == js;
        }
      }
    }

    lemma OnePairMore(js: seq<Job>, anchors: seq<VectorRecord>, records: seq<VectorRecord>, ks: seq<nat>)
      requires |anchors| == |records| > 0
      requires OfPairs(js, anchors[..|anchors| - 1], records[..|records| - 1], ks)
      ensures var n := |records| - 1;
              if anchors[n].memoryId == records[n].memoryId then
                OfPairs(js + [JobOf(anchors[n], records[n])], anchors, records, ks + [n])
              else OfPairs(js, anchors, records, ks)
    {
    }

    /** A job compares the embeddings of pair `k`, for the memory both name. */
    predicate OfPair(job: Job, anchors: seq<VectorRecord>, records: seq<VectorRecord>, k: nat)
      requires k < |anchors| && k < |records|
    {
      && job.memoryId == records[k].memoryId == anchors[k].memoryId
      && job.anchor == anchors[k].embedding && job.mutated == records[k].embedding
      && job.operatorId == operatorId && job.sourcePipeline == pipelineId && job.policySnapshot == policyHash
    }

    /** Offer one job and count where it went. */
    method Offer(job: Job)
      requires coordinator != null && coordinator.Valid()
      modifies this`submitted, this`dropped, coordinator`queue, coordinator`dropped
      ensures coordinator.Valid()
      ensures old(|coordinator.queue|) < coordinator.cap ==>
                && coordinator.queue == old(coordinator.queue) + [job] && submitted == Plus(old(submitted), 1)
                && dropped == old(dropped) && coordinator.dropped == old(coordinator.dropped)
      ensures old(|coordinator.queue|) >= coordinator.cap ==>
                && coordinator.queue == old(coordinator.queue) && submitted == old(submitted)
                && dropped == Plus(old(dropped), 1) && coordinator.dropped == Plus(old(coordinator.dropped), 1)
    {
      var ok := coordinator.SubmitNonBlocking(job);
      if ok {
        submitted := Plus(submitted, 1);
      } else {
        dropped := Plus(dropped, 1);
      }
    }

    /**
      Where `n` pairs with the jobs `js` went, since the queue was `q` and the counters `s`, `d`, `k` and
      the coordinator's `c`: the first jobs fill the room, the rest are dropped, other pairs skipped.
      */
    ghost predicate Settled(js: seq<Job>, n: nat, q: seq<Job>, s: U64, d: U64, k: U64, c: U64)
      reads this, coordinator
    {
      && coordinator != null && coordinator.Valid() && |js| <= n && |q| <= coordinator.cap
      && var room := coordinator.cap - |q|;
         var taken := if |js| < room then |js| else room;
         && coordinator.queue == q + js[..taken]
         && submitted == Plus(s, taken)
         && dropped == Plus(d, |js| - taken) && coordinator.dropped == Plus(c, |js| - taken)
         && skipped == Plus(k, n - |js|)
    }

    method InterceptOne(anchor: VectorRecord, retrieved: VectorRecord,
                        ghost js: seq<Job>, ghost n: nat, ghost q: seq<Job>,
                        ghost s: U64, ghost d: U64, ghost k: U64, ghost c: U64)
      requires Settled(js, n, q, s, d, k, c)
      modifies this, coordinator
      ensures var more := if anchor.memoryId == retrieved.memoryId then [JobOf(anchor, retrieved)] else [];
              Settled(js + more, n + 1, q, s, d, k, c)
    {
      if anchor.memoryId != retrieved.memoryId {
        skipped := Plus(skipped, 1);
        PlusPlus(k, n - |js|, 1);
        assert js + [] == js;
      } else {
        var job := JobOf(anchor, retrieved);
        ghost var room := coordinator.cap - |q|;
        Offer(job);
        ghost var more := js + [job];
        if |js| < room {
          PlusPlus(s, |js|, 1);
          assert js[..|js|] == js && more[..|more|] == more;
          assert q + js + [job] == q + more;
        } else {
          PlusPlus(d, |js| - room, 1);
          PlusPlus(c, |js| - room, 1);
          assert more[..room] == js[..room];
        }
      }
    }

    /**
      The records come back untouched. Of the matching pairs the first ones fill the room left in the
      queue, the rest are dropped, pairs that name two memories are skipped, and nothing is lost.
      */
    method InterceptQueryResults(done: bool, anchors: seq<VectorRecord>, records: seq<VectorRecord>)
      returns (back: seq<VectorRecord>, failure: Option<InterceptorError>)
      requires coordinator != null ==> coordinator.Valid()
      modifies this, coordinator
      ensures back == records
      ensures failure == if coordinator == null then Some(NilCoordinator)
                         else if |anchors| != |records| then Some(LengthMismatch)
                         else if done then Some(ContextDone) else None
      ensures failure.Some? ==> submitted == old(submitted) && dropped == old(dropped) && skipped == old(skipped)
      ensures failure.Some? && coordinator != null ==> coordinator.queue == old(coordinator.queue)
      ensures failure.None? ==>
                coordinator != null &&
                Settled(Jobs(anchors, records), |records|, old(coordinator.queue), old(submitted), old(dropped),
                        old(skipped), old(coordinator.dropped))
    {
      back := records;
      if coordinator == null {
        return back, Some(NilCoordinator);
      }
      if |anchors| != |records| {
        return back, Some(LengthMismatch);
      }
      if done {
        return back, Some(ContextDone);
      }
      ghost var q, s, d, k, c := coordinator.queue, submitted, dropped, skipped, coordinator.dropped;
      assert Jobs(anchors[..0], records[..0]) == [];
      for i := 0 to |records|
        invariant Settled(Jobs(anchors[..i], records[..i]), i, q, s, d, k, c)
      {
        JobsStep(anchors, records, i);
        InterceptOne(anchors[i], records[i], Jobs(anchors[..i], records[..i]), i, q, s, d, k, c);
      }
      assert anchors[..|records|] == anchors && records[..|records|] == records;
      failure := None;
    }

    lemma JobsStep(anchors: seq<VectorRecord>, records: seq<VectorRecord>, i: nat)
      requires |anchors| == |records| && i < |records|
      ensures Jobs(anchors[..i + 1], records[..i + 1])
              == Jobs(anchors[..i], records[..i])
                 + if anchors[i].memoryId == records[i].memoryId then [JobOf(anchors[i], records[i])] else []
    {
      assert anchors[..i + 1][..i] == anchors[..i] && records[..i + 1][..i] == records[..i];
    }
  }
}
