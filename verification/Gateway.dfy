/** pkg/gateway/gateway.go: the scrubber that rewrites a message window before a model sees it. */
module Gateway {
  import opened ByteStrings
  import opened Outcomes
  import opened Merkle
  import opened Evaluate
  import opened Quarantine
  import opened SnapshotHash
  import opened Monitor

  datatype LLMMessage = LLMMessage(role: Bytes, content: Bytes)

  datatype MemoryContextBinding = MemoryContextBinding(memoryId: Id, memoryHash: Digest, messageIdx: int)

  datatype MemoryProfile = MemoryProfile(tenantHash: Digest, domainHash: Digest, flags: Flags, usageConstraints: Bytes)

  /**
    The strings the gateway writes: tombstones, annotation banners and reason codes. The proofs hold
    for any; `VeraxisTexts` are the gateway's own.
    */
  datatype Texts = Texts(tombstone: Decision -> Bytes, banner: Bytes -> Bytes, reason: Reason -> Bytes)

  /** The wrapper and the runtime arguments of one call. */
  datatype Scrub = Scrub(
    texts: Texts, policyHash: Digest, monitored: bool, tenant: Digest, domain: Digest, mask: EvaluationMask
  )

  /**
    What the cache and the monitor answer when one binding is processed. Every binding looks them up
    again, so two bindings of one call may see different snapshots.
    */
  datatype View = View(profile: Option<MemoryProfile>, snapshot: Option<RuntimeSnapshot>)

  // ------------------------------------------------------------ one binding

  datatype Effect = Keep | Annotate(constraints: Bytes) | Stamp(cause: Decision)

  datatype Ruling = Ruling(decision: Decision, reason: Reason, injected: bool, effect: Effect)

  function Static(g: Scrub, p: MemoryProfile): (Decision, Reason) {
    EvaluateMemoryHotPath(g.tenant, p.tenantHash, g.domain, p.domainHash, p.flags, g.mask)
  }

  function Decide(g: Scrub, id: Id, p: MemoryProfile, snapshot: Option<RuntimeSnapshot>): (Decision, Reason) {
    if p.tenantHash != g.tenant then (HardRefuse, TenantMismatch)
    else if p.domainHash != g.domain then (Refuse, DomainMismatch)
    else if g.monitored && LookupIn(snapshot, id).decision != Use then
      (LookupIn(snapshot, id).decision, LookupIn(snapshot, id).reason)
    else Static(g, p)
  }

  function Rule(g: Scrub, b: MemoryContextBinding, inRange: bool, v: View): Ruling {
    if !inRange then Ruling(HardRefuse, MemoryProfileMissing, false, Keep)
    else if v.profile == None then Ruling(HardRefuse, MemoryProfileMissing, false, Stamp(HardRefuse))
    else
      var p := v.profile.value;
      var (decision, reason) := Decide(g, b.memoryId, p, v.snapshot);
      if decision == Use && p.usageConstraints != [] then
        Ruling(Qualify, QualifiedUseOnly, true, Annotate(p.usageConstraints))
      else if decision == Use then Ruling(Use, reason, true, Keep)
      else if decision == Qualify then Ruling(Qualify, reason, true, Annotate(p.usageConstraints))
      else Ruling(decision, reason, false, Stamp(decision))
  }

  /** Injected, stamped, or out of range: exactly one of the three. */
  lemma RulingShape(g: Scrub, b: MemoryContextBinding, inRange: bool, v: View)
    ensures var r := Rule(g, b, inRange, v);
            && (r.injected <==> r.decision == Use || r.decision == Qualify)
            && (inRange ==> (r.effect.Stamp? <==> !r.injected))
            && (r.effect.Stamp? ==> r.effect.cause == r.decision)
            && (!inRange ==> !r.injected && r.effect == Keep)
  {
  }

  function Leaf(h: Hash, g: Scrub, b: MemoryContextBinding, r: Ruling): LeafRecord {
    LeafRecord(b.memoryId, b.memoryHash, r.decision.Code(), r.injected, g.policyHash, h(g.texts.reason(r.reason)))
  }

  // ------------------------------------------------------------ contents

  function Alter(x: Texts, e: Effect, content: Bytes): Bytes {
    match e
    case Keep => content
    case Annotate(c) => x.banner(c) + content
    case Stamp(d) => x.tombstone(d)
  }

  /** What a binding does, and to which message. */
  datatype Act = Act(index: int, effect: Effect)

  /** The last act that blocks message `i`, or -1. */
  function LastStamp(acts: seq<Act>, i: int): (k: int)
    ensures -1 <= k < |acts|
    ensures k >= 0 ==> acts[k].index == i && acts[k].effect.Stamp?
  {
    if acts == [] then -1
    else
      var n := |acts| - 1;
      if acts[n].index == i && acts[n].effect.Stamp? then n else LastStamp(acts[..n], i)
  }

  /** The banners of the qualifying acts on message `i` from `first` on, the latest outermost. */
  function Banners(x: Texts, acts: seq<Act>, first: nat, i: int): Bytes {
    if |acts| <= first then []
    else
      var n := |acts| - 1;
      var rest := Banners(x, acts[..n], first, i);
      if acts[n].index == i && acts[n].effect.Annotate? then x.banner(acts[n].effect.constraints) + rest else rest
  }

  function Base(x: Texts, acts: seq<Act>, i: int, original: Bytes): Bytes {
    var k := LastStamp(acts, i);
    if k >= 0 then x.tombstone(acts[k].effect.cause) else original
  }

  /**
    The closed form: the tombstone of the last blocking act, or the original text if none blocks,
    behind the banners of the qualifying acts after it.
    */
  function Content(x: Texts, acts: seq<Act>, i: int, original: Bytes): Bytes {
    Banners(x, acts, LastStamp(acts, i) + 1, i) + Base(x, acts, i, original)
  }

  /** One more act: the closed form follows what the loop does. */
  lemma ContentStep(x: Texts, acts: seq<Act>, a: Act, i: int, original: Bytes)
    ensures Content(x, acts + [a], i, original)
            == if a.index == i then Alter(x, a.effect, Content(x, acts, i, original)) else Content(x, acts, i, original)
  {
    var all, k := acts + [a], LastStamp(acts, i);
    assert all[..|acts|] == acts && all[|acts|] == a;
    if a.index == i && a.effect.Stamp? {
      assert LastStamp(all, i) == |acts| && Banners(x, all, |acts| + 1, i) == [];
      Nothing(x.tombstone(a.effect.cause));
    } else {
      assert LastStamp(all, i) == k;
      assert k >= 0 ==> all[k] == acts[k];
      var later, base := Banners(x, acts, k + 1, i), Base(x, acts, i, original);
      assert Base(x, all, i, original) == base;
      if a.index == i && a.effect.Annotate? {
        Nest(x.banner(a.effect.constraints), later, base);
      }
    }
  }

  lemma Nothing(b: Bytes)
    ensures [] + b == b
  {
  }

  lemma Nest(a: Bytes, b: Bytes, c: Bytes)
    ensures a + b + c == a + (b + c)
  {
  }

  // ------------------------------------------------------------ SanitizeContextWindow

  predicate InRange(idx: int, n: nat) {
    0 <= idx < n
  }

  function RulingOf(g: Scrub, n: nat, b: MemoryContextBinding, v: View): Ruling {
    Rule(g, b, InRange(b.messageIdx, n), v)
  }

  /** What the bindings do to a window of `n` messages. */
  function Acts(g: Scrub, n: nat, bs: seq<MemoryContextBinding>, views: seq<View>): (acts: seq<Act>)
    requires |views| == |bs|
    ensures |acts| == |bs|
    ensures forall k :: 0 <= k < |bs| ==> acts[k] == Act(bs[k].messageIdx, RulingOf(g, n, bs[k], views[k]).effect)
  {
    seq(|bs|, k requires 0 <= k < |bs| => Act(bs[k].messageIdx, RulingOf(g, n, bs[k], views[k]).effect))
  }

  function Leaves(h: Hash, g: Scrub, n: nat, bs: seq<MemoryContextBinding>, views: seq<View>): (ls: seq<LeafRecord>)
    requires |views| == |bs|
    ensures |ls| == |bs|
    ensures forall k :: 0 <= k < |bs| ==> ls[k] == Leaf(h, g, bs[k], RulingOf(g, n, bs[k], views[k]))
  {
    seq(|bs|, k requires 0 <= k < |bs| => Leaf(h, g, bs[k], RulingOf(g, n, bs[k], views[k])))
  }

  function Scrubbed(x: Texts, messages: seq<LLMMessage>, acts: seq<Act>): (w: seq<LLMMessage>)
    ensures |w| == |messages|
    ensures forall i :: 0 <= i < |messages| ==>
              w[i] == LLMMessage(messages[i].role, Content(x, acts, i, messages[i].content))
  {
    seq(|messages|, i requires 0 <= i < |messages| =>
      LLMMessage(messages[i].role, Content(x, acts, i, messages[i].content)))
  }

  /** The window a model gets. */
  function Window(
    g: Scrub, messages: seq<LLMMessage>, bs: seq<MemoryContextBinding>, views: seq<View>
  ): (w: seq<LLMMessage>)
    requires |views| == |bs|
    ensures |w| == |messages|
    ensures forall i :: 0 <= i < |messages| ==> w[i].role == messages[i].role
  {
    Scrubbed(g.texts, messages, Acts(g, |messages|, bs, views))
  }

  datatype ScrubError = ContextDone | InvalidGateway

  /** Leaf `l` describes binding `b`, on which `d` was decided for `reason`: the fields and numbers of the Go record. */
  ghost predicate Describes(h: Hash, g: Scrub, b: MemoryContextBinding, l: LeafRecord, d: Decision, reason: Reason) {
    && l.memoryId == b.memoryId && l.memoryHash == b.memoryHash && l.policyHash == g.policyHash
    && (d == Use ==> l.decisionCode == 0) && (d == Qualify ==> l.decisionCode == 1)
    && (d == Refresh ==> l.decisionCode == 2) && (d == Escalate ==> l.decisionCode == 3)
    && (d == Refuse ==> l.decisionCode == 4) && (d == Ignore ==> l.decisionCode == 5)
    && (d == Decision.Quarantine ==> l.decisionCode == 6) && (d == DeleteRequested ==> l.decisionCode == 7)
    && (d == HardRefuse ==> l.decisionCode == 8)
    && (l.injected <==> l.decisionCode == 0 || l.decisionCode == 1)
    && l.reasonCodeHash == h(g.texts.reason(reason))
  }

  /**
    What is decided on a binding, and why: the range, the profile, tenant and domain, the monitor, the
    flags, in this order; a use under constraints is qualified.
    */
  ghost predicate Decided(g: Scrub, n: nat, b: MemoryContextBinding, v: View, d: Decision, reason: Reason) {
    if b.messageIdx < 0 || b.messageIdx >= n || v.profile.None? then d == HardRefuse && reason == MemoryProfileMissing
    else
      var p := v.profile.value;
      var now := LookupIn(v.snapshot, b.memoryId);
      var hot := EvaluateMemoryHotPath(g.tenant, p.tenantHash, g.domain, p.domainHash, p.flags, g.mask);
      && (p.tenantHash != g.tenant ==> d == HardRefuse && reason == TenantMismatch)
      && (p.tenantHash == g.tenant && p.domainHash != g.domain ==> d == Refuse && reason == DomainMismatch)
      && (p.tenantHash == g.tenant && p.domainHash == g.domain ==>
            && (g.monitored && now.decision != Use ==> d == now.decision && reason == now.reason)
            && (!g.monitored || now.decision == Use ==>
                  && (hot.0 != Use ==> d == hot.0 && reason == hot.1)
                  && (hot.0 == Use && p.usageConstraints == [] ==> d == Use && reason == hot.1)
                  && (hot.0 == Use && p.usageConstraints != [] ==> d == Qualify && reason == QualifiedUseOnly)))
  }

  /** Some decision was taken on binding `b` as the gateway takes it, and leaf `l` says so. */
  ghost predicate Accounted(h: Hash, g: Scrub, n: nat, b: MemoryContextBinding, v: View, l: LeafRecord) {
    exists d, reason :: Decided(g, n, b, v, d, reason) && Describes(h, g, b, l, d, reason)
  }

  lemma RulingDecides(g: Scrub, n: nat, b: MemoryContextBinding, v: View)
    ensures var r := RulingOf(g, n, b, v); Decided(g, n, b, v, r.decision, r.reason)
  {
    LookupNeverQualifies(v.snapshot, b.memoryId);
  }

  lemma LeafDescribes(h: Hash, g: Scrub, n: nat, b: MemoryContextBinding, v: View)
    ensures var r := RulingOf(g, n, b, v); Describes(h, g, b, Leaf(h, g, b, r), r.decision, r.reason)
  {
    RulingShape(g, b, InRange(b.messageIdx, n), v);
    DecisionNumbers();
  }

  /** Leaf `k` accounts for binding `k`. */
  lemma LeavesAccount(h: Hash, g: Scrub, n: nat, bs: seq<MemoryContextBinding>, views: seq<View>)
    requires |views| == |bs|
    ensures forall k :: 0 <= k < |bs| ==> Accounted(h, g, n, bs[k], views[k], Leaves(h, g, n, bs, views)[k])
  {
    forall k | 0 <= k < |bs|
      ensures Accounted(h, g, n, bs[k], views[k], Leaves(h, g, n, bs, views)[k])
    {
      RulingDecides(g, n, bs[k], views[k]);
      LeafDescribes(h, g, n, bs[k], views[k]);
    }
  }

  method Perform(
    x: Texts, sanitized: array<LLMMessage>, ghost messages: seq<LLMMessage>, ghost before: seq<Act>, a: Act
  )
    requires sanitized[..] == Scrubbed(x, messages, before)
    requires !InRange(a.index, sanitized.Length) ==> a.effect == Keep
    modifies sanitized
    ensures sanitized[..] == Scrubbed(x, messages, before + [a])
  {
    assert |sanitized[..]| == |messages|;
    forall i | 0 <= i < |messages|
      ensures Content(x, before + [a], i, messages[i].content)
              == if a.index == i then Alter(x, a.effect, sanitized[i].content) else sanitized[i].content
    {
      assert sanitized[..][i] == sanitized[i];
      ContentStep(x, before, a, i, messages[i].content);
    }
    match a.effect {
      case Keep =>
      case Annotate(c) =>
        sanitized[a.index] := sanitized[a.index].(content := x.banner(c) + sanitized[a.index].content);
      case Stamp(d) =>
        sanitized[a.index] := sanitized[a.index].(content := x.tombstone(d));
    }
  }

  /** The loop over bindings, updating a copy of the window in place, meets the closed form. */
  method SanitizeContextWindow(
    h: Hash, g: Scrub, done: bool, cached: bool,
    messages: seq<LLMMessage>, bs: seq<MemoryContextBinding>, views: seq<View>
  ) returns (failure: Option<ScrubError>, window: seq<LLMMessage>, leaves: seq<LeafRecord>)
    requires |views| == |bs|
    ensures failure == if done then Some(ContextDone) else if !cached then Some(InvalidGateway) else None
    ensures failure.None? ==> window == Window(g, messages, bs, views)
    ensures failure.None? ==> leaves == Leaves(h, g, |messages|, bs, views)
    ensures failure.None? ==>
              |leaves| == |bs|
              && forall k :: 0 <= k < |bs| ==> Accounted(h, g, |messages|, bs[k], views[k], leaves[k])
    ensures failure.Some? ==> window == [] && leaves == []
  {
    if done {
      return Some(ContextDone), [], [];
    }
    if !cached {
      return Some(InvalidGateway), [], [];
    }
    var n := |messages|;
    var sanitized := new LLMMessage[n](i requires 0 <= i < n => messages[i]);
    leaves := [];
    ghost var acts := Acts(g, n, bs, views);
    NothingDone(g.texts, messages);
    for k := 0 to |bs|
      invariant leaves == Leaves(h, g, n, bs, views)[..k]
      invariant sanitized[..] == Scrubbed(g.texts, messages, acts[..k])
    {
      var r := RulingOf(g, n, bs[k], views[k]);
      RulingShape(g, bs[k], InRange(bs[k].messageIdx, n), views[k]);
      assert acts[..k + 1] == acts[..k] + [acts[k]];
      Perform(g.texts, sanitized, messages, acts[..k], Act(bs[k].messageIdx, r.effect));
      leaves := leaves + [Leaf(h, g, bs[k], r)];
    }
    assert acts[..|bs|] == acts;
    window := sanitized[..];
    failure := None;
    LeavesAccount(h, g, n, bs, views);
  }

  lemma NothingDone(x: Texts, messages: seq<LLMMessage>)
    ensures Scrubbed(x, messages, []) == messages
  {
    forall i | 0 <= i < |messages|
      ensures Content(x, [], i, messages[i].content) == messages[i].content
    {
      Nothing(messages[i].content);
    }
  }

  // ------------------------------------------------------------ what reaches the model

  /** Two originals give one text exactly when some binding blocks the message. */
  lemma OriginalVisibleExactly(t: Texts, acts: seq<Act>, i: int, x: Bytes, y: Bytes)
    requires x != y
    ensures Content(t, acts, i, x) == Content(t, acts, i, y) <==> LastStamp(acts, i) >= 0
  {
    if LastStamp(acts, i) < 0 && Content(t, acts, i, x) == Content(t, acts, i, y) {
      SplitEqual(Banners(t, acts, 0, i), x, Banners(t, acts, 0, i), y);
    }
  }

  predicate Blocked(acts: seq<Act>, i: int) {
    exists k :: 0 <= k < |acts| && acts[k].index == i && acts[k].effect.Stamp?
  }

  lemma {:induction false} BlockedHasLast(acts: seq<Act>, i: int)
    ensures Blocked(acts, i) <==> LastStamp(acts, i) >= 0
  {
    if acts != [] {
      var n := |acts| - 1;
      BlockedHasLast(acts[..n], i);
      if Blocked(acts, i) && !(acts[n].index == i && acts[n].effect.Stamp?) {
        var k :| 0 <= k < |acts| && acts[k].index == i && acts[k].effect.Stamp?;
        assert acts[..n][k] == acts[k];
      }
    }
  }

  /** Two windows that differ at most in the content of messages some binding blocks. */
  predicate AgreeWhereOpen(acts: seq<Act>, a: seq<LLMMessage>, b: seq<LLMMessage>) {
    |a| == |b| && forall i :: 0 <= i < |a| ==>
      a[i].role == b[i].role && (a[i].content == b[i].content || Blocked(acts, i))
  }

  /** Nothing of a blocked message, in whatever order the bindings come, reaches window or leaves. */
  lemma NonInterference(
    h: Hash, g: Scrub, a: seq<LLMMessage>, b: seq<LLMMessage>, bs: seq<MemoryContextBinding>, views: seq<View>
  )
    requires |views| == |bs|
    requires AgreeWhereOpen(Acts(g, |a|, bs, views), a, b)
    ensures Window(g, a, bs, views) == Window(g, b, bs, views)
    ensures Leaves(h, g, |a|, bs, views) == Leaves(h, g, |b|, bs, views)
  {
    var acts := Acts(g, |a|, bs, views);
    forall i | 0 <= i < |a|
      ensures Content(g.texts, acts, i, a[i].content) == Content(g.texts, acts, i, b[i].content)
    {
      BlockedHasLast(acts, i);
    }
  }

  lemma LookupNeverQualifies(s: Option<RuntimeSnapshot>, id: Id)
    ensures LookupIn(s, id).decision != Qualify
  {
  }

  /** A binding whose memory the monitor blocks blocks its message, whatever profile and mask say. */
  lemma RuntimeBlockStamps(g: Scrub, b: MemoryContextBinding, v: View)
    requires g.monitored && LookupIn(v.snapshot, b.memoryId).decision != Use
    ensures Rule(g, b, true, v).effect.Stamp? && !Rule(g, b, true, v).injected
  {
    LookupNeverQualifies(v.snapshot, b.memoryId);
  }

  /**
    From the history to the window: if the snapshot seen at binding `k` compiles a history that
    blocks its memory, the text of its message reaches neither window nor leaves.
    */
  lemma BlockedHistoryHidesMessage(
    h: Hash, g: Scrub, a: seq<LLMMessage>, b: seq<LLMMessage>, bs: seq<MemoryContextBinding>, views: seq<View>,
    k: nat, es: Ledger, version: U64, createdAt: int
  )
    requires |views| == |bs| && k < |bs| && |a| == |b| && g.monitored
    requires InRange(bs[k].messageIdx, |a|)
    requires views[k].snapshot == Some(Compile(h, es, version, createdAt))
    requires Reading(es, bs[k].memoryId).decision != Use
    requires forall i :: 0 <= i < |a| ==> a[i].role == b[i].role && (i != bs[k].messageIdx ==> a[i] == b[i])
    ensures Window(g, a, bs, views) == Window(g, b, bs, views)
    ensures Leaves(h, g, |a|, bs, views) == Leaves(h, g, |b|, bs, views)
    ensures !Leaves(h, g, |a|, bs, views)[k].injected
  {
    LookupReadsHistory(es, bs[k].memoryId);
    RuntimeBlockStamps(g, bs[k], views[k]);
    var acts := Acts(g, |a|, bs, views);
    assert acts[k].index == bs[k].messageIdx && acts[k].effect.Stamp?;
    NonInterference(h, g, a, b, bs, views);
  }

  /** A leaf says "injected" although another binding of the same message stamped the text out. */
  lemma InjectedLeafMayBeStamped(
    h: Hash, g: Scrub, m: LLMMessage, b: MemoryContextBinding, c: MemoryContextBinding, v: View, w: View
  )
    requires b.messageIdx == c.messageIdx == 0
    requires RulingOf(g, 1, b, v).injected && !RulingOf(g, 1, c, w).injected
    ensures Leaves(h, g, 1, [b, c], [v, w])[0].injected
    ensures Window(g, [m], [b, c], [v, w])[0].content == g.texts.tombstone(RulingOf(g, 1, c, w).decision)
  {
    RulingShape(g, c, true, w);
    var acts := Acts(g, 1, [b, c], [v, w]);
    assert acts == [acts[0]] + [acts[1]];
    ContentStep(g.texts, [acts[0]], acts[1], 0, m.content);
  }

  // ------------------------------------------------------------ tightening

  /** `tight` sees the same profile and the history of `loose` with more events, none of them a clear. */
  ghost predicate Later(h: Hash, b: MemoryContextBinding, tight: View, loose: View) {
    && tight.profile == loose.profile
    && exists es: Ledger, fs: Ledger, v: U64, w: U64, s: int, t: int ::
         && loose.snapshot == Some(Compile(h, es, v, s))
         && tight.snapshot == Some(Compile(h, es + fs, w, t))
         && LastOf(fs, b.memoryId, Clears) < 0
  }

  lemma LaterBlocksMore(h: Hash, b: MemoryContextBinding, tight: View, loose: View)
    requires Later(h, b, tight, loose)
    requires LookupIn(tight.snapshot, b.memoryId).decision == Use
    ensures LookupIn(loose.snapshot, b.memoryId).decision == Use
  {
    var es: Ledger, fs: Ledger, v: U64, w: U64, s: int, t: int :|
      && loose.snapshot == Some(Compile(h, es, v, s))
      && tight.snapshot == Some(Compile(h, es + fs, w, t))
      && LastOf(fs, b.memoryId, Clears) < 0;
    if Lookup(Fold(NoMaps, es), b.memoryId).decision != Use {
      WithoutClearStaysBlocked(es, fs, b.memoryId);
    }
  }

  /** A memory is admitted exactly when the monitor leaves it free and its profile crosses no boundary. */
  lemma InjectedExactly(g: Scrub, b: MemoryContextBinding, inRange: bool, v: View)
    ensures Rule(g, b, inRange, v).injected <==>
            && inRange && v.profile.Some?
            && (g.monitored ==> LookupIn(v.snapshot, b.memoryId).decision == Use)
            && v.profile.value.tenantHash == g.tenant && v.profile.value.domainHash == g.domain
            && LifecycleClear(v.profile.value.flags) && SafetyClear(v.profile.value.flags, g.mask)
  {
    LookupNeverQualifies(v.snapshot, b.memoryId);
    if v.profile.Some? {
      var p := v.profile.value;
      UseExactly(g.tenant, p.tenantHash, g.domain, p.domainHash, p.flags, g.mask);
    }
  }

  lemma TighterRuleAdmitsLess(
    h: Hash, g: Scrub, mask: EvaluationMask, b: MemoryContextBinding, inRange: bool, tight: View, loose: View
  )
    requires Later(h, b, tight, loose) && Tightens(mask, g.mask)
    requires Rule(g.(mask := mask), b, inRange, tight).injected
    ensures Rule(g, b, inRange, loose).injected
  {
    InjectedExactly(g.(mask := mask), b, inRange, tight);
    InjectedExactly(g, b, inRange, loose);
    SafetyLoosens(tight.profile.value.flags, mask, g.mask);
    if g.monitored {
      LaterBlocksMore(h, b, tight, loose);
    }
  }

  /** A longer history without clears and a tighter mask turn no leaf into an injected one. */
  lemma TighteningAdmitsNoMore(
    h: Hash, g: Scrub, mask: EvaluationMask, n: nat, bs: seq<MemoryContextBinding>,
    tight: seq<View>, loose: seq<View>, k: nat
  )
    requires |tight| == |loose| == |bs| && k < |bs|
    requires Later(h, bs[k], tight[k], loose[k])
    requires Tightens(mask, g.mask)
    requires Leaves(h, g.(mask := mask), n, bs, tight)[k].injected
    ensures Leaves(h, g, n, bs, loose)[k].injected
  {
    TighterRuleAdmitsLess(h, g, mask, bs[k], InRange(bs[k].messageIdx, n), tight[k], loose[k]);
  }

  // ------------------------------------------------------------ the gateway's strings

  function Tombstone(d: Decision): Bytes {
    match d
    case Refresh => Ascii("[VERAXIS: MEMORY_REFRESH_REQUIRED - CONTENT_STRIPPED]")
    case Escalate => Ascii("[VERAXIS: MEMORY_ESCALATION_REQUIRED - CONTENT_STRIPPED]")
    case Refuse => Ascii("[VERAXIS: MEMORY_ADMISSIBILITY_DENIED - CONTENT_STRIPPED]")
    case Ignore => Ascii("[VERAXIS: MEMORY_IGNORED - CONTENT_STRIPPED]")
    case Quarantine => Ascii("[VERAXIS: MEMORY_QUARANTINED - CONTENT_STRIPPED]")
    case DeleteRequested => Ascii("[VERAXIS: MEMORY_DELETION_REQUESTED - CONTENT_STRIPPED]")
    case _ => Ascii("[VERAXIS: HARD_REFUSE_BOUNDARY_VIOLATION - CONTENT_STRIPPED]")
  }

  function Banner(constraints: Bytes): Bytes {
    Ascii("[VERAXIS QUALIFIED MEMORY: ")
    + (if constraints == [] then Ascii("qualified memory; restricted downstream use") else constraints)
    + Ascii("]\n")
  }

  const VeraxisTexts := Texts(Tombstone, Banner, (r: Reason) => r.Text())

  // ------------------------------------------------------------ the window, binding by binding

  /** No bindings, no change. */
  lemma WindowOfNone(g: Scrub, messages: seq<LLMMessage>)
    ensures Window(g, messages, [], []) == messages
  {
    NothingDone(g.texts, messages);
  }

  /** One more binding touches its own message only: kept when used, behind a banner when qualified, else replaced. */
  lemma WindowOfOneMore(
    g: Scrub, messages: seq<LLMMessage>, bs: seq<MemoryContextBinding>, views: seq<View>,
    b: MemoryContextBinding, v: View, i: nat
  )
    requires |views| == |bs| && i < |messages|
    ensures var before, after := Window(g, messages, bs, views)[i], Window(g, messages, bs + [b], views + [v])[i];
            var d := RulingOf(g, |messages|, b, v).decision;
            && after.role == before.role == messages[i].role
            && (b.messageIdx != i ==> after == before)
            && (b.messageIdx == i ==>
                  && (d == Use ==> after.content == before.content)
                  && (d == Qualify ==>
                        && v.profile.Some?
                        && after.content == g.texts.banner(v.profile.value.usageConstraints) + before.content)
                  && (d != Use && d != Qualify ==> after.content == g.texts.tombstone(d)))
  {
    var n := |messages|;
    var acts, act := Acts(g, n, bs, views), Act(b.messageIdx, RulingOf(g, n, b, v).effect);
    assert Acts(g, n, bs + [b], views + [v]) == acts + [act];
    ContentStep(g.texts, acts, act, i, messages[i].content);
    OneEffect(g, b, i < n, v);
  }

  lemma OneEffect(g: Scrub, b: MemoryContextBinding, inRange: bool, v: View)
    ensures var r := Rule(g, b, inRange, v);
            inRange ==>
              && (r.decision == Use ==> r.effect == Keep)
              && (r.decision == Qualify ==> v.profile.Some? && r.effect == Annotate(v.profile.value.usageConstraints))
              && (r.decision != Use && r.decision != Qualify ==> r.effect == Stamp(r.decision))
  {
    LookupNeverQualifies(v.snapshot, b.memoryId);
  }

  /** The gateway's own tombstones. */
  lemma TombstoneStrings()
    ensures VeraxisTexts.tombstone(Refuse) == Ascii("[VERAXIS: MEMORY_ADMISSIBILITY_DENIED - CONTENT_STRIPPED]")
    ensures VeraxisTexts.tombstone(Ignore) == Ascii("[VERAXIS: MEMORY_IGNORED - CONTENT_STRIPPED]")
    ensures VeraxisTexts.tombstone(Decision.Quarantine) == Ascii("[VERAXIS: MEMORY_QUARANTINED - CONTENT_STRIPPED]")
  {
  }

  lemma StaleStrings()
    ensures VeraxisTexts.tombstone(Refresh) == Ascii("[VERAXIS: MEMORY_REFRESH_REQUIRED - CONTENT_STRIPPED]")
    ensures VeraxisTexts.tombstone(Escalate) == Ascii("[VERAXIS: MEMORY_ESCALATION_REQUIRED - CONTENT_STRIPPED]")
  {
  }

  lemma FinalStrings()
    ensures VeraxisTexts.tombstone(DeleteRequested)
            == Ascii("[VERAXIS: MEMORY_DELETION_REQUESTED - CONTENT_STRIPPED]")
    ensures VeraxisTexts.tombstone(HardRefuse) == Ascii("[VERAXIS: HARD_REFUSE_BOUNDARY_VIOLATION - CONTENT_STRIPPED]")
  {
  }

  /** A banner shows the constraints, or a fixed phrase for none. */
  lemma BannerStrings(constraints: Bytes)
    ensures constraints != [] ==>
              VeraxisTexts.banner(constraints) == Ascii("[VERAXIS QUALIFIED MEMORY: ") + constraints + Ascii("]\n")
    ensures VeraxisTexts.banner([])
            == Ascii("[VERAXIS QUALIFIED MEMORY: ") + Ascii("qualified memory; restricted downstream use")
               + Ascii("]\n")
  {
  }
}
