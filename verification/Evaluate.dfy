/** pkg/evaluate and the parts of pkg/bitmask and pkg/tenant it reads. */
module Evaluate {
  import opened ByteStrings

  datatype Decision =
    Use | Qualify | Refresh | Escalate | Refuse | Ignore | Quarantine | DeleteRequested | HardRefuse
  {
    /** The `uint8` behind the Go constant. */
    function Code(): (c: byte)
      ensures c <= 8
    {
      match this
      case Use => 0
      case Qualify => 1
      case Refresh => 2
      case Escalate => 3
      case Refuse => 4
      case Ignore => 5
      case Quarantine => 6
      case DeleteRequested => 7
      case HardRefuse => 8
    }
  }

  /** The reason strings; `Text` is what is stored and hashed. */
  datatype Reason =
    | UseReason
    | TenantMismatch
    | DomainMismatch
    | DeletionRequested
    | LifecycleInvalid
    | MemoryExpired
    | MemoryRevoked
    | SafetyIsolationTriggered
    | ProhibitedUseEnforced
    | NoExplicitUsePermitted
    | MemoryProfileMissing
    | QualifiedUseOnly
    | RuntimeStateClear
    | RuntimeStateUninitialized
    | MemoryPoisoningSuspected
    | PromptInjectionDetected
    | CrossSessionLeak
    | CrossAgentLeak
    | RetroactiveRevocation
    | MemoryQuarantined
  {
    function Text(): Bytes {
      match this
      case UseReason => Ascii("USE")
      case TenantMismatch => Ascii("TENANT_MISMATCH")
      case DomainMismatch => Ascii("DOMAIN_MISMATCH")
      case DeletionRequested => Ascii("DELETION_REQUESTED")
      case LifecycleInvalid => Ascii("LIFECYCLE_INVALID")
      case MemoryExpired => Ascii("MEMORY_EXPIRED")
      case MemoryRevoked => Ascii("MEMORY_REVOKED")
      case SafetyIsolationTriggered => Ascii("SAFETY_ISOLATION_TRIGGERED")
      case ProhibitedUseEnforced => Ascii("PROHIBITED_USE_ENFORCED")
      case NoExplicitUsePermitted => Ascii("NO_EXPLICIT_USE_PERMITTED")
      case MemoryProfileMissing => Ascii("MEMORY_PROFILE_MISSING")
      case QualifiedUseOnly => Ascii("QUALIFIED_USE_ONLY")
      case RuntimeStateClear => Ascii("RUNTIME_STATE_CLEAR")
      case RuntimeStateUninitialized => Ascii("RUNTIME_STATE_UNINITIALIZED")
      case MemoryPoisoningSuspected => Ascii("MEMORY_POISONING_SUSPECTED")
      case PromptInjectionDetected => Ascii("PROMPT_INJECTION_DETECTED")
      case CrossSessionLeak => Ascii("CROSS_SESSION_LEAK")
      case CrossAgentLeak => Ascii("CROSS_AGENT_LEAK")
      case RetroactiveRevocation => Ascii("RETROACTIVE_REVOCATION")
      case MemoryQuarantined => Ascii("MEMORY_QUARANTINED")
    }
  }

  type Flags = bv64

  const FlagLifecycleExpired: Flags := 2
  const FlagLifecycleDeletionReq: Flags := 4
  const FlagLifecycleRevoked: Flags := 8
  const InvalidLifecycleFlags: Flags := FlagLifecycleExpired | FlagLifecycleDeletionReq | FlagLifecycleRevoked

  predicate Meets(f: Flags, mask: Flags) {
    f & mask != 0
  }

  predicate Within(small: Flags, big: Flags) {
    small & big == small
  }

  datatype EvaluationMask = EvaluationMask(
    requiredLifecycle: Flags,
    prohibitedSafety: Flags,
    allowedUseClasses: Flags,
    prohibitedUseBlocks: Flags,
    sensitivityLimit: Flags
  )

  function EvaluateMemoryHotPath(
    runtimeTenant: Digest, memTenant: Digest, runtimeDomain: Digest, memDomain: Digest,
    flags: Flags, mask: EvaluationMask
  ): (Decision, Reason)
  {
    if memTenant != runtimeTenant then (HardRefuse, TenantMismatch)
    else if memDomain != runtimeDomain then (Refuse, DomainMismatch)
    else if Meets(flags, InvalidLifecycleFlags) then
      if Meets(flags, FlagLifecycleDeletionReq) then (DeleteRequested, DeletionRequested)
      else if Meets(flags, FlagLifecycleExpired) then (Refresh, MemoryExpired)
      else if Meets(flags, FlagLifecycleRevoked) then (Refuse, MemoryRevoked)
      else (Refuse, LifecycleInvalid)
    else if Meets(flags, mask.prohibitedSafety) then (Quarantine, SafetyIsolationTriggered)
    else if Meets(flags, mask.prohibitedUseBlocks) then (Refuse, ProhibitedUseEnforced)
    else if !Meets(flags, mask.allowedUseClasses) then (Ignore, NoExplicitUsePermitted)
    else (Use, UseReason)
  }

  predicate LifecycleClear(f: Flags) {
    !Meets(f, FlagLifecycleExpired) && !Meets(f, FlagLifecycleDeletionReq) && !Meets(f, FlagLifecycleRevoked)
  }

  /** Whatever a mask requires of the lifecycle or limits in sensitivity, the decision is the same. */
  lemma TwoMaskFieldsAreUnread(
    rt: Digest, mt: Digest, rd: Digest, md: Digest, flags: Flags, mask: EvaluationMask, required: Flags, limit: Flags
  )
    ensures var other := mask.(requiredLifecycle := required, sensitivityLimit := limit);
            EvaluateMemoryHotPath(rt, mt, rd, md, flags, other) == EvaluateMemoryHotPath(rt, mt, rd, md, flags, mask)
  {
  }

  lemma NoLifecycleFlag(f: Flags)
    ensures LifecycleClear(f) <==> !Meets(f, InvalidLifecycleFlags)
  {
    assert f & 14 == (f & 2) | (f & 4) | (f & 8);
  }

  predicate SafetyClear(f: Flags, mask: EvaluationMask) {
    !Meets(f, mask.prohibitedSafety) && !Meets(f, mask.prohibitedUseBlocks) && Meets(f, mask.allowedUseClasses)
  }

  /** The hard boundaries: a memory is used exactly when it crosses none of them. */
  lemma UseExactly(rt: Digest, mt: Digest, rd: Digest, md: Digest, flags: Flags, mask: EvaluationMask)
    ensures EvaluateMemoryHotPath(rt, mt, rd, md, flags, mask).0 == Use <==>
            mt == rt && md == rd && LifecycleClear(flags) && SafetyClear(flags, mask)
  {
    NoLifecycleFlag(flags);
  }

  /**
    `tight` prohibits at least what `loose` prohibits and allows at most what it allows. The other two
    fields are never read.
    */
  predicate Tightens(tight: EvaluationMask, loose: EvaluationMask) {
    && Within(loose.prohibitedSafety, tight.prohibitedSafety)
    && Within(loose.prohibitedUseBlocks, tight.prohibitedUseBlocks)
    && Within(tight.allowedUseClasses, loose.allowedUseClasses)
  }

  lemma MeetsMore(f: Flags, small: Flags, big: Flags)
    requires Within(small, big)
    ensures Meets(f, small) ==> Meets(f, big)
  {
    assert f & small == (f & big) & small;
  }

  lemma SafetyLoosens(f: Flags, tight: EvaluationMask, loose: EvaluationMask)
    requires Tightens(tight, loose) && SafetyClear(f, tight)
    ensures SafetyClear(f, loose)
  {
    MeetsMore(f, loose.prohibitedSafety, tight.prohibitedSafety);
    MeetsMore(f, loose.prohibitedUseBlocks, tight.prohibitedUseBlocks);
    MeetsMore(f, tight.allowedUseClasses, loose.allowedUseClasses);
  }

  lemma TighterMaskAdmitsLess(
    rt: Digest, mt: Digest, rd: Digest, md: Digest, flags: Flags, tight: EvaluationMask, loose: EvaluationMask
  )
    requires Tightens(tight, loose)
    requires EvaluateMemoryHotPath(rt, mt, rd, md, flags, tight).0 == Use
    ensures EvaluateMemoryHotPath(rt, mt, rd, md, flags, loose).0 == Use
  {
    UseExactly(rt, mt, rd, md, flags, tight);
    SafetyLoosens(flags, tight, loose);
    UseExactly(rt, mt, rd, md, flags, loose);
  }

  /** A mask is met by a common bit; bits 1, 2 and 3 are the lifecycle flags. */
  lemma MaskBits(f: Flags, mask: Flags)
    ensures Meets(f, mask) <==> f & mask != 0
    ensures FlagLifecycleExpired == 2 && FlagLifecycleDeletionReq == 4 && FlagLifecycleRevoked == 8
  {
  }

  /** The order of the boundaries: which decision and reason the first one crossed gives. */
  lemma EachBoundaryExactly(rt: Digest, mt: Digest, rd: Digest, md: Digest, flags: Flags, mask: EvaluationMask)
    ensures var (d, r) := EvaluateMemoryHotPath(rt, mt, rd, md, flags, mask);
            && (mt != rt ==> d == HardRefuse && r == TenantMismatch)
            && (mt == rt && md != rd ==> d == Refuse && r == DomainMismatch)
            && (mt == rt && md == rd ==>
                  && (Meets(flags, 4) ==> d == DeleteRequested && r == DeletionRequested)
                  && (!Meets(flags, 4) && Meets(flags, 2) ==> d == Refresh && r == MemoryExpired)
                  && (!Meets(flags, 4) && !Meets(flags, 2) && Meets(flags, 8) ==> d == Refuse && r == MemoryRevoked)
                  && (!Meets(flags, 4) && !Meets(flags, 2) && !Meets(flags, 8) ==> Unflagged(d, r, flags, mask)))
  {
    NoLifecycleFlag(flags);
  }

  /** What is left to the mask when no lifecycle flag stands. */
  ghost predicate Unflagged(d: Decision, r: Reason, flags: Flags, mask: EvaluationMask) {
    && (Meets(flags, mask.prohibitedSafety) ==> d == Quarantine && r == SafetyIsolationTriggered)
    && (!Meets(flags, mask.prohibitedSafety) && Meets(flags, mask.prohibitedUseBlocks) ==>
          d == Refuse && r == ProhibitedUseEnforced)
    && (!Meets(flags, mask.prohibitedSafety) && !Meets(flags, mask.prohibitedUseBlocks) ==>
          && (!Meets(flags, mask.allowedUseClasses) ==> d == Ignore && r == NoExplicitUsePermitted)
          && (Meets(flags, mask.allowedUseClasses) ==> d == Use && r == UseReason))
  }

  /** The numbers of the decisions. */
  lemma DecisionNumbers()
    ensures Use.Code() == 0 && Qualify.Code() == 1 && Refresh.Code() == 2 && Escalate.Code() == 3
    ensures Refuse.Code() == 4 && Ignore.Code() == 5 && Quarantine.Code() == 6
    ensures DeleteRequested.Code() == 7 && HardRefuse.Code() == 8
  {
  }

  /** The strings behind the reasons, as they are hashed into leaves and fingerprints. */
  lemma ReasonStringsOfUse()
    ensures UseReason.Text() == Ascii("USE")
    ensures TenantMismatch.Text() == Ascii("TENANT_MISMATCH")
    ensures DomainMismatch.Text() == Ascii("DOMAIN_MISMATCH")
    ensures DeletionRequested.Text() == Ascii("DELETION_REQUESTED")
    ensures LifecycleInvalid.Text() == Ascii("LIFECYCLE_INVALID")
  {
  }

  lemma ReasonStringsOfFlags()
    ensures MemoryExpired.Text() == Ascii("MEMORY_EXPIRED")
    ensures MemoryRevoked.Text() == Ascii("MEMORY_REVOKED")
    ensures SafetyIsolationTriggered.Text() == Ascii("SAFETY_ISOLATION_TRIGGERED")
    ensures ProhibitedUseEnforced.Text() == Ascii("PROHIBITED_USE_ENFORCED")
    ensures NoExplicitUsePermitted.Text() == Ascii("NO_EXPLICIT_USE_PERMITTED")
  {
  }

  lemma ReasonStringsOfMask()
    ensures MemoryProfileMissing.Text() == Ascii("MEMORY_PROFILE_MISSING")
    ensures QualifiedUseOnly.Text() == Ascii("QUALIFIED_USE_ONLY")
    ensures RuntimeStateClear.Text() == Ascii("RUNTIME_STATE_CLEAR")
    ensures RuntimeStateUninitialized.Text() == Ascii("RUNTIME_STATE_UNINITIALIZED")
    ensures MemoryPoisoningSuspected.Text() == Ascii("MEMORY_POISONING_SUSPECTED")
  {
  }

  lemma ReasonStringsOfState()
    ensures PromptInjectionDetected.Text() == Ascii("PROMPT_INJECTION_DETECTED")
    ensures CrossSessionLeak.Text() == Ascii("CROSS_SESSION_LEAK")
    ensures CrossAgentLeak.Text() == Ascii("CROSS_AGENT_LEAK")
    ensures RetroactiveRevocation.Text() == Ascii("RETROACTIVE_REVOCATION")
    ensures MemoryQuarantined.Text() == Ascii("MEMORY_QUARANTINED")
  {
  }
}
