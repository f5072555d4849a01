/** pkg/sessionmap and pkg/audit/audit.go: signing a turn's leaves and replaying the evidence. */
module SessionMap {
  import opened ByteStrings
  import opened Outcomes
  import opened Sorting
  import opened Merkle

  /** Times are in nanoseconds since 1970. */
  datatype SessionMAP = SessionMAP(
    version: Bytes,
    sessionMapId: Id,
    sessionId: Bytes,
    agentId: Bytes,
    actorId: Bytes,
    tenantHash: Digest,
    taskId: Bytes,
    runtimeContextHash: Digest,
    policySnapshotHash: Digest,
    runtimeSnapshotHash: Digest,
    runtimeSnapshotVersion: U64,
    merkleRoot: Digest,
    signature: Sig,
    signingKeyId: Bytes,
    createdAt: int,
    expiresAt: int,
    leafRecords: seq<LeafRecord>
  )

  /** Ed25519, of which only the law of `KeyPair` is used. */
  datatype Ed25519 = Ed25519(sign: (Bytes, Bytes) -> Sig, verify: (Bytes, Bytes, Sig) -> bool)

  /** Sections 5.1.6 and 5.1.7 of RFC 8032: what `priv` signs verifies under `pub`. */
  ghost predicate KeyPair(ed: Ed25519, priv: Bytes, pub: Bytes) {
    |priv| == 64 && |pub| == 32 && forall m :: ed.verify(pub, m, ed.sign(priv, m))
  }

  /** The attested fields in writing order. */
  function Fields(s: SessionMAP): seq<Bytes> {
    [s.version, s.sessionMapId, s.sessionId, s.agentId, s.actorId, s.tenantHash, s.taskId,
     s.runtimeContextHash, s.policySnapshotHash, s.runtimeSnapshotHash, BigEndian(s.runtimeSnapshotVersion, 8),
     s.merkleRoot, s.signingKeyId, Word64(s.createdAt), Word64(s.expiresAt)]
  }

  function Joined(fs: seq<Bytes>): Bytes {
    if fs == [] then [] else Joined(fs[..|fs| - 1]) + fs[|fs| - 1]
  }

  /** The signed bytes: the fields one after the other, with nothing in between. */
  function AttestationBytes(s: SessionMAP): Bytes {
    Joined(Fields(s))
  }

  method Put(buf: Buffer, ghost all: seq<Bytes>, ghost i: nat, f: Bytes)
    requires i < |all| && f == all[i] && buf.data == Joined(all[..i])
    modifies buf
    ensures buf.data == Joined(all[..i + 1])
  {
    buf.Write(f);
    assert all[..i + 1][..i] == all[..i];
  }

  method WriteIdentity(buf: Buffer, s: SessionMAP)
    requires buf.data == []
    modifies buf
    ensures buf.data == Joined(Fields(s)[..7])
  {
    ghost var all := Fields(s);
    assert all[..0] == [];
    Put(buf, all, 0, s.version);
    Put(buf, all, 1, s.sessionMapId);
    Put(buf, all, 2, s.sessionId);
    Put(buf, all, 3, s.agentId);
    Put(buf, all, 4, s.actorId);
    Put(buf, all, 5, s.tenantHash);
    Put(buf, all, 6, s.taskId);
  }

  method WriteSnapshots(buf: Buffer, s: SessionMAP)
    requires buf.data == Joined(Fields(s)[..7])
    modifies buf
    ensures buf.data == Joined(Fields(s)[..12])
  {
    ghost var all := Fields(s);
    Put(buf, all, 7, s.runtimeContextHash);
    Put(buf, all, 8, s.policySnapshotHash);
    Put(buf, all, 9, s.runtimeSnapshotHash);
    Put(buf, all, 10, BigEndian(s.runtimeSnapshotVersion, 8));
    Put(buf, all, 11, s.merkleRoot);
  }

  method WriteAttestation(s: SessionMAP) returns (b: Bytes)
    ensures b == AttestationBytes(s)
  {
    var buf := new Buffer();
    ghost var all := Fields(s);
    WriteIdentity(buf, s);
    WriteSnapshots(buf, s);
    Put(buf, all, 12, s.signingKeyId);
    Put(buf, all, 13, Word64(s.createdAt));
    Put(buf, all, 14, Word64(s.expiresAt));
    assert all[..15] == all;
    b := buf.data;
  }

  datatype MapError = ZeroLeaves | InvalidSigningKey | InvalidTTL

  /** GenerateSessionMAPWithRuntimeSnapshot on a record that holds everything but root, signature and expiry. */
  function Generate(
    h: Hash, sort: LeafSort, ed: Ed25519, draft: SessionMAP, priv: Bytes, ttl: int
  ): Result<SessionMAP, MapError>
  {
    if draft.leafRecords == [] then Err(ZeroLeaves)
    else if |priv| != 64 then Err(InvalidSigningKey)
    else if ttl <= 0 then Err(InvalidTTL)
    else
      var unsigned := draft.(version := Ascii("0.1"), merkleRoot := TurnRoot(h, sort, draft.leafRecords),
                             expiresAt := draft.createdAt + ttl, signature := Zeros(64));
      Ok(unsigned.(signature := ed.sign(priv, AttestationBytes(unsigned))))
  }

  // ------------------------------------------------------------ replay

  datatype Verification = Verification(signatureValid: bool, merkleRootValid: bool, replayMatch: bool)

  datatype AuditError = NoLeaves | InvalidPublicKey | InvalidPolicyVerifier | InvalidRuntimeVerifier

  function VerifySessionMAP(
    h: Hash, sort: LeafSort, ed: Ed25519, pub: Bytes, s: SessionMAP
  ): Result<Verification, AuditError>
  {
    if s.leafRecords == [] then Err(NoLeaves)
    else if |pub| != 32 then Err(InvalidPublicKey)
    else if TurnRoot(h, sort, s.leafRecords) != s.merkleRoot then Ok(Verification(false, false, false))
    else
      var valid := ed.verify(pub, AttestationBytes(s), s.signature);
      Ok(Verification(valid, true, valid))
  }

  /** With a policy verifier and a runtime verifier, either of which may be missing. */
  function VerifyWithPolicyAndRuntime(
    h: Hash, sort: LeafSort, ed: Ed25519, pub: Bytes, s: SessionMAP,
    policy: Option<Digest -> bool>, runtime: Option<(Digest, U64) -> bool>
  ): Result<Verification, AuditError>
  {
    if policy.None? then Err(InvalidPolicyVerifier)
    else if runtime.None? then Err(InvalidRuntimeVerifier)
    else if !policy.value(s.policySnapshotHash) then Ok(Verification(false, false, false))
    else if !runtime.value(s.runtimeSnapshotHash, s.runtimeSnapshotVersion) then Ok(Verification(false, false, false))
    else VerifySessionMAP(h, sort, ed, pub, s)
  }

  /**
    What each part of a verification means, for every map and key: the root is that of the leaves, and
    the signature is accepted on the attested bytes, which is not asked when the root is wrong.
    */
  lemma ReplaysExactly(h: Hash, sort: LeafSort, ed: Ed25519, pub: Bytes, s: SessionMAP)
    ensures var r := VerifySessionMAP(h, sort, ed, pub, s);
            var rooted := s.merkleRoot == TurnRoot(h, sort, s.leafRecords);
            var signed := ed.verify(pub, AttestationBytes(s), s.signature);
            && (r == Err(NoLeaves) <==> s.leafRecords == [])
            && (r == Err(InvalidPublicKey) <==> s.leafRecords != [] && |pub| != 32)
            && (r.Ok? <==> s.leafRecords != [] && |pub| == 32)
            && (r.Ok? ==>
                  && (r.value.merkleRootValid <==> rooted)
                  && (r.value.signatureValid <==> rooted && signed)
                  && (r.value.replayMatch <==> rooted && signed))
  {
  }

  /** Under a key that accepts only what `priv` signed, a map that replays carries that signature of its own bytes. */
  lemma ReplayedIsSigned(h: Hash, sort: LeafSort, ed: Ed25519, priv: Bytes, pub: Bytes, s: SessionMAP)
    requires forall m, sig :: ed.verify(pub, m, sig) ==> sig == ed.sign(priv, m)
    requires VerifySessionMAP(h, sort, ed, pub, s).Ok? && VerifySessionMAP(h, sort, ed, pub, s).value.replayMatch
    ensures s.signature == ed.sign(priv, AttestationBytes(s))
    ensures s.merkleRoot == TurnRoot(h, sort, s.leafRecords)
  {
    ReplaysExactly(h, sort, ed, pub, s);
  }

  /** The two-verifier form: each missing verifier has its error, and an unknown hash proves nothing. */
  lemma ReplaysFullyExactly(
    h: Hash, sort: LeafSort, ed: Ed25519, pub: Bytes, s: SessionMAP,
    policy: Option<Digest -> bool>, runtime: Option<(Digest, U64) -> bool>
  )
    ensures var r := VerifyWithPolicyAndRuntime(h, sort, ed, pub, s, policy, runtime);
            && (r == Err(InvalidPolicyVerifier) <==> policy.None?)
            && (r == Err(InvalidRuntimeVerifier) <==> policy.Some? && runtime.None?)
            && (policy.Some? && runtime.Some? ==>
                  var known := policy.value(s.policySnapshotHash)
                               && runtime.value(s.runtimeSnapshotHash, s.runtimeSnapshotVersion);
                  && (known ==> r == VerifySessionMAP(h, sort, ed, pub, s))
                  && (!known ==> r == Ok(Verification(false, false, false))))
  {
  }

  /** When a map is generated, and what it holds: the draft but for root, signature, version and expiry. */
  lemma GeneratedExactly(h: Hash, sort: LeafSort, ed: Ed25519, draft: SessionMAP, priv: Bytes, ttl: int)
    ensures var r := Generate(h, sort, ed, draft, priv, ttl);
            && (r == Err(ZeroLeaves) <==> draft.leafRecords == [])
            && (r == Err(InvalidSigningKey) <==> draft.leafRecords != [] && |priv| != 64)
            && (r == Err(InvalidTTL) <==> draft.leafRecords != [] && |priv| == 64 && ttl <= 0)
            && (r.Ok? ==>
                  var s := r.value;
                  && s == draft.(version := s.version, merkleRoot := s.merkleRoot, signature := s.signature,
                                 expiresAt := s.expiresAt)
                  && s.version == Ascii("0.1") && s.merkleRoot == TurnRoot(h, sort, draft.leafRecords)
                  && s.expiresAt == draft.createdAt + ttl
                  && s.signature == ed.sign(priv, AttestationBytes(s)))
  {
    var r := Generate(h, sort, ed, draft, priv, ttl);
    if r.Ok? {
      SignatureIsNotAttested(r.value, Zeros(64));
      assert r.value.(signature := Zeros(64))
             == draft.(version := Ascii("0.1"), merkleRoot := TurnRoot(h, sort, draft.leafRecords),
                       expiresAt := draft.createdAt + ttl, signature := Zeros(64));
    }
  }

  lemma AttestedHead(s: SessionMAP)
    ensures Joined(Fields(s)[..8])
            == s.version + s.sessionMapId + s.sessionId + s.agentId + s.actorId + s.tenantHash + s.taskId
               + s.runtimeContextHash
  {
    var fs := Fields(s);
    JoinedFirst(fs, 1);
    JoinedFirst(fs, 2);
    JoinedFirst(fs, 3);
    JoinedFirst(fs, 4);
    JoinedFirst(fs, 5);
    JoinedFirst(fs, 6);
    JoinedFirst(fs, 7);
    JoinedFirst(fs, 8);
    assert fs[..0] == [] && [] + s.version == s.version;
  }

  /** The attested bytes, field by field. */
  lemma AttestedBytes(s: SessionMAP)
    ensures AttestationBytes(s)
            == s.version + s.sessionMapId + s.sessionId + s.agentId + s.actorId + s.tenantHash + s.taskId
               + s.runtimeContextHash + s.policySnapshotHash + s.runtimeSnapshotHash
               + BigEndian(s.runtimeSnapshotVersion, 8) + s.merkleRoot + s.signingKeyId
               + Word64(s.createdAt) + Word64(s.expiresAt)
  {
    var fs := Fields(s);
    AttestedHead(s);
    JoinedFirst(fs, 9);
    JoinedFirst(fs, 10);
    JoinedFirst(fs, 11);
    JoinedFirst(fs, 12);
    JoinedFirst(fs, 13);
    JoinedFirst(fs, 14);
    JoinedFirst(fs, 15);
    assert fs[..15] == fs;
  }

  lemma JoinedFirst(fs: seq<Bytes>, n: nat)
    requires 0 < n <= |fs|
    ensures Joined(fs[..n]) == Joined(fs[..n - 1]) + fs[n - 1]
  {
    assert fs[..n][..n - 1] == fs[..n - 1];
  }

  /** A generated map replays under the matching key. */
  lemma GeneratedReplays(h: Hash, sort: LeafSort, ed: Ed25519, draft: SessionMAP, priv: Bytes, pub: Bytes, ttl: int)
    requires KeyPair(ed, priv, pub)
    requires Generate(h, sort, ed, draft, priv, ttl).Ok?
    ensures VerifySessionMAP(h, sort, ed, pub, Generate(h, sort, ed, draft, priv, ttl).value)
            == Ok(Verification(true, true, true))
  {
    var s := Generate(h, sort, ed, draft, priv, ttl).value;
    SignatureIsNotAttested(s, Zeros(64));
  }

  /** ... and in full exactly when the two verifiers know its policy and its runtime snapshot. */
  lemma GeneratedReplaysFullyExactly(
    h: Hash, sort: LeafSort, ed: Ed25519, draft: SessionMAP, priv: Bytes, pub: Bytes, ttl: int,
    policy: Digest -> bool, runtime: (Digest, U64) -> bool
  )
    requires KeyPair(ed, priv, pub)
    requires Generate(h, sort, ed, draft, priv, ttl).Ok?
    ensures var s := Generate(h, sort, ed, draft, priv, ttl).value;
            VerifyWithPolicyAndRuntime(h, sort, ed, pub, s, Some(policy), Some(runtime))
            == Ok(Verification(true, true, true))
            <==> policy(draft.policySnapshotHash) && runtime(draft.runtimeSnapshotHash, draft.runtimeSnapshotVersion)
  {
    GeneratedReplays(h, sort, ed, draft, priv, pub, ttl);
  }

  lemma SignatureIsNotAttested(s: SessionMAP, sig: Sig)
    ensures AttestationBytes(s.(signature := sig)) == AttestationBytes(s)
  {
  }

  /** Reordering leaves of which no two different ones share an ID changes no verdict. */
  lemma ReorderingReplays(h: Hash, sort: LeafSort, ed: Ed25519, pub: Bytes, s: SessionMAP, leaves: seq<LeafRecord>)
    requires multiset(leaves) == multiset(s.leafRecords)
    requires KeysIdentify(MemoryIdOf, s.leafRecords)
    ensures VerifySessionMAP(h, sort, ed, pub, s.(leafRecords := leaves)) == VerifySessionMAP(h, sort, ed, pub, s)
  {
    assert |multiset(leaves)| == |leaves| && |multiset(s.leafRecords)| == |s.leafRecords|;
    ReorderingKeepsRoot(h, sort, s.leafRecords, leaves);
    LeavesAreNotAttested(s, leaves);
  }

  lemma LeavesAreNotAttested(s: SessionMAP, leaves: seq<LeafRecord>)
    ensures AttestationBytes(s.(leafRecords := leaves)) == AttestationBytes(s)
  {
  }

  predicate RootChecks(h: Hash, sort: LeafSort, ed: Ed25519, pub: Bytes, s: SessionMAP) {
    var r := VerifySessionMAP(h, sort, ed, pub, s);
    r.Ok? && r.value.merkleRootValid
  }

  /** Two maps with one root that both pass the root check carry the same leaves up to order. */
  lemma OneRootOneSetOfLeaves(h: Hash, sort: LeafSort, ed: Ed25519, pub: Bytes, s: SessionMAP, t: SessionMAP)
    requires RootChecks(h, sort, ed, pub, s) && RootChecks(h, sort, ed, pub, t)
    requires s.merkleRoot == t.merkleRoot
    ensures sort(s.leafRecords) != [] && sort(t.leafRecords) != []
    ensures || multiset(s.leafRecords) == multiset(t.leafRecords)
            || CollisionBetween(h, Hashed(h, sort(s.leafRecords)), Hashed(h, sort(t.leafRecords)))
  {
    RootBinds(h, sort, s.leafRecords, t.leafRecords);
  }

  // ------------------------------------------------------------ what a signature binds

  predicate SameLengths(s: SessionMAP, t: SessionMAP) {
    && |s.version| == |t.version| && |s.sessionId| == |t.sessionId| && |s.agentId| == |t.agentId|
    && |s.actorId| == |t.actorId| && |s.taskId| == |t.taskId| && |s.signingKeyId| == |t.signingKeyId|
  }

  /** Equal in every attested field; times count modulo 2^64, as `uint64` does. */
  predicate SameAttested(s: SessionMAP, t: SessionMAP) {
    && s.version == t.version && s.sessionMapId == t.sessionMapId && s.sessionId == t.sessionId
    && s.agentId == t.agentId && s.actorId == t.actorId && s.tenantHash == t.tenantHash && s.taskId == t.taskId
    && s.runtimeContextHash == t.runtimeContextHash && s.policySnapshotHash == t.policySnapshotHash
    && s.runtimeSnapshotHash == t.runtimeSnapshotHash && s.runtimeSnapshotVersion == t.runtimeSnapshotVersion
    && s.merkleRoot == t.merkleRoot && s.signingKeyId == t.signingKeyId
    && s.createdAt % 0x1_0000_0000_0000_0000 == t.createdAt % 0x1_0000_0000_0000_0000
    && s.expiresAt % 0x1_0000_0000_0000_0000 == t.expiresAt % 0x1_0000_0000_0000_0000
  }

  lemma {:induction false} JoinedSplits(fs: seq<Bytes>, gs: seq<Bytes>)
    requires |fs| == |gs| && (forall i :: 0 <= i < |fs| ==> |fs[i]| == |gs[i]|)
    requires Joined(fs) == Joined(gs)
    ensures fs == gs
  {
    if fs != [] {
      var n := |fs| - 1;
      JoinedLength(fs[..n], gs[..n]);
      SplitEqual(Joined(fs[..n]), fs[n], Joined(gs[..n]), gs[n]);
      JoinedSplits(fs[..n], gs[..n]);
      assert fs == fs[..n] + [fs[n]] && gs == gs[..n] + [gs[n]];
    }
  }

  lemma {:induction false} JoinedLength(fs: seq<Bytes>, gs: seq<Bytes>)
    requires |fs| == |gs| && (forall i :: 0 <= i < |fs| ==> |fs[i]| == |gs[i]|)
    ensures |Joined(fs)| == |Joined(gs)|
  {
    if fs != [] {
      JoinedLength(fs[..|fs| - 1], gs[..|gs| - 1]);
    }
  }

  lemma {:induction false} JoinedConcat(fs: seq<Bytes>, gs: seq<Bytes>)
    ensures Joined(fs + gs) == Joined(fs) + Joined(gs)
  {
    if gs == [] {
      assert fs + gs == fs;
    } else {
      var n := |gs| - 1;
      assert (fs + gs)[..|fs + gs| - 1] == fs + gs[..n];
      JoinedConcat(fs, gs[..n]);
    }
  }

  lemma JoinedPair(a: Bytes, b: Bytes)
    ensures Joined([a, b]) == a + b
  {
    var two: seq<Bytes> := [a, b];
    assert two[..1] == [a] && two[..1][..0] == [];
    assert Joined(two[..1]) == [] + a == a;
  }

  /** Equal attestations mean equal fields exactly when the strings have equal lengths. */
  lemma AttestationBindsExactly(s: SessionMAP, t: SessionMAP)
    requires AttestationBytes(s) == AttestationBytes(t)
    ensures SameAttested(s, t) <==> SameLengths(s, t)
  {
    if SameLengths(s, t) {
      JoinedSplits(Fields(s), Fields(t));
      var f, g := Fields(s), Fields(t);
      assert f[0] == g[0] && f[1] == g[1] && f[2] == g[2] && f[3] == g[3] && f[4] == g[4];
      assert f[5] == g[5] && f[6] == g[6] && f[7] == g[7] && f[8] == g[8] && f[9] == g[9];
      assert f[10] == g[10] && f[11] == g[11] && f[12] == g[12] && f[13] == g[13] && f[14] == g[14];
      Word64Injective(s.createdAt, t.createdAt);
      Word64Injective(s.expiresAt, t.expiresAt);
      Widths();
      ValueOfBigEndian(s.runtimeSnapshotVersion, 8);
      ValueOfBigEndian(t.runtimeSnapshotVersion, 8);
    }
  }

  lemma JoinedTrade(pre: seq<Bytes>, a: Bytes, b: Bytes, c: Bytes, d: Bytes, post: seq<Bytes>)
    requires a + b == c + d
    ensures Joined(pre + ([a, b] + post)) == Joined(pre + ([c, d] + post))
  {
    JoinedConcat(pre, [a, b] + post);
    JoinedConcat(pre, [c, d] + post);
    JoinedConcat([a, b], post);
    JoinedConcat([c, d], post);
    JoinedPair(a, b);
    JoinedPair(c, d);
  }

  function Rest(s: SessionMAP): seq<Bytes> {
    Fields(s)[4..]
  }

  /** The same map under other names for session and agent. */
  function Named(s: SessionMAP, session: Bytes, agent: Bytes): SessionMAP {
    s.(sessionId := session, agentId := agent)
  }

  lemma AroundNames(s: SessionMAP, session: Bytes, agent: Bytes)
    ensures AttestationBytes(Named(s, session, agent))
            == Joined([s.version, s.sessionMapId] + ([session, agent] + Rest(s)))
  {
    assert Fields(Named(s, session, agent)) == [s.version, s.sessionMapId] + ([session, agent] + Rest(s));
  }

  lemma AnotherName(s: SessionMAP, session: Bytes, agent: Bytes, session': Bytes, agent': Bytes)
    requires session != session'
    ensures !SameAttested(Named(s, session, agent), Named(s, session', agent'))
  {
  }

  /** The strings are joined without separators: a session and an agent can trade bytes. */
  lemma AttestationIsAmbiguous(s: SessionMAP, x: Bytes, y: Bytes, z: Bytes)
    requires y != []
    ensures var a, b := s.(sessionId := x + y, agentId := z), s.(sessionId := x, agentId := y + z);
            AttestationBytes(a) == AttestationBytes(b) && !SameAttested(a, b)
  {
    AroundNames(s, x + y, z);
    AroundNames(s, x, y + z);
    assert x + y + z == x + (y + z);
    JoinedTrade([s.version, s.sessionMapId], x + y, z, x, y + z, Rest(s));
    assert |x + y| != |x|;
    AnotherName(s, x + y, z, x, y + z);
  }
}
