/** pkg/audit/lineage.go: the record that ties an action to the evidence behind it. */
module Lineage {
  import opened ByteStrings
  import opened Outcomes
  import opened SessionMap

  datatype MachineConsequenceRecord = MachineConsequenceRecord(
    mcrId: Id,
    sessionMapId: Id,
    merkleRoot: Digest,
    policySnapshotHash: Digest,
    runtimeSnapshotHash: Digest,
    runtimeSnapshotVersion: U64,
    eepId: Bytes,
    aepId: Bytes,
    lineageDigest: Digest,
    linkedAtUnix: I64
  )

  /** The 136 bytes of fixed width. */
  function Head(m: MachineConsequenceRecord): (b: Bytes)
    ensures |b| == 136
  {
    m.mcrId + m.sessionMapId + m.merkleRoot + m.policySnapshotHash + m.runtimeSnapshotHash
    + BigEndian(m.runtimeSnapshotVersion, 8)
  }

  function Trackers(eep: Bytes, aep: Bytes): Bytes {
    eep + [0] + aep + [0]
  }

  /** What is hashed; the digest field itself is not part of it. */
  function LineagePreimage(m: MachineConsequenceRecord): Bytes {
    Head(m) + (Trackers(m.eepId, m.aepId) + Word64(m.linkedAtUnix))
  }

  method ComputeLineageDigest(h: Hash, m: MachineConsequenceRecord) returns (d: Digest)
    ensures d == h(LineagePreimage(m))
  {
    var w := new Buffer();
    w.Write(m.mcrId);
    w.Write(m.sessionMapId);
    w.Write(m.merkleRoot);
    w.Write(m.policySnapshotHash);
    w.Write(m.runtimeSnapshotHash);
    w.Write(BigEndian(m.runtimeSnapshotVersion, 8));
    assert w.data == Head(m);
    w.Write(m.eepId);
    w.Write([0]);
    w.Write(m.aepId);
    w.Write([0]);
    w.Write(Word64(m.linkedAtUnix));
    assert w.data == LineagePreimage(m);
    d := h(w.data);
  }

  datatype LineageError = Malformed

  function CompileLineageRecord(h: Hash, mcrId: Id, s: SessionMAP, eepId: Bytes, aepId: Bytes, linkedAtUnix: I64)
    : Result<MachineConsequenceRecord, LineageError>
  {
    if eepId == [] || aepId == [] then Err(Malformed)
    else
      var m := MachineConsequenceRecord(
        mcrId, s.sessionMapId, s.merkleRoot, s.policySnapshotHash, s.runtimeSnapshotHash, s.runtimeSnapshotVersion,
        eepId, aepId, Zeros(32), linkedAtUnix);
      Ok(m.(lineageDigest := h(LineagePreimage(m))))
  }

  predicate VerifyLineageRecord(h: Hash, m: MachineConsequenceRecord, s: SessionMAP) {
    if || m.sessionMapId != s.sessionMapId || m.merkleRoot != s.merkleRoot
       || m.policySnapshotHash != s.policySnapshotHash || m.runtimeSnapshotHash != s.runtimeSnapshotHash
       || m.runtimeSnapshotVersion != s.runtimeSnapshotVersion
    then false
    else
      match CompileLineageRecord(h, m.mcrId, s, m.eepId, m.aepId, m.linkedAtUnix)
      case Err(_) => false
      case Ok(again) => m.lineageDigest == again.lineageDigest
  }

  /** Verification accepts exactly what compilation produces. */
  lemma VerifiesExactlyWhatIsCompiled(h: Hash, m: MachineConsequenceRecord, s: SessionMAP)
    ensures VerifyLineageRecord(h, m, s) <==>
            exists mcrId: Id, eep: Bytes, aep: Bytes, at: I64 ::
              CompileLineageRecord(h, mcrId, s, eep, aep, at) == Ok(m)
  {
    if VerifyLineageRecord(h, m, s) {
      assert CompileLineageRecord(h, m.mcrId, s, m.eepId, m.aepId, m.linkedAtUnix) == Ok(m);
    }
  }

  // ------------------------------------------------------------ what a digest binds

  /** The nine bound fields. */
  predicate SameBound(m: MachineConsequenceRecord, n: MachineConsequenceRecord) {
    m.(lineageDigest := n.lineageDigest) == n
  }

  lemma HeadBinds(m: MachineConsequenceRecord, n: MachineConsequenceRecord)
    requires Head(m) == Head(n)
    ensures m.mcrId == n.mcrId && m.sessionMapId == n.sessionMapId && m.merkleRoot == n.merkleRoot
    ensures m.policySnapshotHash == n.policySnapshotHash && m.runtimeSnapshotHash == n.runtimeSnapshotHash
    ensures m.runtimeSnapshotVersion == n.runtimeSnapshotVersion
  {
    var a, b := Head(m), Head(n);
    assert m.mcrId == a[..16] && n.mcrId == b[..16];
    assert m.sessionMapId == a[16..32] && n.sessionMapId == b[16..32];
    assert m.merkleRoot == a[32..64] && n.merkleRoot == b[32..64];
    assert m.policySnapshotHash == a[64..96] && n.policySnapshotHash == b[64..96];
    assert m.runtimeSnapshotHash == a[96..128] && n.runtimeSnapshotHash == b[96..128];
    assert BigEndian(m.runtimeSnapshotVersion, 8) == a[128..] && BigEndian(n.runtimeSnapshotVersion, 8) == b[128..];
    Widths();
    ValueOfBigEndian(m.runtimeSnapshotVersion, 8);
    ValueOfBigEndian(n.runtimeSnapshotVersion, 8);
  }

  lemma TrackersSplit(e: Bytes, a: Bytes, f: Bytes, b: Bytes)
    requires Trackers(e, a) == Trackers(f, b)
    ensures e + [0] + a == f + [0] + b
  {
    assert |Trackers(e, a)| == |e + [0] + a| + 1;
    SplitEqual(e + [0] + a, [0], f + [0] + b, [0]);
  }

  lemma FirstZero(e: Bytes, a: Bytes, f: Bytes, b: Bytes)
    requires e + [0] + a == f + [0] + b
    requires 0 !in e && 0 !in f
    ensures e == f && a == b
  {
    var s, t := e + [0] + a, f + [0] + b;
    forall i | 0 <= i < |e| ensures s[i] != 0 {
      assert s[i] == e[i] && e[i] in e;
    }
    forall i | 0 <= i < |f| ensures t[i] != 0 {
      assert t[i] == f[i] && f[i] in f;
    }
    assert s[|e|] == 0 && t[|f|] == 0;
    assert |e| == |f|;
    SplitEqual(e + [0], a, f + [0], b);
    SplitEqual(e, [0], f, [0]);
  }

  lemma PreimageSplits(m: MachineConsequenceRecord, n: MachineConsequenceRecord)
    requires LineagePreimage(m) == LineagePreimage(n)
    ensures Head(m) == Head(n)
    ensures Trackers(m.eepId, m.aepId) == Trackers(n.eepId, n.aepId)
    ensures m.linkedAtUnix == n.linkedAtUnix
  {
    var s, t := Trackers(m.eepId, m.aepId), Trackers(n.eepId, n.aepId);
    SplitEqual(Head(m), s + Word64(m.linkedAtUnix), Head(n), t + Word64(n.linkedAtUnix));
    assert |s + Word64(m.linkedAtUnix)| == |s| + 8 && |t + Word64(n.linkedAtUnix)| == |t| + 8;
    SplitEqual(s, Word64(m.linkedAtUnix), t, Word64(n.linkedAtUnix));
    Word64Injective(m.linkedAtUnix, n.linkedAtUnix);
  }

  /** Equal digests of records whose EEP IDs hold no zero byte bind all nine fields, or collide. */
  lemma DigestBinds(h: Hash, m: MachineConsequenceRecord, n: MachineConsequenceRecord)
    requires h(LineagePreimage(m)) == h(LineagePreimage(n))
    requires 0 !in m.eepId && 0 !in n.eepId
    ensures SameBound(m, n) || CollisionBetween(h, {LineagePreimage(m)}, {LineagePreimage(n)})
  {
    if LineagePreimage(m) == LineagePreimage(n) {
      PreimageSplits(m, n);
      HeadBinds(m, n);
      TrackersSplit(m.eepId, m.aepId, n.eepId, n.aepId);
      FirstZero(m.eepId, m.aepId, n.eepId, n.aepId);
    }
  }

  /** The zero byte after `eep` is the only one before the last. */
  ghost predicate Unambiguous(eep: Bytes, aep: Bytes) {
    forall f: Bytes, b: Bytes :: Trackers(f, b) == Trackers(eep, aep) ==> f == eep && b == aep
  }

  lemma ZeroPosition(b: Bytes) returns (i: nat)
    requires 0 in b
    ensures i < |b| && b[i] == 0
  {
    i :| i < |b| && b[i] == 0;
  }

  /** The two trackers can be read back from the bytes exactly when neither holds a zero byte. */
  lemma TrackersUnambiguousExactly(eep: Bytes, aep: Bytes)
    ensures Unambiguous(eep, aep) <==> 0 !in eep && 0 !in aep
  {
    if 0 in eep {
      var i := ZeroPosition(eep);
      var f, b := eep[..i], eep[i + 1..] + [0] + aep;
      assert eep == f + [0] + eep[i + 1..];
      assert Trackers(f, b) == Trackers(eep, aep);
      assert f != eep;
    } else if 0 in aep {
      var i := ZeroPosition(aep);
      var f, b := eep + [0] + aep[..i], aep[i + 1..];
      assert aep == aep[..i] + [0] + b;
      assert Trackers(f, b) == Trackers(eep, aep);
      assert b != aep;
    } else {
      forall f: Bytes, b: Bytes | Trackers(f, b) == Trackers(eep, aep)
        ensures f == eep && b == aep
      {
        TrackersSplit(f, b, eep, aep);
        OnlyZero(eep, aep, f, b);
      }
    }
  }

  lemma OnlyZero(e: Bytes, a: Bytes, f: Bytes, b: Bytes)
    requires e + [0] + a == f + [0] + b
    requires 0 !in e && 0 !in a
    ensures e == f && a == b
  {
    var s, t := e + [0] + a, f + [0] + b;
    forall i | 0 <= i < |s| && i != |e| ensures s[i] != 0 {
      assert if i < |e| then s[i] == e[i] && e[i] in e else s[i] == a[i - |e| - 1] && a[i - |e| - 1] in a;
    }
    assert t[|f|] == 0;
    assert |f| == |e|;
    SplitEqual(e + [0], a, f + [0], b);
    SplitEqual(e, [0], f, [0]);
  }

  // ------------------------------------------------------------ the bytes of a digest, and the record

  lemma DigestBytes(m: MachineConsequenceRecord)
    ensures LineagePreimage(m)
            == m.mcrId + m.sessionMapId + m.merkleRoot + m.policySnapshotHash + m.runtimeSnapshotHash
               + BigEndian(m.runtimeSnapshotVersion, 8) + m.eepId + [0] + m.aepId + [0] + Word64(m.linkedAtUnix)
  {
    var head := Head(m);
    assert head + (Trackers(m.eepId, m.aepId) + Word64(m.linkedAtUnix))
           == head + m.eepId + [0] + m.aepId + [0] + Word64(m.linkedAtUnix);
  }

  /** A record is compiled unless a tracker is empty, and takes its fields from the map it closes. */
  lemma CompiledExactly(h: Hash, mcrId: Id, s: SessionMAP, eepId: Bytes, aepId: Bytes, linkedAtUnix: I64)
    ensures var r := CompileLineageRecord(h, mcrId, s, eepId, aepId, linkedAtUnix);
            && (r.Err? <==> eepId == [] || aepId == [])
            && (r.Ok? ==>
                  var m := r.value;
                  && m.mcrId == mcrId && m.sessionMapId == s.sessionMapId && m.merkleRoot == s.merkleRoot
                  && m.policySnapshotHash == s.policySnapshotHash && m.runtimeSnapshotHash == s.runtimeSnapshotHash
                  && m.runtimeSnapshotVersion == s.runtimeSnapshotVersion
                  && m.eepId == eepId && m.aepId == aepId && m.linkedAtUnix == linkedAtUnix
                  && m.lineageDigest == h(LineagePreimage(m)))
  {
  }
}
