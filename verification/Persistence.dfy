/** pkg/quarantine/persistence.go: the write-ahead log of revocation events. */
module Persistence {
  import opened ByteStrings
  import opened Outcomes
  import opened Quarantine

  const LogMagicNumber := 0x564D

  /** `encoding/json` on events; both directions may fail and nothing more is assumed. */
  datatype Codec = Codec(
    marshal: RevocationEvent -> Option<Bytes>,
    unmarshal: Bytes -> Option<RevocationEvent>
  )

  datatype LogError =
    TruncatedLength | ZeroLength | MissingMagic | BadMagic | TruncatedPayload | TruncatedChecksum | Tampered | Malformed

  /** The errors with the PERSISTENCE_CORRUPTION prefix. */
  predicate Corruption(e: LogError) {
    e != Tampered && e != Malformed
  }

  // ------------------------------------------------------------ records

  /** A payload the ledger takes. */
  predicate Fits(p: Bytes) {
    0 < |p| < 0x1_0000_0000
  }

  predicate AllFit(ps: seq<Bytes>) {
    forall i :: 0 <= i < |ps| ==> Fits(ps[i])
  }

  function Checksummed(p: Bytes): Bytes {
    BigEndian(|p|, 4) + BigEndian(LogMagicNumber, 2) + p
  }

  function Record(h: Hash, p: Bytes): (r: Bytes)
    ensures |r| == |p| + 38
  {
    Checksummed(p) + h(Checksummed(p))
  }

  function Log(h: Hash, ps: seq<Bytes>): Bytes {
    if ps == [] then [] else Record(h, ps[0]) + Log(h, ps[1..])
  }

  lemma {:induction false} LogConcat(h: Hash, ps: seq<Bytes>, qs: seq<Bytes>)
    ensures Log(h, ps + qs) == Log(h, ps) + Log(h, qs)
  {
    if ps == [] {
      assert ps + qs == qs;
    } else {
      assert (ps + qs)[1..] == ps[1..] + qs;
      LogConcat(h, ps[1..], qs);
    }
  }

  lemma LogGrows(h: Hash, ps: seq<Bytes>, p: Bytes)
    ensures Log(h, ps + [p]) == Log(h, ps) + Record(h, p)
  {
    var one: seq<Bytes> := [p];
    LogConcat(h, ps, one);
    assert one[1..] == [];
    assert Log(h, one) == Record(h, p) + [];
  }

  /** The payload of the record at the head of `b`, or why there is none. */
  function NextRecord(h: Hash, b: Bytes): (r: Result<Bytes, LogError>)
    ensures r.Ok? ==> |r.value| + 38 <= |b|
  {
    if |b| < 4 then Err(TruncatedLength)
    else
      var length := Value(b[..4]);
      if length == 0 then Err(ZeroLength)
      else if |b| < 6 then Err(MissingMagic)
      else if Value(b[4..6]) != LogMagicNumber then Err(BadMagic)
      else if |b| < 6 + length then Err(TruncatedPayload)
      else if |b| < 38 + length then Err(TruncatedChecksum)
      else
        var payload := b[6..6 + length];
        if h(BigEndian(length, 4) + BigEndian(LogMagicNumber, 2) + payload) != b[6 + length..38 + length]
        then Err(Tampered)
        else Ok(payload)
  }

  /** Replay from byte zero: records until the end of the file, or the first error. */
  function Replay(h: Hash, c: Codec, b: Bytes): Result<Ledger, LogError>
    decreases |b|
  {
    if b == [] then Ok([])
    else
      match NextRecord(h, b)
      case Err(e) => Err(e)
      case Ok(p) =>
        match c.unmarshal(p)
        case None => Err(Malformed)
        case Some(event) => Prepend([event], Replay(h, c, b[|p| + 38..]))
  }

  function Prepend(es: Ledger, r: Result<Ledger, LogError>): Result<Ledger, LogError> {
    match r
    case Ok(rest) => Ok(es + rest)
    case Err(e) => Err(e)
  }

  lemma MagicValue()
    ensures Value(BigEndian(LogMagicNumber, 2)) == LogMagicNumber
  {
    Widths();
    ValueOfBigEndian(LogMagicNumber, 2);
  }

  lemma RecordParts(h: Hash, p: Bytes, b: Bytes)
    requires Fits(p)
    requires Record(h, p) <= b
    ensures Value(b[..4]) == |p| && Value(b[4..6]) == LogMagicNumber
    ensures b[6..6 + |p|] == p && b[6 + |p|..38 + |p|] == h(Checksummed(p))
  {
    var r := Record(h, p);
    assert b[..4] == r[..4] == BigEndian(|p|, 4);
    assert b[4..6] == r[4..6] == BigEndian(LogMagicNumber, 2);
    assert b[6..6 + |p|] == r[6..6 + |p|] == p;
    assert b[6 + |p|..38 + |p|] == r[6 + |p|..] == h(Checksummed(p));
    Widths();
    ValueOfBigEndian(|p|, 4);
    MagicValue();
  }

  lemma RecordReads(h: Hash, p: Bytes, rest: Bytes)
    requires Fits(p)
    ensures NextRecord(h, Record(h, p) + rest) == Ok(p)
  {
    RecordParts(h, p, Record(h, p) + rest);
  }

  lemma ReadsOnlyRecords(h: Hash, b: Bytes)
    requires NextRecord(h, b).Ok?
    ensures var p := NextRecord(h, b).value; Fits(p) && b == Record(h, p) + b[|p| + 38..]
  {
    var p := NextRecord(h, b).value;
    Widths();
    BigEndianOfValue(b[..4]);
    BigEndianOfValue(b[4..6]);
    assert b[..4] + b[4..6] + p == Checksummed(p);
    assert b == b[..4] + b[4..6] + p + b[6 + |p|..38 + |p|] + b[38 + |p|..];
  }

  /** Where a cut inside a record is noticed. */
  function CutError(n: nat, size: nat): (e: LogError)
    ensures Corruption(e)
  {
    if n < 4 then TruncatedLength
    else if n < 6 then MissingMagic
    else if n < 6 + size then TruncatedPayload
    else TruncatedChecksum
  }

  lemma CutReads(h: Hash, p: Bytes, n: nat)
    requires Fits(p) && 0 < n < |p| + 38
    ensures NextRecord(h, Record(h, p)[..n]) == Err(CutError(n, |p|))
  {
    var r, b := Record(h, p), Record(h, p)[..n];
    RecordParts(h, p, r);
    if n >= 4 {
      assert b[..4] == r[..4];
    }
    if n >= 6 {
      assert b[4..6] == r[4..6];
    }
  }

  // ------------------------------------------------------------ the bytes of a record

  lemma MagicBytes()
    ensures BigEndian(LogMagicNumber, 2) == [0x56, 0x4D]
  {
    TwoBytes(LogMagicNumber);
  }

  lemma ChecksummedBytes(p: Bytes)
    ensures Checksummed(p) == BigEndian(|p|, 4) + [0x56, 0x4D] + p
  {
    MagicBytes();
  }

  /** Length, the letters VM, payload, and the hash of all before it. */
  lemma RecordBytes(h: Hash, p: Bytes)
    ensures Record(h, p) == BigEndian(|p|, 4) + [0x56, 0x4D] + p + h(BigEndian(|p|, 4) + [0x56, 0x4D] + p)
  {
    ChecksummedBytes(p);
    assert Record(h, p) == Checksummed(p) + h(Checksummed(p));
  }

  /** The field `length` of bytes that hold one. */
  function LengthField(b: Bytes): nat
    requires |b| >= 4
  {
    var x: int, y: int, z: int, t: int := b[0], b[1], b[2], b[3];
    0x100_0000 * x + 0x1_0000 * y + 0x100 * z + t
  }

  lemma LengthIsValue(b: Bytes)
    requires |b| >= 4
    ensures Value(b[..4]) == LengthField(b)
  {
    assert b[..4][..3] == b[..3] && b[..3][..2] == b[..2] && b[..2][..1] == b[..1] && b[..1][..0] == [];
    assert Value(b[..1]) == b[0];
    assert Value(b[..2]) == 256 * Value(b[..1]) + b[1];
    assert Value(b[..3]) == 256 * Value(b[..2]) + b[2];
    assert Value(b[..4]) == 256 * Value(b[..3]) + b[3];
  }

  lemma MagicIs(b: Bytes)
    requires |b| == 2
    ensures Value(b) == LogMagicNumber <==> b == [0x56, 0x4D]
  {
    assert b[..1][..0] == [];
    assert Value(b[..1]) == b[0];
    assert Value(b) == 256 * Value(b[..1]) + b[1];
  }

  /** Each fault, by the bytes alone, in the order the reader meets them. */
  lemma EachFaultExactly(h: Hash, b: Bytes)
    ensures NextRecord(h, b) == Err(TruncatedLength) <==> |b| < 4
    ensures |b| >= 4 ==>
              var n := LengthField(b);
              && (NextRecord(h, b) == Err(ZeroLength) <==> n == 0)
              && (NextRecord(h, b) == Err(MissingMagic) <==> n > 0 && |b| < 6)
              && (n > 0 && |b| >= 6 ==>
                    && (NextRecord(h, b) == Err(BadMagic) <==> b[4..6] != [0x56, 0x4D])
                    && (b[4..6] == [0x56, 0x4D] ==>
                          && (NextRecord(h, b) == Err(TruncatedPayload) <==> |b| < n + 6)
                          && (NextRecord(h, b) == Err(TruncatedChecksum) <==> n + 6 <= |b| < n + 38)
                          && (|b| >= n + 38 ==> Sealing(h, b, n, NextRecord(h, b)))))
  {
    if |b| >= 4 {
      LengthIsValue(b);
      if |b| >= 6 {
        MagicIs(b[4..6]);
      }
    }
    if |b| >= 6 && b[4..6] == [0x56, 0x4D] && LengthField(b) > 0 && |b| >= LengthField(b) + 38 {
      SealedBytes(h, b, LengthField(b));
    }
  }

  /** The checksum covers everything before it. */
  ghost predicate Sealing(h: Hash, b: Bytes, n: nat, r: Result<Bytes, LogError>)
    requires |b| >= n + 38
  {
    r == if h(b[..n + 6]) == b[n + 6..n + 38] then Ok(b[6..n + 6]) else Err(Tampered)
  }

  lemma SealedBytes(h: Hash, b: Bytes, n: nat)
    requires |b| >= n + 38 && n == Value(b[..4]) && b[4..6] == [0x56, 0x4D]
    ensures b[..n + 6] == BigEndian(n, 4) + BigEndian(LogMagicNumber, 2) + b[6..n + 6]
  {
    BigEndianOfValue(b[..4]);
    MagicBytes();
    assert b[..n + 6] == b[..4] + b[4..6] + b[6..n + 6];
  }

  /** The corruptions are the faults of framing. */
  lemma CorruptionsNamed(e: LogError)
    ensures Corruption(e) <==>
            e in {TruncatedLength, ZeroLength, MissingMagic, BadMagic, TruncatedPayload, TruncatedChecksum}
  {
  }

  // ------------------------------------------------------------ what an accepted file is

  function Decoded(c: Codec, ps: seq<Bytes>): Option<Ledger> {
    if ps == [] then Some([])
    else
      match (c.unmarshal(ps[0]), Decoded(c, ps[1..]))
      case (Some(e), Some(es)) => Some([e] + es)
      case _ => None
  }

  lemma {:induction false} DecodedConcat(c: Codec, ps: seq<Bytes>, qs: seq<Bytes>)
    ensures Decoded(c, ps + qs)
            == if Decoded(c, ps).Some? && Decoded(c, qs).Some?
               then Some(Decoded(c, ps).value + Decoded(c, qs).value) else None
  {
    if ps == [] {
      assert ps + qs == qs;
      if Decoded(c, qs).Some? {
        assert [] + Decoded(c, qs).value == Decoded(c, qs).value;
      }
    } else {
      assert (ps + qs)[0] == ps[0] && (ps + qs)[1..] == ps[1..] + qs;
      DecodedConcat(c, ps[1..], qs);
      if c.unmarshal(ps[0]).Some? && Decoded(c, ps[1..]).Some? && Decoded(c, qs).Some? {
        var one, a, b := [c.unmarshal(ps[0]).value], Decoded(c, ps[1..]).value, Decoded(c, qs).value;
        assert one + a + b == one + (a + b);
      }
    }
  }

  lemma PrependTwice(es: Ledger, fs: Ledger, r: Result<Ledger, LogError>)
    ensures Prepend(es, Prepend(fs, r)) == Prepend(es + fs, r)
    ensures Prepend([], r) == r
  {
    if r.Ok? {
      assert es + (fs + r.value) == es + fs + r.value;
      assert [] + r.value == r.value;
    }
  }

  lemma ReplayHead(h: Hash, c: Codec, p: Bytes, rest: Bytes)
    requires Fits(p)
    ensures Replay(h, c, Record(h, p) + rest)
            == match c.unmarshal(p) case None => Err(Malformed) case Some(e) => Prepend([e], Replay(h, c, rest))
  {
    var b := Record(h, p) + rest;
    RecordReads(h, p, rest);
    assert b != [] && b[|p| + 38..] == rest;
  }

  /** Records and whatever follows them: the first payload that does not decode stops the replay. */
  lemma {:induction false} ReplayFrames(h: Hash, c: Codec, ps: seq<Bytes>, tail: Bytes)
    requires AllFit(ps)
    ensures Replay(h, c, Log(h, ps) + tail)
            == match Decoded(c, ps) case None => Err(Malformed) case Some(es) => Prepend(es, Replay(h, c, tail))
  {
    if ps == [] {
      assert Log(h, ps) + tail == tail;
      PrependTwice([], [], Replay(h, c, tail));
    } else {
      assert Log(h, ps) + tail == Record(h, ps[0]) + (Log(h, ps[1..]) + tail);
      ReplayHead(h, c, ps[0], Log(h, ps[1..]) + tail);
      ReplayFrames(h, c, ps[1..], tail);
      if Decoded(c, ps).Some? {
        PrependTwice([c.unmarshal(ps[0]).value], Decoded(c, ps[1..]).value, Replay(h, c, tail));
      }
    }
  }

  lemma ReplayOfLog(h: Hash, c: Codec, ps: seq<Bytes>)
    requires AllFit(ps)
    ensures Replay(h, c, Log(h, ps)) == (match Decoded(c, ps) case Some(es) => Ok(es) case None => Err(Malformed))
  {
    ReplayFrames(h, c, ps, []);
    assert Log(h, ps) + [] == Log(h, ps);
    if Decoded(c, ps).Some? {
      assert Decoded(c, ps).value + [] == Decoded(c, ps).value;
    }
  }

  lemma {:induction false} FramesOf(h: Hash, c: Codec, b: Bytes) returns (ps: seq<Bytes>)
    requires Replay(h, c, b).Ok?
    ensures AllFit(ps)
    ensures b == Log(h, ps) && Decoded(c, ps) == Some(Replay(h, c, b).value)
    decreases |b|
  {
    if b == [] {
      ps := [];
    } else {
      ReadsOnlyRecords(h, b);
      var p := NextRecord(h, b).value;
      var rest := FramesOf(h, c, b[|p| + 38..]);
      ps := [p] + rest;
      assert ps[1..] == rest;
    }
  }

  /** A file replays to `es` exactly when it is well-framed records whose payloads decode to `es`. */
  lemma AcceptedExactly(h: Hash, c: Codec, b: Bytes, es: Ledger)
    ensures Replay(h, c, b) == Ok(es) <==>
            exists ps :: AllFit(ps) && b == Log(h, ps) && Decoded(c, ps) == Some(es)
  {
    if Replay(h, c, b) == Ok(es) {
      var ps := FramesOf(h, c, b);
    }
    forall ps | AllFit(ps) && b == Log(h, ps) && Decoded(c, ps) == Some(es)
      ensures Replay(h, c, b) == Ok(es)
    {
      ReplayOfLog(h, c, ps);
    }
  }

  /** ... and in one way only. */
  lemma {:induction false} FramingUnique(h: Hash, ps: seq<Bytes>, qs: seq<Bytes>)
    requires AllFit(ps)
    requires AllFit(qs)
    requires Log(h, ps) == Log(h, qs)
    ensures ps == qs
  {
    if ps == [] || qs == [] {
      assert |Log(h, ps)| == |Log(h, qs)|;
    } else {
      RecordReads(h, ps[0], Log(h, ps[1..]));
      RecordReads(h, qs[0], Log(h, qs[1..]));
      SplitEqual(Record(h, ps[0]), Log(h, ps[1..]), Record(h, qs[0]), Log(h, qs[1..]));
      FramingUnique(h, ps[1..], qs[1..]);
      assert ps == [ps[0]] + ps[1..] && qs == [qs[0]] + qs[1..];
    }
  }

  // ------------------------------------------------------------ appended events

  /** `AppendEvent` takes the event. */
  predicate Appendable(c: Codec, e: RevocationEvent) {
    c.marshal(e).Some? && Fits(c.marshal(e).value)
  }

  /** ... and the codec gives it back. */
  predicate Faithful(c: Codec, e: RevocationEvent) {
    Appendable(c, e) && c.unmarshal(c.marshal(e).value) == Some(e)
  }

  /** What compilation reads of an event survives the codec, whatever happens to its other fields. */
  ghost predicate Kept(c: Codec, e: RevocationEvent) {
    Appendable(c, e) && c.unmarshal(c.marshal(e).value).Some? && Alike(c.unmarshal(c.marshal(e).value).value, e)
  }

  ghost predicate KeepsAll(c: Codec) {
    forall e :: Appendable(c, e) ==> Kept(c, e)
  }

  /** For any finite history there is a codec faithful on it. */
  lemma FaithfulCodecExists(es: Ledger) returns (c: Codec)
    requires |es| <= 0x1_0000_0000_0000_0000
    ensures AllFaithful(c, es)
  {
    c := Codec(
      e => if e in es then Some(BigEndian(Position(es, e), 8)) else None,
      b => if Value(b) < |es| then Some(es[Value(b)]) else None);
    forall i | 0 <= i < |es|
      ensures Faithful(c, es[i])
    {
      Widths();
      ValueOfBigEndian(Position(es, es[i]), 8);
    }
  }

  function Position(es: Ledger, e: RevocationEvent): (i: nat)
    requires e in es
    ensures i < |es| && es[i] == e
  {
    if es[0] == e then 0 else 1 + Position(es[1..], e)
  }

  predicate AllAppendable(c: Codec, es: Ledger) {
    forall i :: 0 <= i < |es| ==> Appendable(c, es[i])
  }

  predicate AllFaithful(c: Codec, es: Ledger) {
    forall i :: 0 <= i < |es| ==> Faithful(c, es[i])
  }

  function Payloads(c: Codec, es: Ledger): (ps: seq<Bytes>)
    requires AllAppendable(c, es)
    ensures |ps| == |es|
    ensures forall i :: 0 <= i < |es| ==> ps[i] == c.marshal(es[i]).value
  {
    seq<Bytes>(|es|, i requires 0 <= i < |es| => c.marshal(es[i]).value)
  }

  /** The file after appending `es` to an empty one. */
  function LogOf(h: Hash, c: Codec, es: Ledger): Bytes
    requires AllAppendable(c, es)
  {
    Log(h, Payloads(c, es))
  }

  lemma {:induction false} DecodedExactly(c: Codec, es: Ledger)
    requires AllAppendable(c, es)
    ensures Decoded(c, Payloads(c, es)) == Some(es) <==> AllFaithful(c, es)
  {
    if es != [] {
      assert es == [es[0]] + es[1..];
      assert Payloads(c, es)[1..] == Payloads(c, es[1..]);
      DecodedExactly(c, es[1..]);
    }
  }

  lemma {:induction false} DecodedAlike(c: Codec, es: Ledger)
    requires AllAppendable(c, es) && KeepsAll(c)
    ensures Decoded(c, Payloads(c, es)).Some?
    ensures AllAlike(Decoded(c, Payloads(c, es)).value, es)
  {
    if es != [] {
      assert Kept(c, es[0]);
      assert Payloads(c, es)[1..] == Payloads(c, es[1..]);
      DecodedAlike(c, es[1..]);
    }
  }

  /** Replay returns the appended events exactly when the codec is faithful on each of them. */
  lemma RoundTripExactly(h: Hash, c: Codec, es: Ledger)
    requires AllAppendable(c, es)
    ensures Replay(h, c, LogOf(h, c, es)) == Ok(es) <==> AllFaithful(c, es)
  {
    ReplayOfLog(h, c, Payloads(c, es));
    DecodedExactly(c, es);
  }

  lemma LogOfConcat(h: Hash, c: Codec, es: Ledger, fs: Ledger)
    requires AllAppendable(c, es) && AllAppendable(c, fs)
    ensures LogOf(h, c, es + fs) == LogOf(h, c, es) + LogOf(h, c, fs)
  {
    assert Payloads(c, es + fs) == Payloads(c, es) + Payloads(c, fs);
    LogConcat(h, Payloads(c, es), Payloads(c, fs));
  }

  lemma LogOfOne(h: Hash, c: Codec, e: RevocationEvent)
    requires Appendable(c, e)
    ensures LogOf(h, c, [e]) == Record(h, c.marshal(e).value)
  {
    LogGrows(h, [], c.marshal(e).value);
    assert Payloads(c, [e]) == [] + [c.marshal(e).value];
  }

  lemma ReplayAfterLog(h: Hash, c: Codec, es: Ledger, tail: Bytes)
    requires AllFaithful(c, es)
    ensures Replay(h, c, LogOf(h, c, es) + tail) == Prepend(es, Replay(h, c, tail))
  {
    ReplayFrames(h, c, Payloads(c, es), tail);
    DecodedExactly(c, es);
  }

  /** One record cut after `n` bytes. */
  lemma CutRecordReplays(h: Hash, c: Codec, p: Bytes, n: nat)
    requires Fits(p) && n <= |p| + 38
    ensures Replay(h, c, Record(h, p)[..n])
            == if n == 0 then Ok([])
               else if n < |p| + 38 then Err(CutError(n, |p|))
               else match c.unmarshal(p) case None => Err(Malformed) case Some(e) => Ok([e])
  {
    if n == |p| + 38 {
      assert Record(h, p)[..n] == Record(h, p) + [];
      ReplayHead(h, c, p, []);
      if c.unmarshal(p).Some? {
        var one: Ledger := [c.unmarshal(p).value];
        assert one + [] == one;
      }
    } else if n > 0 {
      CutReads(h, p, n);
    }
  }

  /**
    A log cut off `n` bytes into the record of `e`: nothing of it there, all of it there, or a
    corruption error that names the field the cut fell into.
    */
  lemma CutInLastRecord(h: Hash, c: Codec, es: Ledger, e: RevocationEvent, n: nat)
    requires AllFaithful(c, es)
    requires Faithful(c, e)
    requires n <= |c.marshal(e).value| + 38
    ensures var p := c.marshal(e).value;
            Replay(h, c, LogOf(h, c, es) + Record(h, p)[..n])
            == if n == 0 then Ok(es) else if n == |p| + 38 then Ok(es + [e]) else Err(CutError(n, |p|))
  {
    CutRecordReplays(h, c, c.marshal(e).value, n);
    ReplayAfterLog(h, c, es, Record(h, c.marshal(e).value)[..n]);
    assert es + [] == es;
  }

  /** Every byte of a log is in exactly one record, or at its end. */
  lemma {:induction false} Locate(h: Hash, c: Codec, es: Ledger, n: nat) returns (k: nat, o: nat)
    requires AllAppendable(c, es)
    requires n <= |LogOf(h, c, es)|
    ensures k <= |es| && n == |LogOf(h, c, es[..k])| + o
    ensures if k < |es| then o < |c.marshal(es[k]).value| + 38 else o == 0
    ensures LogOf(h, c, es)[..n]
            == LogOf(h, c, es[..k]) + if k < |es| then Record(h, c.marshal(es[k]).value)[..o] else []
  {
    if es == [] {
      k, o := 0, 0;
    } else {
      var init, last := es[..|es| - 1], es[|es| - 1];
      assert es == init + [last];
      LogOfConcat(h, c, init, [last]);
      var r := Record(h, c.marshal(last).value);
      LogOfOne(h, c, last);
      if n < |LogOf(h, c, init)| {
        k, o := Locate(h, c, init, n);
        assert init[..k] == es[..k];
        assert LogOf(h, c, es)[..n] == LogOf(h, c, init)[..n];
      } else if n < |LogOf(h, c, es)| {
        k, o := |init|, n - |LogOf(h, c, init)|;
        assert es[..k] == init;
      } else {
        k, o := |es|, 0;
        assert es[..k] == es;
      }
    }
  }

  lemma {:induction false} Boundaries(h: Hash, c: Codec, es: Ledger, j: nat, k: nat)
    requires AllAppendable(c, es)
    requires j <= k <= |es|
    ensures |LogOf(h, c, es[..j])| + 38 * (k - j) <= |LogOf(h, c, es[..k])|
    ensures j < k ==> |LogOf(h, c, es[..j])| + |c.marshal(es[j]).value| + 38 <= |LogOf(h, c, es[..k])|
    decreases k
  {
    if j < k {
      var last := es[k - 1];
      assert es[..k] == es[..k - 1] + [last];
      LogOfConcat(h, c, es[..k - 1], [last]);
      LogOfOne(h, c, last);
      Boundaries(h, c, es, j, k - 1);
    }
  }

  /**
    Crash cut: a prefix of a log replays to the first `k` events exactly when it ends where record
    `k` ends, and is a corruption everywhere else.
    */
  lemma CrashCut(h: Hash, c: Codec, es: Ledger, n: nat)
    requires AllFaithful(c, es)
    requires n <= |LogOf(h, c, es)|
    ensures forall k :: 0 <= k <= |es| ==>
              (Replay(h, c, LogOf(h, c, es)[..n]) == Ok(es[..k]) <==> n == |LogOf(h, c, es[..k])|)
    ensures (forall k :: 0 <= k <= |es| ==> n != |LogOf(h, c, es[..k])|) ==>
              Replay(h, c, LogOf(h, c, es)[..n]).Err? && Corruption(Replay(h, c, LogOf(h, c, es)[..n]).error)
  {
    var k, o := Locate(h, c, es, n);
    var r := Replay(h, c, LogOf(h, c, es)[..n]);
    if k < |es| {
      CutInLastRecord(h, c, es[..k], es[k], o);
    } else {
      ReplayAfterLog(h, c, es[..k], []);
      assert es[..k] + [] == es[..k];
    }
    assert o == 0 ==> r == Ok(es[..k]);
    assert o != 0 ==> r.Err? && Corruption(r.error);
    forall j | 0 <= j <= |es|
      ensures r == Ok(es[..j]) <==> n == |LogOf(h, c, es[..j])|
    {
      if j < k {
        Boundaries(h, c, es, j, k);
        assert |es[..j]| != |es[..k]|;
      } else if k < j {
        Boundaries(h, c, es, k, j);
        assert |es[..j]| != |es[..k]|;
      }
    }
  }

  /** A record that carries the checksum of `p`. */
  lemma ForgedReads(h: Hash, p: Bytes, forged: Bytes, tail: Bytes)
    requires Fits(forged)
    ensures NextRecord(h, Checksummed(forged) + h(Checksummed(p)) + tail)
            == if h(Checksummed(forged)) == h(Checksummed(p)) then Ok(forged) else Err(Tampered)
  {
    var n, t := |forged|, Checksummed(forged) + h(Checksummed(p)) + tail;
    Widths();
    ValueOfBigEndian(n, 4);
    MagicValue();
    assert t[..4] == BigEndian(n, 4) && t[4..6] == BigEndian(LogMagicNumber, 2);
    assert t[6..6 + n] == forged && t[6 + n..38 + n] == h(Checksummed(p));
  }

  lemma ChecksummedInjective(p: Bytes, q: Bytes)
    requires Checksummed(p) == Checksummed(q)
    ensures p == q
  {
    SplitEqual(BigEndian(|p|, 4) + BigEndian(LogMagicNumber, 2), p,
               BigEndian(|q|, 4) + BigEndian(LogMagicNumber, 2), q);
  }

  /**
    Another payload, of any length and with its own length field, under the checksum of `p` is
    noticed, or shows two strings with one hash.
    */
  lemma TamperingNoticed(h: Hash, c: Codec, es: Ledger, p: Bytes, forged: Bytes, tail: Bytes)
    requires AllFaithful(c, es)
    requires Fits(forged) && forged != p
    ensures var b := LogOf(h, c, es) + (Checksummed(forged) + h(Checksummed(p)) + tail);
            || Replay(h, c, b) == Err(Tampered)
            || CollisionBetween(h, {Checksummed(forged)}, {Checksummed(p)})
  {
    ReplayAfterLog(h, c, es, Checksummed(forged) + h(Checksummed(p)) + tail);
    ForgedReads(h, p, forged, tail);
    if Checksummed(forged) == Checksummed(p) {
      ChecksummedInjective(forged, p);
    }
  }

  // ------------------------------------------------------------ the file

  /** What a medium with room for `room` bytes keeps of `b`. */
  function UpTo(b: Bytes, room: nat): Bytes {
    b[..if room < |b| then room else |b|]
  }

  datatype AppendError = Closed | MarshalFailed | EmptyPayload | TooLong | WriteFailed | SyncFailed

  datatype GenesisError = LedgerClosed | Unreadable(cause: LogError)

  /** What an append reports, from the state of the handle and of the medium. */
  ghost function AppendFailure(
    c: Codec, isOpen: bool, e: RevocationEvent, room: nat, synced: bool
  ): Option<AppendError>
  {
    if !isOpen then Some(Closed)
    else if c.marshal(e).None? then Some(MarshalFailed)
    else if c.marshal(e).value == [] then Some(EmptyPayload)
    else if !Appendable(c, e) then Some(TooLong)
    else if room < |c.marshal(e).value| + 38 then Some(WriteFailed)
    else if !synced then Some(SyncFailed)
    else None
  }

  /** The bytes an append leaves in the file. */
  ghost function Landed(h: Hash, c: Codec, isOpen: bool, e: RevocationEvent, room: nat): Bytes {
    if isOpen && Appendable(c, e) then UpTo(Record(h, c.marshal(e).value), room) else []
  }

  /** Each error of an append, from the outside. */
  lemma EachAppendErrorExactly(c: Codec, isOpen: bool, e: RevocationEvent, room: nat, synced: bool)
    ensures var f, m := AppendFailure(c, isOpen, e, room, synced), c.marshal(e);
            && (f == Some(Closed) <==> !isOpen)
            && (f == Some(MarshalFailed) <==> isOpen && m.None?)
            && (f == Some(EmptyPayload) <==> isOpen && m == Some([]))
            && (f == Some(TooLong) <==> isOpen && m.Some? && |m.value| > 0xFFFF_FFFF)
            && (f == Some(WriteFailed) <==> isOpen && m.Some? && 0 < |m.value| <= 0xFFFF_FFFF && room < |m.value| + 38)
            && (f == Some(SyncFailed) <==>
                isOpen && m.Some? && 0 < |m.value| <= 0xFFFF_FFFF && room >= |m.value| + 38 && !synced)
  {
  }

  /** The file gains as much of one record as there is room for, or nothing. */
  lemma LandedExactly(h: Hash, c: Codec, isOpen: bool, e: RevocationEvent, room: nat)
    ensures var l, m := Landed(h, c, isOpen, e, room), c.marshal(e);
            if isOpen && m.Some? && 0 < |m.value| <= 0xFFFF_FFFF
            then l <= Record(h, m.value) && |l| == (if room < |m.value| + 38 then room else |m.value| + 38)
            else l == []
  {
  }

  /** Success is a whole record on the medium, and a whole record is success but for the sync. */
  lemma SuccessIsAWholeRecord(h: Hash, c: Codec, isOpen: bool, e: RevocationEvent, room: nat, synced: bool)
    ensures AppendFailure(c, isOpen, e, room, synced) == None <==>
            synced && Appendable(c, e) && Landed(h, c, isOpen, e, room) == Record(h, c.marshal(e).value)
  {
    if isOpen && Appendable(c, e) {
      var r := Record(h, c.marshal(e).value);
      assert |UpTo(r, room)| == |r| ==> room >= |r|;
    }
  }

  /**
    What a restart finds after an append, whatever it reported: an event refused before the first byte
    left nothing, a write that failed half-way makes the log unreadable, and an event refused because
    the sync failed comes back.
    */
  lemma RestartAfterAppend(h: Hash, c: Codec, es: Ledger, isOpen: bool, e: RevocationEvent, room: nat, synced: bool)
    requires AllFaithful(c, es) && (Appendable(c, e) ==> Faithful(c, e))
    ensures var r := Replay(h, c, LogOf(h, c, es) + Landed(h, c, isOpen, e, room));
            match AppendFailure(c, isOpen, e, room, synced)
            case None => r == Ok(es + [e])
            case Some(failure) =>
              && (failure !in {WriteFailed, SyncFailed} || (failure == WriteFailed && room == 0) ==> r == Ok(es))
              && (failure == WriteFailed && room > 0 ==> r.Err? && Corruption(r.error))
              && (failure == SyncFailed ==> r == Ok(es + [e]))
  {
    if isOpen && Appendable(c, e) {
      var r := Record(h, c.marshal(e).value);
      CutInLastRecord(h, c, es, e, if room < |r| then room else |r|);
    } else {
      assert LogOf(h, c, es) + [] == LogOf(h, c, es);
      RoundTripExactly(h, c, es);
    }
  }

  lemma TornIsNoRecords(h: Hash, p: Bytes, n: nat, qs: seq<Bytes>)
    requires AllFit(qs) && Fits(p) && 0 < n < |p| + 38
    ensures Log(h, qs) != Record(h, p)[..n]
  {
    CutReads(h, p, n);
    if qs != [] {
      RecordReads(h, qs[0], Log(h, qs[1..]));
    }
  }

  lemma SameFirst(h: Hash, q: Bytes, s: Bytes, p: Bytes, t: Bytes)
    requires Fits(q) && Fits(p) && Record(h, q) + s == Record(h, p) + t
    ensures q == p && s == t
  {
    RecordReads(h, q, s);
    RecordReads(h, p, t);
    SplitEqual(Record(h, q), s, Record(h, p), t);
  }

  lemma {:induction false} TornIsNoLog(h: Hash, before: seq<Bytes>, p: Bytes, n: nat, qs: seq<Bytes>)
    requires AllFit(before) && AllFit(qs) && Fits(p) && 0 < n < |p| + 38
    ensures Log(h, qs) != Log(h, before) + Record(h, p)[..n]
  {
    var torn := Record(h, p)[..n];
    if before == [] {
      TornIsNoRecords(h, p, n, qs);
      assert [] + torn == torn;
    } else if qs != [] {
      TornIsNoLog(h, before[1..], p, n, qs[1..]);
      var rest := Log(h, before[1..]) + torn;
      assert Log(h, before) + torn == Record(h, before[0]) + rest;
      if Log(h, qs) == Record(h, before[0]) + rest {
        SameFirst(h, qs[0], Log(h, qs[1..]), before[0], rest);
      }
    }
  }

  lemma NotInFront(h: Hash, before: seq<Bytes>, p: Bytes, n: nat, first: seq<Bytes>, later: seq<Bytes>)
    requires AllFit(before) && AllFit(first) && Fits(p) && 0 < n < |p| + 38
    ensures Log(h, first + later) != Log(h, before) + Record(h, p)[..n] + Log(h, later)
  {
    var a, torn := Log(h, first), Log(h, before) + Record(h, p)[..n];
    LogConcat(h, first, later);
    TornIsNoLog(h, before, p, n, first);
    if a + Log(h, later) == torn + Log(h, later) {
      assert |a| == |torn|;
      SplitEqual(a, Log(h, later), torn, Log(h, later));
    }
  }

  /** The strings whose hashes stand behind the records of `ps`. */
  ghost function Sealed(ps: seq<Bytes>): set<Bytes> {
    set i | 0 <= i < |ps| :: Checksummed(ps[i])
  }

  lemma SealedGrows(h: Hash, ps: seq<Bytes>, qs: seq<Bytes>)
    requires ps != [] && qs != []
    requires CollisionBetween(h, Sealed(ps[..|ps| - 1]), Sealed(qs[..|qs| - 1]))
    ensures CollisionBetween(h, Sealed(ps), Sealed(qs))
  {
    var m, n := |ps| - 1, |qs| - 1;
    var x, y :| x in Sealed(ps[..m]) && y in Sealed(qs[..n]) && x != y && h(x) == h(y);
    var i :| 0 <= i < m && Checksummed(ps[..m][i]) == x;
    var j :| 0 <= j < n && Checksummed(qs[..n][j]) == y;
    assert x == Checksummed(ps[i]) && y == Checksummed(qs[j]);
  }

  lemma LastSealed(h: Hash, ps: seq<Bytes>, qs: seq<Bytes>)
    requires ps != [] && qs != []
    requires ps[|ps| - 1] != qs[|qs| - 1]
    requires h(Checksummed(ps[|ps| - 1])) == h(Checksummed(qs[|qs| - 1]))
    ensures CollisionBetween(h, Sealed(ps), Sealed(qs))
  {
    var p, q := ps[|ps| - 1], qs[|qs| - 1];
    assert Checksummed(p) in Sealed(ps) && Checksummed(q) in Sealed(qs);
    if Checksummed(p) == Checksummed(q) {
      ChecksummedInjective(p, q);
    }
  }

  lemma LogLast(h: Hash, ps: seq<Bytes>)
    requires ps != []
    ensures Log(h, ps) == Log(h, ps[..|ps| - 1]) + Record(h, ps[|ps| - 1])
  {
    assert ps == ps[..|ps| - 1] + [ps[|ps| - 1]];
    LogGrows(h, ps[..|ps| - 1], ps[|ps| - 1]);
  }

  /** Two files that end in one record each have its checksum at the end. */
  lemma SameEnd(h: Hash, a: Bytes, p: Bytes, b: Bytes, q: Bytes)
    requires a + Record(h, p) == b + Record(h, q)
    ensures h(Checksummed(p)) == h(Checksummed(q))
    ensures p == q ==> a == b
  {
    assert a + Record(h, p) == (a + Checksummed(p)) + h(Checksummed(p));
    assert b + Record(h, q) == (b + Checksummed(q)) + h(Checksummed(q));
    assert |a + Checksummed(p)| == |b + Checksummed(q)|;
    SplitEqual(a + Checksummed(p), h(Checksummed(p)), b + Checksummed(q), h(Checksummed(q)));
    if p == q {
      SplitEqual(a, Record(h, p), b, Record(h, q));
    }
  }

  /** From the end: the last record read carries the checksum of the last one appended. */
  lemma {:induction false} ReadBehindBreak(
    h: Hash, before: seq<Bytes>, p: Bytes, n: nat, later: seq<Bytes>, read: seq<Bytes>
  )
    requires AllFit(before) && AllFit(read) && Fits(p) && 0 < n < |p| + 38
    requires Log(h, read) == Log(h, before) + Record(h, p)[..n] + Log(h, later)
    ensures CollisionBetween(h, Sealed(read), Sealed(later))
    decreases |later|
  {
    var torn := Log(h, before) + Record(h, p)[..n];
    assert |torn| > 0;
    if later == [] {
      assert torn + [] == torn;
      TornIsNoLog(h, before, p, n, read);
      assert false;
    } else {
      var q, l := read[|read| - 1], later[|later| - 1];
      var read', later' := read[..|read| - 1], later[..|later| - 1];
      LogLast(h, read);
      LogLast(h, later);
      assert torn + (Log(h, later') + Record(h, l)) == (torn + Log(h, later')) + Record(h, l);
      SameEnd(h, Log(h, read'), q, torn + Log(h, later'), l);
      if q != l {
        LastSealed(h, read, later);
      } else {
        ReadBehindBreak(h, before, p, n, later', read');
        SealedGrows(h, read, later);
      }
    }
  }

  /**
    The process goes on after a broken write, and later appends report success behind the partial
    record. A restart then fails, or the records it reads and those appended later show two strings with
    one hash; in no case does what it reads end in the later records.
    */
  lemma AppendsBehindBreakAreLost(h: Hash, c: Codec, before: seq<Bytes>, p: Bytes, n: nat, later: seq<Bytes>)
    returns (read: seq<Bytes>)
    requires AllFit(before) && AllFit(later) && Fits(p) && 0 < n < |p| + 38
    ensures var file := Log(h, before) + Record(h, p)[..n] + Log(h, later);
            || Replay(h, c, file).Err?
            || (&& AllFit(read) && file == Log(h, read) && Decoded(c, read) == Some(Replay(h, c, file).value)
                && CollisionBetween(h, Sealed(read), Sealed(later))
                && forall first :: read != first + later)
  {
    read := [];
    var file := Log(h, before) + Record(h, p)[..n] + Log(h, later);
    if Replay(h, c, file).Ok? {
      read := FramesOf(h, c, file);
      ReadBehindBreak(h, before, p, n, later, read);
      forall first | read == first + later
        ensures false
      {
        assert forall i :: 0 <= i < |first| ==> first[i] == read[i];
        NotInFront(h, before, p, n, first, later);
      }
    }
  }

  /**
    When later appends are recovered: after `n` bytes of the record of `e`, those of `fs` come back
    exactly when `n` is nothing or all of it. In between the restart fails, unless strings collide.
    */
  lemma LaterAppendsRecoveredExactly(h: Hash, c: Codec, es: Ledger, e: RevocationEvent, n: nat, fs: Ledger)
    returns (read: seq<Bytes>)
    requires AllFaithful(c, es) && Faithful(c, e) && AllFaithful(c, fs) && n <= |c.marshal(e).value| + 38
    ensures var whole := |c.marshal(e).value| + 38;
            var file := LogOf(h, c, es) + Record(h, c.marshal(e).value)[..n] + LogOf(h, c, fs);
            && (n == 0 ==> Replay(h, c, file) == Ok(es + fs))
            && (n == whole ==> Replay(h, c, file) == Ok(es + [e] + fs))
            && (0 < n < whole ==>
                  Replay(h, c, file).Err?
                  || (file == Log(h, read) && CollisionBetween(h, Sealed(read), Sealed(Payloads(c, fs)))))
  {
    var r := Record(h, c.marshal(e).value);
    read := [];
    if n == 0 {
      assert LogOf(h, c, es) + r[..0] + LogOf(h, c, fs) == LogOf(h, c, es) + LogOf(h, c, fs);
      BothReplay(h, c, es, fs);
    } else if n == |r| {
      assert r[..n] == r;
      LogOfConcat(h, c, es, [e]);
      LogOfOne(h, c, e);
      BothReplay(h, c, es + [e], fs);
    } else {
      read := AppendsBehindBreakAreLost(h, c, Payloads(c, es), c.marshal(e).value, n, Payloads(c, fs));
    }
  }

  lemma BothReplay(h: Hash, c: Codec, es: Ledger, fs: Ledger)
    requires AllFaithful(c, es) && AllFaithful(c, fs)
    ensures Replay(h, c, LogOf(h, c, es) + LogOf(h, c, fs)) == Ok(es + fs)
  {
    LogOfConcat(h, c, es, fs);
    RoundTripExactly(h, c, es + fs);
  }

  /** `file` is what the medium holds; `Close` forgets the handle, not the bytes. */
  class FileLedger {
    var file: Bytes
    var isOpen: bool

    constructor (contents: Bytes)
      ensures file == contents && isOpen
    {
      file, isOpen := contents, true;
    }

    method Close()
      modifies this
      ensures !isOpen && file == old(file)
    {
      isOpen := false;
    }

    /** One `Write`; the medium takes `room` more bytes and then fails. */
    method Write(b: Bytes, room: nat) returns (ok: bool, left: nat)
      modifies this`file
      ensures file == old(file) + UpTo(b, room)
      ensures ok <==> |b| <= room
      ensures ok ==> left == room - |b|
    {
      file := file + UpTo(b, room);
      if |b| <= room {
        return true, room - |b|;
      }
      return false, 0;
    }

    /** The next part of `all`, of which `done` is already in the file. */
    method WritePart(part: Bytes, left: nat, ghost all: Bytes, ghost done: Bytes, ghost start: Bytes)
      returns (ok: bool, remaining: nat)
      requires file == start + done && done + part <= all
      modifies this`file
      ensures ok <==> |part| <= left
      ensures ok ==> file == start + (done + part) && remaining == left - |part|
      ensures !ok ==> file == start + UpTo(all, |done| + left)
    {
      ok, remaining := Write(part, left);
      if !ok {
        assert (done + part)[..|done| + left] == done + part[..left];
        assert all[..|done| + left] == (done + part)[..|done| + left];
      }
    }

    /** The four writes of a record. */
    method WriteRecord(h: Hash, payload: Bytes, room: nat) returns (ok: bool)
      modifies this`file
      ensures file == old(file) + UpTo(Record(h, payload), room)
      ensures ok <==> |payload| + 38 <= room
    {
      var length, magic := BigEndian(|payload|, 4), BigEndian(LogMagicNumber, 2);
      var checksum := h(Checksummed(payload));
      ghost var r, start := Record(h, payload), file;
      var left: nat;
      assert start + [] == start && [] + length == length;
      ok, left := WritePart(length, room, r, [], start);
      if !ok {
        return;
      }
      ok, left := WritePart(magic, left, r, length, start);
      if !ok {
        return;
      }
      ok, left := WritePart(payload, left, r, length + magic, start);
      if !ok {
        return;
      }
      ok, left := WritePart(checksum, left, r, Checksummed(payload), start);
    }

    /** Whatever fails, the file gains a prefix of one record, all of it when the medium had room. */
    method AppendEvent(h: Hash, c: Codec, event: RevocationEvent, room: nat, synced: bool)
      returns (failure: Option<AppendError>)
      modifies this`file
      ensures failure == AppendFailure(c, isOpen, event, room, synced)
      ensures file == old(file) + Landed(h, c, isOpen, event, room)
    {
      if !isOpen {
        return Some(Closed);
      }
      var encoded := c.marshal(event);
      if encoded.None? {
        return Some(MarshalFailed);
      }
      var payload := encoded.value;
      if |payload| == 0 {
        return Some(EmptyPayload);
      }
      if |payload| > 0xFFFF_FFFF {
        return Some(TooLong);
      }
      var ok := WriteRecord(h, payload, room);
      if !ok {
        return Some(WriteFailed);
      }
      return if synced then None else Some(SyncFailed);
    }

    method ReplayGenesis(h: Hash, c: Codec) returns (r: Result<Ledger, GenesisError>)
      ensures !isOpen ==> r == Err(LedgerClosed)
      ensures isOpen ==> r == match Replay(h, c, file) case Ok(es) => Ok(es) case Err(e) => Err(Unreadable(e))
    {
      if !isOpen {
        return Err(LedgerClosed);
      }
      var replayed := ReplayFile(h, c, file);
      match replayed {
        case Ok(es) => return Ok(es);
        case Err(e) => return Err(Unreadable(e));
      }
    }
  }

  /** Reads the record at `pos`. */
  method ReadRecord(h: Hash, file: Bytes, pos: nat) returns (r: Result<Bytes, LogError>)
    requires pos < |file|
    ensures r == NextRecord(h, file[pos..])
  {
    ghost var here := file[pos..];
    if |file| - pos < 4 {
      return Err(TruncatedLength);
    }
    var length := Value(file[pos..pos + 4]);
    assert here[..4] == file[pos..pos + 4];
    if length == 0 {
      return Err(ZeroLength);
    }
    if |file| - pos < 6 {
      return Err(MissingMagic);
    }
    assert here[4..6] == file[pos + 4..pos + 6];
    if Value(file[pos + 4..pos + 6]) != LogMagicNumber {
      return Err(BadMagic);
    }
    if |file| - pos < 6 + length {
      return Err(TruncatedPayload);
    }
    var payload := file[pos + 6..pos + 6 + length];
    assert here[6..6 + length] == payload;
    if |file| - pos < 38 + length {
      return Err(TruncatedChecksum);
    }
    var checksum := file[pos + 6 + length..pos + 38 + length];
    assert here[6 + length..38 + length] == checksum;
    if h(BigEndian(length, 4) + BigEndian(LogMagicNumber, 2) + payload) != checksum {
      return Err(Tampered);
    }
    return Ok(payload);
  }

  /** What is left to replay after the record at the head. */
  lemma ReplayNext(h: Hash, c: Codec, b: Bytes, events: Ledger)
    requires b != [] && NextRecord(h, b).Ok? && c.unmarshal(NextRecord(h, b).value).Some?
    ensures var p := NextRecord(h, b).value;
            Prepend(events, Replay(h, c, b)) == Prepend(events + [c.unmarshal(p).value], Replay(h, c, b[|p| + 38..]))
  {
    var p := NextRecord(h, b).value;
    PrependTwice(events, [c.unmarshal(p).value], Replay(h, c, b[|p| + 38..]));
  }

  /** Reads the event at `pos`, after `events`, and where the next record begins. */
  method ReadEvent(h: Hash, c: Codec, file: Bytes, pos: nat, ghost events: Ledger)
    returns (r: Result<RevocationEvent, LogError>, next: nat)
    requires pos < |file|
    ensures r.Err? ==> Replay(h, c, file[pos..]) == Err(r.error)
    ensures r.Ok? ==>
              && pos < next <= |file|
              && Prepend(events, Replay(h, c, file[pos..])) == Prepend(events + [r.value], Replay(h, c, file[next..]))
  {
    var payload := ReadRecord(h, file, pos);
    if payload.Err? {
      return Err(payload.error), pos;
    }
    var event := c.unmarshal(payload.value);
    if event.None? {
      return Err(Malformed), pos;
    }
    next := pos + 38 + |payload.value|;
    ReplayNext(h, c, file[pos..], events);
    assert file[pos..][|payload.value| + 38..] == file[next..];
    r := Ok(event.value);
  }

  method ReplayFile(h: Hash, c: Codec, file: Bytes) returns (r: Result<Ledger, LogError>)
    ensures r == Replay(h, c, file)
  {
    var events: Ledger := [];
    var pos := 0;
    PrependTwice([], [], Replay(h, c, file));
    while pos < |file|
      invariant 0 <= pos <= |file|
      invariant Replay(h, c, file) == Prepend(events, Replay(h, c, file[pos..]))
      decreases |file| - pos
    {
      var event, next := ReadEvent(h, c, file, pos, events);
      if event.Err? {
        return Err(event.error);
      }
      events := events + [event.value];
      pos := next;
    }
    assert file[pos..] == [];
    assert events + [] == events;
    return Ok(events);
  }
}
