/** pkg/quarantine/quarantine.go: compiling a snapshot and its canonical fingerprint. */
module SnapshotHash {
  import opened ByteStrings
  import opened Sorting
  import opened Evaluate
  import opened Quarantine

  datatype RuntimeSnapshot = RuntimeSnapshot(
    version: U64,
    snapshotHash: Digest,
    createdAtUnix: int,
    highestEventId: Id,
    eventCount: U64,
    maps: Maps
  )

  const TagQ: byte := 81
  const TagT: byte := 84
  const TagR: byte := 82

  function Self(id: Id): Id { id }

  function InsertionSortIds(s: seq<Id>): (r: seq<Id>)
    ensures SortedBy(Self, r) && multiset(r) == multiset(s)
  {
    InsertionSort(Self, s)
  }

  /** `sort.Slice` of the pairs, which have pairwise different IDs. */
  type IdSort = f: seq<Id> -> seq<Id> | Sorts(Self, f) witness InsertionSortIds

  // ------------------------------------------------------------ the preimage

  /** The keys of a map in their one ascending order. */
  ghost predicate IsOrderOf(ks: seq<Id>, keys: set<Id>) {
    && SortedBy(Self, ks)
    && multiset(ks) == multiset(keys)
  }

  lemma OrderUnique(a: seq<Id>, b: seq<Id>, keys: set<Id>)
    requires IsOrderOf(a, keys) && IsOrderOf(b, keys)
    ensures a == b
  {
    SortedPermutationUnique(Self, a, b);
  }

  lemma {:induction false} SomeListing(keys: set<Id>) returns (ks: seq<Id>)
    ensures multiset(ks) == multiset(keys)
  {
    if keys == {} {
      ks := [];
    } else {
      var k :| k in keys;
      var rest := SomeListing(keys - {k});
      ks := [k] + rest;
      assert multiset(keys) == multiset{k} + multiset(keys - {k});
    }
  }

  lemma OrderExists(keys: set<Id>)
    ensures exists ks :: IsOrderOf(ks, keys)
  {
    var ks := SomeListing(keys);
    assert IsOrderOf(InsertionSortIds(ks), keys);
  }

  ghost function Ordered(keys: set<Id>): (ks: seq<Id>)
    ensures IsOrderOf(ks, keys)
    ensures forall k :: k in ks <==> k in keys
  {
    OrderExists(keys);
    var ks :| IsOrderOf(ks, keys);
    assert forall k :: k in ks <==> k in multiset(ks);
    ks
  }

  /** The entries under `ks`, each as tag, ID and body. */
  function Entries(tag: byte, ks: seq<Id>, bodies: map<Id, Bytes>): Bytes
    requires forall k :: k in ks ==> k in bodies
  {
    if ks == [] then [] else [tag] + ks[0] + bodies[ks[0]] + Entries(tag, ks[1..], bodies)
  }

  ghost function SetBytes(tag: byte, bodies: map<Id, Bytes>): Bytes {
    Entries(tag, Ordered(bodies.Keys), bodies)
  }

  function QuarantineBodies(m: map<Id, QuarantineState>): map<Id, Bytes> {
    map k | k in m :: m[k].eventId + m[k].reasonCode.Text()
  }

  function IdBodies(m: map<Id, Id>): map<Id, Bytes> {
    map k | k in m :: m[k]
  }

  ghost function Preimage(version: U64, count: U64, highest: Id, m: Maps): Bytes {
    BigEndian(version, 8) + BigEndian(count, 8) + highest
    + (SetBytes(TagQ, QuarantineBodies(m.quarantined))
       + (SetBytes(TagT, IdBodies(m.tombstoned)) + SetBytes(TagR, IdBodies(m.revoked))))
  }

  // ------------------------------------------------------------ compilation

  function Highest(es: Ledger): Id {
    if es == [] then Zeros(16) else es[|es| - 1].eventId
  }

  function Count(es: Ledger): U64 {
    |es| % 0x1_0000_0000_0000_0000
  }

  ghost function PreimageOf(es: Ledger, version: U64): Bytes {
    Preimage(version, Count(es), Highest(es), Fold(NoMaps, es))
  }

  /** The snapshot of a history. Its creation time is no part of the hash. */
  ghost function Compile(h: Hash, es: Ledger, version: U64, createdAtUnix: int): RuntimeSnapshot {
    RuntimeSnapshot(version, h(PreimageOf(es, version)), createdAtUnix, Highest(es), Count(es), Fold(NoMaps, es))
  }

  /** Histories alike in what compilation reads have one snapshot, fingerprint included. */
  lemma AlikeCompile(h: Hash, es: Ledger, fs: Ledger, version: U64, createdAtUnix: int)
    requires AllAlike(es, fs)
    ensures Compile(h, es, version, createdAtUnix) == Compile(h, fs, version, createdAtUnix)
  {
    AlikeFold(NoMaps, es, fs);
    if es != [] {
      assert Alike(es[|es| - 1], fs[|es| - 1]);
    }
  }

  /** Ranging over a map visits its keys in any order. */
  method Keys(bodies: map<Id, Bytes>) returns (pairs: seq<Id>)
    ensures multiset(pairs) == multiset(bodies.Keys)
  {
    pairs := [];
    var rest := bodies.Keys;
    while rest != {}
      invariant rest <= bodies.Keys
      invariant multiset(pairs) + multiset(rest) == multiset(bodies.Keys)
      decreases |rest|
    {
      var id :| id in rest;
      pairs := pairs + [id];
      assert multiset(rest) == multiset{id} + multiset(rest - {id});
      rest := rest - {id};
    }
  }

  method WriteEntries(w: Buffer, tag: byte, pairs: seq<Id>, bodies: map<Id, Bytes>)
    requires forall k :: k in pairs ==> k in bodies
    modifies w
    ensures w.data == old(w.data) + Entries(tag, pairs, bodies)
  {
    var i := 0;
    while i < |pairs|
      invariant 0 <= i <= |pairs|
      invariant w.data + Entries(tag, pairs[i..], bodies) == old(w.data) + Entries(tag, pairs, bodies)
    {
      var k := pairs[i];
      assert k in pairs;
      ghost var before, later := w.data, Entries(tag, pairs[i + 1..], bodies);
      assert pairs[i..][1..] == pairs[i + 1..];
      assert Entries(tag, pairs[i..], bodies) == [tag] + k + bodies[k] + later;
      w.Write([tag]);
      w.Write(k);
      w.Write(bodies[k]);
      assert w.data + later == before + ([tag] + k + bodies[k] + later);
      i := i + 1;
    }
    assert Entries(tag, pairs[i..], bodies) == [];
  }

  /** The three set writers: whatever order the map is ranged over, the bytes are the same. */
  method WriteSet(w: Buffer, sort: IdSort, tag: byte, bodies: map<Id, Bytes>)
    modifies w
    ensures w.data == old(w.data) + SetBytes(tag, bodies)
  {
    var pairs := Keys(bodies);
    var ordered := sort(pairs);
    OrderUnique(ordered, Ordered(bodies.Keys), bodies.Keys);
    WriteEntries(w, tag, ordered, bodies);
  }

  method ComputeSnapshotHash(h: Hash, sort: IdSort, version: U64, count: U64, highest: Id, m: Maps)
    returns (d: Digest)
    ensures d == h(Preimage(version, count, highest, m))
  {
    var w := new Buffer();
    w.Write(BigEndian(version, 8));
    w.Write(BigEndian(count, 8));
    w.Write(highest);
    ghost var head := w.data;
    assert head == BigEndian(version, 8) + BigEndian(count, 8) + highest;
    WriteSet(w, sort, TagQ, QuarantineBodies(m.quarantined));
    WriteSet(w, sort, TagT, IdBodies(m.tombstoned));
    WriteSet(w, sort, TagR, IdBodies(m.revoked));
    RightNest(head, SetBytes(TagQ, QuarantineBodies(m.quarantined)),
              SetBytes(TagT, IdBodies(m.tombstoned)), SetBytes(TagR, IdBodies(m.revoked)));
    d := h(w.data);
  }

  lemma RightNest(a: Bytes, b: Bytes, c: Bytes, d: Bytes)
    ensures a + b + c + d == a + (b + (c + d))
  {
  }

  method CompileSnapshot(h: Hash, sort: IdSort, es: Ledger, version: U64, createdAtUnix: int)
    returns (snap: RuntimeSnapshot)
    ensures snap == Compile(h, es, version, createdAtUnix)
  {
    var highest := Zeros(16);
    var quarantined: map<Id, QuarantineState>, tombstoned: map<Id, Id>, revoked: map<Id, Id> := map[], map[], map[];
    for i := 0 to |es|
      invariant highest == Highest(es[..i])
      invariant Maps(quarantined, tombstoned, revoked) == Fold(NoMaps, es[..i])
    {
      var event := es[i];
      assert es[..i + 1][..i] == es[..i];
      highest := event.eventId;
      match ClassOf(event) {
        case Deleting =>
          quarantined := quarantined - {event.memoryId};
          revoked := revoked - {event.memoryId};
          tombstoned := tombstoned[event.memoryId := event.eventId];
        case Quarantining =>
          revoked := revoked - {event.memoryId};
          quarantined := quarantined[event.memoryId := QuarantineState(event.eventId, ReasonCode(event))];
        case Revoking =>
          quarantined := quarantined - {event.memoryId};
          revoked := revoked[event.memoryId := event.eventId];
        case Clearing =>
          quarantined := quarantined - {event.memoryId};
        case Inert =>
      }
    }
    assert es[..|es|] == es;
    var maps := Maps(quarantined, tombstoned, revoked);
    var hash := ComputeSnapshotHash(h, sort, version, Count(es), highest, maps);
    snap := RuntimeSnapshot(version, hash, createdAtUnix, highest, Count(es), maps);
  }

  // ------------------------------------------------------------ unique decoding

  /** No body of one map is a proper prefix of a body of the other. */
  ghost predicate PrefixFree(a: map<Id, Bytes>, b: map<Id, Bytes>) {
    forall j, k :: j in a && k in b ==> !(a[j] < b[k]) && !(b[k] < a[j])
  }

  predicate StartsOtherThan(tag: byte, s: Bytes) {
    s == [] || s[0] != tag
  }

  lemma PrefixFreeSplit(x: Bytes, s: Bytes, y: Bytes, t: Bytes)
    requires x + s == y + t
    requires !(x < y) && !(y < x)
    ensures x == y && s == t
  {
    var n := if |x| <= |y| then |x| else |y|;
    assert x[..n] == (x + s)[..n] == (y + t)[..n] == y[..n];
    SplitEqual(x, s, y, t);
  }

  lemma EntryShape(tag: byte, ks: seq<Id>, a: map<Id, Bytes>, tail: Bytes)
    requires ks != [] && forall k :: k in ks ==> k in a
    ensures Entries(tag, ks, a) + tail == [tag] + (ks[0] + (a[ks[0]] + (Entries(tag, ks[1..], a) + tail)))
  {
  }

  lemma {:induction false} EntriesDecode(
    tag: byte, ks: seq<Id>, a: map<Id, Bytes>, s: Bytes, js: seq<Id>, b: map<Id, Bytes>, t: Bytes
  )
    requires (forall k :: k in ks ==> k in a) && (forall k :: k in js ==> k in b)
    requires PrefixFree(a, b)
    requires StartsOtherThan(tag, s) && StartsOtherThan(tag, t)
    requires Entries(tag, ks, a) + s == Entries(tag, js, b) + t
    ensures ks == js && s == t
    ensures forall k :: k in ks ==> a[k] == b[k]
    decreases |ks|
  {
    assert [] + s == s && [] + t == t;
    if ks == [] && js == [] {
    } else if ks == [] {
      EntryShape(tag, js, b, t);
    } else if js == [] {
      EntryShape(tag, ks, a, s);
    } else {
      var k, j := ks[0], js[0];
      assert k in ks && j in js;
      EntryShape(tag, ks, a, s);
      EntryShape(tag, js, b, t);
      var ks', js' := ks[1..], js[1..];
      var rs, rt := Entries(tag, ks', a) + s, Entries(tag, js', b) + t;
      SplitEqual([tag], k + (a[k] + rs), [tag], j + (b[j] + rt));
      SplitEqual(k, a[k] + rs, j, b[j] + rt);
      PrefixFreeSplit(a[k], rs, b[j], rt);
      EntriesDecode(tag, ks', a, s, js', b, t);
      assert ks == [k] + ks' && js == [j] + js';
    }
  }

  lemma SetDecodes(tag: byte, a: map<Id, Bytes>, s: Bytes, b: map<Id, Bytes>, t: Bytes)
    requires PrefixFree(a, b)
    requires StartsOtherThan(tag, s) && StartsOtherThan(tag, t)
    requires SetBytes(tag, a) + s == SetBytes(tag, b) + t
    ensures a == b && s == t
  {
    EntriesDecode(tag, Ordered(a.Keys), a, s, Ordered(b.Keys), b, t);
    assert forall k :: k in a <==> k in b;
    assert a.Keys == b.Keys;
  }

  lemma SetStarts(tag: byte, a: map<Id, Bytes>, s: Bytes, other: byte)
    requires tag != other && StartsOtherThan(other, s)
    ensures StartsOtherThan(other, SetBytes(tag, a) + s)
  {
    if Ordered(a.Keys) != [] {
      EntryShape(tag, Ordered(a.Keys), a, s);
    } else {
      assert SetBytes(tag, a) + s == s;
    }
  }

  /** The reason codes a quarantine entry can hold after compilation. */
  predicate Compiled(r: Reason) {
    r in {MemoryPoisoningSuspected, PromptInjectionDetected, CrossSessionLeak, CrossAgentLeak, RetroactiveRevocation}
  }

  /** Two different ones already differ in their first seven bytes: a prefix-free code. */
  lemma CodesDiffer(r: Reason, s: Reason) returns (i: nat)
    requires Compiled(r) && Compiled(s) && r != s
    ensures i < |r.Text()| && i < |s.Text()| && r.Text()[i] != s.Text()[i]
  {
    var x, y := r.Text(), s.Text();
    i := if x[0] != y[0] then 0 else 6;
  }

  ghost predicate OnlyCompiled(m: Maps) {
    forall k :: k in m.quarantined ==> Compiled(m.quarantined[k].reasonCode)
  }

  lemma {:induction false} FoldOnlyCompiled(es: Ledger)
    ensures OnlyCompiled(Fold(NoMaps, es))
  {
    if es != [] {
      FoldOnlyCompiled(es[..|es| - 1]);
    }
  }

  lemma NoPrefixAcross(e: Id, x: Bytes, f: Id, y: Bytes, i: nat)
    requires i < |x| && i < |y| && x[i] != y[i]
    ensures !(e + x < f + y) && !(f + y < e + x)
  {
    assert (e + x)[16 + i] == x[i] && (f + y)[16 + i] == y[i];
  }

  lemma CodedBodiesPrefixFree(e: Id, r: Reason, f: Id, s: Reason)
    requires Compiled(r) && Compiled(s)
    ensures !(e + r.Text() < f + s.Text()) && !(f + s.Text() < e + r.Text())
  {
    if r != s {
      var i := CodesDiffer(r, s);
      NoPrefixAcross(e, r.Text(), f, s.Text(), i);
    }
  }

  lemma QuarantineBodiesPrefixFree(m: Maps, n: Maps)
    requires OnlyCompiled(m) && OnlyCompiled(n)
    ensures PrefixFree(QuarantineBodies(m.quarantined), QuarantineBodies(n.quarantined))
  {
    var a, b := QuarantineBodies(m.quarantined), QuarantineBodies(n.quarantined);
    forall j, k | j in a && k in b
      ensures !(a[j] < b[k]) && !(b[k] < a[j])
    {
      var x, y := m.quarantined[j], n.quarantined[k];
      CodedBodiesPrefixFree(x.eventId, x.reasonCode, y.eventId, y.reasonCode);
    }
  }

  lemma QuarantineBodiesInjective(m: Maps, n: Maps)
    requires OnlyCompiled(m) && OnlyCompiled(n)
    requires QuarantineBodies(m.quarantined) == QuarantineBodies(n.quarantined)
    ensures m.quarantined == n.quarantined
  {
    var a, b := QuarantineBodies(m.quarantined), QuarantineBodies(n.quarantined);
    assert m.quarantined.Keys == a.Keys == b.Keys == n.quarantined.Keys;
    forall k | k in m.quarantined
      ensures m.quarantined[k] == n.quarantined[k]
    {
      var x, y := m.quarantined[k], n.quarantined[k];
      assert a[k] == b[k];
      SplitEqual(x.eventId, x.reasonCode.Text(), y.eventId, y.reasonCode.Text());
      if x.reasonCode != y.reasonCode {
        var i := CodesDiffer(x.reasonCode, y.reasonCode);
      }
    }
  }

  lemma IdBodiesInjective(m: map<Id, Id>, n: map<Id, Id>)
    requires IdBodies(m) == IdBodies(n)
    ensures m == n
  {
    assert m.Keys == IdBodies(m).Keys == IdBodies(n).Keys == n.Keys;
    assert forall k :: k in m ==> IdBodies(m)[k] == m[k];
    assert forall k :: k in n ==> IdBodies(n)[k] == n[k];
  }

  lemma MapsDecode(m: Maps, n: Maps)
    requires OnlyCompiled(m) && OnlyCompiled(n)
    requires SetBytes(TagQ, QuarantineBodies(m.quarantined))
             + (SetBytes(TagT, IdBodies(m.tombstoned)) + SetBytes(TagR, IdBodies(m.revoked)))
          == SetBytes(TagQ, QuarantineBodies(n.quarantined))
             + (SetBytes(TagT, IdBodies(n.tombstoned)) + SetBytes(TagR, IdBodies(n.revoked)))
    ensures m == n
  {
    var rm, rn := SetBytes(TagR, IdBodies(m.revoked)), SetBytes(TagR, IdBodies(n.revoked));
    var tm, tn := SetBytes(TagT, IdBodies(m.tombstoned)), SetBytes(TagT, IdBodies(n.tombstoned));
    assert rm + [] == rm && rn + [] == rn;
    SetStarts(TagR, IdBodies(m.revoked), [], TagT);
    SetStarts(TagR, IdBodies(n.revoked), [], TagT);
    SetStarts(TagR, IdBodies(m.revoked), [], TagQ);
    SetStarts(TagR, IdBodies(n.revoked), [], TagQ);
    SetStarts(TagT, IdBodies(m.tombstoned), rm, TagQ);
    SetStarts(TagT, IdBodies(n.tombstoned), rn, TagQ);
    QuarantineBodiesPrefixFree(m, n);
    SetDecodes(TagQ, QuarantineBodies(m.quarantined), tm + rm, QuarantineBodies(n.quarantined), tn + rn);
    SetDecodes(TagT, IdBodies(m.tombstoned), rm, IdBodies(n.tombstoned), rn);
    SetDecodes(TagR, IdBodies(m.revoked), [], IdBodies(n.revoked), []);
    QuarantineBodiesInjective(m, n);
    IdBodiesInjective(m.tombstoned, n.tombstoned);
    IdBodiesInjective(m.revoked, n.revoked);
  }

  /** The bytes hashed for a compiled snapshot determine it, although nothing delimits a reason code. */
  lemma PreimageDecodes(es: Ledger, v: U64, fs: Ledger, w: U64)
    requires PreimageOf(es, v) == PreimageOf(fs, w)
    ensures v == w && Count(es) == Count(fs) && Highest(es) == Highest(fs)
    ensures Fold(NoMaps, es) == Fold(NoMaps, fs)
  {
    var m, n := Fold(NoMaps, es), Fold(NoMaps, fs);
    var sm := SetBytes(TagQ, QuarantineBodies(m.quarantined))
              + (SetBytes(TagT, IdBodies(m.tombstoned)) + SetBytes(TagR, IdBodies(m.revoked)));
    var sn := SetBytes(TagQ, QuarantineBodies(n.quarantined))
              + (SetBytes(TagT, IdBodies(n.tombstoned)) + SetBytes(TagR, IdBodies(n.revoked)));
    var hm, hn := BigEndian(v, 8) + BigEndian(Count(es), 8), BigEndian(w, 8) + BigEndian(Count(fs), 8);
    SplitEqual(hm + Highest(es), sm, hn + Highest(fs), sn);
    SplitEqual(hm, Highest(es), hn, Highest(fs));
    SplitEqual(BigEndian(v, 8), BigEndian(Count(es), 8), BigEndian(w, 8), BigEndian(Count(fs), 8));
    Widths();
    ValueOfBigEndian(v, 8);
    ValueOfBigEndian(w, 8);
    ValueOfBigEndian(Count(es), 8);
    ValueOfBigEndian(Count(fs), 8);
    FoldOnlyCompiled(es);
    FoldOnlyCompiled(fs);
    MapsDecode(m, n);
  }

  /** Equal fingerprints mean equal snapshots up to creation time, or their two preimages collide. */
  lemma FingerprintBinds(h: Hash, es: Ledger, v: U64, c: int, fs: Ledger, w: U64, d: int)
    requires Compile(h, es, v, c).snapshotHash == Compile(h, fs, w, d).snapshotHash
    ensures || Compile(h, es, v, c) == Compile(h, fs, w, d).(createdAtUnix := c)
            || CollisionBetween(h, {PreimageOf(es, v)}, {PreimageOf(fs, w)})
  {
    if PreimageOf(es, v) == PreimageOf(fs, w) {
      PreimageDecodes(es, v, fs, w);
    }
  }

  lemma CountIsLength(es: Ledger)
    requires |es| < 0x1_0000_0000_0000_0000
    ensures Count(es) == |es|
  {
  }

  lemma PrefixPreimages(es: Ledger, v: U64, fs: Ledger, u: U64)
    requires (es <= fs || fs <= es) && |es| < 0x1_0000_0000_0000_0000 && |fs| < 0x1_0000_0000_0000_0000
    ensures PreimageOf(es, v) == PreimageOf(fs, u) ==> es == fs && v == u
  {
    if PreimageOf(es, v) == PreimageOf(fs, u) {
      PreimageDecodes(es, v, fs, u);
      CountIsLength(es);
      CountIsLength(fs);
      SameLengthPrefix(es, fs);
    }
  }

  lemma SameLengthPrefix(es: Ledger, fs: Ledger)
    requires (es <= fs || fs <= es) && |es| == |fs|
    ensures es == fs
  {
  }

  /**
    Two snapshots of one growing ledger have one fingerprint exactly when nothing was added and the
    version is the same, unless their preimages collide.
    */
  lemma PrefixFingerprints(h: Hash, es: Ledger, v: U64, fs: Ledger, u: U64)
    requires (es <= fs || fs <= es) && |es| < 0x1_0000_0000_0000_0000 && |fs| < 0x1_0000_0000_0000_0000
    ensures || CollisionBetween(h, {PreimageOf(es, v)}, {PreimageOf(fs, u)})
            || (h(PreimageOf(es, v)) == h(PreimageOf(fs, u)) <==> es == fs && u == v)
  {
    HashesTell(h, PreimageOf(es, v), PreimageOf(fs, u));
    PrefixPreimages(es, v, fs, u);
  }

  // ------------------------------------------------------------ the bytes of a fingerprint

  lemma NoneTwice(ks: seq<Id>, keys: set<Id>, i: nat, j: nat)
    requires multiset(ks) == multiset(keys) && i < j < |ks|
    ensures ks[i] != ks[j]
  {
    assert ks == ks[..j] + ks[j..];
    assert multiset(ks) == multiset(ks[..j]) + multiset(ks[j..]);
    assert ks[i] in ks[..j] && ks[j] in ks[j..];
    assert multiset(keys)[ks[i]] == 1;
    assert multiset(ks[..j])[ks[i]] >= 1 && multiset(ks[j..])[ks[j]] >= 1;
  }

  /** The keys are listed in ascending order, each once. */
  lemma OrderedAscends(keys: set<Id>, i: nat, j: nat)
    requires i < j < |Ordered(keys)|
    ensures Less(Ordered(keys)[i], Ordered(keys)[j])
  {
    var ks := Ordered(keys);
    LessTotal(ks[i], ks[j]);
    assert !Less(Self(ks[j]), Self(ks[i]));
    NoneTwice(ks, keys, i, j);
  }

  /** One more entry: tag, ID and body. */
  lemma {:induction false} OneMoreEntry(tag: byte, ks: seq<Id>, k: Id, bodies: map<Id, Bytes>)
    requires (forall i :: i in ks ==> i in bodies) && k in bodies
    ensures Entries(tag, ks + [k], bodies) == Entries(tag, ks, bodies) + ([tag] + k + bodies[k])
    ensures Entries(tag, [], bodies) == []
  {
    if ks == [] {
      assert [k][1..] == [];
      assert Entries(tag, [k], bodies) == [tag] + k + bodies[k] + [];
    } else {
      assert (ks + [k])[1..] == ks[1..] + [k] && ks[0] in ks;
      OneMoreEntry(tag, ks[1..], k, bodies);
    }
  }

  /** Version, count and last event ID, then the letters Q, T and R before the entries of the three maps. */
  lemma PreimageBytes(version: U64, count: U64, highest: Id, m: Maps)
    ensures var q, t, r := QuarantineBodies(m.quarantined), IdBodies(m.tombstoned), IdBodies(m.revoked);
            && Preimage(version, count, highest, m)
               == BigEndian(version, 8) + BigEndian(count, 8) + highest
                  + (Entries('Q' as int, Ordered(m.quarantined.Keys), q)
                     + (Entries('T' as int, Ordered(m.tombstoned.Keys), t)
                        + Entries('R' as int, Ordered(m.revoked.Keys), r)))
            && (forall k :: k in m.quarantined ==>
                  q[k] == m.quarantined[k].eventId + m.quarantined[k].reasonCode.Text())
            && (forall k :: k in m.tombstoned ==> t[k] == m.tombstoned[k])
            && (forall k :: k in m.revoked ==> r[k] == m.revoked[k])
  {
    assert QuarantineBodies(m.quarantined).Keys == m.quarantined.Keys;
    assert IdBodies(m.tombstoned).Keys == m.tombstoned.Keys && IdBodies(m.revoked).Keys == m.revoked.Keys;
  }

  /** What a compiled snapshot says of its history besides the maps. */
  lemma CompiledFields(h: Hash, es: Ledger, version: U64, createdAtUnix: int)
    ensures var s := Compile(h, es, version, createdAtUnix);
            && s.version == version && s.createdAtUnix == createdAtUnix
            && s.eventCount == |es| % 0x1_0000_0000_0000_0000
            && (es == [] ==> s.highestEventId == seq(16, _ => 0 as byte))
            && (es != [] ==> s.highestEventId == es[|es| - 1].eventId)
            && s.maps == Fold(NoMaps, es)
            && s.snapshotHash == h(Preimage(s.version, s.eventCount, s.highestEventId, s.maps))
  {
  }
}
