/** pkg/merkle: the turn tree over memory-decision leaves. */
module Merkle {
  import opened ByteStrings
  import opened Sorting

  datatype LeafRecord = LeafRecord(
    memoryId: Id,
    memoryHash: Digest,
    decisionCode: byte,
    injected: bool,
    policyHash: Digest,
    reasonCodeHash: Digest
  )

  // ------------------------------------------------------------ leaves

  function LeafPreimage(l: LeafRecord): (p: Bytes)
    ensures |p| == 114
  {
    l.memoryId + l.memoryHash + [l.decisionCode] + [if l.injected then 1 else 0]
    + l.policyHash + l.reasonCodeHash
  }

  lemma LeafPreimageInjective(a: LeafRecord, b: LeafRecord)
    requires LeafPreimage(a) == LeafPreimage(b)
    ensures a == b
  {
    var p, q := LeafPreimage(a), LeafPreimage(b);
    assert a.memoryId == p[..16] && b.memoryId == q[..16];
    assert a.memoryHash == p[16..48] && b.memoryHash == q[16..48];
    assert a.decisionCode == p[48] && b.decisionCode == q[48];
    assert (if a.injected then 1 else 0) == p[49] && (if b.injected then 1 else 0) == q[49];
    assert a.policyHash == p[50..82] && b.policyHash == q[50..82];
    assert a.reasonCodeHash == p[82..] && b.reasonCodeHash == q[82..];
  }

  method HashLeaf(h: Hash, l: LeafRecord) returns (d: Digest)
    ensures d == h(LeafPreimage(l))
  {
    var w := new Buffer();
    w.Write(l.memoryId);
    w.Write(l.memoryHash);
    w.Write([l.decisionCode]);
    if l.injected {
      w.Write([1]);
    } else {
      w.Write([0]);
    }
    w.Write(l.policyHash);
    w.Write(l.reasonCodeHash);
    assert w.data == LeafPreimage(l);
    d := h(w.data);
  }

  // ------------------------------------------------------------ canonical order

  function MemoryIdOf(l: LeafRecord): Id { l.memoryId }

  function InsertionSortLeaves(ls: seq<LeafRecord>): (r: seq<LeafRecord>)
    ensures SortedBy(MemoryIdOf, r) && multiset(r) == multiset(ls)
  {
    InsertionSort(MemoryIdOf, ls)
  }

  /** `sort.Slice` by memory ID. */
  type LeafSort = f: seq<LeafRecord> -> seq<LeafRecord> | Sorts(MemoryIdOf, f) witness InsertionSortLeaves

  // ------------------------------------------------------------ the recursive tree

  ghost predicate IsPowerOfTwo(k: nat) {
    k == 1 || (k > 0 && k % 2 == 0 && IsPowerOfTwo(k / 2))
  }

  function Doubled(k: nat, n: nat): (r: nat)
    requires 0 < k < n
    requires IsPowerOfTwo(k)
    ensures IsPowerOfTwo(r) && r < n <= 2 * r
    decreases n - k
  {
    if 2 * k < n then Doubled(2 * k, n) else k
  }

  /** The largest power of two below `n`. */
  function SplitPoint(n: nat): (k: nat)
    requires n >= 2
    ensures IsPowerOfTwo(k) && k < n <= 2 * k
  {
    Doubled(1, n)
  }

  lemma {:induction false} PowerBetweenUnique(a: nat, b: nat)
    requires IsPowerOfTwo(a) && IsPowerOfTwo(b)
    requires a < 2 * b && b < 2 * a
    ensures a == b
  {
    if a != 1 && b != 1 {
      PowerBetweenUnique(a / 2, b / 2);
    }
  }

  function Node(h: Hash, l: Digest, r: Digest): Digest {
    h(l + r)
  }

  /** The tree of section 2.1 of RFC 6962 over leaf hashes, without its prefix bytes. */
  function TreeHash(h: Hash, hs: seq<Digest>): Digest
    requires hs != []
  {
    if |hs| == 1 then hs[0]
    else
      var k := SplitPoint(|hs|);
      Node(h, TreeHash(h, hs[..k]), TreeHash(h, hs[k..]))
  }

  /** One round of pairing; an odd last hash is promoted unchanged. */
  function Level(h: Hash, hs: seq<Digest>): (r: seq<Digest>)
    ensures |r| == (|hs| + 1) / 2
  {
    if |hs| <= 1 then hs else [Node(h, hs[0], hs[1])] + Level(h, hs[2..])
  }

  lemma {:induction false} LevelSplits(h: Hash, hs: seq<Digest>, k: nat)
    requires k <= |hs| && k % 2 == 0
    ensures Level(h, hs) == Level(h, hs[..k]) + Level(h, hs[k..])
  {
    if k == 0 {
      assert hs[0..] == hs;
    } else {
      LevelSplits(h, hs[2..], k - 2);
      LevelOfPair(h, hs);
      LevelOfPair(h, hs[..k]);
      PairSlices(hs, k);
      Regroup([Node(h, hs[0], hs[1])], Level(h, hs[2..][..k - 2]), Level(h, hs[k..]));
    }
  }

  lemma PairSlices<T>(s: seq<T>, k: nat)
    requires 2 <= k <= |s|
    ensures s[2..][..k - 2] == s[..k][2..] && s[2..][k - 2..] == s[k..]
  {
  }

  lemma Regroup<T>(a: seq<T>, b: seq<T>, c: seq<T>)
    ensures a + (b + c) == a + b + c
  {
  }

  lemma LevelOfPair(h: Hash, hs: seq<Digest>)
    requires |hs| >= 2
    ensures Level(h, hs) == [Node(h, hs[0], hs[1])] + Level(h, hs[2..])
  {
  }

  lemma {:induction false} LevelKeepsTree(h: Hash, hs: seq<Digest>)
    requires |hs| >= 1
    ensures TreeHash(h, Level(h, hs)) == TreeHash(h, hs)
    decreases |hs|
  {
    if |hs| == 2 {
      assert Level(h, hs) == [Node(h, hs[0], hs[1])];
      assert hs[..1] == [hs[0]] && hs[1..] == [hs[1]];
    } else if |hs| > 2 {
      var k := SplitPoint(|hs|);
      var up := Level(h, hs);
      assert k % 2 == 0 && IsPowerOfTwo(k / 2);
      LevelSplits(h, hs, k);
      PowerBetweenUnique(SplitPoint(|up|), k / 2);
      assert up[..k / 2] == Level(h, hs[..k]) && up[k / 2..] == Level(h, hs[k..]);
      LevelKeepsTree(h, hs[..k]);
      LevelKeepsTree(h, hs[k..]);
    }
  }

  // ------------------------------------------------------------ BuildTurnTree

  function LeafHashes(h: Hash, ls: seq<LeafRecord>): (hs: seq<Digest>)
    ensures |hs| == |ls|
    ensures forall i :: 0 <= i < |ls| ==> hs[i] == h(LeafPreimage(ls[i]))
  {
    seq<Digest>(|ls|, i requires 0 <= i < |ls| => h(LeafPreimage(ls[i])))
  }

  /** What a turn tree commits to: the recursive tree over the ID-sorted leaves; zero for no leaves. */
  function TurnRoot(h: Hash, sort: LeafSort, leaves: seq<LeafRecord>): Digest {
    if leaves == [] then Zeros(32)
    else
      assert |multiset(sort(leaves))| == |multiset(leaves)|;
      TreeHash(h, LeafHashes(h, sort(leaves)))
  }

  ghost function Pow2(k: nat): (p: nat)
    ensures p >= 1
  {
    if k == 0 then 1 else 2 * Pow2(k - 1)
  }

  /** ceil(log2 n): halving, rounded up, until one is left. */
  ghost function Rounds(n: nat): nat {
    if n <= 1 then 0 else 1 + Rounds((n + 1) / 2)
  }

  lemma {:induction false} RoundsIsCeilLog(n: nat)
    requires n >= 1
    ensures n <= Pow2(Rounds(n))
    ensures Rounds(n) > 0 ==> Pow2(Rounds(n) - 1) < n
  {
    if n > 1 {
      RoundsIsCeilLog((n + 1) / 2);
    }
  }

  method HashNode(h: Hash, l: Digest, r: Digest) returns (d: Digest)
    ensures d == Node(h, l, r)
  {
    var w := new Buffer();
    w.Write(l);
    w.Write(r);
    assert w.data == l + r;
    d := h(w.data);
  }

  /** The first loop. */
  method HashLeaves(h: Hash, ordered: seq<LeafRecord>) returns (hashes: seq<Digest>)
    ensures hashes == LeafHashes(h, ordered)
  {
    hashes := [];
    for i := 0 to |ordered|
      invariant hashes == LeafHashes(h, ordered)[..i]
    {
      var d := HashLeaf(h, ordered[i]);
      hashes := hashes + [d];
    }
  }

  /** Where the inner loop stands: the pair or the odd hash at `i`, and the level of what is behind it. */
  lemma LevelFrom(h: Hash, hashes: seq<Digest>, i: nat)
    requires i < |hashes|
    ensures i + 1 < |hashes| ==>
              Level(h, hashes[i..]) == [Node(h, hashes[i], hashes[i + 1])] + Level(h, hashes[i + 2..])
    ensures i + 1 == |hashes| ==> Level(h, hashes[i..]) == [hashes[i]]
  {
    if i + 1 < |hashes| {
      assert hashes[i..][2..] == hashes[i + 2..];
    }
  }

  /** One pass of the inner loop. */
  method PairUp(h: Hash, hashes: seq<Digest>) returns (next: seq<Digest>, ghost nodes: nat)
    ensures next == Level(h, hashes)
    ensures nodes == |hashes| / 2
  {
    next, nodes := [], 0;
    var i := 0;
    while i < |hashes|
      invariant 0 <= i <= |hashes| + 1
      invariant i <= |hashes| ==> i % 2 == 0 && next + Level(h, hashes[i..]) == Level(h, hashes)
      invariant i <= |hashes| ==> nodes == i / 2
      invariant i > |hashes| ==> next == Level(h, hashes) && nodes == |hashes| / 2
    {
      LevelFrom(h, hashes, i);
      if i + 1 < |hashes| {
        var parent := HashNode(h, hashes[i], hashes[i + 1]);
        Regroup(next, [parent], Level(h, hashes[i + 2..]));
        next := next + [parent];
        nodes := nodes + 1;
      } else {
        next := next + [hashes[i]];
      }
      i := i + 2;
    }
  }

  /**
    The level-by-level loop computes the recursive tree, hashes |leaves| - 1 nodes, and takes
    ceil(log2 |leaves|) rounds.
    */
  method BuildTurnTree(h: Hash, sort: LeafSort, leaves: seq<LeafRecord>)
    returns (root: Digest, ghost nodes: nat, ghost rounds: nat)
    ensures root == TurnRoot(h, sort, leaves)
    ensures leaves != [] ==> nodes == |leaves| - 1
    ensures leaves != [] ==> |leaves| <= Pow2(rounds) && (rounds > 0 ==> Pow2(rounds - 1) < |leaves|)
  {
    nodes, rounds := 0, 0;
    if |leaves| == 0 {
      return Zeros(32), nodes, rounds;
    }
    var ordered := sort(leaves);
    assert |multiset(ordered)| == |multiset(leaves)|;
    var hashes := HashLeaves(h, ordered);
    while |hashes| > 1
      invariant hashes != []
      invariant TreeHash(h, hashes) == TurnRoot(h, sort, leaves)
      invariant nodes + |hashes| == |leaves|
      invariant rounds + Rounds(|hashes|) == Rounds(|leaves|)
      decreases |hashes|
    {
      LevelKeepsTree(h, hashes);
      ghost var paired;
      hashes, paired := PairUp(h, hashes);
      nodes, rounds := nodes + paired, rounds + 1;
    }
    RoundsIsCeilLog(|leaves|);
    root := hashes[0];
  }

  // ------------------------------------------------------------ what a root binds

  /** The same tree read from the leaves. */
  ghost function LeafTree(h: Hash, ls: seq<LeafRecord>): Digest
    requires ls != []
  {
    if |ls| == 1 then h(LeafPreimage(ls[0]))
    else
      var k := SplitPoint(|ls|);
      h(LeafTree(h, ls[..k]) + LeafTree(h, ls[k..]))
  }

  /** Every byte string hashed to obtain the tree over `ls`. */
  ghost function Hashed(h: Hash, ls: seq<LeafRecord>): set<Bytes>
    requires ls != []
  {
    if |ls| == 1 then {LeafPreimage(ls[0])}
    else
      var k := SplitPoint(|ls|);
      {LeafTree(h, ls[..k]) + LeafTree(h, ls[k..])} + Hashed(h, ls[..k]) + Hashed(h, ls[k..])
  }

  lemma {:induction false} LeafTreeIsTreeHash(h: Hash, ls: seq<LeafRecord>)
    requires ls != []
    ensures LeafTree(h, ls) == TreeHash(h, LeafHashes(h, ls))
    decreases |ls|
  {
    if |ls| > 1 {
      var k := SplitPoint(|ls|);
      LeafTreeIsTreeHash(h, ls[..k]);
      LeafTreeIsTreeHash(h, ls[k..]);
      assert LeafHashes(h, ls)[..k] == LeafHashes(h, ls[..k]);
      assert LeafHashes(h, ls)[k..] == LeafHashes(h, ls[k..]);
    }
  }

  /** The last string hashed: 114 bytes for a leaf, 64 for a node. */
  ghost function Top(h: Hash, ls: seq<LeafRecord>): (p: Bytes)
    requires ls != []
    ensures h(p) == LeafTree(h, ls) && p in Hashed(h, ls)
    ensures |p| == if |ls| == 1 then 114 else 64
  {
    if |ls| == 1 then LeafPreimage(ls[0])
    else
      var k := SplitPoint(|ls|);
      LeafTree(h, ls[..k]) + LeafTree(h, ls[k..])
  }

  lemma CollisionGrows(h: Hash, ps: set<Bytes>, qs: set<Bytes>, ps': set<Bytes>, qs': set<Bytes>)
    requires CollisionBetween(h, ps, qs) && ps <= ps' && qs <= qs'
    ensures CollisionBetween(h, ps', qs')
  {
  }

  lemma {:induction false} TreeBinds(h: Hash, xs: seq<LeafRecord>, ys: seq<LeafRecord>)
    requires xs != [] && ys != []
    requires LeafTree(h, xs) == LeafTree(h, ys)
    ensures xs == ys || CollisionBetween(h, Hashed(h, xs), Hashed(h, ys))
    decreases |xs|
  {
    if Top(h, xs) != Top(h, ys) {
      assert CollisionBetween(h, Hashed(h, xs), Hashed(h, ys));
    } else if |xs| == 1 {
      LeafPreimageInjective(xs[0], ys[0]);
    } else {
      var j, k := SplitPoint(|xs|), SplitPoint(|ys|);
      var xl, xr, yl, yr := xs[..j], xs[j..], ys[..k], ys[k..];
      SplitEqual(LeafTree(h, xl), LeafTree(h, xr), LeafTree(h, yl), LeafTree(h, yr));
      TreeBinds(h, xl, yl);
      TreeBinds(h, xr, yr);
      if xl == yl && xr == yr {
        assert xs == xl + xr && ys == yl + yr;
      } else if xl != yl {
        CollisionGrows(h, Hashed(h, xl), Hashed(h, yl), Hashed(h, xs), Hashed(h, ys));
      } else {
        CollisionGrows(h, Hashed(h, xr), Hashed(h, yr), Hashed(h, xs), Hashed(h, ys));
      }
    }
  }

  /**
    Equal roots mean the same leaves in the same ID order, whatever the two lengths, unless two
    different strings hashed for the two trees collide.
    */
  lemma RootBinds(h: Hash, sort: LeafSort, xs: seq<LeafRecord>, ys: seq<LeafRecord>)
    requires xs != [] && ys != []
    requires TurnRoot(h, sort, xs) == TurnRoot(h, sort, ys)
    ensures sort(xs) != [] && sort(ys) != []
    ensures || (sort(xs) == sort(ys) && multiset(xs) == multiset(ys))
            || CollisionBetween(h, Hashed(h, sort(xs)), Hashed(h, sort(ys)))
  {
    assert |multiset(sort(xs))| == |multiset(xs)| && |multiset(sort(ys))| == |multiset(ys)|;
    LeafTreeIsTreeHash(h, sort(xs));
    LeafTreeIsTreeHash(h, sort(ys));
    TreeBinds(h, sort(xs), sort(ys));
  }

  /** Reordering leaves keeps the root when no two different leaves share a memory ID. */
  lemma ReorderingKeepsRoot(h: Hash, sort: LeafSort, xs: seq<LeafRecord>, ys: seq<LeafRecord>)
    requires multiset(xs) == multiset(ys)
    requires KeysIdentify(MemoryIdOf, xs)
    ensures TurnRoot(h, sort, xs) == TurnRoot(h, sort, ys)
  {
    assert |multiset(xs)| == |xs| && |multiset(ys)| == |ys|;
    forall x, y | x in sort(xs) && y in sort(xs) && MemoryIdOf(x) == MemoryIdOf(y) ensures x == y {
      assert x in multiset(sort(xs)) && y in multiset(sort(xs));
      assert x in xs && y in xs;
    }
    SortedPermutationUnique(MemoryIdOf, sort(xs), sort(ys));
  }

  /** Two orders that sort differently have different roots. */
  lemma DifferentlySorted(h: Hash, sort: LeafSort, ys: seq<LeafRecord>, zs: seq<LeafRecord>)
    requires ys != [] && zs != [] && sort(ys) != sort(zs)
    ensures sort(ys) != [] && sort(zs) != []
    ensures || TurnRoot(h, sort, ys) != TurnRoot(h, sort, zs)
            || CollisionBetween(h, Hashed(h, sort(ys)), Hashed(h, sort(zs)))
  {
    SortKeepsSome(sort, ys);
    SortKeepsSome(sort, zs);
    if TurnRoot(h, sort, ys) == TurnRoot(h, sort, zs) {
      RootBinds(h, sort, ys, zs);
    }
  }

  /**
    The condition is exact: as soon as two different leaves share an ID, exchanging them gives the same
    leaves another root, unless hashed strings collide. It holds for every sort that, as `sort.Slice`
    does, sees the leaves through comparisons of their IDs only.
    */
  lemma SharedIdBreaksReordering(h: Hash, sort: LeafSort, place: seq<Id> -> seq<nat>, xs: seq<LeafRecord>)
    returns (zs: seq<LeafRecord>)
    requires PlacesByKeys(MemoryIdOf, sort, place)
    requires !KeysIdentify(MemoryIdOf, xs)
    ensures multiset(zs) == multiset(xs)
    ensures sort(xs) != [] && sort(zs) != []
    ensures || TurnRoot(h, sort, xs) != TurnRoot(h, sort, zs)
            || CollisionBetween(h, Hashed(h, sort(xs)), Hashed(h, sort(zs)))
  {
    var i, j := SomeTie(xs);
    zs := Exchanged(xs, i, j);
    ExchangedPermutes(xs, i, j);
    ExchangeShows(MemoryIdOf, sort, place, xs, i, j);
    DifferentlySorted(h, sort, xs, zs);
  }

  lemma SomeTie(xs: seq<LeafRecord>) returns (i: nat, j: nat)
    requires !KeysIdentify(MemoryIdOf, xs)
    ensures i < j < |xs| && xs[i] != xs[j] && MemoryIdOf(xs[i]) == MemoryIdOf(xs[j])
  {
    var x, y :| x in xs && y in xs && MemoryIdOf(x) == MemoryIdOf(y) && x != y;
    i :| 0 <= i < |xs| && xs[i] == x;
    j :| 0 <= j < |xs| && xs[j] == y;
    if j < i {
      i, j := j, i;
    }
  }

  /** Such a sort exists. */
  lemma InsertionSortPlacesLeaves()
    ensures PlacesByKeys(MemoryIdOf, InsertionSortLeaves, InsertionPlaces)
  {
    forall s: seq<LeafRecord>
      ensures PlacedAt(InsertionSortLeaves(s), s, InsertionPlaces(KeysOf(MemoryIdOf, s)))
    {
      InsertionSortPlaces(MemoryIdOf, s);
    }
  }

  lemma SortKeepsSome(sort: LeafSort, ls: seq<LeafRecord>)
    requires ls != []
    ensures sort(ls) != []
  {
    assert |multiset(sort(ls))| == |multiset(ls)|;
  }

  // ------------------------------------------------------------ the bytes of a leaf, and small trees

  lemma LeafBytes(l: LeafRecord)
    ensures var p := LeafPreimage(l);
            && p[..16] == l.memoryId && p[16..48] == l.memoryHash && p[48] == l.decisionCode
            && p[49] == (if l.injected then 1 else 0) && p[50..82] == l.policyHash && p[82..] == l.reasonCodeHash
  {
  }

  /** Leaves ascend by memory ID. */
  lemma LeavesAscend(sort: LeafSort, ls: seq<LeafRecord>, i: nat, j: nat)
    requires i < j < |sort(ls)|
    ensures sort(ls)[i].memoryId == sort(ls)[j].memoryId || Less(sort(ls)[i].memoryId, sort(ls)[j].memoryId)
  {
    LessTotal(sort(ls)[i].memoryId, sort(ls)[j].memoryId);
    assert !Less(MemoryIdOf(sort(ls)[j]), MemoryIdOf(sort(ls)[i]));
  }

  lemma Split2And3()
    ensures SplitPoint(2) == 1 && SplitPoint(3) == 2
  {
  }

  /** No leaf, one, two and three: left before right, the odd one promoted as it is. */
  lemma SmallTrees(h: Hash, sort: LeafSort, ls: seq<LeafRecord>)
    ensures ls == [] ==> TurnRoot(h, sort, ls) == seq(32, _ => 0 as byte)
    ensures |sort(ls)| == |ls|
    ensures |ls| == 1 ==> TurnRoot(h, sort, ls) == h(LeafPreimage(sort(ls)[0]))
    ensures |ls| == 2 ==> TurnRoot(h, sort, ls) == h(h(LeafPreimage(sort(ls)[0])) + h(LeafPreimage(sort(ls)[1])))
    ensures |ls| == 3 ==>
              TurnRoot(h, sort, ls)
              == h(h(h(LeafPreimage(sort(ls)[0])) + h(LeafPreimage(sort(ls)[1]))) + h(LeafPreimage(sort(ls)[2])))
  {
    assert |multiset(sort(ls))| == |multiset(ls)|;
    if ls != [] {
      LeafTreeIsTreeHash(h, sort(ls));
      if |ls| == 2 {
        TwoLeaves(h, sort(ls));
      } else if |ls| == 3 {
        ThreeLeaves(h, sort(ls));
      }
    }
  }

  lemma TwoLeaves(h: Hash, s: seq<LeafRecord>)
    requires |s| == 2
    ensures LeafTree(h, s) == h(h(LeafPreimage(s[0])) + h(LeafPreimage(s[1])))
  {
    Split2And3();
    assert s[..1] == [s[0]] && s[1..] == [s[1]];
  }

  lemma ThreeLeaves(h: Hash, s: seq<LeafRecord>)
    requires |s| == 3
    ensures LeafTree(h, s) == h(h(h(LeafPreimage(s[0])) + h(LeafPreimage(s[1]))) + h(LeafPreimage(s[2])))
  {
    Split2And3();
    TwoLeaves(h, s[..2]);
    assert s[2..] == [s[2]];
  }
}
