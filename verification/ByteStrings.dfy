/** Byte strings, the fixed-width arrays of the Go code, and big-endian words. */
module ByteStrings {

  type byte = x: int | 0 <= x < 256
  type Bytes = seq<byte>

  /** `[16]byte`, `[32]byte` and `[64]byte`. */
  type Id = s: Bytes | |s| == 16 witness Zeros(16)
  type Digest = s: Bytes | |s| == 32 witness Zeros(32)
  type Sig = s: Bytes | |s| == 64 witness Zeros(64)

  type U32 = x: int | 0 <= x < 0x1_0000_0000
  type U64 = x: int | 0 <= x < 0x1_0000_0000_0000_0000
  type I64 = x: int | -0x8000_0000_0000_0000 <= x < 0x8000_0000_0000_0000

  /** Counting on a `uint64`. */
  function Plus(x: U64, n: int): U64 {
    (x + n) % 0x1_0000_0000_0000_0000
  }

  /** The one carry that is lost. */
  lemma PlusWraps(x: U64)
    ensures Plus(x, 1) == if x == 0xffff_ffff_ffff_ffff then 0 else x + 1
  {
  }

  lemma PlusPlus(x: U64, m: int, n: int)
    ensures Plus(Plus(x, m), n) == Plus(x, m + n)
  {
  }

  /** A hash is a parameter: every statement holds for every function, SHA-256 among them. */
  type Hash = Bytes -> Digest

  function Zeros(n: nat): (b: Bytes)
    ensures |b| == n && forall i :: 0 <= i < n ==> b[i] == 0
  {
    seq(n, _ => 0 as byte)
  }

  /** A string literal as the bytes it is stored as. */
  function Ascii(s: string): (b: Bytes)
    ensures |b| == |s|
    ensures forall i :: 0 <= i < |s| ==> b[i] == s[i] as int % 256
  {
    seq(|s|, i requires 0 <= i < |s| => s[i] as int % 256)
  }

  /** Two different strings of `ps` and `qs` with the same hash. */
  ghost predicate CollisionBetween(h: Hash, ps: set<Bytes>, qs: set<Bytes>) {
    exists p, q :: p in ps && q in qs && p != q && h(p) == h(q)
  }

  lemma HashesTell(h: Hash, p: Bytes, q: Bytes)
    ensures CollisionBetween(h, {p}, {q}) || (h(p) == h(q) <==> p == q)
  {
    if h(p) == h(q) && p != q {
      assert p in {p} && q in {q};
    }
  }

  lemma SplitEqual(a: Bytes, b: Bytes, c: Bytes, d: Bytes)
    requires a + b == c + d
    requires |a| == |c|
    ensures a == c && b == d
  {
    assert a == (a + b)[..|a|] == (c + d)[..|c|] == c;
    assert b == (a + b)[|a|..] == (c + d)[|c|..] == d;
  }

  // ------------------------------------------------------------ big-endian words

  function Pow256(w: nat): (p: nat)
    ensures p > 0
  {
    if w == 0 then 1 else 256 * Pow256(w - 1)
  }

  function BigEndian(n: nat, w: nat): (b: Bytes)
    ensures |b| == w
  {
    if w == 0 then [] else BigEndian(n / 256, w - 1) + [n % 256]
  }

  function Value(b: Bytes): nat {
    if b == [] then 0 else 256 * Value(b[..|b| - 1]) + b[|b| - 1]
  }

  lemma {:induction false} ValueOfBigEndian(n: nat, w: nat)
    requires n < Pow256(w)
    ensures Value(BigEndian(n, w)) == n
  {
    if w > 0 {
      ValueOfBigEndian(n / 256, w - 1);
      assert BigEndian(n, w)[..w - 1] == BigEndian(n / 256, w - 1);
    }
  }

  lemma {:induction false} BigEndianOfValue(b: Bytes)
    ensures Value(b) < Pow256(|b|)
    ensures BigEndian(Value(b), |b|) == b
  {
    if b != [] {
      BigEndianOfValue(b[..|b| - 1]);
      assert Value(b) / 256 == Value(b[..|b| - 1]);
      assert b == b[..|b| - 1] + [b[|b| - 1]];
    }
  }

  lemma Widths()
    ensures Pow256(2) == 0x1_0000 && Pow256(4) == 0x1_0000_0000
    ensures Pow256(8) == 0x1_0000_0000_0000_0000
  {
    assert Pow256(2) == 256 * (256 * 1);
    assert Pow256(4) == 256 * (256 * Pow256(2));
    assert Pow256(6) == 256 * (256 * Pow256(4));
    assert Pow256(8) == 256 * (256 * Pow256(6));
  }

  lemma LastByte(n: nat, w: nat)
    ensures BigEndian(n, w + 1) == BigEndian(n / 256, w) + [n % 256]
  {
  }

  /** Most significant byte first: two bytes, and wider words as two halves. */
  lemma TwoBytes(n: nat)
    ensures BigEndian(n, 2) == [n / 256 % 256, n % 256]
  {
    LastByte(n, 1);
    LastByte(n / 256, 0);
  }

  lemma TwoMoreBytes(n: nat, w: nat)
    ensures BigEndian(n, w + 2) == BigEndian(n / 256 / 256, w) + BigEndian(n, 2)
  {
    LastByte(n, w + 1);
    LastByte(n / 256, w);
    TwoBytes(n);
  }

  lemma WordHalves(n: nat)
    ensures BigEndian(n, 4) == BigEndian(n / 256 / 256, 2) + BigEndian(n, 2)
    ensures BigEndian(n, 8) == BigEndian(n / 256 / 256 / 256 / 256, 4) + BigEndian(n, 4)
  {
    TwoMoreBytes(n, 2);
    TwoMoreBytes(n, 6);
    TwoMoreBytes(n / 256 / 256, 4);
    var top := BigEndian(n / 256 / 256 / 256 / 256, 4);
    assert top + BigEndian(n / 256 / 256, 2) + BigEndian(n, 2) == top + (BigEndian(n / 256 / 256, 2) + BigEndian(n, 2));
  }

  /** `uint64(x)` of a signed or unbounded integer, written big-endian. */
  function Word64(x: int): (b: Bytes)
    ensures |b| == 8
  {
    BigEndian(x % 0x1_0000_0000_0000_0000, 8)
  }

  /** Two's complement for negative numbers. */
  lemma Word64Signed(x: int)
    ensures 0 <= x < 0x1_0000_0000_0000_0000 ==> Word64(x) == BigEndian(x, 8)
    ensures -0x8000_0000_0000_0000 <= x < 0 ==> Word64(x) == BigEndian(x + 0x1_0000_0000_0000_0000, 8)
  {
    Residue(x);
  }

  lemma Residue(x: int)
    ensures 0 <= x < 0x1_0000_0000_0000_0000 ==> x % 0x1_0000_0000_0000_0000 == x
    ensures -0x8000_0000_0000_0000 <= x < 0 ==>
              x % 0x1_0000_0000_0000_0000 == x + 0x1_0000_0000_0000_0000
  {
  }

  lemma Word64Injective(x: int, y: int)
    requires Word64(x) == Word64(y)
    ensures x % 0x1_0000_0000_0000_0000 == y % 0x1_0000_0000_0000_0000
  {
    Widths();
    ValueOfBigEndian(x % 0x1_0000_0000_0000_0000, 8);
    ValueOfBigEndian(y % 0x1_0000_0000_0000_0000, 8);
  }

  // ------------------------------------------------------------ byte order

  /** `bytes.Compare(a, b) < 0`, also Go's `<` on strings. */
  predicate Less(a: Bytes, b: Bytes) {
    b != [] && (a == [] || a[0] < b[0] || (a[0] == b[0] && Less(a[1..], b[1..])))
  }

  /** Less at the first difference, or a proper prefix. */
  lemma {:induction false} LessExactly(a: Bytes, b: Bytes)
    ensures Less(a, b) <==>
            exists i :: 0 <= i <= |a| && i < |b| && a[..i] == b[..i] && (i == |a| || a[i] < b[i])
  {
    if Less(a, b) {
      var i := FirstDifference(a, b);
    }
    forall i | 0 <= i <= |a| && i < |b| && a[..i] == b[..i] && (i == |a| || a[i] < b[i])
      ensures Less(a, b)
    {
      LessBecause(a, b, i);
    }
  }

  lemma {:induction false} FirstDifference(a: Bytes, b: Bytes) returns (i: nat)
    requires Less(a, b)
    ensures i <= |a| && i < |b| && a[..i] == b[..i] && (i == |a| || a[i] < b[i])
  {
    if a == [] || a[0] < b[0] {
      i := 0;
    } else {
      i := FirstDifference(a[1..], b[1..]);
      i := i + 1;
      assert a[..i] == [a[0]] + a[1..][..i - 1] && b[..i] == [b[0]] + b[1..][..i - 1];
    }
  }

  lemma {:induction false} LessBecause(a: Bytes, b: Bytes, i: nat)
    requires i <= |a| && i < |b| && a[..i] == b[..i] && (i == |a| || a[i] < b[i])
    ensures Less(a, b)
  {
    if i > 0 {
      assert a[0] == a[..i][0] == b[..i][0] == b[0];
      assert a[1..][..i - 1] == a[..i][1..] && b[1..][..i - 1] == b[..i][1..];
      LessBecause(a[1..], b[1..], i - 1);
    }
  }

  lemma LessIrreflexive(a: Bytes)
    ensures !Less(a, a)
  {
  }

  lemma LessTransitive(a: Bytes, b: Bytes, c: Bytes)
    requires Less(a, b) && Less(b, c)
    ensures Less(a, c)
  {
  }

  lemma {:induction false} LessTotal(a: Bytes, b: Bytes)
    ensures a == b || Less(a, b) || Less(b, a)
  {
    if a != [] && b != [] && a[0] == b[0] {
      LessTotal(a[1..], b[1..]);
      assert a == [a[0]] + a[1..] && b == [b[0]] + b[1..];
    }
  }

  // ------------------------------------------------------------ running buffers

  /** A `bytes.Buffer`, and the state of a running hasher before `Sum`. */
  class Buffer {
    var data: Bytes

    constructor ()
      ensures data == []
    {
      data := [];
    }

    method Write(b: Bytes)
      modifies this
      ensures data == old(data) + b
    {
      data := data + b;
    }
  }
}
