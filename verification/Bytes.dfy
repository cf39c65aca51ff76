/** Byte strings: big-endian numbers, bit masks and in-place overwriting. */
module Bytes {
  import opened Tss

  type byte = x: int | 0 <= x < 256

  /** A C string without its terminating NUL. */
  type CString = s: seq<byte> | 0 !in s

  // ---------------------------------------------------------------- big-endian numbers

  /** The big-endian number a byte string denotes. */
  function Value(s: seq<byte>): nat {
    if s == [] then 0 else Value(s[..|s| - 1]) * 256 + s[|s| - 1]
  }

  function Pow256(n: nat): (r: nat)
    ensures r >= 1
  {
    if n == 0 then 1 else 256 * Pow256(n - 1)
  }

  function Pow2(n: nat): (r: nat)
    ensures r >= 1
  {
    if n == 0 then 1 else 2 * Pow2(n - 1)
  }

  /** Tss2_MU_UINT32_Marshal: four bytes, most significant first. */
  function Be32(n: uint32): (s: seq<byte>)
    ensures |s| == 4
  {
    [(n / 0x100_0000), (n / 0x1_0000 % 256), (n / 0x100 % 256), (n % 256)]
  }

  lemma ValueOfFour(a: byte, b: byte, c: byte, d: byte)
    ensures Value([a, b, c, d]) == a * 0x100_0000 + b * 0x1_0000 + c * 0x100 + d
  {
    assert [a][..0] == [] && [a, b][..1] == [a] && [a, b, c][..2] == [a, b] && [a, b, c, d][..3] == [a, b, c];
    assert Value([a]) == a;
    assert Value([a, b]) == a * 256 + b;
    assert Value([a, b, c]) == (a * 256 + b) * 256 + c;
  }

  lemma FourDigits(n: nat)
    ensures n / 0x100_0000 * 0x100_0000 + n / 0x1_0000 % 256 * 0x1_0000 + n / 0x100 % 256 * 0x100 + n % 256 == n
  {
    var a, b := n / 0x100, n / 0x1_0000;
    assert n == a * 256 + n % 256;
    assert a == b * 256 + a % 256;
    assert b == n / 0x100_0000 * 256 + b % 256;
  }

  /** Read most significant byte first, the four bytes are the number. */
  lemma Be32Value(n: uint32)
    ensures Value(Be32(n)) == n
    ensures var s: seq<int> := Be32(n);
            s[0] * 0x100_0000 + s[1] * 0x1_0000 + s[2] * 0x100 + s[3] == n
  {
    var s := Be32(n);
    ValueOfFour(s[0], s[1], s[2], s[3]);
    FourDigits(n);
  }

  lemma Be32Injective(m: uint32, n: uint32)
    requires Be32(m) == Be32(n)
    ensures m == n
  {
    Be32Value(m);
    Be32Value(n);
  }

  lemma {:induction false} ValueBound(s: seq<byte>)
    ensures Value(s) < Pow256(|s|)
  {
    if s != [] {
      ValueBound(s[..|s| - 1]);
    }
  }

  lemma {:induction false} ValueCons(b: byte, s: seq<byte>)
    ensures Value([b] + s) == b * Pow256(|s|) + Value(s)
  {
    var t := [b] + s;
    if s == [] {
      assert t[..0] == [];
    } else {
      var init := s[..|s| - 1];
      assert t[..|t| - 1] == [b] + init;
      ValueCons(b, init);
      TopDigitShift(b, Pow256(|init|), Value(init), s[|s| - 1]);
      assert s[..|s| - 1] == init;
    }
  }

  lemma TopDigitShift(b: nat, p: nat, rest: nat, last: nat)
    ensures (b * p + rest) * 256 + last == b * (256 * p) + (rest * 256 + last)
  {
  }

  /** At a fixed length the denotation is injective. */
  lemma {:induction false} ValueInjective(s: seq<byte>, t: seq<byte>)
    requires |s| == |t| && Value(s) == Value(t)
    ensures s == t
  {
    if s != [] {
      ValueInjective(s[..|s| - 1], t[..|t| - 1]);
      assert s == s[..|s| - 1] + [s[|s| - 1]];
      assert t == t[..|t| - 1] + [t[|t| - 1]];
    }
  }

  // ---------------------------------------------------------------- masking the first byte

  /** Bitwise and, from the w low bits of each operand. */
  function AndBits(a: nat, b: nat, w: nat): (r: nat)
    ensures r <= a
  {
    if w == 0 then 0 else (if a % 2 == 1 && b % 2 == 1 then 1 else 0) + 2 * AndBits(a / 2, b / 2, w - 1)
  }

  function BitAnd(a: byte, b: byte): byte {
    AndBits(a, b, 8)
  }

  /** ((BYTE)1 << k) - 1 */
  function LowMask(k: nat): byte
    requires k < 8
  {
    [0, 1, 3, 7, 15, 31, 63, 127][k]
  }

  /** buffer[0] &= (1 << (bits % 8)) - 1, done only when bits is not a multiple of eight. */
  function MaskFirst(s: seq<byte>, bits: nat): (r: seq<byte>)
    requires s != []
    ensures |r| == |s| && r[1..] == s[1..]
  {
    if bits % 8 == 0 then s else s[0 := BitAnd(s[0], LowMask(bits % 8))]
  }

  /** The k low bits of a, one bit at a time. */
  function LowBits(a: nat, k: nat): nat {
    if k == 0 then 0 else a % 2 + 2 * LowBits(a / 2, k - 1)
  }

  lemma {:induction false} LowBitsMod(a: nat, k: nat)
    ensures LowBits(a, k) == a % Pow2(k)
  {
    if k > 0 {
      LowBitsMod(a / 2, k - 1);
      HalfMod(a, Pow2(k - 1));
    }
  }

  lemma {:induction false} AndOnes(a: nat, k: nat, w: nat)
    requires k <= w
    ensures AndBits(a, Pow2(k) - 1, w) == LowBits(a, k)
    decreases w
  {
    if k == 0 {
      AndZero(a, w);
    } else {
      var p := Pow2(k - 1);
      assert (2 * p - 1) / 2 == p - 1 && (2 * p - 1) % 2 == 1;
      AndOnes(a / 2, k - 1, w - 1);
    }
  }

  lemma HalfMod(a: nat, p: nat)
    requires p > 0
    ensures a % (2 * p) == a % 2 + 2 * (a / 2 % p)
  {
    var h := a / 2;
    var d, r := h / p, h % p;
    assert h == d * p + r;
    assert a == d * (2 * p) + (a % 2 + 2 * r) by {
      assert d * (2 * p) == 2 * (d * p);
    }
    EuclidUnique(a, 2 * p, d, a % 2 + 2 * r);
  }

  lemma {:induction false} AndZero(a: nat, w: nat)
    ensures AndBits(a, 0, w) == 0
  {
    if w > 0 {
      AndZero(a / 2, w - 1);
    }
  }

  lemma MaskIsMod(b: byte, k: nat)
    requires k < 8
    ensures BitAnd(b, LowMask(k)) == b % Pow2(k)
  {
    AndOnes(b, k, 8);
    LowBitsMod(b, k);
    assert Pow2(4) == 16;
  }

  lemma Pow2Eight(m: nat)
    ensures Pow2(m + 8) == 256 * Pow2(m)
  {
    assert Pow2(m + 8) == 2 * Pow2(m + 7) == 4 * Pow2(m + 6) == 8 * Pow2(m + 5) == 16 * Pow2(m + 4);
    assert Pow2(m + 4) == 2 * Pow2(m + 3) == 4 * Pow2(m + 2) == 8 * Pow2(m + 1) == 16 * Pow2(m);
  }

  lemma MulSwap(x: nat, y: nat)
    ensures x * (256 * y) == 256 * (x * y)
  {
  }

  lemma {:induction false} Pow2Bytes(n: nat, k: nat)
    ensures Pow2(8 * n + k) == Pow2(k) * Pow256(n)
  {
    if n > 0 {
      Pow2Bytes(n - 1, k);
      Pow2Eight(8 * (n - 1) + k);
      MulSwap(Pow2(k), Pow256(n - 1));
    }
  }

  lemma MulSub(x: int, y: int, m: int)
    ensures (x - y) * m == x * m - y * m
  {
  }

  lemma MulMonotone(x: nat, y: nat, m: nat)
    requires x <= y
    ensures x * m <= y * m
  {
    MulSub(y, x, m);
  }

  lemma EuclidUnique(n: nat, m: nat, d: nat, r: nat)
    requires r < m && n == d * m + r
    ensures n % m == r && n / m == d
  {
    var e, s := n / m, n % m;
    assert n == e * m + s;
    MulSub(e, d, m);
    MulSub(d, e, m);
    if e < d {
      MulMonotone(1, d - e, m);
    } else if d < e {
      MulMonotone(1, e - d, m);
    }
  }

  /** Reducing the top digit reduces the number. */
  lemma TopDigitMod(b: nat, q: nat, p: nat, rest: nat)
    requires q > 0 && rest < p
    ensures b % q * p + rest < q * p
    ensures (b * p + rest) % (q * p) == b % q * p + rest
  {
    var d, r := b / q, b % q;
    MulMonotone(r + 1, q, p);
    assert (r + 1) * p == r * p + p;
    assert (d * q + r) * p == d * (q * p) + r * p;
    EuclidUnique(b * p + rest, q * p, d, r * p + rest);
  }

  /** The number of bytes that hold the given number of bits. */
  function BytesFor(bits: nat): nat {
    (bits + 7) / 8
  }

  lemma ValueOfPrefix(s: seq<byte>, n: nat)
    requires 0 < n <= |s|
    ensures Value(s[..n]) == s[0] * Pow256(n - 1) + Value(s[1..n])
  {
    assert s[..n] == [s[0]] + s[1..n];
    ValueCons(s[0], s[1..n]);
  }

  lemma ValueOfMasked(s: seq<byte>, bits: nat, k: nat, n: nat)
    requires 0 < n <= |s| && bits % 8 == k != 0
    ensures Value(MaskFirst(s, bits)[..n]) == s[0] % Pow2(k) * Pow256(n - 1) + Value(s[1..n])
  {
    var m := MaskFirst(s, bits);
    assert m[1..n] == s[1..n];
    ValueOfPrefix(m, n);
    MaskIsMod(s[0], k);
  }

  /** The same fact about numbers alone: b is the top byte, rest the n bytes below it. */
  lemma TruncateNumber(b: nat, k: nat, n: nat, rest: nat)
    requires rest < Pow256(n)
    ensures b % Pow2(k) * Pow256(n) + rest == (b * Pow256(n) + rest) % Pow2(8 * n + k)
    ensures b % Pow2(k) * Pow256(n) + rest < Pow2(8 * n + k)
  {
    Pow2Bytes(n, k);
    TopDigitMod(b, Pow2(k), Pow256(n), rest);
  }

  lemma NoTruncation(v: nat, n: nat)
    requires v < Pow256(n)
    ensures v < Pow2(8 * n) && v % Pow2(8 * n) == v
  {
    Pow2Bytes(n, 0);
    EuclidUnique(v, Pow2(8 * n), 0, v);
  }

  lemma MaskTruncatesPartial(s: seq<byte>, bits: nat, n: nat, k: nat)
    requires n < |s| && bits == 8 * n + k && bits % 8 == k != 0
    ensures Value(MaskFirst(s, bits)[..n + 1]) == Value(s[..n + 1]) % Pow2(bits)
    ensures Value(MaskFirst(s, bits)[..n + 1]) < Pow2(bits)
  {
    var plain, masked, rest := Value(s[..n + 1]), Value(MaskFirst(s, bits)[..n + 1]), Value(s[1..n + 1]);
    assert plain == s[0] * Pow256(n) + rest by { ValueOfPrefix(s, n + 1); }
    assert masked == s[0] % Pow2(k) * Pow256(n) + rest by { ValueOfMasked(s, bits, k, n + 1); }
    assert rest < Pow256(n) by { ValueBound(s[1..n + 1]); }
    TruncateNumber(s[0], k, n, rest);
  }

  lemma MaskTruncatesWhole(s: seq<byte>, bits: nat, n: nat)
    requires 0 < |s| && n <= |s| && bits == 8 * n
    ensures Value(MaskFirst(s, bits)[..n]) == Value(s[..n]) % Pow2(bits)
    ensures Value(MaskFirst(s, bits)[..n]) < Pow2(bits)
  {
    ValueBound(s[..n]);
    NoTruncation(Value(s[..n]), n);
  }

  /** Masking the first byte of a key truncates the key, read as a number, to its bit length. */
  lemma MaskTruncates(s: seq<byte>, bits: nat)
    requires s != [] && BytesFor(bits) <= |s|
    ensures Value(MaskFirst(s, bits)[..BytesFor(bits)]) == Value(s[..BytesFor(bits)]) % Pow2(bits)
    ensures Value(MaskFirst(s, bits)[..BytesFor(bits)]) < Pow2(bits)
  {
    var n, k := bits / 8, bits % 8;
    if k == 0 {
      assert BytesFor(bits) == n;
      MaskTruncatesWhole(s, bits, n);
    } else {
      assert BytesFor(bits) == n + 1;
      MaskTruncatesPartial(s, bits, n, k);
    }
  }

  // ---------------------------------------------------------------- buffers

  /** The buffer s after the bytes d were written at offset off. */
  function Splice(s: seq<byte>, off: nat, d: seq<byte>): (r: seq<byte>)
    requires off + |d| <= |s|
    ensures |r| == |s|
  {
    s[..off] + d + s[off + |d|..]
  }

  /** Two states of one buffer that differ at most in n bytes from off. */
  ghost predicate SameOutside(s: seq<byte>, t: seq<byte>, off: nat, n: nat) {
    |s| == |t| && forall i :: 0 <= i < |s| && !(off <= i < off + n) ==> s[i] == t[i]
  }

  lemma SpliceNothing(s: seq<byte>, off: nat)
    requires off <= |s|
    ensures Splice(s, off, []) == s
  {
  }

  lemma SpliceAppend(s: seq<byte>, d: seq<byte>, e: seq<byte>)
    requires |d| + |e| <= |s|
    ensures Splice(Splice(s, 0, d), |d|, e) == Splice(s, 0, d + e)
  {
  }

  /** Bitwise exclusive or, from the w low bits of each operand. */
  function XorBits(a: nat, b: nat, w: nat): (r: nat)
    ensures r < Pow2(w)
  {
    if w == 0 then 0 else (if a % 2 == b % 2 then 0 else 1) + 2 * XorBits(a / 2, b / 2, w - 1)
  }

  function BitXor(a: byte, b: byte): byte {
    assert Pow2(4) == 16 && Pow2(8) == 256;
    XorBits(a, b, 8)
  }

  function ShiftRight(n: nat, i: nat): int {
    n / Pow2(i)
  }

  lemma ShiftTwice(n: nat, i: nat)
    requires i > 0
    ensures ShiftRight(n, i) == ShiftRight(n / 2, i - 1)
  {
    var p, q := Pow2(i - 1), n / 2 / Pow2(i - 1);
    var r := n / 2 - q * p;
    assert n == 2 * (q * p + r) + n % 2;
    assert 2 * (q * p) == q * (2 * p);
    EuclidUnique(n, 2 * p, q, 2 * r + n % 2);
  }

  lemma ShiftZero(n: nat)
    ensures ShiftRight(n, 0) == n
  {
  }

  lemma {:induction false} XorBitsAt(a: nat, b: nat, w: nat, i: nat)
    requires i < w
    ensures ShiftRight(XorBits(a, b, w), i) % 2 == if ShiftRight(a, i) % 2 == ShiftRight(b, i) % 2 then 0 else 1
  {
    hide ShiftRight, XorBits;
    var x := XorBits(a, b, w);
    LowestXorBit(a, b, w);
    if i == 0 {
      ShiftZero(x);
      ShiftZero(a);
      ShiftZero(b);
    } else {
      XorBitsAt(a / 2, b / 2, w - 1, i - 1);
      ShiftTwice(x, i);
      ShiftTwice(a, i);
      ShiftTwice(b, i);
    }
  }

  lemma LowestXorBit(a: nat, b: nat, w: nat)
    requires w > 0
    ensures XorBits(a, b, w) / 2 == XorBits(a / 2, b / 2, w - 1)
    ensures XorBits(a, b, w) % 2 == if a % 2 == b % 2 then 0 else 1
  {
    var bit := if a % 2 == b % 2 then 0 else 1;
    var high := XorBits(a / 2, b / 2, w - 1);
    assert XorBits(a, b, w) == bit + 2 * high;
    hide XorBits, Pow2;
    LowestBit(bit, high);
  }

  lemma LowestBit(bit: nat, high: nat)
    requires bit < 2
    ensures (bit + 2 * high) / 2 == high && (bit + 2 * high) % 2 == bit
  {
  }

  /** A bit of an exclusive or is set exactly when the two operands differ in it. */
  lemma BitXorBits(a: byte, b: byte, i: nat)
    requires i < 8
    ensures BitXor(a, b) / Pow2(i) % 2 == if a / Pow2(i) % 2 == b / Pow2(i) % 2 then 0 else 1
  {
    XorBitsAt(a, b, 8, i);
  }

  lemma {:induction false} XorBitsTwice(a: nat, b: nat, w: nat)
    requires a < Pow2(w)
    ensures XorBits(XorBits(a, b, w), b, w) == a
  {
    if w > 0 {
      var bit := if a % 2 == b % 2 then 0 else 1;
      var high := XorBits(a / 2, b / 2, w - 1);
      assert (bit + 2 * high) / 2 == high && (bit + 2 * high) % 2 == bit;
      XorBitsTwice(a / 2, b / 2, w - 1);
    }
  }

  function XorBytes(s: seq<byte>, k: seq<byte>): (r: seq<byte>)
    requires |s| <= |k|
    ensures |r| == |s|
  {
    seq(|s|, i requires 0 <= i < |s| => BitXor(s[i], k[i]))
  }

  lemma XorTwice(s: seq<byte>, k: seq<byte>)
    requires |s| <= |k|
    ensures XorBytes(XorBytes(s, k), k) == s
  {
    assert Pow2(4) == 16 && Pow2(8) == 256;
    forall i | 0 <= i < |s|
      ensures BitXor(BitXor(s[i], k[i]), k[i]) == s[i]
    {
      XorBitsTwice(s[i], k[i], 8);
    }
  }

  function Concat(parts: seq<seq<byte>>): seq<byte> {
    if parts == [] then [] else parts[0] + Concat(parts[1..])
  }

  /** The bytes an optional part contributes to a message: none when the pointer is NULL. */
  function Opt(part: Option<seq<byte>>): seq<byte> {
    match part
    case None => []
    case Some(bytes) => bytes
  }

  function OptCount<T>(part: Option<T>): nat {
    if part.Some? then 1 else 0
  }

  /** A label is fed with its terminating NUL. */
  function LabelPart(lab: Option<CString>): Option<seq<byte>> {
    if lab.Some? then Some(lab.value + [0]) else None
  }

  function LabelBytes(lab: Option<CString>): seq<byte> {
    Opt(LabelPart(lab))
  }

  lemma MaskSplice(s: seq<byte>, d: seq<byte>, bits: nat)
    requires 0 < |d| <= |s| && bits % 8 != 0
    ensures Splice(s, 0, d)[0 := BitAnd(d[0], LowMask(bits % 8))] == Splice(s, 0, MaskFirst(d, bits))
  {
  }
}
