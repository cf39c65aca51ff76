/** How the two backends write elliptic-curve coordinates: OpenSSL pads to the size of the curve,
    mbedTLS uses as few bytes as the number needs. */
module Coordinates {
  import opened Tss
  import opened Bytes
  import opened Kdf

  const MAX_ECC_KEY_BYTES: nat := 128

  /** BN_bn2bin and mbedtls_mpi_write_binary at the number's own size: no leading zero byte. */
  function Minimal(n: nat): seq<byte> {
    if n == 0 then [] else Minimal(n / 256) + [n % 256]
  }

  lemma {:induction false} MinimalValue(n: nat)
    ensures Value(Minimal(n)) == n
    ensures n > 0 ==> Minimal(n) != [] && Minimal(n)[0] != 0
  {
    if n > 0 {
      MinimalValue(n / 256);
      assert Minimal(n)[..|Minimal(n)| - 1] == Minimal(n / 256);
    }
  }

  /** A number needs at most len bytes exactly when it is below 256^len. */
  lemma {:induction false} MinimalLength(n: nat, len: nat)
    ensures |Minimal(n)| <= len <==> n < Pow256(len)
  {
    if n > 0 && len > 0 {
      MinimalLength(n / 256, len - 1);
    }
  }

  function ZeroBytes(n: nat): (z: seq<byte>)
    ensures |z| == n && forall i :: 0 <= i < n ==> z[i] == 0
  {
    seq(n, _ => 0)
  }

  function Padded(n: nat, len: nat): (s: seq<byte>)
    requires |Minimal(n)| <= len
    ensures |s| == len
  {
    ZeroBytes(len - |Minimal(n)|) + Minimal(n)
  }

  lemma {:induction false} LeadingZeros(k: nat, s: seq<byte>)
    ensures Value(ZeroBytes(k) + s) == Value(s)
  {
    if k == 0 {
      assert ZeroBytes(0) + s == s;
    } else {
      LeadingZeros(k - 1, s);
      assert ZeroBytes(k) + s == [0] + (ZeroBytes(k - 1) + s);
      ValueCons(0, ZeroBytes(k - 1) + s);
    }
  }

  /** Both encodings denote the number; they are the same bytes exactly when the padded one has a
      non-zero leading byte, that is when the number fills all its bytes. */
  lemma EncodingsAgreeIff(n: nat, len: nat)
    requires 0 < len && n < Pow256(len)
    ensures |Minimal(n)| <= len
    ensures Value(Padded(n, len)) == Value(Minimal(n)) == n
    ensures Padded(n, len) == Minimal(n) <==> Padded(n, len)[0] != 0
    ensures Padded(n, len) == Minimal(n) <==> n >= Pow256(len - 1)
  {
    MinimalLength(n, len);
    MinimalLength(n, len - 1);
    MinimalValue(n);
    LeadingZeros(len - |Minimal(n)|, Minimal(n));
    if |Minimal(n)| == len {
      assert ZeroBytes(0) == [];
    }
  }

  /** The KDFe input from a shared secret z and an ephemeral key q is the same under both backends
      exactly when neither coordinate has a leading zero byte. */
  lemma KdfeInputsAgreeIff(alg: AlgId, lab: Option<CString>, z: nat, q: nat, len: nat, v: Option<seq<byte>>,
                           counter: uint32)
    requires 0 < len && z < Pow256(len) && q < Pow256(len)
    ensures |Minimal(z)| <= len && |Minimal(q)| <= len
    ensures Message(KdfeInput(alg, Some(Padded(z, len)), lab, Some(Padded(q, len)), v), counter)
         == Message(KdfeInput(alg, Some(Minimal(z)), lab, Some(Minimal(q)), v), counter)
      <==> z >= Pow256(len - 1) && q >= Pow256(len - 1)
  {
    hide Be32, LabelBytes;
    EncodingsAgreeIff(z, len);
    EncodingsAgreeIff(q, len);
    MinimalLength(z, len - 1);
    MinimalLength(q, len - 1);
    var padded := Message(KdfeInput(alg, Some(Padded(z, len)), lab, Some(Padded(q, len)), v), counter);
    var minimal := Message(KdfeInput(alg, Some(Minimal(z)), lab, Some(Minimal(q)), v), counter);
    assert |padded| - |minimal| == (len - |Minimal(z)|) + (len - |Minimal(q)|);
  }

  /** iesys_bn2binpad: offset bytes of zero, then the number. It relies on the number fitting. */
  method Bn2BinPad(n: nat, bin: array<byte>, len: nat)
    requires n < Pow256(len) && len <= bin.Length
    modifies bin
    ensures |Minimal(n)| <= len && bin[..] == Splice(old(bin[..]), 0, Padded(n, len))
  {
    MinimalLength(n, len);
    var digits := Minimal(n);
    var offset := len - |digits|;
    var i := 0;
    while i < offset
      invariant 0 <= i <= offset
      invariant forall j :: 0 <= j < i ==> bin[j] == 0
      invariant forall j :: i <= j < bin.Length ==> bin[j] == old(bin[..])[j]
    {
      bin[i] := 0;
      i := i + 1;
    }
    forall j | 0 <= j < |digits| {
      bin[offset + j] := digits[j];
    }
    assert bin[..offset] == ZeroBytes(offset);
    assert bin[offset..len] == digits;
    assert bin[len..] == old(bin[..])[len..];
    assert bin[..] == bin[..offset] + bin[offset..len] + bin[len..];
  }

  /** The mbedTLS way: the size is that of the number, refused beyond the buffer. */
  method MbedWriteCoordinate(n: nat, buffer: array<byte>) returns (rc: RC, size: nat)
    requires buffer.Length == MAX_ECC_KEY_BYTES
    modifies buffer
    ensures rc == if n < Pow256(MAX_ECC_KEY_BYTES) then Success else GeneralFailure
    ensures rc == Success ==>
              size == |Minimal(n)| <= buffer.Length && buffer[..] == Splice(old(buffer[..]), 0, Minimal(n))
    ensures rc != Success ==> buffer[..] == old(buffer[..])
  {
    hide Pow256, Minimal;
    MinimalLength(n, MAX_ECC_KEY_BYTES);
    var digits := Minimal(n);
    size := |digits|;
    if size > MAX_ECC_KEY_BYTES {
      return GeneralFailure, size;
    }
    forall j | 0 <= j < |digits| {
      buffer[j] := digits[j];
    }
    rc := Success;
  }
}
