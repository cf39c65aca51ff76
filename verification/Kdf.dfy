/** The digest and MAC functions of the crypto library, kept abstract: nothing is known of them
    except the length of their results. */
module Primitives {
  import opened Tss
  import opened Bytes

  datatype Functions = Functions(
    hash: (AlgId, seq<byte>) -> seq<byte>,
    hmac: (AlgId, seq<byte>, seq<byte>) -> seq<byte>)

  ghost predicate Sized(f: Functions) {
    && (forall alg, msg :: DigestSize(alg).Some? ==> |f.hash(alg, msg)| == DigestSize(alg).value)
    && (forall alg, key, msg :: DigestSize(alg).Some? ==> |f.hmac(alg, key, msg)| == DigestSize(alg).value)
  }

  function Zeros(alg: AlgId): seq<byte> {
    seq(if DigestSize(alg).Some? then DigestSize(alg).value else 0, _ => 0)
  }

  type Crypto = f: Functions | Sized(f) witness Functions((alg, _) => Zeros(alg), (alg, _, _) => Zeros(alg))
}

/** KDFa, KDFe and XOR obfuscation as functions of their inputs. */
module Kdf {
  import opened Tss
  import opened Bytes
  import opened Primitives

  /** What one derivation feeds into every block besides the block counter. KDFa is keyed and
      includes the bit length; KDFe is a plain hash whose every part is optional. */
  datatype Source =
    | KdfaInput(alg: AlgId, key: seq<byte>, lab: Option<CString>, u: seq<byte>, v: seq<byte>, bits: uint32)
    | KdfeInput(alg: AlgId, z: Option<seq<byte>>, lab: Option<CString>, partyU: Option<seq<byte>>,
                partyV: Option<seq<byte>>)

  ghost predicate Supported(src: Source) {
    DigestSize(src.alg).Some?
  }

  function HLen(src: Source): (n: nat)
    requires Supported(src)
    ensures n > 0
  {
    DigestSize(src.alg).value
  }

  function Message(src: Source, counter: uint32): seq<byte> {
    match src
    case KdfaInput(_, _, lab, u, v, bits) => Be32(counter) + LabelBytes(lab) + u + v + Be32(bits)
    case KdfeInput(_, z, lab, u, v) => Be32(counter) + Opt(z) + LabelBytes(lab) + Opt(u) + Opt(v)
  }

  /** The number of updates that feed one block. */
  function UpdateCount(src: Source): nat {
    match src
    case KdfaInput(_, _, lab, _, _, _) => 4 + OptCount(lab)
    case KdfeInput(_, z, lab, u, v) => 1 + OptCount(z) + OptCount(lab) + OptCount(u) + OptCount(v)
  }

  function Block(c: Crypto, src: Source, counter: uint32): (b: seq<byte>)
    ensures Supported(src) ==> |b| == HLen(src)
  {
    match src
    case KdfaInput(alg, key, _, _, _, _) => c.hmac(alg, key, Message(src, counter))
    case KdfeInput(alg, _, _, _, _) => c.hash(alg, Message(src, counter))
  }

  /** A KDFa block: the HMAC of counter, label with its NUL, contexts and bit length. */
  lemma KdfaBlock(c: Crypto, src: Source, counter: uint32)
    requires src.KdfaInput?
    ensures Block(c, src, counter)
         == c.hmac(src.alg, src.key,
                   Be32(counter) + (if src.lab.Some? then src.lab.value + [0] else []) + src.u + src.v + Be32(src.bits))
  {
  }

  /** A KDFe block: the hash of counter, Z, label with its NUL and party infos, those that are given. */
  lemma KdfeBlock(c: Crypto, src: Source, counter: uint32)
    requires src.KdfeInput?
    ensures Block(c, src, counter)
         == c.hash(src.alg,
                   Be32(counter) + (if src.z.Some? then src.z.value else [])
                   + (if src.lab.Some? then src.lab.value + [0] else [])
                   + (if src.partyU.Some? then src.partyU.value else [])
                   + (if src.partyV.Some? then src.partyV.value else []))
  {
  }

  /** The counter of block j: it is incremented, in 32 bits, before each use. */
  function CounterAt(c0: uint32, j: nat): uint32 {
    (c0 + j + 1) % TWO32
  }

  /** n consecutive blocks, the counter having been left at c0 before. */
  function Stream(c: Crypto, src: Source, c0: uint32, n: nat): seq<byte> {
    if n == 0 then [] else Stream(c, src, c0, n - 1) + Block(c, src, CounterAt(c0, n - 1))
  }

  lemma {:induction false} StreamLength(c: Crypto, src: Source, c0: uint32, n: nat)
    requires Supported(src)
    ensures |Stream(c, src, c0, n)| == n * HLen(src)
  {
    if n > 0 {
      hide Block, HLen, CounterAt;
      StreamLength(c, src, c0, n - 1);
      MulSub(n, n - 1, HLen(src));
    }
  }

  /** Cutting a derivation anywhere and threading the counter through changes nothing. */
  lemma {:induction false} StreamAppend(c: Crypto, src: Source, c0: uint32, m: nat, n: nat)
    ensures Stream(c, src, c0, m + n) == Stream(c, src, c0, m) + Stream(c, src, (c0 + m) % TWO32, n)
  {
    if n > 0 {
      StreamAppend(c, src, c0, m, n - 1);
      CounterThreaded(c0, m, n - 1);
    }
  }

  lemma CounterThreaded(c0: uint32, m: nat, j: nat)
    ensures CounterAt((c0 + m) % TWO32, j) == CounterAt(c0, m + j)
  {
  }

  /** Bytes j*hlen .. (j+1)*hlen of a derivation are its block j. */
  lemma StreamBlock(c: Crypto, src: Source, c0: uint32, n: nat, j: nat)
    requires Supported(src) && j < n
    ensures j * HLen(src) + HLen(src) <= |Stream(c, src, c0, n)|
    ensures Stream(c, src, c0, n)[j * HLen(src)..j * HLen(src) + HLen(src)] == Block(c, src, CounterAt(c0, j))
  {
    StreamLength(c, src, c0, j);
    StreamAppend(c, src, c0, j + 1, n - j - 1);
    hide Block, HLen, CounterAt;
    assert Stream(c, src, c0, j + 1) == Stream(c, src, c0, j) + Block(c, src, CounterAt(c0, j));
  }

  /** The number of blocks the fill loops write for a key of the given size: the first block is
      written before the size is looked at. */
  function Blocks(bytes: nat, hlen: nat): (n: nat)
    requires hlen > 0
    ensures n >= 1
  {
    if bytes <= hlen then 1 else 1 + Blocks(bytes - hlen, hlen)
  }

  lemma {:induction false} BlocksIsCeiling(bytes: nat, hlen: nat)
    requires hlen > 0
    ensures (Blocks(bytes, hlen) - 1) * hlen < bytes || Blocks(bytes, hlen) == 1
    ensures bytes <= Blocks(bytes, hlen) * hlen
  {
    if bytes > hlen {
      BlocksIsCeiling(bytes - hlen, hlen);
      var n := Blocks(bytes - hlen, hlen);
      assert (n + 1) * hlen == n * hlen + hlen;
      assert n * hlen == (n - 1) * hlen + hlen;
    }
  }

  /** (bitLength + 7) / 8 in 32-bit arithmetic */
  function Bytes32(bits: uint32): nat {
    (bits + 7) % TWO32 / 8
  }

  /** The whole region one derivation writes: all blocks, the first byte masked. */
  function Output(c: Crypto, src: Source, c0: uint32, bytes: nat, bits: nat): (out: seq<byte>)
    requires Supported(src)
    ensures |out| == Blocks(bytes, HLen(src)) * HLen(src)
  {
    var n := Blocks(bytes, HLen(src));
    StreamLength(c, src, c0, n);
    assert n * HLen(src) >= HLen(src);
    MaskFirst(Stream(c, src, c0, n), bits)
  }

  /** The seven largest bit lengths wrap to a size of zero, so KDFa derives one block for them and
      KDFe refuses them; every other length is rounded up to whole bytes. */
  lemma Bytes32Wraps(bits: uint32)
    ensures Bytes32(bits) == (if bits >= TWO32 - 7 then 0 else BytesFor(bits))
    ensures Bytes32(bits) == 0 <==> bits == 0 || bits >= TWO32 - 7
  {
  }

  /** Every derivation whose bit length does not wrap in 32 bits yields, in its first
      ceil(bits/8) bytes, the block stream truncated to exactly that many bits. */
  lemma DerivedKeyIsTruncatedStream(c: Crypto, src: Source, c0: uint32, bits: uint32)
    requires Supported(src) && bits <= TWO32 - 8
    ensures var n := BytesFor(bits);
            var stream := Stream(c, src, c0, Blocks(n, HLen(src)));
            var out := Output(c, src, c0, Bytes32(bits), bits);
            && Bytes32(bits) == n <= |stream| == |out|
            && Value(out[..n]) == Value(stream[..n]) % Pow2(bits)
            && Value(out[..n]) < Pow2(bits)
  {
    var n := BytesFor(bits);
    assert Bytes32(bits) == n by { Bytes32Wraps(bits); }
    var stream := Stream(c, src, c0, Blocks(n, HLen(src)));
    assert n <= |stream| && stream != [] by {
      StreamLength(c, src, c0, Blocks(n, HLen(src)));
      BlocksIsCeiling(n, HLen(src));
      MulMonotone(1, Blocks(n, HLen(src)), HLen(src));
    }
    MaskTruncates(stream, bits);
  }

  // ---------------------------------------------------------------- distinct and decodable messages

  /** Within one run the block messages are pairwise distinct exactly as long as the 32-bit
      counter does not come round. */
  lemma MessagesDistinctIff(src: Source, c0: uint32, n: nat)
    ensures (forall i, j :: 0 <= i < j < n ==> Message(src, CounterAt(c0, i)) != Message(src, CounterAt(c0, j)))
            <==> n <= TWO32
  {
    if n <= TWO32 {
      forall i, j | 0 <= i < j < n
        ensures Message(src, CounterAt(c0, i)) != Message(src, CounterAt(c0, j))
      {
        CountersDistinct(c0, i, j);
        MessageDeterminesCounter(src, CounterAt(c0, i), src, CounterAt(c0, j));
      }
    } else {
      assert CounterAt(c0, 0) == CounterAt(c0, TWO32);
      assert Message(src, CounterAt(c0, 0)) == Message(src, CounterAt(c0, TWO32));
    }
  }

  lemma CountersDistinct(c0: uint32, i: nat, j: nat)
    requires i < j < i + TWO32
    ensures CounterAt(c0, i) != CounterAt(c0, j)
  {
  }

  lemma MessageDeterminesCounter(s: Source, i: uint32, t: Source, j: uint32)
    ensures Message(s, i) == Message(t, j) ==> i == j
  {
    if Message(s, i) == Message(t, j) {
      assert Message(s, i)[..4] == Be32(i);
      assert Message(t, j)[..4] == Be32(j);
      Be32Injective(i, j);
    }
  }

  /** The text before the first NUL, and what follows that NUL. */
  function SplitAtNul(s: seq<byte>): Option<(seq<byte>, seq<byte>)> {
    if s == [] then None
    else if s[0] == 0 then Some(([], s[1..]))
    else match SplitAtNul(s[1..])
      case None => None
      case Some((text, rest)) => Some(([s[0]] + text, rest))
  }

  lemma {:induction false} SplitLabel(text: CString, rest: seq<byte>)
    ensures SplitAtNul(text + [0] + rest) == Some((text, rest))
  {
    var s := text + [0] + rest;
    if text == [] {
      assert s[1..] == rest;
    } else {
      assert s[1..] == text[1..] + [0] + rest;
      SplitLabel(text[1..], rest);
      assert text == [text[0]] + text[1..];
    }
  }

  datatype KdfaFields = KdfaFields(counter: nat, lab: Option<seq<byte>>, u: seq<byte>, v: seq<byte>, bits: nat)

  /** What follows the counter, with its label taken off when there is one. */
  function SplitLabelled(body: seq<byte>, labelled: bool): Option<(Option<seq<byte>>, seq<byte>)> {
    if !labelled then Some((None, body))
    else match SplitAtNul(body)
      case None => None
      case Some((text, rest)) => Some((Some(text), rest))
  }

  /** Reads a KDFa block message back, given only the size of contextU and whether there is a label. */
  function Decode(msg: seq<byte>, labelled: bool, uSize: nat): Option<KdfaFields> {
    if |msg| < 4 then None
    else match SplitLabelled(msg[4..], labelled)
      case None => None
      case Some((text, rest)) =>
        if |rest| < uSize + 4 then None
        else
          var after := rest[uSize..];
          var vSize := |after| - 4;
          Some(KdfaFields(Value(msg[..4]), text, rest[..uSize], after[..vSize], Value(after[vSize..])))
  }

  lemma SplitOff(lab: Option<CString>, rest: seq<byte>)
    ensures SplitLabelled(LabelBytes(lab) + rest, lab.Some?)
         == Some((if lab.Some? then Some(lab.value) else None, rest))
  {
    if lab.Some? {
      SplitLabel(lab.value, rest);
    } else {
      assert LabelBytes(lab) + rest == rest;
    }
  }

  lemma DecodeParts(head: seq<byte>, lab: Option<CString>, u: seq<byte>, v: seq<byte>, tail: seq<byte>)
    requires |head| == |tail| == 4
    ensures Decode(head + LabelBytes(lab) + u + v + tail, lab.Some?, |u|)
         == Some(KdfaFields(Value(head), if lab.Some? then Some(lab.value) else None, u, v, Value(tail)))
  {
    hide Value, SplitLabelled, LabelBytes;
    var after := v + tail;
    var rest := u + after;
    var body := LabelBytes(lab) + rest;
    assert head + LabelBytes(lab) + u + v + tail == head + body;
    Cut(head, body);
    SplitOff(lab, rest);
    Cut(u, after);
    Cut(v, tail);
  }

  lemma Cut(a: seq<byte>, b: seq<byte>)
    ensures (a + b)[..|a|] == a && (a + b)[|a|..] == b
  {
  }

  lemma DecodeMessage(src: Source, counter: uint32)
    requires src.KdfaInput?
    ensures Decode(Message(src, counter), src.lab.Some?, |src.u|)
         == Some(KdfaFields(counter, if src.lab.Some? then Some(src.lab.value) else None, src.u, src.v, src.bits))
  {
    DecodeParts(Be32(counter), src.lab, src.u, src.v, Be32(src.bits));
    Be32Value(counter);
    Be32Value(src.bits);
  }

  datatype KdfeFields = KdfeFields(counter: nat, z: Option<seq<byte>>, lab: Option<seq<byte>>,
                                   partyU: Option<seq<byte>>, partyV: Option<seq<byte>>)

  function SizeOf(part: Option<seq<byte>>): Option<nat> {
    if part.Some? then Some(|part.value|) else None
  }

  /** A part of known size taken off the front; None for a part that is not there. */
  function SplitPart(s: seq<byte>, size: Option<nat>): Option<(Option<seq<byte>>, seq<byte>)> {
    if size.None? then Some((None, s))
    else if |s| < size.value then None
    else Some((Some(s[..size.value]), s[size.value..]))
  }

  /** Reads a KDFe block message back, given which parts are there and the sizes of Z and partyU. */
  function DecodeKdfe(msg: seq<byte>, zSize: Option<nat>, labelled: bool, uSize: Option<nat>,
                      hasV: bool): Option<KdfeFields> {
    if |msg| < 4 then None
    else match SplitPart(msg[4..], zSize)
      case None => None
      case Some((z, afterZ)) =>
        match SplitLabelled(afterZ, labelled)
        case None => None
        case Some((text, afterLab)) =>
          match SplitPart(afterLab, uSize)
          case None => None
          case Some((u, v)) =>
            if hasV then Some(KdfeFields(Value(msg[..4]), z, text, u, Some(v)))
            else if v == [] then Some(KdfeFields(Value(msg[..4]), z, text, u, None))
            else None
  }

  lemma SplitOffPart(part: Option<seq<byte>>, rest: seq<byte>)
    ensures SplitPart(Opt(part) + rest, SizeOf(part)) == Some((part, rest))
  {
    if part.Some? {
      Cut(part.value, rest);
    } else {
      assert Opt(part) + rest == rest;
    }
  }

  lemma DecodeKdfeMessage(src: Source, counter: uint32)
    requires src.KdfeInput?
    ensures DecodeKdfe(Message(src, counter), SizeOf(src.z), src.lab.Some?, SizeOf(src.partyU), src.partyV.Some?)
         == Some(KdfeFields(counter, src.z, if src.lab.Some? then Some(src.lab.value) else None,
                            src.partyU, src.partyV))
  {
    hide Value, SplitLabelled, SplitPart, LabelBytes, Be32;
    var v := Opt(src.partyV);
    var u := Opt(src.partyU) + v;
    var l := LabelBytes(src.lab) + u;
    var z := Opt(src.z) + l;
    assert Message(src, counter) == Be32(counter) + z;
    Cut(Be32(counter), z);
    SplitOffPart(src.z, l);
    SplitOff(src.lab, u);
    SplitOffPart(src.partyU, v);
    Be32Value(counter);
  }

  /** What a KDFa message says between counter and bit length. */
  function Middle(s: Source): seq<byte>
    requires s.KdfaInput?
  {
    LabelBytes(s.lab) + s.u + s.v
  }

  /** The same message with its middle passed as one context and no label. */
  lemma MiddleAsContext(s: Source, counter: uint32)
    requires s.KdfaInput?
    ensures Message(s, counter) == Message(s.(lab := None, u := [], v := Middle(s)), counter)
         == Be32(counter) + Middle(s) + Be32(s.bits)
  {
    var b := LabelBytes(s.lab);
    assert Be32(counter) + b + s.u + s.v == Be32(counter) + [] + [] + (b + s.u + s.v)
           == Be32(counter) + (b + s.u + s.v);
  }

  /** Two KDFa messages, with or without a label on either side, are the same byte string exactly
      when counter and bit length agree and label and contexts agree once joined; when both have a
      label, exactly when the labels agree and the contexts agree once joined. */
  lemma MessagesEqualIff(s: Source, i: uint32, t: Source, j: uint32)
    requires s.KdfaInput? && t.KdfaInput?
    ensures Message(s, i) == Message(t, j) <==> i == j && s.bits == t.bits && Middle(s) == Middle(t)
    ensures s.lab.Some? && t.lab.Some? ==>
              (Middle(s) == Middle(t) <==> s.lab == t.lab && s.u + s.v == t.u + t.v)
    ensures s.lab.None? && t.lab.None? ==> (Middle(s) == Middle(t) <==> s.u + s.v == t.u + t.v)
  {
    hide Message, Middle, Decode, SplitAtNul, Be32;
    MiddleAsContext(s, i);
    MiddleAsContext(t, j);
    DecodeMessage(s.(lab := None, u := [], v := Middle(s)), i);
    DecodeMessage(t.(lab := None, u := [], v := Middle(t)), j);
    MiddleParts(s);
    MiddleParts(t);
  }

  lemma MiddleParts(s: Source)
    requires s.KdfaInput?
    ensures Middle(s) == LabelBytes(s.lab) + (s.u + s.v)
    ensures s.lab.None? ==> Middle(s) == s.u + s.v
    ensures s.lab.Some? ==> SplitAtNul(Middle(s)) == Some((s.lab.value, s.u + s.v))
  {
    if s.lab.Some? {
      assert Middle(s) == s.lab.value + [0] + (s.u + s.v);
      SplitLabel(s.lab.value, s.u + s.v);
    } else {
      assert Middle(s) == s.u + s.v;
    }
  }

  /** A NULL label is not separable from the contexts: every labelled message is also unlabelled. */
  lemma NullLabelCollides(alg: AlgId, key: seq<byte>, text: CString, u: seq<byte>, v: seq<byte>, bits: uint32,
                          counter: uint32)
    ensures Message(KdfaInput(alg, key, Some(text), u, v, bits), counter)
         == Message(KdfaInput(alg, key, None, text + [0] + u, v, bits), counter)
  {
    assert Be32(counter) + LabelBytes(Some(text)) + u == Be32(counter) + LabelBytes(None) + (text + [0] + u);
  }

  // ---------------------------------------------------------------- XOR obfuscation

  const XOR_LABEL: CString := [0x58, 0x4F, 0x52]

  /** data_size * 8 reaches KDFa through a 32-bit parameter. */
  function XorSource(alg: AlgId, key: seq<byte>, u: seq<byte>, v: seq<byte>, size: nat): Source {
    KdfaInput(alg, key, Some(XOR_LABEL), u, v, 8 * size % TWO32)
  }

  /** The number of digest-sized pieces of the data. */
  function Pieces(size: nat, hlen: nat): nat
    requires hlen > 0
  {
    if size == 0 then 0 else Blocks(size, hlen)
  }

  function Keystream(c: Crypto, alg: AlgId, key: seq<byte>, u: seq<byte>, v: seq<byte>, size: nat): (ks: seq<byte>)
    requires DigestSize(alg).Some?
    ensures |ks| >= size
  {
    var src := XorSource(alg, key, u, v, size);
    var n := Pieces(size, HLen(src));
    StreamLength(c, src, 0, n);
    BlocksIsCeiling(size, HLen(src));
    Stream(c, src, 0, n)
  }

  function Obfuscated(c: Crypto, alg: AlgId, key: seq<byte>, u: seq<byte>, v: seq<byte>,
                      data: seq<byte>): (r: seq<byte>)
    requires DigestSize(alg).Some?
    ensures |r| == |data|
  {
    XorBytes(data, Keystream(c, alg, key, u, v, |data|))
  }

  /** Deobfuscation is obfuscation: the second application restores every buffer of every length. */
  lemma ObfuscationIsInvolution(c: Crypto, alg: AlgId, key: seq<byte>, u: seq<byte>, v: seq<byte>, data: seq<byte>)
    requires DigestSize(alg).Some?
    ensures Obfuscated(c, alg, key, u, v, Obfuscated(c, alg, key, u, v, data)) == data
  {
    XorTwice(data, Keystream(c, alg, key, u, v, |data|));
  }

  /** The chunked keystream, one digest-sized KDFa call per chunk with the counter threaded through,
      is what a single KDFa call for the whole bit length derives. */
  lemma KeystreamIsOneShot(c: Crypto, alg: AlgId, key: seq<byte>, u: seq<byte>, v: seq<byte>, size: nat)
    requires DigestSize(alg).Some? && 8 * size < TWO32
    ensures var src := KdfaInput(alg, key, Some(XOR_LABEL), u, v, 8 * size);
            && size <= |Output(c, src, 0, Bytes32(8 * size), 8 * size)|
            && Keystream(c, alg, key, u, v, size)[..size] == Output(c, src, 0, Bytes32(8 * size), 8 * size)[..size]
  {
    hide DigestSize, Block;
    var bits := 8 * size;
    var src := KdfaInput(alg, key, Some(XOR_LABEL), u, v, bits);
    assert Bytes32(bits) == size && bits % 8 == 0 && XorSource(alg, key, u, v, size) == src;
    var stream := Stream(c, src, 0, Blocks(size, HLen(src)));
    assert Output(c, src, 0, size, bits) == stream;
    assert size > 0 ==> Keystream(c, alg, key, u, v, size) == stream;
    assert size <= |stream| by {
      StreamLength(c, src, 0, Blocks(size, HLen(src)));
      BlocksIsCeiling(size, HLen(src));
    }
  }
}
