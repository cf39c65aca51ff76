/** The byte strings behind cpHash, rpHash and the session HMAC. */
module AuthMessages {
  import opened Tss
  import opened Bytes

  /** The parts of a parameter hash; each None is a part left out because its pointer is NULL. */
  datatype PHashParts = PHashParts(
    rc: Option<seq<byte>>,
    cc: seq<byte>,
    name1: Option<seq<byte>>,
    name2: Option<seq<byte>>,
    name3: Option<seq<byte>>,
    buffer: seq<byte>)

  function PHashMessage(p: PHashParts): seq<byte> {
    Opt(p.rc) + p.cc + Opt(p.name1) + Opt(p.name2) + Opt(p.name3) + p.buffer
  }

  function PHashUpdates(p: PHashParts): nat {
    2 + OptCount(p.rc) + OptCount(p.name1) + OptCount(p.name2) + OptCount(p.name3)
  }

  datatype AuthParts = AuthParts(
    pHash: seq<byte>,
    newer: seq<byte>,
    older: seq<byte>,
    decrypt: Option<seq<byte>>,
    encrypt: Option<seq<byte>>,
    attributes: byte)

  function AuthMessage(p: AuthParts): seq<byte> {
    p.pHash + p.newer + p.older + Opt(p.decrypt) + Opt(p.encrypt) + [p.attributes]
  }

  function AuthUpdates(p: AuthParts): nat {
    4 + OptCount(p.decrypt) + OptCount(p.encrypt)
  }

  // ---------------------------------------------------------------- where each part lies

  /** A NULL part takes no bytes. */
  function OptSize(part: Option<seq<byte>>): (n: nat)
    ensures n == if part.Some? then |part.value| else 0
  {
    |Opt(part)|
  }

  /** Response code, command code, the three names in their order, then the parameters to the end. */
  lemma PHashLayout(p: PHashParts)
    ensures var m := PHashMessage(p);
            var c := OptSize(p.rc);
            var n1 := c + |p.cc|;
            var n2 := n1 + OptSize(p.name1);
            var n3 := n2 + OptSize(p.name2);
            var b := n3 + OptSize(p.name3);
            && |m| == b + |p.buffer|
            && (p.rc.Some? ==> m[..c] == p.rc.value) && m[c..n1] == p.cc
            && (p.name1.Some? ==> m[n1..n2] == p.name1.value)
            && (p.name2.Some? ==> m[n2..n3] == p.name2.value)
            && (p.name3.Some? ==> m[n3..b] == p.name3.value)
            && m[b..] == p.buffer
  {
    SixSlices(Opt(p.rc), p.cc, Opt(p.name1), Opt(p.name2), Opt(p.name3), p.buffer);
  }

  /** The parameter hash, the newer nonce, the older one, the decrypt and encrypt nonces where given,
      then the attribute byte. */
  lemma AuthLayout(p: AuthParts)
    ensures var m := AuthMessage(p);
            var n := |p.pHash|;
            var o := n + |p.newer|;
            var d := o + |p.older|;
            var e := d + OptSize(p.decrypt);
            var a := e + OptSize(p.encrypt);
            && |m| == a + 1
            && m[..n] == p.pHash && m[n..o] == p.newer && m[o..d] == p.older
            && (p.decrypt.Some? ==> m[d..e] == p.decrypt.value)
            && (p.encrypt.Some? ==> m[e..a] == p.encrypt.value)
            && m[a] == p.attributes
  {
    SixSlices(p.pHash, p.newer, p.older, Opt(p.decrypt), Opt(p.encrypt), [p.attributes]);
  }

  lemma ThreeSlices(a: seq<byte>, b: seq<byte>, c: seq<byte>)
    ensures (a + b + c)[..|a|] == a && (a + b + c)[|a|..|a| + |b|] == b && (a + b + c)[|a| + |b|..] == c
  {
  }

  lemma Halves(s: seq<byte>, t: seq<byte>, i: nat, j: nat)
    requires i <= j
    ensures j <= |s| ==> (s + t)[i..j] == s[i..j]
    ensures j <= |t| ==> (s + t)[|s| + i..|s| + j] == t[i..j]
  {
  }

  lemma Reassociate(s: seq<byte>, d: seq<byte>, e: seq<byte>, f: seq<byte>)
    ensures s + d + e + f == s + (d + e + f)
  {
  }

  lemma SixSlices(a: seq<byte>, b: seq<byte>, c: seq<byte>, d: seq<byte>, e: seq<byte>, f: seq<byte>)
    ensures var m := a + b + c + d + e + f;
            var n := |a| + |b| + |c|;
            && m[..|a|] == a && m[|a|..|a| + |b|] == b && m[|a| + |b|..n] == c
            && m[n..n + |d|] == d && m[n + |d|..n + |d| + |e|] == e && m[n + |d| + |e|..] == f
  {
    var s, t := a + b + c, d + e + f;
    Reassociate(s, d, e, f);
    ThreeSlices(a, b, c);
    ThreeSlices(d, e, f);
    Halves(s, t, 0, |a|);
    Halves(s, t, |a|, |a| + |b|);
    Halves(s, t, |a| + |b|, |s|);
    Halves(s, t, 0, |d|);
    Halves(s, t, |d|, |d| + |e|);
    Halves(s, t, |d| + |e|, |t|);
  }

  // ---------------------------------------------------------------- injectivity

  /** Parts whose sizes, except the last one's, are known can be read off their concatenation. */
  lemma {:induction false} ConcatInjective(s: seq<seq<byte>>, t: seq<seq<byte>>)
    requires |s| == |t|
    requires forall i :: 0 <= i < |s| - 1 ==> |s[i]| == |t[i]|
    requires Concat(s) == Concat(t)
    ensures s == t
  {
    if |s| == 1 {
      assert s[1..] == [] && t[1..] == [];
      assert Concat(s) == s[0] && Concat(t) == t[0];
    } else if |s| > 1 {
      var n := |s[0]|;
      assert Concat(s)[..n] == s[0] && Concat(t)[..n] == t[0];
      assert Concat(s)[n..] == Concat(s[1..]) && Concat(t)[n..] == Concat(t[1..]);
      ConcatInjective(s[1..], t[1..]);
      assert s == [s[0]] + s[1..] && t == [t[0]] + t[1..];
    }
  }

  predicate SameShape(s: Option<seq<byte>>, t: Option<seq<byte>>) {
    s.Some? == t.Some? && |Opt(s)| == |Opt(t)|
  }

  lemma SixParts(a: seq<byte>, b: seq<byte>, c: seq<byte>, d: seq<byte>, e: seq<byte>, f: seq<byte>)
    ensures Concat([a, b, c, d, e, f]) == a + b + c + d + e + f
  {
    assert Concat([f]) == f + Concat([]);
    assert Concat([e, f]) == e + f;
    assert Concat([d, e, f]) == d + (e + f);
    assert Concat([c, d, e, f]) == c + (d + (e + f));
    assert Concat([b, c, d, e, f]) == b + (c + (d + (e + f)));
    assert [a, b, c, d, e, f][1..] == [b, c, d, e, f];
  }

  /** With the presence pattern and the sizes of the response code and names fixed, the hashed
      message determines every part, whatever the parameter buffer's size. */
  lemma PHashInjective(p: PHashParts, q: PHashParts)
    requires SameShape(p.rc, q.rc) && SameShape(p.name1, q.name1)
    requires SameShape(p.name2, q.name2) && SameShape(p.name3, q.name3)
    requires |p.cc| == |q.cc|
    requires PHashMessage(p) == PHashMessage(q)
    ensures p == q
  {
    var s := [Opt(p.rc), p.cc, Opt(p.name1), Opt(p.name2), Opt(p.name3), p.buffer];
    var t := [Opt(q.rc), q.cc, Opt(q.name1), Opt(q.name2), Opt(q.name3), q.buffer];
    SixParts(s[0], s[1], s[2], s[3], s[4], s[5]);
    SixParts(t[0], t[1], t[2], t[3], t[4], t[5]);
    ConcatInjective(s, t);
    assert forall i :: 0 <= i < 6 ==> s[i] == t[i];
    assert s[0] == t[0] && s[1] == t[1] && s[2] == t[2] && s[3] == t[3] && s[4] == t[4] && s[5] == t[5];
  }

  lemma AuthInjective(p: AuthParts, q: AuthParts)
    requires |p.pHash| == |q.pHash| && |p.newer| == |q.newer| && |p.older| == |q.older|
    requires SameShape(p.decrypt, q.decrypt) && SameShape(p.encrypt, q.encrypt)
    requires AuthMessage(p) == AuthMessage(q)
    ensures p == q
  {
    var s := [p.pHash, p.newer, p.older, Opt(p.decrypt), Opt(p.encrypt), [p.attributes]];
    var t := [q.pHash, q.newer, q.older, Opt(q.decrypt), Opt(q.encrypt), [q.attributes]];
    SixParts(s[0], s[1], s[2], s[3], s[4], s[5]);
    SixParts(t[0], t[1], t[2], t[3], t[4], t[5]);
    ConcatInjective(s, t);
    assert s[0] == t[0] && s[1] == t[1] && s[2] == t[2] && s[3] == t[3] && s[4] == t[4] && s[5] == t[5];
  }

  /** Without the pattern the parts are not determined: a response hash is also a command hash. */
  lemma PatternsCollide(rc: seq<byte>, cc: seq<byte>, buffer: seq<byte>)
    ensures PHashMessage(PHashParts(Some(rc), cc, None, None, None, buffer))
         == PHashMessage(PHashParts(None, rc, Some(cc), None, None, buffer))
  {
    assert Opt(Some(rc)) + cc == Opt(None) + rc + Opt(Some(cc));
  }
}
