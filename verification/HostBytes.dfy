/** The object representation of an unsigned integer, as `memcpy` moves it between a
    value and a buffer. The host order is fixed as little endian on both sides. */
module HostBytes {
  import opened SocksTypes

  function Pow256(k: nat): (p: nat)
    ensures p >= 1
  {
    if k == 0 then 1 else 0x100 * Pow256(k - 1)
  }

  function Image(v: nat, k: nat): (s: Bytes)
    ensures |s| == k
  {
    if k == 0 then [] else [v % 0x100] + Image(v / 0x100, k - 1)
  }

  function Value(s: Bytes): (v: nat)
    ensures v < Pow256(|s|)
  {
    if |s| == 0 then 0 else s[0] + 0x100 * Value(s[1..])
  }

  lemma {:induction false} ValueOfImage(v: nat, k: nat)
    requires v < Pow256(k)
    ensures Value(Image(v, k)) == v
  {
    if k == 0 {
    } else {
      ValueOfImage(v / 0x100, k - 1);
      assert Image(v, k)[1..] == Image(v / 0x100, k - 1);
    }
  }

  lemma {:induction false} ImageOfValue(s: Bytes)
    ensures Image(Value(s), |s|) == s
  {
    if |s| == 0 {
    } else {
      ImageOfValue(s[1..]);
      assert Value(s) / 0x100 == Value(s[1..]) && Value(s) % 0x100 == s[0];
      assert s == [s[0]] + s[1..];
    }
  }

  lemma OneByte(b: Byte)
    ensures Image(b, 1) == [b]
  {
  }

  lemma TwoBytes(w: Word)
    ensures Image(w, 2) == [w % 0x100, w / 0x100]
  {
    OneByte(w / 0x100);
  }

  lemma FourBytes(d: nat)
    requires d < 0x1_0000_0000
    ensures Image(d, 4) == [d % 0x100, d / 0x100 % 0x100, d / 0x1_0000 % 0x100, d / 0x100_0000]
  {
    assert Image(d, 4) == [d % 0x100] + ([d / 0x100 % 0x100] + Image(d / 0x100 / 0x100, 2));
    assert d / 0x100 / 0x100 == d / 0x1_0000 && d / 0x1_0000 / 0x100 == d / 0x100_0000;
    TwoBytes(d / 0x1_0000);
  }

  /** A port: two bytes of the message, in the order the host stores them. */
  function WordImage(w: Word): (s: Bytes)
    ensures |s| == 2
  {
    Image(w, 2)
  }

  function WordValue(s: Bytes): (w: Word)
    requires |s| == 2
  {
    assert Pow256(2) == 0x1_0000;
    Value(s)
  }

  lemma WordRoundTrip(w: Word, s: Bytes)
    requires |s| == 2
    ensures WordValue(WordImage(w)) == w
    ensures WordImage(WordValue(s)) == s
  {
    assert Pow256(2) == 0x1_0000;
    ValueOfImage(w, 2);
    ImageOfValue(s);
  }
}
