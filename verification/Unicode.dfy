/** The UTF-8 test of the codecs against the encoding it stands for. */
module Unicode {
  import opened Bytes

  /** A Unicode scalar value: a code point that is no surrogate. */
  predicate Scalar(c: nat) { c < 0xD800 || 0xE000 <= c < 0x11_0000 }

  /** Its encoding, section 3 of RFC 3629. */
  function Encoded(c: nat): (b: seq<byte>)
    requires Scalar(c)
    ensures 1 <= |b| <= 4
  {
    if c < 0x80 then [c]
    else if c < 0x800 then [0xC0 + c / 0x40, 0x80 + c % 0x40]
    else if c < 0x1_0000 then [0xE0 + c / 0x1000, 0x80 + c / 0x40 % 0x40, 0x80 + c % 0x40]
    else [0xF0 + c / 0x4_0000, 0x80 + c / 0x1000 % 0x40, 0x80 + c / 0x40 % 0x40, 0x80 + c % 0x40]
  }

  function Text(cs: seq<nat>): (b: seq<byte>)
    requires forall i :: 0 <= i < |cs| ==> Scalar(cs[i])
  {
    if cs == [] then [] else Encoded(cs[0]) + Text(cs[1..])
  }

  /** The test does not look at what comes before. */
  lemma {:induction false} Shifted(a: seq<byte>, s: seq<byte>, i: nat)
    requires i <= |s|
    ensures Utf8From(a + s, |a| + i) == Utf8From(s, i)
    decreases |s| - i
  {
    if i + 1 <= |s| { Shifted(a, s, i + 1); }
    if i + 2 <= |s| { Shifted(a, s, i + 2); }
    if i + 3 <= |s| { Shifted(a, s, i + 3); }
    if i + 4 <= |s| { Shifted(a, s, i + 4); }
  }

  lemma CharPasses(c: nat, s: seq<byte>)
    requires Scalar(c)
    ensures Utf8(Encoded(c) + s) == Utf8(s)
  {
    Shifted(Encoded(c), s, 0);
  }

  lemma TwoBytes(b0: int, b1: int) returns (c: nat)
    requires 0xC2 <= b0 <= 0xDF && 0x80 <= b1 <= 0xBF
    ensures Scalar(c) && Encoded(c) == [b0, b1]
  {
    c := (b0 - 0xC0) * 0x40 + (b1 - 0x80);
  }

  lemma ThreeBytes(b0: int, b1: int, b2: int) returns (c: nat)
    requires 0xE0 <= b0 <= 0xEF && 0x80 <= b1 <= 0xBF && 0x80 <= b2 <= 0xBF
    requires (b0 == 0xE0 ==> b1 >= 0xA0) && (b0 == 0xED ==> b1 <= 0x9F)
    ensures Scalar(c) && Encoded(c) == [b0, b1, b2]
  {
    c := (b0 - 0xE0) * 0x1000 + (b1 - 0x80) * 0x40 + (b2 - 0x80);
    assert c / 0x1000 == b0 - 0xE0 && c / 0x40 == (b0 - 0xE0) * 0x40 + (b1 - 0x80) && c % 0x40 == b2 - 0x80;
  }

  lemma FourBytes(b0: int, b1: int, b2: int, b3: int) returns (c: nat)
    requires 0xF0 <= b0 <= 0xF4 && 0x80 <= b1 <= 0xBF && 0x80 <= b2 <= 0xBF && 0x80 <= b3 <= 0xBF
    requires (b0 == 0xF0 ==> b1 >= 0x90) && (b0 == 0xF4 ==> b1 <= 0x8F)
    ensures Scalar(c) && Encoded(c) == [b0, b1, b2, b3]
  {
    c := (b0 - 0xF0) * 0x4_0000 + (b1 - 0x80) * 0x1000 + (b2 - 0x80) * 0x40 + (b3 - 0x80);
    assert c / 0x4_0000 == b0 - 0xF0 && c / 0x1000 == (b0 - 0xF0) * 0x40 + (b1 - 0x80);
    assert c / 0x40 == (b0 - 0xF0) * 0x1000 + (b1 - 0x80) * 0x40 + (b2 - 0x80) && c % 0x40 == b3 - 0x80;
  }

  /** The first character of a text that passes the test. */
  lemma FirstChar(s: seq<byte>) returns (c: nat, rest: seq<byte>)
    requires Utf8(s) && s != []
    ensures Scalar(c) && s == Encoded(c) + rest
  {
    if s[0] < 0x80 {
      c, rest := s[0], s[1..];
    } else if s[0] <= 0xDF {
      c := TwoBytes(s[0], s[1]);
      rest := s[2..];
    } else if s[0] <= 0xEF {
      c := ThreeBytes(s[0], s[1], s[2]);
      rest := s[3..];
    } else {
      c := FourBytes(s[0], s[1], s[2], s[3]);
      rest := s[4..];
    }
  }

  lemma {:induction false} TextPasses(cs: seq<nat>)
    requires forall i :: 0 <= i < |cs| ==> Scalar(cs[i])
    ensures Utf8(Text(cs))
  {
    if cs != [] {
      TextPasses(cs[1..]);
      CharPasses(cs[0], Text(cs[1..]));
    }
  }

  lemma {:induction false} PassesIsText(s: seq<byte>) returns (cs: seq<nat>)
    requires Utf8(s)
    ensures (forall i :: 0 <= i < |cs| ==> Scalar(cs[i])) && Text(cs) == s
    decreases |s|
  {
    cs := [];
    if s != [] {
      var c, rest := FirstChar(s);
      CharPasses(c, rest);
      var more := PassesIsText(rest);
      cs := [c] + more;
      assert cs[1..] == more;
    }
  }

  /** Exactly the encodings of sequences of scalar values pass. */
  lemma Utf8Iff(s: seq<byte>)
    ensures Utf8(s) <==> exists cs: seq<nat> :: (forall i :: 0 <= i < |cs| ==> Scalar(cs[i])) && Text(cs) == s
  {
    if Utf8(s) {
      var cs := PassesIsText(s);
    }
    if cs: seq<nat> :| (forall i :: 0 <= i < |cs| ==> Scalar(cs[i])) && Text(cs) == s { TextPasses(cs); }
  }
}
