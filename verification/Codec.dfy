/** Wire formats as encoder/decoder pairs, and the laws that compose.

    A decoder reads from an offset, as the source's do with `off: &mut usize`. */
module Codec {
  import opened Bytes

  datatype DecodeError =
    | BadResponse | BadRequest | BadPush | TruncatedLen | TruncatedString | BadUtf8 | TruncatedTopic
    | TruncatedNodeHeader | TruncatedPubCount | TruncatedSubCount | TruncatedEndpoint | TruncatedAddrs

  datatype Parsed<+T> = Ok(value: T, next: nat) | Err(error: DecodeError)

  datatype Codec<!T> = Codec(
    enc: T -> seq<byte>, dec: (seq<byte>, nat) -> Parsed<T>, fits: T -> bool)

  /** `b` carries the bytes `e` at `off`. */
  predicate Has(b: seq<byte>, off: nat, e: seq<byte>) {
    off + |e| <= |b| && b[off..off + |e|] == e
  }

  lemma HasSplit(b: seq<byte>, off: nat, e: seq<byte>, f: seq<byte>)
    requires Has(b, off, e + f)
    ensures Has(b, off, e) && Has(b, off + |e|, f)
  {
    assert b[off..off + |e|] == b[off..off + |e + f|][..|e|];
    assert b[off + |e|..off + |e| + |f|] == b[off..off + |e + f|][|e|..];
  }

  /** Decoding an encoding that fits gives it back, wherever it stands. */
  ghost predicate Inverts<T(!new)>(c: Codec<T>) {
    forall x, b, off: nat {:trigger Has(b, off, c.enc(x))} ::
      c.fits(x) && Has(b, off, c.enc(x)) ==> c.dec(b, off) == Ok(x, off + |c.enc(x)|)
  }

  /** A parse that succeeds inside a prefix reads nothing beyond it. */
  ghost predicate Stable<T>(c: Codec<T>) {
    forall b: seq<byte>, m: nat, off: nat {:trigger c.dec(b[..m], off)} ::
      m <= |b| && c.dec(b[..m], off).Ok? ==> c.dec(b, off) == c.dec(b[..m], off)
  }

  /** A parse that succeeds stays in bounds and yields what fits. */
  ghost predicate Yields<T>(c: Codec<T>) {
    forall b: seq<byte>, off: nat :: off <= |b| && c.dec(b, off).Ok? ==>
      off <= c.dec(b, off).next <= |b| && c.fits(c.dec(b, off).value)
  }

  ghost predicate Lawful<T(!new)>(c: Codec<T>) { Inverts(c) && Stable(c) && Yields(c) }

  // ------------------------------------------------------------- primitives

  function U(b: seq<byte>, off: nat, k: nat): (n: nat)
    requires off + k <= |b|
    ensures n < Pow256(k)
  {
    FromLe(b[off..off + k])
  }

  lemma UReads(b: seq<byte>, off: nat, n: nat, k: nat)
    requires Has(b, off, ToLe(n, k)) && n < Pow256(k)
    ensures U(b, off, k) == n
  {
    LeRoundTrip(n, k);
  }

  lemma UStable(b: seq<byte>, m: nat, off: nat, k: nat)
    requires off + k <= m <= |b|
    ensures U(b[..m], off, k) == U(b, off, k)
  {
    assert b[..m][off..off + k] == b[off..off + k];
  }

  /** A 16-bit length, then that many bytes of UTF-8. */
  function EncStr(s: seq<byte>): (b: seq<byte>)
    ensures |b| == 2 + |s|
  {
    ToLe(|s|, 2) + s
  }

  function DecStr(b: seq<byte>, off: nat): (r: Parsed<seq<byte>>) {
    if off + 2 > |b| then Err(TruncatedLen)
    else
      var len := U(b, off, 2);
      if off + 2 + len > |b| then Err(TruncatedString)
      else if !Utf8(b[off + 2..off + 2 + len]) then Err(BadUtf8)
      else Ok(b[off + 2..off + 2 + len], off + 2 + len)
  }

  predicate StringFits(s: seq<byte>) { |s| < 0x1_0000 && Utf8(s) }

  const STR: Codec<seq<byte>> := Codec(EncStr, DecStr, StringFits)

  lemma StrReads(b: seq<byte>, off: nat, s: seq<byte>)
    requires Has(b, off, EncStr(s)) && StringFits(s)
    ensures DecStr(b, off) == Ok(s, off + |EncStr(s)|)
  {
    HasSplit(b, off, ToLe(|s|, 2), s);
    Pow256Widths();
    UReads(b, off, |s|, 2);
  }

  lemma StrStable(b: seq<byte>, m: nat, off: nat)
    requires m <= |b| && DecStr(b[..m], off).Ok?
    ensures DecStr(b, off) == DecStr(b[..m], off)
  {
    UStable(b, m, off, 2);
    var len := U(b, off, 2);
    assert b[..m][off + 2..off + 2 + len] == b[off + 2..off + 2 + len];
  }

  lemma StrYields(b: seq<byte>, off: nat)
    requires DecStr(b, off).Ok?
    ensures off <= DecStr(b, off).next <= |b| && StringFits(DecStr(b, off).value)
  {
    Pow256Widths();
  }

  lemma StrInverts()
    ensures Inverts(STR)
  {
    forall x, b, off: nat | STR.fits(x) && Has(b, off, STR.enc(x))
      ensures STR.dec(b, off) == Ok(x, off + |STR.enc(x)|)
    {
      StrReads(b, off, x);
    }
  }

  lemma StrStableAll()
    ensures Stable(STR)
  {
    forall b: seq<byte>, m: nat, off: nat | m <= |b| && STR.dec(b[..m], off).Ok?
      ensures STR.dec(b, off) == STR.dec(b[..m], off)
    {
      StrStable(b, m, off);
    }
  }

  lemma StrYieldsAll()
    ensures Yields(STR)
  {
    forall b: seq<byte>, off: nat | off <= |b| && STR.dec(b, off).Ok?
      ensures off <= STR.dec(b, off).next <= |b| && STR.fits(STR.dec(b, off).value)
    {
      StrYields(b, off);
    }
  }

  lemma StrLawful()
    ensures Lawful(STR)
  {
    StrInverts();
    StrStableAll();
    StrYieldsAll();
  }

  // -------------------------------------------------------------- sequencing

  function EncPair<A, B>(c: Codec<A>, d: Codec<B>, x: (A, B)): seq<byte> { c.enc(x.0) + d.enc(x.1) }

  function DecPair<A, B>(c: Codec<A>, d: Codec<B>, b: seq<byte>, off: nat): (r: Parsed<(A, B)>) {
    match c.dec(b, off)
    case Err(e) => Err(e)
    case Ok(x, o1) =>
      match d.dec(b, o1)
      case Err(e) => Err(e)
      case Ok(y, o2) => Ok((x, y), o2)
  }

  function Then<A, B>(c: Codec<A>, d: Codec<B>): Codec<(A, B)> {
    Codec((x: (A, B)) => EncPair(c, d, x), (b: seq<byte>, off: nat) => DecPair(c, d, b, off),
          (x: (A, B)) => c.fits(x.0) && d.fits(x.1))
  }

  lemma ThenLawful<A(!new), B(!new)>(c: Codec<A>, d: Codec<B>)
    requires Lawful(c) && Lawful(d)
    ensures Lawful(Then(c, d))
  {
    var p := Then(c, d);
    forall x, b, off: nat | p.fits(x) && Has(b, off, p.enc(x)) ensures p.dec(b, off) == Ok(x, off + |p.enc(x)|) {
      HasSplit(b, off, c.enc(x.0), d.enc(x.1));
    }
    forall b: seq<byte>, m: nat, off: nat | m <= |b| && p.dec(b[..m], off).Ok?
      ensures p.dec(b, off) == p.dec(b[..m], off)
    {
      assert c.dec(b[..m], off).Ok?;
      assert d.dec(b[..m], c.dec(b[..m], off).next).Ok?;
    }
  }

  /** The same bytes read as another type. */
  function Map<A, B>(c: Codec<A>, into: A -> B, out: B -> A): Codec<B> {
    Codec((y: B) => c.enc(out(y)),
          (b: seq<byte>, off: nat) => match c.dec(b, off) case Err(e) => Err(e) case Ok(x, next) => Ok(into(x), next),
          (y: B) => c.fits(out(y)))
  }

  lemma MapLawful<A(!new), B(!new)>(c: Codec<A>, into: A -> B, out: B -> A)
    requires Lawful(c)
    requires forall y :: into(out(y)) == y
    requires forall x :: c.fits(x) ==> out(into(x)) == x
    ensures Lawful(Map(c, into, out))
  {
    var p := Map(c, into, out);
    forall b: seq<byte>, m: nat, off: nat | m <= |b| && p.dec(b[..m], off).Ok?
      ensures p.dec(b, off) == p.dec(b[..m], off)
    {
      assert c.dec(b[..m], off).Ok?;
    }
  }

  // ------------------------------------------------------------------- lists

  function EncAll<T>(enc: T -> seq<byte>, xs: seq<T>): seq<byte> {
    if xs == [] then [] else enc(xs[0]) + EncAll(enc, xs[1..])
  }

  function DecAll<T>(dec: (seq<byte>, nat) -> Parsed<T>, b: seq<byte>, off: nat, count: nat): (r: Parsed<seq<T>>)
    ensures r.Ok? ==> |r.value| == count
    decreases count
  {
    if count == 0 then Ok([], off)
    else
      match dec(b, off)
      case Err(e) => Err(e)
      case Ok(x, o1) =>
        match DecAll(dec, b, o1, count - 1)
        case Err(e) => Err(e)
        case Ok(xs, o2) => Ok([x] + xs, o2)
  }

  function EncList<T>(c: Codec<T>, xs: seq<T>): seq<byte> { ToLe(|xs|, 4) + EncAll(c.enc, xs) }

  function DecList<T>(c: Codec<T>, missing: DecodeError, b: seq<byte>, off: nat): (r: Parsed<seq<T>>) {
    if off + 4 > |b| then Err(missing) else DecAll(c.dec, b, off + 4, U(b, off, 4))
  }

  predicate ListFits<T>(c: Codec<T>, xs: seq<T>) {
    |xs| <= U32_MAX && forall i :: 0 <= i < |xs| ==> c.fits(xs[i])
  }

  /** A 32-bit count, then that many elements. */
  function List<T>(c: Codec<T>, missing: DecodeError): Codec<seq<T>> {
    Codec((xs: seq<T>) => EncList(c, xs), (b: seq<byte>, off: nat) => DecList(c, missing, b, off),
          (xs: seq<T>) => ListFits(c, xs))
  }

  lemma {:induction false} AllReads<T(!new)>(c: Codec<T>, b: seq<byte>, off: nat, xs: seq<T>)
    requires Inverts(c) && Has(b, off, EncAll(c.enc, xs)) && forall i :: 0 <= i < |xs| ==> c.fits(xs[i])
    ensures DecAll(c.dec, b, off, |xs|) == Ok(xs, off + |EncAll(c.enc, xs)|)
    decreases |xs|
  {
    if xs != [] {
      HasSplit(b, off, c.enc(xs[0]), EncAll(c.enc, xs[1..]));
      AllReads(c, b, off + |c.enc(xs[0])|, xs[1..]);
      assert [xs[0]] + xs[1..] == xs;
    }
  }

  lemma {:induction false} AllStable<T>(c: Codec<T>, b: seq<byte>, m: nat, off: nat, count: nat)
    requires Stable(c) && m <= |b| && DecAll(c.dec, b[..m], off, count).Ok?
    ensures DecAll(c.dec, b, off, count) == DecAll(c.dec, b[..m], off, count)
    decreases count
  {
    if count > 0 {
      assert c.dec(b[..m], off).Ok?;
      AllStable(c, b, m, c.dec(b[..m], off).next, count - 1);
    }
  }

  lemma {:induction false} AllYields<T>(c: Codec<T>, b: seq<byte>, off: nat, count: nat)
    requires Yields(c) && off <= |b| && DecAll(c.dec, b, off, count).Ok?
    ensures var r := DecAll(c.dec, b, off, count);
            off <= r.next <= |b| && forall i :: 0 <= i < count ==> c.fits(r.value[i])
    decreases count
  {
    if count > 0 {
      assert c.dec(b, off).Ok?;
      AllYields(c, b, c.dec(b, off).next, count - 1);
    }
  }

  lemma ListReads<T(!new)>(c: Codec<T>, missing: DecodeError, b: seq<byte>, off: nat, xs: seq<T>)
    requires Inverts(c) && ListFits(c, xs) && Has(b, off, EncList(c, xs))
    ensures DecList(c, missing, b, off) == Ok(xs, off + |EncList(c, xs)|)
  {
    Pow256Widths();
    HasSplit(b, off, ToLe(|xs|, 4), EncAll(c.enc, xs));
    UReads(b, off, |xs|, 4);
    AllReads(c, b, off + 4, xs);
  }

  lemma ListStable<T>(c: Codec<T>, missing: DecodeError, b: seq<byte>, m: nat, off: nat)
    requires Stable(c) && m <= |b| && DecList(c, missing, b[..m], off).Ok?
    ensures DecList(c, missing, b, off) == DecList(c, missing, b[..m], off)
  {
    UStable(b, m, off, 4);
    AllStable(c, b, m, off + 4, U(b, off, 4));
  }

  lemma ListYields<T>(c: Codec<T>, missing: DecodeError, b: seq<byte>, off: nat)
    requires Yields(c) && DecList(c, missing, b, off).Ok?
    ensures off <= DecList(c, missing, b, off).next <= |b| && ListFits(c, DecList(c, missing, b, off).value)
  {
    Pow256Widths();
    AllYields(c, b, off + 4, U(b, off, 4));
  }

  lemma ListLawful<T(!new)>(c: Codec<T>, missing: DecodeError)
    requires Lawful(c)
    ensures Lawful(List(c, missing))
  {
    var p := List(c, missing);
    forall x, b, off: nat | p.fits(x) && Has(b, off, p.enc(x)) ensures p.dec(b, off) == Ok(x, off + |p.enc(x)|) {
      ListReads(c, missing, b, off, x);
    }
    forall b: seq<byte>, m: nat, off: nat | m <= |b| && p.dec(b[..m], off).Ok?
      ensures p.dec(b, off) == p.dec(b[..m], off)
    {
      ListStable(c, missing, b, m, off);
    }
    forall b: seq<byte>, off: nat | off <= |b| && p.dec(b, off).Ok?
      ensures off <= p.dec(b, off).next <= |b| && p.fits(p.dec(b, off).value)
    {
      ListYields(c, missing, b, off);
    }
  }

  // ---------------------------------------------------------- whole messages

  /** No proper prefix of an encoding decodes. */
  lemma PrefixRejected<T(!new)>(c: Codec<T>, x: T, m: nat)
    requires Lawful(c) && c.fits(x) && m < |c.enc(x)|
    ensures c.dec(c.enc(x)[..m], 0).Err?
  {
    var b := c.enc(x);
    assert b[0..|b|] == b && Has(b, 0, b);
    assert c.dec(b, 0).next == |b|;
  }

  /** What round-trips is exactly what fits. */
  lemma RoundTripIff<T(!new)>(c: Codec<T>, x: T)
    requires Lawful(c)
    ensures (c.dec(c.enc(x), 0).Ok? && c.dec(c.enc(x), 0).value == x) <==> c.fits(x)
  {
    var b := c.enc(x);
    if c.fits(x) { assert b[0..|b|] == b && Has(b, 0, b); }
  }
}
