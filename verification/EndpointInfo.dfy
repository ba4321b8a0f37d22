/** Endpoint records handed across the C boundary: the writer of
    `c_bridge_graph.rs` and the reader of `misc_stubs.cpp`. Integers are in
    little-endian machine order. */
module EndpointInfo {
  import opened Bytes
  import opened Wrappers
  import opened Codec
  import opened SyncCodec
  import opened Qos

  type Gid = s: seq<byte> | |s| == 16 witness [0, 0, 0, 0, 0, 0, 0, 0, 0, 0, 0, 0, 0, 0, 0, 0]

  datatype Info = Info(name: seq<byte>, ns: seq<byte>, topicType: seq<byte>, gid: Gid, qos: Profile)

  // ------------------------------------------------------------------- records

  function Code(b: bool): (n: nat) { if b then 1 else 0 }

  /** `depth as i32`, as the four bytes it is stored in. */
  function DepthBits(h: History): (n: u32) {
    match h
    case KeepLast(depth) => depth % 0x1_0000_0000
    case KeepAll => 0
  }

  function LivelinessCode(l: Liveliness): (n: nat) {
    match l
    case ManualByTopic => 1
    case ManualByParticipant => 2
    case _ => 0
  }

  function Seconds(d: Option<Duration>): u64 { if d.Some? then d.value.secs else 0 }
  function Nanoseconds(d: Option<Duration>): Nanos { if d.Some? then d.value.nanos else 0 }

  function TimeBytes(d: Option<Duration>): (b: seq<byte>)
    ensures |b| == 12
  {
    ToLe(Seconds(d), 8) + ToLe(Nanoseconds(d), 4)
  }

  /** The pieces of a record, in the order they are written. */
  function Pieces(i: Info): (ps: seq<seq<byte>>) {
    [i.name + [0], i.ns + [0], i.topicType + [0], i.gid,
     ToLe(Code(i.qos.reliability == Reliable), 4), ToLe(Code(i.qos.durability == TransientLocal), 4),
     ToLe(Code(i.qos.history.KeepLast?), 4), ToLe(DepthBits(i.qos.history), 4),
     ToLe(LivelinessCode(i.qos.liveliness), 4),
     TimeBytes(i.qos.lease), TimeBytes(i.qos.deadline), TimeBytes(i.qos.lifespan)]
  }

  function Flat(ps: seq<seq<byte>>): (b: seq<byte>) {
    if ps == [] then [] else ps[0] + Flat(ps[1..])
  }

  /** `endpoint_info_serialized_len` */
  function SerializedLen(i: Info): nat { |i.name| + 1 + |i.ns| + 1 + |i.topicType| + 1 + 16 + 4 * 5 + 12 * 3 }

  function Required(xs: seq<Info>): (n: nat) {
    if xs == [] then 0 else Required(xs[..|xs| - 1]) + SerializedLen(xs[|xs| - 1])
  }

  function Record(i: Info): seq<byte> { (i.name + [0]) + ((i.ns + [0]) + ((i.topicType + [0]) + Tail(i))) }

  /** Encodings one after the other. */
  function Cat<T>(enc: T -> seq<byte>, xs: seq<T>): (b: seq<byte>) {
    if xs == [] then [] else Cat(enc, xs[..|xs| - 1]) + enc(xs[|xs| - 1])
  }

  lemma {:induction false} CatAt<T>(enc: T -> seq<byte>, b: seq<byte>, xs: seq<T>, k: nat)
    requires Has(b, 0, Cat(enc, xs)) && k < |xs|
    ensures Has(b, |Cat(enc, xs[..k])|, enc(xs[k]))
  {
    var init, last := xs[..|xs| - 1], xs[|xs| - 1];
    HasSplit(b, 0, Cat(enc, init), enc(last));
    if k < |xs| - 1 {
      CatAt(enc, b, init, k);
      assert init[..k] == xs[..k];
    }
  }

  function Records(xs: seq<Info>): (b: seq<byte>) { Cat(Record, xs) }

  lemma {:induction false} FlatSplit(ps: seq<seq<byte>>, k: nat)
    requires k <= |ps|
    ensures Flat(ps) == Flat(ps[..k]) + Flat(ps[k..])
  {
    if k > 0 {
      FlatSplit(ps[1..], k - 1);
      assert ps[1..][..k - 1] == ps[..k][1..];
      assert ps[1..][k - 1..] == ps[k..];
    } else {
      assert ps[..0] == [] && ps[0..] == ps;
    }
  }

  lemma FlatStep(p: seq<byte>, ps: seq<seq<byte>>)
    ensures Flat([p] + ps) == p + Flat(ps)
  {
    assert ([p] + ps)[1..] == ps;
  }

  lemma FlatSnoc(ps: seq<seq<byte>>, k: nat)
    requires k < |ps|
    ensures Flat(ps[..k + 1]) == Flat(ps[..k]) + ps[k]
  {
    FlatSplit(ps[..k + 1], k);
    assert ps[..k + 1][..k] == ps[..k] && ps[..k + 1][k..] == [ps[k]];
    FlatStep(ps[k], []);
    assert [ps[k]] + [] == [ps[k]];
  }

  /** The fixed part after the three strings. */
  function Tail(i: Info): (b: seq<byte>)
    ensures |b| == 72
  {
    i.gid + (ToLe(Code(i.qos.reliability == Reliable), 4) + (ToLe(Code(i.qos.durability == TransientLocal), 4)
    + (ToLe(Code(i.qos.history.KeepLast?), 4)
    + (ToLe(DepthBits(i.qos.history), 4) + (ToLe(LivelinessCode(i.qos.liveliness), 4)
    + (TimeBytes(i.qos.lease) + (TimeBytes(i.qos.deadline) + TimeBytes(i.qos.lifespan))))))))
  }

  lemma TimesAre(i: Info)
    ensures Flat(Pieces(i)[9..]) == TimeBytes(i.qos.lease) + (TimeBytes(i.qos.deadline) + TimeBytes(i.qos.lifespan))
  {
    var ps := Pieces(i);
    FlatFrom(ps, 11); FlatFrom(ps, 10); FlatFrom(ps, 9);
    assert ps[12..] == [] && ps[11] + [] == ps[11];
  }

  lemma ThreeFlat(ps: seq<seq<byte>>, k: nat)
    requires k + 3 <= |ps|
    ensures Flat(ps[k..]) == ps[k] + (ps[k + 1] + (ps[k + 2] + Flat(ps[k + 3..])))
  {
    FlatFrom(ps, k); FlatFrom(ps, k + 1); FlatFrom(ps, k + 2);
  }

  lemma TailIs(i: Info)
    ensures Flat(Pieces(i)[3..]) == Tail(i)
  {
    TimesAre(i);
    ThreeFlat(Pieces(i), 6);
    ThreeFlat(Pieces(i), 3);
  }

  lemma FlatFrom(ps: seq<seq<byte>>, k: nat)
    requires k < |ps|
    ensures Flat(ps[k..]) == ps[k] + Flat(ps[k + 1..])
  {
    assert ps[k..][1..] == ps[k + 1..];
  }

  lemma RecordIs(i: Info)
    ensures Flat(Pieces(i)) == Record(i) && |Record(i)| == SerializedLen(i)
  {
    var ps := Pieces(i);
    assert ps[0..] == ps;
    FlatFrom(ps, 0); FlatFrom(ps, 1); FlatFrom(ps, 2);
    TailIs(i);
  }

  lemma RecordLen(i: Info)
    ensures |Record(i)| == SerializedLen(i)
  {
  }

  lemma {:induction false} RecordsLen(xs: seq<Info>)
    ensures |Records(xs)| == Required(xs)
  {
    if xs != [] {
      RecordsLen(xs[..|xs| - 1]);
      RecordLen(xs[|xs| - 1]);
    }
  }

  // -------------------------------------------------------------------- writer

  method WritePiece(buf: array<byte>, offset: nat, piece: seq<byte>)
    requires offset + |piece| <= buf.Length
    modifies buf
    ensures buf[..] == old(buf[..])[..offset] + piece + old(buf[..])[offset + |piece|..]
  {
    forall k | 0 <= k < |piece| { buf[offset + k] := piece[k]; }
  }

  /** The next piece, after `done` bytes laid from `start` on over `was`. */
  method WriteAfter(buf: array<byte>, ghost was: seq<byte>, start: nat, ghost done: seq<byte>, next: nat,
      piece: seq<byte>)
    requires |was| == buf.Length && next == start + |done| && next + |piece| <= buf.Length
    requires buf[..] == was[..start] + done + was[next..]
    modifies buf
    ensures buf[..] == was[..start] + (done + piece) + was[next + |piece|..]
  {
    WritePiece(buf, next, piece);
  }

  /** Piece by piece, stopping at the first that does not fit. */
  method WritePieces(buf: array<byte>, start: nat, ps: seq<seq<byte>>) returns (ok: bool, next: nat)
    requires start <= buf.Length
    modifies buf
    ensures ok <==> start + |Flat(ps)| <= buf.Length
    ensures ok ==> next == start + |Flat(ps)| && buf[..] == old(buf[..])[..start] + Flat(ps) + old(buf[..])[next..]
    ensures !ok ==> buf[..start] == old(buf[..start])
  {
    ghost var was := buf[..];
    assert ps[..|ps|] == ps;
    next := start;
    var k := 0;
    while k < |ps|
      invariant k <= |ps| && next == start + |Flat(ps[..k])| <= buf.Length
      invariant buf[..] == was[..start] + Flat(ps[..k]) + was[next..]
    {
      FlatSnoc(ps, k);
      if next + |ps[k]| > buf.Length {
        FlatSplit(ps, k + 1);
        assert buf[..start] == buf[..][..start];
        return false, next;
      }
      WriteAfter(buf, was, start, Flat(ps[..k]), next, ps[k]);
      next := next + |ps[k]|;
      k := k + 1;
    }
    ok := true;
  }

  /** The pieces of one record after the bytes before them. */
  method AppendPieces(buf: array<byte>, start: nat, ghost before: seq<byte>, ps: seq<seq<byte>>)
    returns (ok: bool, next: nat)
    requires start <= buf.Length && buf[..start] == before
    modifies buf
    ensures ok <==> start + |Flat(ps)| <= buf.Length
    ensures ok ==> next == start + |Flat(ps)| && buf[..next] == before + Flat(ps)
    ensures !ok ==> buf[..start] == before
  {
    ghost var was := buf[..];
    assert was[..start] == before;
    ok, next := WritePieces(buf, start, ps);
    if ok { assert buf[..next] == buf[..][..next] == was[..start] + Flat(ps); }
  }

  lemma {:induction false} RequiredGrows(xs: seq<Info>, m: nat)
    requires m <= |xs|
    ensures Required(xs[..m]) <= Required(xs)
  {
    if m == |xs| {
      assert xs[..m] == xs;
    } else {
      RequiredGrows(xs[..|xs| - 1], m);
      assert xs[..|xs| - 1][..m] == xs[..m];
    }
  }

  lemma RequiredSnoc(xs: seq<Info>, k: nat)
    requires k < |xs|
    ensures Required(xs[..k + 1]) == Required(xs[..k]) + SerializedLen(xs[k])
    ensures Records(xs[..k + 1]) == Records(xs[..k]) + Record(xs[k]) && |Record(xs[k])| == SerializedLen(xs[k])
  {
    assert xs[..k + 1][..k] == xs[..k];
  }

  lemma CatSnoc<T>(enc: T -> seq<byte>, xs: seq<T>, k: nat)
    requires k < |xs|
    ensures Cat(enc, xs[..k + 1]) == Cat(enc, xs[..k]) + enc(xs[k])
  {
    assert xs[..k + 1][..k] == xs[..k];
  }

  /** As many whole lists of pieces as fit. */
  method WriteLists(buf: array<byte>, lists: seq<seq<seq<byte>>>) returns (written: nat)
    modifies buf
    ensures written <= |lists| && |Cat(Flat, lists[..written])| <= buf.Length
    ensures written < |lists| ==> |Cat(Flat, lists[..written + 1])| > buf.Length
    ensures buf[..|Cat(Flat, lists[..written])|] == Cat(Flat, lists[..written])
  {
    var offset := 0;
    written := 0;
    while written < |lists|
      invariant written <= |lists| && offset == |Cat(Flat, lists[..written])| <= buf.Length
      invariant buf[..offset] == Cat(Flat, lists[..written])
    {
      CatSnoc(Flat, lists, written);
      var ok, next := AppendPieces(buf, offset, Cat(Flat, lists[..written]), lists[written]);
      if !ok { return; }
      offset := next;
      written := written + 1;
    }
  }

  function AllPieces(xs: seq<Info>): (ls: seq<seq<seq<byte>>>)
    ensures |ls| == |xs| && forall k :: 0 <= k < |xs| ==> ls[k] == Pieces(xs[k])
  {
    seq(|xs|, k requires 0 <= k < |xs| => Pieces(xs[k]))
  }

  lemma {:induction false} CatAgree<A, B>(f: A -> seq<byte>, xs: seq<A>, g: B -> seq<byte>, ys: seq<B>)
    requires |xs| == |ys| && forall k :: 0 <= k < |xs| ==> f(xs[k]) == g(ys[k])
    ensures Cat(f, xs) == Cat(g, ys)
  {
    if xs != [] { CatAgree(f, xs[..|xs| - 1], g, ys[..|ys| - 1]); }
  }

  lemma PiecesAreRecords(xs: seq<Info>, k: nat)
    requires k <= |xs|
    ensures Cat(Flat, AllPieces(xs)[..k]) == Records(xs[..k]) && |Records(xs[..k])| == Required(xs[..k])
  {
    RecordsLen(xs[..k]);
    forall j | 0 <= j < k ensures Flat(AllPieces(xs)[..k][j]) == Record(xs[..k][j]) { RecordIs(xs[j]); }
    CatAgree(Flat, AllPieces(xs)[..k], Record, xs[..k]);
  }

  /** `write_endpoint_infos_to_buf`: as many whole records as fit. */
  method WriteInfos(xs: seq<Info>, buf: array<byte>) returns (written: nat)
    modifies buf
    ensures written <= |xs| && Required(xs[..written]) <= buf.Length
    ensures written < |xs| ==> Required(xs[..written + 1]) > buf.Length
    ensures buf[..Required(xs[..written])] == Records(xs[..written])
  {
    written := WriteLists(buf, AllPieces(xs));
    PiecesAreRecords(xs, written);
    if written < |xs| { PiecesAreRecords(xs, written + 1); }
  }

  /** `get_endpoint_info_impl`: status and count, in a buffer of the caller's size. */
  method GetEndpointInfo(xs: seq<Info>, buf: array<byte>) returns (status: int, count: nat)
    modifies buf
    ensures count == |xs|
    ensures status == if Required(xs) > buf.Length then -2 else 0
    ensures status == 0 ==> buf[..Required(xs)] == Records(xs)
    ensures status != 0 ==> buf[..] == old(buf[..])
  {
    var required, k := 0, 0;
    while k < |xs|
      invariant k <= |xs| && required == Required(xs[..k]) && buf[..] == old(buf[..])
    {
      RequiredSnoc(xs, k);
      required := required + SerializedLen(xs[k]);
      k := k + 1;
    }
    assert xs[..|xs|] == xs;
    if required > buf.Length { return -2, |xs|; }
    count := WriteInfos(xs, buf);
    if count < |xs| { RequiredGrows(xs, count + 1); }
    status := 0;
  }

  // -------------------------------------------------------------------- reader

  datatype Time = Time(sec: nat, nsec: nat)

  /** `RMW_DURATION_INFINITE` */
  const INFINITE := Time(9_223_372_036, 854_775_807)

  datatype EndpointView = EndpointView(
    names: Names, gid: seq<byte>,
    reliability: Reliability, durability: Durability, keepAll: bool, depth: nat, liveliness: Liveliness,
    lease: Time, deadline: Time, lifespan: Time)

  /** `memchr`: the first zero at or after `p`, or the end. */
  function ZeroFrom(b: seq<byte>, p: nat): (k: nat)
    requires p <= |b|
    ensures p <= k <= |b| && (k < |b| ==> b[k] == 0) && forall i :: p <= i < k ==> b[i] != 0
    decreases |b| - p
  {
    if p == |b| || b[p] == 0 then p else ZeroFrom(b, p + 1)
  }

  /** `axon_next_c_string`: the string and where the next field starts. */
  function NextString(b: seq<byte>, p: nat): (r: Option<(seq<byte>, nat)>)
    ensures r.Some? ==> p < r.value.1 <= |b|
  {
    if p >= |b| || ZeroFrom(b, p) == |b| then None
    else Some((b[p..ZeroFrom(b, p)], ZeroFrom(b, p) + 1))
  }

  function ReadTime(b: seq<byte>, p: nat): Time
    requires p + 12 <= |b|
  {
    if U(b, p, 8) == 0 && U(b, p + 8, 4) == 0 then INFINITE else Time(U(b, p, 8), U(b, p + 8, 4))
  }

  /** An `int32_t` stored into a 64-bit `size_t`. */
  function Widened(bits: nat): nat { if bits < 0x8000_0000 then bits else bits + 0xFFFF_FFFF_0000_0000 }

  function ReadLiveliness(n: nat): Liveliness {
    if n == 1 then ManualByTopic else if n == 2 then ManualByParticipant else Automatic
  }

  function ReadTail(b: seq<byte>, p: nat, n: Names): EndpointView
    requires p + 72 <= |b|
  {
    EndpointView(n, b[p..p + 16],
             if U(b, p + 16, 4) != 0 then Reliable else BestEffort,
             if U(b, p + 20, 4) != 0 then TransientLocal else Volatile,
             U(b, p + 24, 4) == 0, Widened(U(b, p + 28, 4)), ReadLiveliness(U(b, p + 32, 4)),
             ReadTime(b, p + 36), ReadTime(b, p + 48), ReadTime(b, p + 60))
  }

  datatype Names = Names(name: seq<byte>, ns: seq<byte>, topicType: seq<byte>)

  type StringReader = (seq<byte>, nat) -> Option<(seq<byte>, nat)>

  /** The three strings at the head of a record. */
  function ReadThree(str: StringReader, b: seq<byte>, p: nat): (r: Option<(Names, nat)>) {
    match str(b, p)
    case None => None
    case Some(a) =>
      match str(b, a.1)
      case None => None
      case Some(c) =>
        match str(b, c.1)
        case None => None
        case Some(d) => Some((Names(a.0, c.0, d.0), d.1))
  }

  function ReadNames(b: seq<byte>, p: nat): (r: Option<(Names, nat)>) { ReadThree(NextString, b, p) }

  /** One iteration of `fill_endpoint_info`. */
  function ReadRecord(b: seq<byte>, p: nat): (r: Option<(EndpointView, nat)>) {
    match ReadNames(b, p)
    case None => None
    case Some(n) => if n.1 + 72 > |b| then None else Some((ReadTail(b, n.1, n.0), n.1 + 72))
  }

  function ReadMany<T>(read: (seq<byte>, nat) -> Option<(T, nat)>, b: seq<byte>, p: nat,
      count: nat): (r: Option<seq<T>>)
    decreases count
  {
    if count == 0 then Some([])
    else
      match read(b, p)
      case None => None
      case Some(e) =>
        match ReadMany(read, b, e.1, count - 1)
        case None => None
        case Some(rest) => Some([e.0] + rest)
  }

  // --------------------------------------------------------- what should arrive

  predicate NulFree(s: seq<byte>) { forall k :: 0 <= k < |s| ==> s[k] != 0 }

  function TimeOf(d: Option<Duration>): Time { if d.None? then INFINITE else Time(d.value.secs, d.value.nanos) }

  function DepthOf(h: History): nat { if h.KeepAll? then 0 else h.depth }

  function Expected(i: Info): EndpointView {
    EndpointView(Names(i.name, i.ns, i.topicType), i.gid, i.qos.reliability, i.qos.durability,
                 i.qos.history.KeepAll?, DepthOf(i.qos.history),
                 i.qos.liveliness, TimeOf(i.qos.lease), TimeOf(i.qos.deadline), TimeOf(i.qos.lifespan))
  }

  predicate DurationSurvives(d: Option<Duration>) { d != Some(Duration(0, 0)) }

  /** Depths below 2^31, and those that sign extension restores. */
  predicate DepthSurvives(h: History) {
    h.KeepLast? ==> h.depth < 0x8000_0000 || 0xFFFF_FFFF_8000_0000 <= h.depth < 0x1_0000_0000_0000_0000
  }

  predicate QosSurvives(q: Profile) {
    && DepthSurvives(q.history) && q.liveliness != Unknown
    && DurationSurvives(q.lease) && DurationSurvives(q.deadline) && DurationSurvives(q.lifespan)
  }

  predicate Survives(i: Info) { NulFree(i.name) && NulFree(i.ns) && NulFree(i.topicType) && QosSurvives(i.qos) }

  // ---------------------------------------------------------------- round trip

  lemma {:induction false} ZeroFromIs(b: seq<byte>, p: nat, k: nat)
    requires p <= k < |b| && b[k] == 0 && forall i :: p <= i < k ==> b[i] != 0
    ensures ZeroFrom(b, p) == k
  {
  }

  lemma ZeroFromAtMost(b: seq<byte>, p: nat, k: nat)
    requires p <= k < |b| && b[k] == 0
    ensures ZeroFrom(b, p) <= k
  {
  }

  lemma HasAt(b: seq<byte>, p: nat, e: seq<byte>, k: nat)
    requires Has(b, p, e) && k < |e|
    ensures b[p + k] == e[k]
  {
    assert b[p..p + |e|][k] == b[p + k];
  }

  /** A string is read back exactly when it holds no zero byte. */
  lemma StringReads(b: seq<byte>, p: nat, s: seq<byte>)
    requires Has(b, p, s + [0])
    ensures StringAt(NextString, b, p, s, p + |s| + 1, NulFree(s))
  {
    HasAt(b, p, s + [0], |s|);
    ZeroFromAtMost(b, p, p + |s|);
    if !NulFree(s) {
      var k :| 0 <= k < |s| && s[k] == 0;
      HasAt(b, p, s + [0], k);
      ZeroFromAtMost(b, p, p + k);
    } else {
      forall i | p <= i < p + |s| ensures b[i] != 0 { HasAt(b, p, s + [0], i - p); }
      ZeroFromIs(b, p, p + |s|);
      HasSplit(b, p, s, [0]);
    }
  }

  lemma TimeReads(b: seq<byte>, p: nat, d: Option<Duration>)
    requires Has(b, p, TimeBytes(d))
    ensures ReadTime(b, p) == TimeOf(d) <==> DurationSurvives(d)
  {
    Pow256Widths();
    TakeInt(b, p, Seconds(d), 8, ToLe(Nanoseconds(d), 4));
    UReads(b, p + 8, Nanoseconds(d), 4);
  }

  lemma DepthReads(h: History)
    ensures Widened(DepthBits(h)) == DepthOf(h) <==> DepthSurvives(h)
  {
  }

  lemma TimesReadBack(b: seq<byte>, p: nat, q: Profile)
    requires Has(b, p, TimesBytes(q))
    ensures ReadTime(b, p) == TimeOf(q.lease) <==> DurationSurvives(q.lease)
    ensures ReadTime(b, p + 12) == TimeOf(q.deadline) <==> DurationSurvives(q.deadline)
    ensures ReadTime(b, p + 24) == TimeOf(q.lifespan) <==> DurationSurvives(q.lifespan)
  {
    HasSplit(b, p, TimeBytes(q.lease), TimeBytes(q.deadline) + TimeBytes(q.lifespan));
    HasSplit(b, p + 12, TimeBytes(q.deadline), TimeBytes(q.lifespan));
    TimeReads(b, p, q.lease);
    TimeReads(b, p + 12, q.deadline);
    TimeReads(b, p + 24, q.lifespan);
  }

  /** Everything from the history code on. */
  function TimesBytes(q: Profile): seq<byte> {
    TimeBytes(q.lease) + (TimeBytes(q.deadline) + TimeBytes(q.lifespan))
  }

  function LastCodes(q: Profile): (b: seq<byte>) {
    ToLe(Code(q.history.KeepLast?), 4)
        + (ToLe(DepthBits(q.history), 4) + (ToLe(LivelinessCode(q.liveliness), 4) + TimesBytes(q)))
  }

  lemma HistoryRead(b: seq<byte>, p: nat, q: Profile)
    requires Has(b, p, LastCodes(q))
    ensures U(b, p, 4) == Code(q.history.KeepLast?) && U(b, p + 4, 4) == DepthBits(q.history)
    ensures Has(b, p + 8, ToLe(LivelinessCode(q.liveliness), 4) + TimesBytes(q))
  {
    Pow256Widths();
    var t5 := ToLe(LivelinessCode(q.liveliness), 4) + TimesBytes(q);
    TakeInt(b, p, Code(q.history.KeepLast?), 4, ToLe(DepthBits(q.history), 4) + t5);
    TakeInt(b, p + 4, DepthBits(q.history), 4, t5);
  }

  lemma LastCodesRead(b: seq<byte>, p: nat, q: Profile)
    requires Has(b, p, LastCodes(q))
    ensures U(b, p, 4) == Code(q.history.KeepLast?) && U(b, p + 4, 4) == DepthBits(q.history)
    ensures U(b, p + 8, 4) == LivelinessCode(q.liveliness)
    ensures Has(b, p + 12, TimesBytes(q))
  {
    Pow256Widths();
    HistoryRead(b, p, q);
    TakeInt(b, p + 8, LivelinessCode(q.liveliness), 4, TimesBytes(q));
  }

  lemma CodeFits(b: bool)
    ensures Code(b) < Pow256(4)
  {
    Pow256Widths();
  }

  function FirstCodes(q: Profile): (b: seq<byte>) {
    ToLe(Code(q.reliability == Reliable), 4) + (ToLe(Code(q.durability == TransientLocal), 4) + LastCodes(q))
  }

  lemma PolicyRead(b: seq<byte>, p: nat, q: Profile)
    requires Has(b, p, FirstCodes(q))
    ensures U(b, p, 4) == Code(q.reliability == Reliable) && U(b, p + 4, 4) == Code(q.durability == TransientLocal)
    ensures Has(b, p + 8, LastCodes(q))
  {
    CodeFits(q.reliability == Reliable);
    CodeFits(q.durability == TransientLocal);
    TakeInt(b, p, Code(q.reliability == Reliable), 4, ToLe(Code(q.durability == TransientLocal), 4) + LastCodes(q));
    TakeInt(b, p + 4, Code(q.durability == TransientLocal), 4, LastCodes(q));
  }

  lemma FirstCodesRead(b: seq<byte>, p: nat, i: Info)
    requires Has(b, p, Tail(i))
    ensures b[p..p + 16] == i.gid && U(b, p + 16, 4) == Code(i.qos.reliability == Reliable)
    ensures U(b, p + 20, 4) == Code(i.qos.durability == TransientLocal) && Has(b, p + 24, LastCodes(i.qos))
  {
    HasSplit(b, p, i.gid, FirstCodes(i.qos));
    PolicyRead(b, p + 16, i.qos);
  }

  lemma TailReads(b: seq<byte>, p: nat, i: Info)
    requires Has(b, p, Tail(i))
    ensures ReadTail(b, p, Names(i.name, i.ns, i.topicType)) == Expected(i) <==> QosSurvives(i.qos)
  {
    FirstCodesRead(b, p, i);
    LastCodesRead(b, p + 24, i.qos);
    DepthReads(i.qos.history);
    TimesReadBack(b, p + 36, i.qos);
  }

  predicate Clean(n: Names) { NulFree(n.name) && NulFree(n.ns) && NulFree(n.topicType) }

  /** `s` is read at `p` exactly when good, and then the next field is at `next`. */
  predicate StringAt(str: StringReader, b: seq<byte>, p: nat, s: seq<byte>, next: nat, good: bool) {
    if good then str(b, p) == Some((s, next)) else str(b, p).Some? && str(b, p).value.0 != s
  }

  lemma ThreeRead(str: StringReader, b: seq<byte>, n: Names, p: nat, p1: nat, p2: nat, p3: nat, g1: bool, g2: bool,
      g3: bool)
    requires StringAt(str, b, p, n.name, p1, g1)
    requires g1 ==> StringAt(str, b, p1, n.ns, p2, g2)
    requires g1 && g2 ==> StringAt(str, b, p2, n.topicType, p3, g3)
    ensures if g1 && g2 && g3 then ReadThree(str, b, p) == Some((n, p3))
            else ReadThree(str, b, p).Some? ==> ReadThree(str, b, p).value.0 != n
  {
  }

  lemma NamesHave(b: seq<byte>, p: nat, n: Names, tail: seq<byte>)
    requires Has(b, p, (n.name + [0]) + ((n.ns + [0]) + ((n.topicType + [0]) + tail)))
    ensures Has(b, p, n.name + [0]) && Has(b, p + |n.name| + 1, n.ns + [0])
    ensures Has(b, p + |n.name| + 1 + |n.ns| + 1, n.topicType + [0])
    ensures Has(b, p + |n.name| + 1 + |n.ns| + 1 + |n.topicType| + 1, tail)
  {
    var f2 := (n.topicType + [0]) + tail;
    HasSplit(b, p, n.name + [0], (n.ns + [0]) + f2);
    HasSplit(b, p + |n.name| + 1, n.ns + [0], f2);
    HasSplit(b, p + |n.name| + 1 + |n.ns| + 1, n.topicType + [0], tail);
  }

  /** The three strings are read back exactly when none holds a zero byte, and then
      the tail follows. */
  lemma NamesRead(b: seq<byte>, p: nat, n: Names, tail: seq<byte>)
    requires Has(b, p, (n.name + [0]) + ((n.ns + [0]) + ((n.topicType + [0]) + tail)))
    ensures var q := p + |n.name| + 1 + |n.ns| + 1 + |n.topicType| + 1;
            && Has(b, q, tail)
            && if Clean(n) then ReadNames(b, p) == Some((n, q))
               else ReadNames(b, p).Some? ==> ReadNames(b, p).value.0 != n
  {
    var p1 := p + |n.name| + 1;
    var p2 := p1 + |n.ns| + 1;
    var p3 := p2 + |n.topicType| + 1;
    NamesHave(b, p, n, tail);
    assert StringAt(NextString, b, p, n.name, p1, NulFree(n.name)) by { StringReads(b, p, n.name); }
    assert StringAt(NextString, b, p1, n.ns, p2, NulFree(n.ns)) by { StringReads(b, p1, n.ns); }
    assert StringAt(NextString, b, p2, n.topicType, p3, NulFree(n.topicType)) by { StringReads(b, p2, n.topicType); }
    ThreeRead(NextString, b, n, p, p1, p2, p3, NulFree(n.name), NulFree(n.ns), NulFree(n.topicType));
  }

  lemma ReadBy(b: seq<byte>, p: nat, n: Names, q: nat, want: EndpointView, good: bool)
    requires q + 72 <= |b| && want.names == n && (ReadTail(b, q, n) == want <==> good)
    requires if Clean(n) then ReadNames(b, p) == Some((n, q))
             else ReadNames(b, p).Some? ==> ReadNames(b, p).value.0 != n
    ensures ReadRecord(b, p).Some? && ReadRecord(b, p).value.0 == want <==> Clean(n) && good
    ensures Clean(n) ==> ReadRecord(b, p).Some? && ReadRecord(b, p).value.1 == q + 72
  {
  }

  lemma ReadAround(b: seq<byte>, p: nat, n: Names, tail: seq<byte>, q: nat, want: EndpointView, good: bool)
    requires |tail| == 72 && Has(b, p, (n.name + [0]) + ((n.ns + [0]) + ((n.topicType + [0]) + tail)))
    requires q == p + |n.name| + 1 + |n.ns| + 1 + |n.topicType| + 1 && q + 72 <= |b|
    requires want.names == n && (ReadTail(b, q, n) == want <==> good)
    ensures ReadRecord(b, p).Some? && ReadRecord(b, p).value.0 == want <==> Clean(n) && good
    ensures Clean(n) ==> ReadRecord(b, p).Some? && ReadRecord(b, p).value.1 == q + 72
  {
    NamesRead(b, p, n, tail);
    ReadBy(b, p, n, q, want, good);
  }

  function TailStart(p: nat, i: Info): nat { p + |i.name| + 1 + |i.ns| + 1 + |i.topicType| + 1 }

  lemma TailOfRecord(b: seq<byte>, p: nat, i: Info)
    requires Has(b, p, Record(i))
    ensures TailStart(p, i) + 72 <= |b|
    ensures ReadTail(b, TailStart(p, i), Names(i.name, i.ns, i.topicType)) == Expected(i) <==> QosSurvives(i.qos)
  {
    NamesHave(b, p, Names(i.name, i.ns, i.topicType), Tail(i));
    TailReads(b, TailStart(p, i), i);
  }

  /** A record read back shows the endpoint written exactly when its strings hold no
      zero byte, its depth survives the 32-bit field, no duration is zero and the
      liveliness is known; the next record is then found where it starts. */
  lemma RecordReadsIff(b: seq<byte>, p: nat, i: Info)
    requires Has(b, p, Record(i))
    ensures ReadRecord(b, p).Some? && ReadRecord(b, p).value.0 == Expected(i) <==> Survives(i)
    ensures Survives(i) ==> ReadRecord(b, p).value.1 == p + SerializedLen(i)
  {
    TailOfRecord(b, p, i);
    ReadAround(b, p, Names(i.name, i.ns, i.topicType), Tail(i), TailStart(p, i), Expected(i), QosSurvives(i.qos));
  }

  function AllExpected(xs: seq<Info>): (es: seq<EndpointView>)
    ensures |es| == |xs| && forall k :: 0 <= k < |xs| ==> es[k] == Expected(xs[k])
  {
    seq(|xs|, k requires 0 <= k < |xs| => Expected(xs[k]))
  }

  predicate GoodFrom(good: seq<bool>, k: nat) { forall j :: k <= j < |good| ==> good[j] }

  /** A record at its place: read right exactly when good, and then followed by the next. */
  predicate Placed<T(==)>(read: (seq<byte>, nat) -> Option<(T, nat)>, b: seq<byte>, p: nat, next: nat, x: T,
      good: bool) {
    && (read(b, p).Some? && read(b, p).value.0 == x <==> good)
    && (good ==> read(b, p).value.1 == next)
  }

  lemma ConsSome<T>(x: T, y: T, xs: seq<T>, ys: seq<T>)
    ensures [x] + xs == [y] + ys <==> x == y && xs == ys
  {
    if [x] + xs == [y] + ys {
      assert ([x] + xs)[0] == x && ([y] + ys)[0] == y;
      assert ([x] + xs)[1..] == xs && ([y] + ys)[1..] == ys;
    }
  }

  lemma OneMoreReadIff<T>(
      read: (seq<byte>, nat) -> Option<(T, nat)>, b: seq<byte>, p: nat, next: nat, x: T, good: bool, xs: seq<T>)
    requires Placed(read, b, p, next, x, good)
    ensures ReadMany(read, b, p, |xs| + 1) == Some([x] + xs) <==> good && ReadMany(read, b, next, |xs|) == Some(xs)
  {
    if read(b, p).Some? {
      var e := read(b, p).value;
      var rest := ReadMany(read, b, e.1, |xs|);
      if rest.Some? { ConsSome(e.0, x, rest.value, xs); }
    }
  }

  lemma {:induction false} ManyReadIff<T>(
      read: (seq<byte>, nat) -> Option<(T, nat)>, b: seq<byte>, at: seq<nat>, xs: seq<T>, good: seq<bool>, k: nat)
    requires |at| == |xs| + 1 && |good| == |xs| && k <= |xs|
    requires forall j :: 0 <= j < |xs| ==> Placed(read, b, at[j], at[j + 1], xs[j], good[j])
    ensures ReadMany(read, b, at[k], |xs| - k) == Some(xs[k..]) <==> GoodFrom(good, k)
    decreases |xs| - k
  {
    if k < |xs| {
      OneMoreReadIff(read, b, at[k], at[k + 1], xs[k], good[k], xs[k + 1..]);
      assert xs[k..] == [xs[k]] + xs[k + 1..];
      ManyReadIff(read, b, at, xs, good, k + 1);
      assert GoodFrom(good, k) <==> good[k] && GoodFrom(good, k + 1);
    }
  }

  predicate AllSurvive(xs: seq<Info>) { forall k :: 0 <= k < |xs| ==> Survives(xs[k]) }

  lemma RecordPlaced(b: seq<byte>, xs: seq<Info>, k: nat)
    requires Has(b, 0, Records(xs)) && k < |xs|
    ensures Placed(ReadRecord, b, Required(xs[..k]), Required(xs[..k + 1]), Expected(xs[k]), Survives(xs[k]))
  {
    CatAt(Record, b, xs, k);
    RecordsLen(xs[..k]);
    RequiredSnoc(xs, k);
    RecordReadsIff(b, Required(xs[..k]), xs[k]);
  }

  lemma AllReadIff(read: (seq<byte>, nat) -> Option<(EndpointView, nat)>, b: seq<byte>, xs: seq<Info>)
    requires forall k :: 0 <= k < |xs| ==>
               Placed(read, b, Required(xs[..k]), Required(xs[..k + 1]), Expected(xs[k]), Survives(xs[k]))
    ensures ReadMany(read, b, 0, |xs|) == Some(AllExpected(xs)) <==> AllSurvive(xs)
  {
    var at := seq(|xs| + 1, k requires 0 <= k <= |xs| => Required(xs[..k]));
    var good := seq(|xs|, k requires 0 <= k < |xs| => Survives(xs[k]));
    ManyReadIff(read, b, at, AllExpected(xs), good, 0);
    assert AllExpected(xs)[0..] == AllExpected(xs) && at[0] == 0;
    GoodIsSurvival(xs, good);
  }

  lemma GoodIsSurvival(xs: seq<Info>, good: seq<bool>)
    requires |good| == |xs| && forall k :: 0 <= k < |xs| ==> good[k] == Survives(xs[k])
    ensures GoodFrom(good, 0) <==> AllSurvive(xs)
  {
    if GoodFrom(good, 0) {
      forall k | 0 <= k < |xs| ensures Survives(xs[k]) { assert good[k]; }
    }
    if AllSurvive(xs) {
      forall j | 0 <= j < |good| ensures good[j] { assert Survives(xs[j]); }
    }
  }

  /** All records arrive exactly when each of them survives. */
  lemma RecordsReadIff(b: seq<byte>, xs: seq<Info>)
    requires Has(b, 0, Records(xs))
    ensures ReadMany(ReadRecord, b, 0, |xs|) == Some(AllExpected(xs)) <==> AllSurvive(xs)
  {
    forall k | 0 <= k < |xs|
      ensures Placed(ReadRecord, b, Required(xs[..k]), Required(xs[..k + 1]), Expected(xs[k]), Survives(xs[k]))
    {
      RecordPlaced(b, xs, k);
    }
    AllReadIff(ReadRecord, b, xs);
  }

  // ---------------------------------------------------- across the C boundary

  function Prepend<T>(out: seq<T>, r: Option<seq<T>>): Option<seq<T>> {
    if r.None? then None else Some(out + r.value)
  }

  lemma PrependStep<T>(out: seq<T>, e: T, r: Option<seq<T>>)
    ensures Prepend(out, Prepend([e], r)) == Prepend(out + [e], r)
  {
    if r.Some? { assert out + ([e] + r.value) == out + [e] + r.value; }
  }

  /** The reading loop. */
  method ReadLoop<T>(read: (seq<byte>, nat) -> Option<(T, nat)>, b: seq<byte>, count: nat) returns (r: Option<seq<T>>)
    ensures r == ReadMany(read, b, 0, count)
  {
    var out, p, k := [], 0, 0;
    ghost var all := ReadMany(read, b, 0, count);
    assert all.Some? ==> [] + all.value == all.value;
    while k < count
      invariant k <= count && all == Prepend(out, ReadMany(read, b, p, count - k))
    {
      var e := read(b, p);
      if e.None? { return None; }
      PrependStep(out, e.value.0, ReadMany(read, b, e.value.1, count - k - 1));
      out, p, k := out + [e.value.0], e.value.1, k + 1;
    }
    assert out + [] == out;
    r := Some(out);
  }

  const FIRST_CAPACITY: nat := 65536
  const MAX_CAPACITY: nat := 16 * 1024 * 1024

  /** `fill_endpoint_info`: retry with a doubled buffer up to 16 MiB, then read. The
      outcome is right for every list that fits and survives, and an error for every
      list that does not fit. */
  method FillEndpointInfo(xs: seq<Info>) returns (r: Option<seq<EndpointView>>)
    ensures Required(xs) > MAX_CAPACITY ==> r == None
    ensures Required(xs) <= MAX_CAPACITY ==> (r == Some(AllExpected(xs)) <==> AllSurvive(xs))
  {
    var capacity := FIRST_CAPACITY;
    while capacity <= MAX_CAPACITY
      invariant capacity in {65536, 131072, 262144, 524288, 1048576, 2097152, 4194304, 8388608, 16777216, 33554432}
      invariant capacity > FIRST_CAPACITY ==> Required(xs) > capacity / 2
      decreases 33554432 - capacity
    {
      var buf := new byte[capacity](_ => 0);
      var status, count := GetEndpointInfo(xs, buf);
      if status == 0 {
        ghost var n := Required(xs);
        RecordsLen(xs);
        assert buf[..][0..n] == buf[..n];
        RecordsReadIff(buf[..], xs);
        r := ReadLoop(ReadRecord, buf[..], count);
        return;
      }
      capacity := capacity * 2;
    }
    r := None;
  }
}
