/** Where each field of the graph sync messages stands, byte by byte: what a peer written in
    another language has to read and write (`peer_sync.rs`). */
module WireLayout {
  import opened Bytes
  import opened Codec
  import opened SyncCodec

  /** `k` bytes at `off` are the digits of `n` to the base 256, low end first. */
  predicate Le(b: seq<byte>, off: nat, k: nat, n: nat) {
    off + k <= |b| && forall i: nat :: i < k ==> Digit(b, off, n, i)
  }

  /** Byte `i` of the field is digit `i` of `n`. */
  predicate Digit(b: seq<byte>, off: nat, n: nat, i: nat)
    requires off + i < |b|
  {
    b[off + i] == n / Pow256(i) % 256
  }

  lemma FieldIs(b: seq<byte>, off: nat, k: nat)
    requires off + k <= |b|
    ensures Le(b, off, k, U(b, off, k))
  {
    LeCanonical(b[off..off + k]);
    forall i: nat | i < k ensures Digit(b, off, U(b, off, k), i) {
      LeDigit(U(b, off, k), k, i);
      assert b[off..off + k][i] == b[off + i];
    }
  }

  lemma LeAt(b: seq<byte>, off: nat, n: nat, k: nat, rest: seq<byte>)
    requires Has(b, off, ToLe(n, k) + rest) && n < Pow256(k)
    ensures Le(b, off, k, n) && Has(b, off + k, rest)
  {
    TakeInt(b, off, n, k, rest);
    FieldIs(b, off, k);
  }

  /** A string: its length in two bytes, then its bytes. */
  predicate StrAt(b: seq<byte>, off: nat, s: seq<byte>) {
    Le(b, off, 2, |s|) && off + 2 + |s| <= |b| && b[off + 2..off + 2 + |s|] == s
  }

  lemma StringLayout(b: seq<byte>, off: nat, s: seq<byte>)
    requires Has(b, off, EncStr(s)) && StringFits(s)
    ensures StrAt(b, off, s)
  {
    Pow256Widths();
    LeAt(b, off, |s|, 2, s);
  }

  predicate HeadIs(b: seq<byte>, off: nat, h: TopicHead) {
    && Le(b, off, 8, h.hash) && Le(b, off + 8, 8, h.typeHash) && off + 48 <= |b|
    && b[off + 16] == h.reliability && b[off + 17] == h.durability && b[off + 18] == h.historyKind
    && Le(b, off + 19, 4, if h.historyDepth < 0 then h.historyDepth + 0x1_0000_0000 else h.historyDepth)
    && Le(b, off + 23, 4, h.deadlineSec) && Le(b, off + 27, 4, h.deadlineNsec)
    && Le(b, off + 31, 4, h.lifespanSec) && Le(b, off + 35, 4, h.lifespanNsec)
    && b[off + 39] == h.liveliness && Le(b, off + 40, 4, h.leaseSec) && Le(b, off + 44, 4, h.leaseNsec)
  }

  /** Hashes and QoS of a topic take 48 bytes. */
  lemma HeadLayout(b: seq<byte>, off: nat, h: TopicHead)
    requires Has(b, off, EncHead(h))
    ensures HeadIs(b, off, h)
  {
    HeadReads(b, off, h);
    FieldIs(b, off, 8);
    FieldIs(b, off + 8, 8);
    FieldIs(b, off + 19, 4);
    FieldIs(b, off + 23, 4);
    FieldIs(b, off + 27, 4);
    FieldIs(b, off + 31, 4);
    FieldIs(b, off + 35, 4);
    FieldIs(b, off + 40, 4);
    FieldIs(b, off + 44, 4);
  }

  predicate EndpointIs(b: seq<byte>, off: nat, port: u16, addrs: seq<Addr>) {
    && Le(b, off, 2, port) && Le(b, off + 2, 4, |addrs|) && off + 6 + 4 * |addrs| <= |b|
    && forall i: nat :: i < |addrs| ==>
         addrs[i] == Addr(b[off + 6 + 4 * i], b[off + 7 + 4 * i], b[off + 8 + 4 * i], b[off + 9 + 4 * i])
  }

  lemma {:induction false} AddrAt(b: seq<byte>, off: nat, addrs: seq<Addr>, i: nat)
    requires Has(b, off, EncAddrs(addrs)) && i < |addrs|
    ensures off + 4 * |addrs| <= |b|
    ensures addrs[i] == Addr(b[off + 4 * i], b[off + 4 * i + 1], b[off + 4 * i + 2], b[off + 4 * i + 3])
    decreases |addrs|
  {
    HasSplit(b, off, EncAddr(addrs[0]), EncAddrs(addrs[1..]));
    if i > 0 {
      AddrAt(b, off + 4, addrs[1..], i - 1);
    } else {
      var first := b[off..off + 4];
      assert first == EncAddr(addrs[0]);
      assert first[0] == b[off] && first[1] == b[off + 1] && first[2] == b[off + 2] && first[3] == b[off + 3];
    }
  }

  /** Port, address count, and four bytes an address. */
  lemma EndpointLayout(b: seq<byte>, off: nat, port: u16, addrs: seq<Addr>)
    requires Has(b, off, EncEndpoint(Endpoint(port, addrs))) && |addrs| <= U32_MAX
    ensures EndpointIs(b, off, port, addrs)
  {
    Pow256Widths();
    LeAt(b, off, port, 2, ToLe(|addrs|, 4) + EncAddrs(addrs));
    LeAt(b, off + 2, |addrs|, 4, EncAddrs(addrs));
    forall i: nat | i < |addrs|
      ensures addrs[i] == Addr(b[off + 6 + 4 * i], b[off + 7 + 4 * i], b[off + 8 + 4 * i], b[off + 9 + 4 * i])
    {
      AddrAt(b, off + 6, addrs, i);
    }
  }

  lemma Associate(a: seq<byte>, c: seq<byte>, d: seq<byte>)
    ensures (a + c) + d == a + (c + d)
  {
  }

  /** A response: tag 2, domain, node count, then the nodes one after the other. */
  lemma ResponseLayout(b: seq<byte>, off: nat, domain: u32, nodes: seq<NodeInfo>)
    requires Has(b, off, EncodeResponse(domain, nodes)) && |nodes| <= U32_MAX
    ensures off + 9 <= |b| && b[off] == 2 && Le(b, off + 1, 4, domain) && Le(b, off + 5, 4, |nodes|)
    ensures Has(b, off + 9, EncAll(NODE.enc, nodes))
  {
    Pow256Widths();
    var body := EncList(NODE, nodes);
    assert EncodeResponse(domain, nodes) == EncPreamble(domain) + body;
    Associate([MSG_SYNC_RESPONSE], ToLe(domain, 4), body);
    TakeByte(b, off, MSG_SYNC_RESPONSE, ToLe(domain, 4) + body);
    LeAt(b, off + 1, domain, 4, body);
    LeAt(b, off + 5, |nodes|, 4, EncAll(NODE.enc, nodes));
  }

  /** A push: tag 1, domain, daemon id, then a whole response; its first five bytes are a
      plain request. */
  lemma PushLayout(domain: u32, daemonId: u64, nodes: seq<NodeInfo>)
    requires |nodes| <= U32_MAX
    ensures var b := EncodePush(domain, daemonId, nodes);
            && |b| >= 22 && b[0] == 1 && Le(b, 1, 4, domain) && Le(b, 5, 8, daemonId)
            && b[13] == 2 && Le(b, 14, 4, domain) && Le(b, 18, 4, |nodes|) && Has(b, 22, EncAll(NODE.enc, nodes))
            && b[..5] == EncodeRequest(domain)
  {
    Pow256Widths();
    var b, e := EncodePush(domain, daemonId, nodes), EncodeResponse(domain, nodes);
    assert b[0..|b|] == b;
    Associate([MSG_SYNC_REQUEST], ToLe(domain, 4), ToLe(daemonId, 8) + e);
    TakeByte(b, 0, MSG_SYNC_REQUEST, ToLe(domain, 4) + (ToLe(daemonId, 8) + e));
    LeAt(b, 1, domain, 4, ToLe(daemonId, 8) + e);
    LeAt(b, 5, daemonId, 8, e);
    ResponseLayout(b, 13, domain, nodes);
  }
}
