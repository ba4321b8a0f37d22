/** `RingBuffer` call by call: a byte array of fixed-stride slots that refines
    a bounded log. */
module ByteRing {
  import opened Bytes
  import opened RingErrors
  import opened Wrappers

  const MAX_RING_SLOTS: nat := 4096
  const SLOT_LEN_OFFSET: nat := 8
  const SLOT_DATA_OFFSET: nat := 16

  datatype Result<T, E> = Ok(value: T) | Err(error: E)
  datatype WriteError = TooLarge
  datatype CreateError = SizeOverflow | StorageFull

  // --------------------------------------------------------------- geometry

  /** Header plus payload, rounded up to eight bytes. */
  function StrideForPayload(payload: u32): (r: Result<nat, CreateError>)
    ensures r.Ok? ==> r.value % 8 == 0 && payload + SLOT_DATA_OFFSET <= r.value < payload + SLOT_DATA_OFFSET + 8
    ensures r.Err? <==> payload + SLOT_DATA_OFFSET + 7 - (payload + SLOT_DATA_OFFSET + 7) % 8 > U32_MAX
  {
    var raw := payload + SLOT_DATA_OFFSET;
    var aligned := raw + 7 - (raw + 7) % 8;
    if aligned > U32_MAX then Err(SizeOverflow) else Ok(aligned)
  }

  function Clamp(x: nat, lo: nat, hi: nat): nat
    requires lo <= hi
  {
    if x < lo then lo else if x > hi then hi else x
  }

  function Halve(sc: nat, k: nat): nat { if k == 0 then sc else Halve(sc / 2, k - 1) }

  lemma {:induction false} HalveStep(sc: nat, k: nat)
    ensures Halve(sc, k + 1) == Halve(sc, k) / 2
    decreases k
  {
    if k > 0 { HalveStep(sc / 2, k - 1); }
  }

  /** Slot count after the memory limits but before the allocation attempts. */
  function ClampedSlots(requested: nat, stride: nat, maxBytes: nat, avail: Option<nat>): (sc: nat)
    requires stride > 0
    ensures 1 <= sc <= MAX_RING_SLOTS
  {
    var maxSlots := Clamp(maxBytes / stride, 1, MAX_RING_SLOTS);
    var sc := if requested < maxSlots then requested else maxSlots;
    var byShm := if avail.Some? then avail.value / stride else 0;
    var sc' := if 0 < byShm < sc then byShm else sc;
    if sc' < 1 then 1 else sc'
  }

  /** Slots within the request, the limit of 4096, the byte limit and, if at least one slot
      fits there, the space reported available. */
  predicate WithinLimits(n: nat, requested: nat, stride: nat, maxBytes: nat, avail: Option<nat>) {
    && n <= requested && n <= 4096 && n * stride <= maxBytes
    && (avail.Some? && avail.value >= stride ==> n * stride <= avail.value)
  }

  lemma AtMostQuotient(n: nat, d: nat, total: nat)
    requires d > 0
    ensures n * d <= total <==> n <= total / d
  {
    if n <= total / d {
      assert n * d <= total / d * d;
    } else {
      assert n * d >= (total / d + 1) * d;
    }
  }

  /** The attempts start from the largest number of slots within the limits, or one. */
  lemma ClampedIsLargest(requested: nat, stride: nat, maxBytes: nat, avail: Option<nat>, n: nat)
    requires stride > 0
    ensures var sc := ClampedSlots(requested, stride, maxBytes, avail);
            && (sc > 1 ==> WithinLimits(sc, requested, stride, maxBytes, avail))
            && (WithinLimits(n, requested, stride, maxBytes, avail) ==> n <= sc)
  {
    var sc := ClampedSlots(requested, stride, maxBytes, avail);
    AtMostQuotient(n, stride, maxBytes);
    AtMostQuotient(sc, stride, maxBytes);
    AtMostQuotient(1, stride, maxBytes);
    if avail.Some? {
      AtMostQuotient(n, stride, avail.value);
      AtMostQuotient(sc, stride, avail.value);
      AtMostQuotient(1, stride, avail.value);
    }
  }

  /** What `fallocate` answers. */
  datatype Allocation = Done | NoSpace | Refused

  /** `fallocate` is the outside oracle `alloc`: the loop halves the request while there
      is no space, and fails when one slot has none or at once on any other error. */
  method ChooseSlotCount(requested: nat, stride: nat, maxBytes: nat, avail: Option<nat>, headerSize: nat,
                         alloc: nat -> Allocation)
    returns (r: Result<nat, CreateError>)
    requires stride > 0
    ensures var first := ClampedSlots(requested, stride, maxBytes, avail);
            exists k: nat ::
              && Halve(first, k) >= 1
              && (forall m: nat :: m < k ==> alloc(headerSize + Halve(first, m) * stride) == NoSpace)
              && var last := alloc(headerSize + Halve(first, k) * stride);
                 if last == Done then r == Ok(Halve(first, k))
                 else r.Err? && (last == NoSpace ==> Halve(first, k) == 1)
  {
    var sc := ClampedSlots(requested, stride, maxBytes, avail);
    ghost var first, k: nat := sc, 0;
    while true
      invariant sc == Halve(first, k) >= 1
      invariant forall m: nat :: m < k ==> alloc(headerSize + Halve(first, m) * stride) == NoSpace
      decreases sc
    {
      var answer := alloc(headerSize + sc * stride);
      if answer == Done { return Ok(sc); }
      if answer != NoSpace || sc <= 1 { return Err(StorageFull); }
      HalveStep(first, k);
      sc := sc / 2;
      k := k + 1;
    }
  }

  // ------------------------------------------------------------------ slots

  /** Where slot `j` starts. */
  function Off(j: nat, stride: nat): nat { if j == 0 then 0 else Off(j - 1, stride) + stride }

  lemma {:induction false} OffIsProduct(j: nat, stride: nat)
    ensures Off(j, stride) == j * stride
  {
    if j > 0 { OffIsProduct(j - 1, stride); }
  }

  /** Different slots share no byte; with `k` the slot count, slots are in bounds. */
  lemma {:induction false} SlotsDisjoint(j: nat, k: nat, stride: nat)
    requires j < k
    ensures Off(j, stride) + stride <= Off(k, stride)
  {
    if j + 1 < k { SlotsDisjoint(j, k - 1, stride); }
  }

  lemma NearbyIndicesDiffer(a: nat, b: nat, n: nat)
    requires a < b < a + n
    ensures a % n != b % n
  {
    assert b - a == (b / n - a / n) * n + (b % n - a % n);
    assert b / n - a / n <= 0 ==> (b / n - a / n) * n <= 0;
    assert b / n - a / n >= 1 ==> (b / n - a / n) * n >= n;
  }

  /** The slot of `stride` bytes at `off` carries `payload` under sequence `s`. */
  predicate Published(d: seq<byte>, off: nat, stride: nat, s: nat, payload: seq<byte>) {
    && SLOT_DATA_OFFSET + |payload| <= stride && off + stride <= |d|
    && FromLe(d[off..off + 8]) == s
    && FromLe(d[off + 8..off + 12]) == |payload|
    && d[off + 16..off + 16 + |payload|] == payload
  }

  lemma PublishedFrame(d: seq<byte>, d': seq<byte>, off: nat, stride: nat, s: nat, payload: seq<byte>)
    requires Published(d, off, stride, s, payload) && |d| == |d'|
    requires forall i :: off <= i < off + stride ==> d'[i] == d[i]
    ensures Published(d', off, stride, s, payload)
  {
    assert d'[off..off + 8] == d[off..off + 8];
    assert d'[off + 8..off + 12] == d[off + 8..off + 12];
    assert d'[off + 16..off + 16 + |payload|] == d[off + 16..off + 16 + |payload|];
  }

  lemma ZeroSlot(d: seq<byte>, off: nat, stride: nat)
    requires stride >= 16 && off + stride <= |d| && forall i :: 0 <= i < |d| ==> d[i] == 0
    ensures Published(d, off, stride, 0, [])
  {
    ZeroLe(d[off..off + 8]);
    ZeroLe(d[off + 8..off + 12]);
  }

  lemma {:induction false} ZeroLe(s: seq<byte>)
    requires forall i :: 0 <= i < |s| ==> s[i] == 0
    ensures FromLe(s) == 0
  {
    if s != [] { ZeroLe(s[1..]); }
  }

  /** The array holds the last `n` log entries, each in its slot, and the
      slots no write has reached are still zero. */
  ghost predicate Retains(d: seq<byte>, log: seq<seq<byte>>, n: nat, stride: nat)
    requires n > 0
  {
    && (forall s {:trigger log[s]} :: 0 <= s < |log| <= s + n ==> Published(d, Off(s % n, stride), stride, s, log[s]))
    && (forall j :: |log| <= j < n ==> Published(d, Off(j, stride), stride, 0, []))
  }

  /** A change inside slot `j` leaves slot `k` alone. */
  lemma OtherSlotKept(k: nat, j: nat, before: seq<byte>, after: seq<byte>, stride: nat, s: nat, payload: seq<byte>)
    requires k != j && |before| == |after| && Published(before, Off(k, stride), stride, s, payload)
    requires forall i :: 0 <= i < |after| && !(Off(j, stride) <= i < Off(j, stride) + stride) ==> after[i] == before[i]
    ensures Published(after, Off(k, stride), stride, s, payload)
  {
    if k < j { SlotsDisjoint(k, j, stride); } else { SlotsDisjoint(j, k, stride); }
    PublishedFrame(before, after, Off(k, stride), stride, s, payload);
  }

  lemma EntryKept(before: seq<byte>, after: seq<byte>, log: seq<seq<byte>>, n: nat, stride: nat, j: nat, s: nat)
    requires n > 0 && Retains(before, log, n, stride) && |before| == |after| && j == |log| % n
    requires forall i :: 0 <= i < |after| && !(Off(j, stride) <= i < Off(j, stride) + stride) ==> after[i] == before[i]
    requires s < |log| < s + n
    ensures Published(after, Off(s % n, stride), stride, s, log[s])
  {
    NearbyIndicesDiffer(s, |log|, n);
    OtherSlotKept(s % n, j, before, after, stride, s, log[s]);
  }

  lemma SmallMod(a: nat, n: nat)
    requires a < n
    ensures a % n == a
  {
  }

  lemma RetainsAppend(before: seq<byte>, after: seq<byte>, log: seq<seq<byte>>, payload: seq<byte>, n: nat,
                      stride: nat, j: nat)
    requires n > 0 && Retains(before, log, n, stride) && |before| == |after| && j == |log| % n
    requires Published(after, Off(j, stride), stride, |log|, payload)
    requires forall i :: 0 <= i < |after| && !(Off(j, stride) <= i < Off(j, stride) + stride) ==> after[i] == before[i]
    ensures Retains(after, log + [payload], n, stride)
  {
    forall s: nat | s < |log| < s + n ensures Published(after, Off(s % n, stride), stride, s, log[s]) {
      EntryKept(before, after, log, n, stride, j, s);
    }
    forall k: nat | |log| < k < n ensures Published(after, Off(k, stride), stride, 0, []) {
      SmallMod(|log|, n);
      OtherSlotKept(k, j, before, after, stride, 0, []);
    }
  }

  // ---------------------------------------------------------- specification

  /** Reading a log of which only the last `n` entries remain. */
  function LogRead(log: seq<seq<byte>>, n: nat, s: nat, room: nat): (r: Result<seq<byte>, ReadError>) {
    if s >= |log| then Err(NoData)
    else if |log| - s > n then Err(Overwritten)
    else if log[s] == [] then Err(NotYetWritten)
    else if |log[s]| > room then Err(BufferTooSmall)
    else Ok(log[s])
  }

  class Ring {
    const slotCount: nat
    const stride: nat
    const data: array<byte>
    var writeIndex: nat
    var readIndex: nat
    var epoch: nat
    ghost var log: seq<seq<byte>>
    /** The log as the last `mark_generation` saw it. */
    ghost var marked: seq<seq<byte>>

    ghost predicate Shape() {
      && slotCount > 0 && SLOT_DATA_OFFSET <= stride <= U32_MAX
      && data.Length == Off(slotCount, stride)
    }

    ghost predicate Valid()
      reads this, data
    {
      && Shape()
      && |log| == writeIndex <= U64_MAX
      && readIndex <= writeIndex <= readIndex + slotCount
      && marked <= log && epoch == |marked|
      && Retains(data[..], log, slotCount, stride)
    }

    /** `create_with_fd` after the allocation: counters at zero, slots zeroed. */
    constructor (slotCount: nat, stride: nat)
      requires 0 < slotCount && SLOT_DATA_OFFSET <= stride <= U32_MAX
      ensures Valid() && fresh(data) && this.slotCount == slotCount && this.stride == stride
      ensures log == [] && readIndex == epoch == 0
    {
      this.slotCount, this.stride := slotCount, stride;
      data := new byte[slotCount * stride](_ => 0);
      writeIndex, readIndex, epoch := 0, 0, 0;
      log, marked := [], [];
      new;
      OffIsProduct(slotCount, stride);
      forall j | 0 <= j < slotCount
        ensures Published(data[..], Off(j, stride), stride, 0, [])
      {
        SlotsDisjoint(j, slotCount, stride);
        ZeroSlot(data[..], Off(j, stride), stride);
      }
    }

    /** Copy bytes into the array (`copy_nonoverlapping`, an atomic store). */
    method Store(off: nat, bytes: seq<byte>)
      requires off + |bytes| <= data.Length
      modifies data
      ensures data[off..off + |bytes|] == bytes
      ensures forall i :: 0 <= i < data.Length && !(off <= i < off + |bytes|) ==> data[i] == old(data[i])
    {
      for k := 0 to |bytes|
        invariant data[off..off + k] == bytes[..k]
        invariant forall i :: 0 <= i < data.Length && !(off <= i < off + k) ==> data[i] == old(data[i])
      {
        data[off + k] := bytes[k];
        assert data[off..off + k + 1] == bytes[..k] + [bytes[k]];
      }
    }

    /** Invalidate, copy, store the length, publish: afterwards the slot at
        `off` is published as `s` and every other byte is as before. */
    method FillSlot(off: nat, s: nat, payload: seq<byte>)
      requires off + stride <= data.Length && SLOT_DATA_OFFSET + |payload| <= stride <= U32_MAX && s <= U64_MAX
      modifies data
      ensures Published(data[..], off, stride, s, payload)
      ensures forall i :: 0 <= i < data.Length && !(off <= i < off + stride) ==> data[i] == old(data[i])
    {
      Pow256Widths();
      LeRoundTrip(|payload|, 4);
      LeRoundTrip(s, 8);
      Store(off, ToLe(U64_MAX, 8));
      Store(off + SLOT_LEN_OFFSET, ToLe(0, 4));
      Store(off + SLOT_DATA_OFFSET, payload);
      Store(off + SLOT_LEN_OFFSET, ToLe(|payload|, 4));
      assert data[off + 16..off + 16 + |payload|] == payload;
      Store(off, ToLe(s, 8));
      assert data[off + 8..off + 12] == ToLe(|payload|, 4);
      assert data[off + 16..off + 16 + |payload|] == payload;
      assert data[..][off..off + 8] == data[off..off + 8];
      assert data[..][off + 8..off + 12] == data[off + 8..off + 12];
      assert data[..][off + 16..off + 16 + |payload|] == data[off + 16..off + 16 + |payload|];
    }

    /** `RingBuffer::write`: append to the log, pushing the watermark on when
        the reader is a whole ring behind. */
    method Write(payload: seq<byte>) returns (r: Result<nat, WriteError>)
      requires Valid() && writeIndex < U64_MAX
      modifies this`writeIndex, this`readIndex, this`log, data
      ensures Valid()
      ensures r == if |payload| > stride - SLOT_DATA_OFFSET then Err(TooLarge) else Ok(old(writeIndex))
      ensures r.Err? ==> unchanged(this) && unchanged(data)
      ensures r.Ok? ==> log == old(log) + [payload]
      ensures r.Ok? ==> readIndex == if old(writeIndex - readIndex) == slotCount then old(readIndex) + 1
                                     else old(readIndex)
    {
      if |payload| > stride - SLOT_DATA_OFFSET { return Err(TooLarge); }
      var idx := writeIndex;
      writeIndex := writeIndex + 1;
      if idx - readIndex >= slotCount { readIndex := idx - (slotCount - 1); }
      var j := idx % slotCount;
      SlotsDisjoint(j, slotCount, stride);
      OffIsProduct(j, stride);
      FillSlot(j * stride, idx, payload);
      RetainsAppend(old(data[..]), data[..], log, payload, slotCount, stride, j);
      log := log + [payload];
      return Ok(idx);
    }

    /** The sequence and length words of the slot at `off`. */
    method LoadHeader(off: nat) returns (seqno: nat, len: nat)
      requires off + 12 <= data.Length
      ensures seqno == FromLe(data[..][off..off + 8]) && len == FromLe(data[..][off + 8..off + 12])
    {
      assert data[..][off..off + 8] == data[off..off + 8] && data[..][off + 8..off + 12] == data[off + 8..off + 12];
      seqno, len := FromLe(data[off..off + 8]), FromLe(data[off + 8..off + 12]);
    }

    method CopyOut(off: nat, n: nat, out: array<byte>)
      requires off + n <= data.Length && n <= out.Length && out != data
      modifies out
      ensures out[..] == data[..][off..off + n] + old(out[n..])
    {
      for k := 0 to n
        invariant out[..k] == data[off..off + k] && out[k..] == old(out[k..])
      {
        out[k] := data[off + k];
        assert out[..k + 1] == out[..k] + [data[off + k]];
        assert old(out[k..])[1..] == old(out[k + 1..]);
      }
      assert out[..] == out[..n] + out[n..];
      assert data[..][off..off + n] == data[off..off + n];
    }

    /** `read_slot` and `read_without_consuming`. */
    method ReadSlot(s: nat, out: array<byte>) returns (r: Result<nat, ReadError>)
      requires Valid() && out != data
      modifies out
      ensures match LogRead(log, slotCount, s, out.Length)
              case Ok(payload) => r == Ok(|payload|) && out[..] == payload + old(out[|payload|..])
              case Err(e) => r == Err(e) && unchanged(out)
    {
      if s >= writeIndex { return Err(NoData); }
      if writeIndex - s > slotCount { return Err(Overwritten); }
      var off := s % slotCount * stride;
      OffIsProduct(s % slotCount, stride);
      assert Published(data[..], off, stride, s, log[s]);
      var seqno, n := LoadHeader(off);
      if seqno != s { return Err(NotYetWritten); }
      if n == 0 { return Err(NotYetWritten); }
      if n > out.Length { return Err(BufferTooSmall); }
      CopyOut(off + SLOT_DATA_OFFSET, n, out);
      seqno, n := LoadHeader(off);
      if seqno != s { return Err(Overwritten); }
      return Ok(n);
    }

    /** `read`: as `ReadSlot`, and a success moves the watermark past `s`. What
        comes from the current generation was written after its mark. */
    method Read(s: nat, out: array<byte>) returns (r: Result<nat, ReadError>)
      requires Valid() && out != data
      modifies out, this`readIndex
      ensures Valid()
      ensures match LogRead(log, slotCount, s, out.Length)
              case Ok(payload) =>
                && r == Ok(|payload|) && out[..] == payload + old(out[|payload|..])
                && readIndex == (if s >= old(readIndex) then s + 1 else old(readIndex))
                && (s >= epoch ==> payload in log[|marked|..])
              case Err(e) => r == Err(e) && unchanged(out) && readIndex == old(readIndex)
    {
      r := ReadSlot(s, out);
      if r.Ok? && s >= readIndex { readIndex := s + 1; }
      if r.Ok? && s >= epoch { assert log[|marked|..][s - |marked|] == log[s]; }
    }

    method SlotDataSize(s: nat) returns (r: Result<nat, ReadError>)
      requires Valid()
      ensures match LogRead(log, slotCount, s, U32_MAX)
              case Ok(payload) => r == Ok(|payload|)
              case Err(e) => r == Err(e)
    {
      if s >= writeIndex { return Err(NoData); }
      if writeIndex - s > slotCount { return Err(Overwritten); }
      var off := s % slotCount * stride;
      OffIsProduct(s % slotCount, stride);
      assert Published(data[..], off, stride, s, log[s]);
      var seqno, n := LoadHeader(off);
      if seqno != s || n == 0 { return Err(NotYetWritten); }
      return Ok(n);
    }

    /** Ready when the cursor is still retained, or was overrun while anything
        is unread to skip ahead to. */
    method DataAvailableFrom(s: nat) returns (ready: bool)
      requires Valid()
      ensures ready <==> s < |log| && (|log| - s <= slotCount || readIndex < |log|)
    {
      var size := SlotDataSize(s);
      match size
      case Ok(n) => return n > 0;
      case Err(NotYetWritten) => return s < writeIndex;
      case Err(_) => return s < writeIndex && writeIndex > readIndex;
    }

    method MarkGeneration()
      requires Valid()
      modifies this`epoch, this`marked
      ensures Valid() && marked == log
    {
      epoch, marked := writeIndex, log;
    }

    /** `skip_all_pending` */
    method SkipAllPending()
      requires Valid()
      modifies this`readIndex
      ensures Valid() && readIndex == |log|
    {
      readIndex := writeIndex;
    }
  }
}
