/** The shared-memory ring as interleaved memory accesses.

    Every atomic load, store and read-modify-write of `RingBuffer::write` and
    `RingBuffer::read_slot` is one step, and the two payload copies move one
    byte a step, in any order. Any number of writers and readers interleave;
    memory is sequentially consistent. */
module SeqlockRing {
  import opened Bytes
  import opened RingErrors

  datatype Slot = Slot(seqno: u64, len: nat, data: seq<byte>)

  /** What a write call does next. */
  datatype WriterPc =
    | LoadRead
    | AdvanceRead(seen: nat)
    | Invalidate
    | ZeroLen
    | Copy(done: set<nat>)
    | StoreLen
    | Publish
    | Finished

  datatype Writer = Writer(idx: nat, slot: nat, payload: seq<byte>, pc: WriterPc)

  datatype Outcome = Ok(bytes: seq<byte>) | Err(error: ReadError)

  /** What a read call does next. */
  datatype ReaderPc =
    | LoadWrite
    | LoadSeq
    | LoadLen
    | CopyOut(n: nat, got: map<nat, byte>)
    | LoadWatermark(bytes: seq<byte>)
    | StoreWatermark(bytes: seq<byte>)
    | Returned(outcome: Outcome)

  datatype Reader = Reader(s: nat, slot: nat, room: nat, consume: bool, pc: ReaderPc)

  /** `log` and `began` only record history: the payload reserved under each
      sequence number, and the last write that started to overwrite each slot
      (-1 while the slot is as zeroed at creation). No access reads them. */
  datatype State = State(
    writeIndex: nat,
    readIndex: nat,
    cap: nat,
    slots: seq<Slot>,
    writers: map<nat, Writer>,
    readers: map<nat, Reader>,
    log: seq<seq<byte>>,
    began: seq<int>)

  function Zeroed(cap: nat): (s: Slot) { Slot(0, 0, seq(cap, _ => 0)) }

  predicate Init(st: State, n: nat, cap: nat) {
    && n > 0
    && st.writeIndex == st.readIndex == 0
    && st.cap == cap && st.slots == seq(n, _ => Zeroed(cap))
    && st.writers == map[] && st.readers == map[] && st.log == []
    && st.began == seq(n, _ => -1)
  }

  // ---------------------------------------------------------------- accesses

  /** One access of a write call to its slot; `i` picks the byte a copy moves. */
  function WriterAccess(wr: Writer, s: Slot, readIndex: nat, i: nat): (r: (WriterPc, Slot))
    requires |wr.payload| <= |s.data| && wr.idx < U64_MAX
    ensures |r.1.data| == |s.data|
  {
    match wr.pc
    case LoadRead => (AdvanceRead(readIndex), s)
    case AdvanceRead(_) => (Invalidate, s)
    case Invalidate => (ZeroLen, s.(seqno := U64_MAX))
    case ZeroLen => (Copy({}), s.(len := 0))
    case Copy(done) =>
      if i < |wr.payload| then (Copy(done + {i}), s.(data := s.data[i := wr.payload[i]]))
      else if forall k :: 0 <= k < |wr.payload| ==> k in done then (StoreLen, s)
      else (wr.pc, s)
    case StoreLen => (Publish, s.(len := |wr.payload|))
    case Publish => (Finished, s.(seqno := wr.idx))
    case Finished => (wr.pc, s)
  }

  /** A writer that laps the reader pushes `read_index` on by compare-exchange. */
  function ReadIndexAfter(wr: Writer, readIndex: nat, n: nat): nat
    requires n > 0
  {
    if wr.pc.AdvanceRead? && wr.idx >= wr.pc.seen && wr.idx - wr.pc.seen >= n && readIndex == wr.pc.seen
    then wr.idx - (n - 1) else readIndex
  }

  function Assembled(n: nat, got: map<nat, byte>): (b: seq<byte>)
    requires forall k: nat :: k < n ==> k in got
    ensures |b| == n && forall k: nat :: k < n ==> b[k] == got[k]
  {
    seq(n, k requires 0 <= k < n => got[k])
  }

  /** One access of a read call; `i` picks the byte a copy moves. */
  function ReaderAccess(rd: Reader, s: Slot, writeIndex: nat, readIndex: nat, n: nat, i: nat): (pc: ReaderPc)
    requires rd.pc.CopyOut? ==> rd.pc.n <= |s.data|
  {
    match rd.pc
    case LoadWrite =>
      if rd.s >= writeIndex then Returned(Err(NoData))
      else if writeIndex - rd.s > n then Returned(Err(Overwritten))
      else LoadSeq
    case LoadSeq => if s.seqno != rd.s then Returned(Err(NotYetWritten)) else LoadLen
    case LoadLen =>
      if s.len == 0 then Returned(Err(NotYetWritten))
      else if s.len > rd.room then Returned(Err(BufferTooSmall))
      else CopyOut(s.len, map[])
    case CopyOut(m, got) =>
      if i < m then CopyOut(m, got[i := s.data[i]])
      else if forall k: nat :: k < m ==> k in got then
        if s.seqno != rd.s then Returned(Err(Overwritten))
        else if rd.consume then LoadWatermark(Assembled(m, got))
        else Returned(Ok(Assembled(m, got)))
      else rd.pc
    case LoadWatermark(b) => if rd.s >= readIndex then StoreWatermark(b) else Returned(Ok(b))
    case StoreWatermark(b) => Returned(Ok(b))
    case Returned(_) => rd.pc
  }

  // ------------------------------------------------------------------- steps

  datatype Step =
    | BeginWrite(w: nat, payload: seq<byte>)
    | WriterStep(w: nat, i: nat)
    | BeginRead(r: nat, s: nat, room: nat, consume: bool)
    | ReaderStep(r: nat, i: nat)
    | MoveReadIndex(value: nat)

  function At(st: State, i: nat): (j: nat)
    requires |st.slots| > 0
    ensures j < |st.slots|
  {
    i % |st.slots|
  }

  /** Every copy stays inside its slot. */
  predicate InBounds(st: State) {
    && |st.slots| > 0 && |st.began| == |st.slots|
    && (forall w :: w in st.writers ==>
          st.writers[w].slot < |st.slots| && st.writers[w].idx < U64_MAX
          && |st.writers[w].payload| <= |st.slots[st.writers[w].slot].data|)
    && (forall r :: r in st.readers ==> st.readers[r].slot < |st.slots|)
    && (forall r :: r in st.readers && st.readers[r].pc.CopyOut? ==>
          st.readers[r].pc.n <= |st.slots[st.readers[r].slot].data|)
  }

  /** A write call reserves the next sequence number. */
  function Reserved(st: State, w: nat, payload: seq<byte>): State
    requires |st.slots| > 0
  {
    st.(writers := st.writers[w := Writer(st.writeIndex, At(st, st.writeIndex), payload, LoadRead)],
        writeIndex := st.writeIndex + 1, log := st.log + [payload])
  }

  function WriterNext(st: State, w: nat, i: nat): State
    requires InBounds(st) && w in st.writers
  {
    var wr := st.writers[w];
    var j := wr.slot;
    var (pc, s) := WriterAccess(wr, st.slots[j], st.readIndex, i);
    st.(slots := st.slots[j := s],
        readIndex := ReadIndexAfter(wr, st.readIndex, |st.slots|),
        writers := st.writers[w := wr.(pc := pc)],
        began := if wr.pc.Invalidate? then st.began[j := wr.idx] else st.began)
  }

  function ReaderNext(st: State, r: nat, i: nat): State
    requires InBounds(st) && r in st.readers
  {
    var rd := st.readers[r];
    var pc := ReaderAccess(rd, st.slots[rd.slot], st.writeIndex, st.readIndex, |st.slots|, i);
    st.(readers := st.readers[r := rd.(pc := pc)],
        readIndex := if rd.pc.StoreWatermark? then rd.s + 1 else st.readIndex)
  }

  /** `MoveReadIndex` stands for every other use of the header's read index
      (`skip_all_pending`, loaned takes): it may take any value at any time. */
  ghost predicate Next(st: State, st': State, step: Step)
    requires InBounds(st)
  {
    match step
    case BeginWrite(w, payload) =>
      && w !in st.writers && st.writeIndex < U64_MAX
      && |payload| <= st.cap
      && st' == Reserved(st, w, payload)
    case WriterStep(w, i) => w in st.writers && st' == WriterNext(st, w, i)
    case BeginRead(r, s, room, consume) =>
      r !in st.readers && st' == st.(readers := st.readers[r := Reader(s, At(st, s), room, consume, LoadWrite)])
    case ReaderStep(r, i) => r in st.readers && st' == ReaderNext(st, r, i)
    case MoveReadIndex(value) => st' == st.(readIndex := value)
  }

  /** The documented use: no two writers in flight in one slot. */
  predicate OneWriterPerSlot(ws: map<nat, Writer>) {
    forall v, w | v in ws && w in ws && v != w ::
      ws[v].pc.Finished? || ws[w].pc.Finished? || ws[v].slot != ws[w].slot
  }

  /** A run: as long as every copy is in bounds, each state follows from the one before. */
  ghost predicate Run(states: seq<State>, steps: seq<Step>) {
    && |states| == |steps| + 1
    && (forall k :: 0 <= k < |states| ==> |states[k].slots| > 0)
    && (forall k :: 0 <= k < |steps| ==> InBounds(states[k]) ==> Next(states[k], states[k + 1], steps[k]))
  }

  // --------------------------------------------------------------- invariant

  predicate Active(pc: WriterPc) { pc.ZeroLen? || pc.Copy? || pc.StoreLen? || pc.Publish? }

  predicate DataIs(s: Slot, payload: seq<byte>) {
    |payload| <= |s.data| && s.data[..|payload|] == payload
  }

  /** A writer against its slot `s`, last begun by `b`. */
  predicate WriterFits(wr: Writer, s: Slot, b: int, log: seq<seq<byte>>) {
    && wr.idx < |log| && wr.payload == log[wr.idx] && |wr.payload| <= |s.data|
    && (Active(wr.pc) ==> b == wr.idx && s.seqno == U64_MAX)
    && (!Active(wr.pc) && !wr.pc.Finished? ==> b < wr.idx)
    && (wr.pc.ZeroLen? && wr.idx == 0 ==> s.len == 0)
    && (wr.pc.Copy? ==>
          s.len == 0 && forall k :: k in wr.pc.done ==> k < |wr.payload| && s.data[k] == wr.payload[k])
    && (wr.pc.StoreLen? ==> s.len == 0 && DataIs(s, wr.payload))
    && (wr.pc.Publish? ==> s.len == |wr.payload| && DataIs(s, wr.payload))
  }

  predicate SlotFits(s: Slot, b: int, log: seq<seq<byte>>, busy: bool) {
    && -1 <= b < |log|
    && s.len <= |s.data|
    && (b == -1 ==> s.seqno == 0 && s.len == 0 && !busy)
    && (b != -1 && !busy ==> s.seqno == b && s.len == |log[b]| && DataIs(s, log[b]))
  }

  /** A reader of sequence `s` that copies `n` bytes from slot `sl`: either a
      later write has begun there, or the slot holds `log[s]` entire. */
  predicate Settled(s: nat, n: nat, sl: Slot, b: int, log: seq<seq<byte>>) {
    && s < |log| && 0 < n <= |sl.data|
    && (b > s
        || (b == s && (s == 0 || sl.seqno == s) && sl.len == n == |log[s]| && DataIs(sl, log[s])))
  }

  predicate ReaderFits(rd: Reader, sl: Slot, b: int, log: seq<seq<byte>>) {
    match rd.pc
    case LoadWrite => true
    case LoadSeq => rd.s < |log|
    case LoadLen => rd.s < |log| && (rd.s == 0 || b > rd.s || (b == rd.s && sl.seqno == rd.s))
    case CopyOut(n, got) =>
      && Settled(rd.s, n, sl, b, log)
      && (b == rd.s ==> forall k :: k in got && k < n ==> got[k] == log[rd.s][k])
    case LoadWatermark(bytes) => rd.s < |log| && bytes == log[rd.s]
    case StoreWatermark(bytes) => rd.s < |log| && bytes == log[rd.s]
    case Returned(o) => o.Ok? ==> rd.s < |log| && o.bytes == log[rd.s]
  }

  ghost predicate Busy(ws: map<nat, Writer>, j: nat) {
    exists w :: w in ws && Active(ws[w].pc) && ws[w].slot == j
  }

  ghost predicate SlotsInv(slots: seq<Slot>, began: seq<int>, log: seq<seq<byte>>, ws: map<nat, Writer>, cap: nat)
    requires |began| == |slots|
  {
    forall j :: 0 <= j < |slots| ==> |slots[j].data| == cap && SlotFits(slots[j], began[j], log, Busy(ws, j))
  }

  predicate WritersInv(slots: seq<Slot>, began: seq<int>, log: seq<seq<byte>>, ws: map<nat, Writer>)
    requires |began| == |slots|
  {
    forall w :: w in ws ==>
      ws[w].slot < |slots| && WriterFits(ws[w], slots[ws[w].slot], began[ws[w].slot], log)
  }

  predicate ReadersInv(slots: seq<Slot>, began: seq<int>, log: seq<seq<byte>>, rs: map<nat, Reader>)
    requires |began| == |slots|
  {
    forall r :: r in rs ==>
      rs[r].slot < |slots| && ReaderFits(rs[r], slots[rs[r].slot], began[rs[r].slot], log)
  }

  ghost predicate Inv(st: State) {
    && |st.slots| > 0 && |st.began| == |st.slots|
    && st.writeIndex == |st.log| <= U64_MAX
    && SlotsInv(st.slots, st.began, st.log, st.writers, st.cap)
    && WritersInv(st.slots, st.began, st.log, st.writers)
    && ReadersInv(st.slots, st.began, st.log, st.readers)
  }

  lemma InvInBounds(st: State)
    requires Inv(st)
    ensures InBounds(st)
  {
  }

  lemma InitInv(st: State, n: nat, cap: nat)
    requires Init(st, n, cap)
    ensures Inv(st)
  {
  }

  // ------------------------------------------------- one access, one slot

  function BeganAfter(wr: Writer, b: int): int { if wr.pc.Invalidate? then wr.idx else b }

  lemma AccessKeepsWriter(wr: Writer, s: Slot, b: int, log: seq<seq<byte>>, busy: bool, readIndex: nat, i: nat)
    requires |log| <= U64_MAX && WriterFits(wr, s, b, log) && SlotFits(s, b, log, busy)
    ensures var (pc, s') := WriterAccess(wr, s, readIndex, i);
            WriterFits(wr.(pc := pc), s', BeganAfter(wr, b), log)
  {
    if wr.pc.Copy? && i >= |wr.payload| && forall k :: 0 <= k < |wr.payload| ==> k in wr.pc.done {
      assert forall k :: 0 <= k < |wr.payload| ==> s.data[..|wr.payload|][k] == wr.payload[k];
    }
  }

  lemma AccessKeepsSlot(wr: Writer, s: Slot, b: int, log: seq<seq<byte>>, busy: bool, readIndex: nat, i: nat)
    requires |log| <= U64_MAX && WriterFits(wr, s, b, log) && SlotFits(s, b, log, busy)
    requires Active(wr.pc) ==> busy
    requires !Active(wr.pc) && !wr.pc.Finished? ==> !busy
    ensures var (pc, s') := WriterAccess(wr, s, readIndex, i);
            SlotFits(s', BeganAfter(wr, b), log, if wr.pc.Finished? then busy else Active(pc))
  {
  }

  lemma AccessKeepsReader(wr: Writer, rd: Reader, s: Slot, b: int, log: seq<seq<byte>>, readIndex: nat, i: nat)
    requires |log| <= U64_MAX && WriterFits(wr, s, b, log) && ReaderFits(rd, s, b, log)
    ensures var (pc, s') := WriterAccess(wr, s, readIndex, i);
            ReaderFits(rd, s', BeganAfter(wr, b), log)
  {
  }

  /** `wr` is the writer that makes the slot busy, if one does. */
  lemma ReadKeepsReader(rd: Reader, wr: Writer, s: Slot, b: int, log: seq<seq<byte>>, busy: bool,
                        readIndex: nat, n: nat, i: nat)
    requires |log| <= U64_MAX && ReaderFits(rd, s, b, log) && SlotFits(s, b, log, busy)
    requires busy ==> Active(wr.pc) && WriterFits(wr, s, b, log)
    ensures ReaderFits(rd.(pc := ReaderAccess(rd, s, |log|, readIndex, n, i)), s, b, log)
  {
    if rd.pc.CopyOut? && i >= rd.pc.n && s.seqno == rd.s && forall k: nat :: k < rd.pc.n ==> k in rd.pc.got {
      assert b == rd.s;
      assert Assembled(rd.pc.n, rd.pc.got) == log[rd.s];
    }
  }

  // ----------------------------------------------------------- preservation

  /** Only the stepping writer's own slot can change between busy and free. */
  lemma BusyAfter(ws: map<nat, Writer>, w: nat, wr': Writer)
    requires w in ws && OneWriterPerSlot(ws) && wr'.slot == ws[w].slot
    ensures forall k: nat :: k != wr'.slot ==> Busy(ws[w := wr'], k) == Busy(ws, k)
    ensures !ws[w].pc.Finished? ==> Busy(ws, wr'.slot) == Active(ws[w].pc)
    ensures !ws[w].pc.Finished? ==> Busy(ws[w := wr'], wr'.slot) == Active(wr'.pc)
  {
    var ws' := ws[w := wr'];
    forall k: nat | k != wr'.slot ensures Busy(ws', k) == Busy(ws, k) {
      if Busy(ws, k) {
        var v :| v in ws && Active(ws[v].pc) && ws[v].slot == k;
        assert v in ws' && ws'[v] == ws[v];
      }
    }
    if Active(wr'.pc) { assert w in ws' && ws'[w] == wr'; }
  }

  lemma WriterStepSlots(st: State, w: nat, i: nat)
    requires Inv(st) && InBounds(st) && OneWriterPerSlot(st.writers)
    requires w in st.writers && !st.writers[w].pc.Finished?
    ensures var st' := WriterNext(st, w, i);
            SlotsInv(st'.slots, st'.began, st'.log, st'.writers, st'.cap)
  {
    var st', wr := WriterNext(st, w, i), st.writers[w];
    BusyAfter(st.writers, w, st'.writers[w]);
    AccessKeepsSlot(wr, st.slots[wr.slot], st.began[wr.slot], st.log, Busy(st.writers, wr.slot), st.readIndex, i);
  }

  lemma WriterStepWriters(st: State, w: nat, i: nat)
    requires Inv(st) && InBounds(st) && OneWriterPerSlot(st.writers)
    requires w in st.writers && !st.writers[w].pc.Finished?
    ensures var st' := WriterNext(st, w, i);
            WritersInv(st'.slots, st'.began, st'.log, st'.writers)
  {
    var st', wr := WriterNext(st, w, i), st.writers[w];
    var j := wr.slot;
    AccessKeepsWriter(wr, st.slots[j], st.began[j], st.log, Busy(st.writers, j), st.readIndex, i);
    forall v | v in st'.writers && v != w
      ensures st'.writers[v].slot < |st'.slots|
      ensures WriterFits(st'.writers[v], st'.slots[st'.writers[v].slot], st'.began[st'.writers[v].slot], st'.log)
    {
      assert st'.writers[v] == st.writers[v];
      if st.writers[v].slot == j {
        FinishedFits(st.writers[v], st.slots[j], st'.slots[j], st.began[j], st'.began[j], st.log);
      }
    }
  }

  lemma WriterStepReaders(st: State, w: nat, i: nat)
    requires Inv(st) && InBounds(st) && w in st.writers
    ensures var st' := WriterNext(st, w, i);
            ReadersInv(st'.slots, st'.began, st'.log, st'.readers)
  {
    var st', wr := WriterNext(st, w, i), st.writers[w];
    var j := wr.slot;
    forall r | r in st.readers
      ensures ReaderFits(st.readers[r], st'.slots[st.readers[r].slot], st'.began[st.readers[r].slot], st.log)
    {
      if st.readers[r].slot == j {
        AccessKeepsReader(wr, st.readers[r], st.slots[j], st.began[j], st.log, st.readIndex, i);
      }
    }
  }

  lemma WriterStepInv(st: State, w: nat, i: nat)
    requires Inv(st) && InBounds(st) && OneWriterPerSlot(st.writers) && w in st.writers
    ensures Inv(WriterNext(st, w, i))
  {
    if st.writers[w].pc.Finished? {
      var st' := WriterNext(st, w, i);
      assert st'.writers == st.writers && st'.slots == st.slots && st'.began == st.began;
    } else {
      WriterStepSlots(st, w, i);
      WriterStepWriters(st, w, i);
      WriterStepReaders(st, w, i);
    }
  }

  lemma FinishedFits(wr: Writer, s: Slot, s': Slot, b: int, b': int, log: seq<seq<byte>>)
    requires wr.pc.Finished? && WriterFits(wr, s, b, log) && |s.data| == |s'.data|
    ensures WriterFits(wr, s', b', log)
  {
  }

  lemma ReaderStepInv(st: State, r: nat, i: nat)
    requires Inv(st) && InBounds(st) && r in st.readers
    ensures Inv(ReaderNext(st, r, i))
  {
    var st', rd := ReaderNext(st, r, i), st.readers[r];
    var j := rd.slot;
    var wr := Writer(0, 0, [], LoadRead);
    if Busy(st.writers, j) {
      var w :| w in st.writers && Active(st.writers[w].pc) && st.writers[w].slot == j;
      wr := st.writers[w];
    }
    ReadKeepsReader(rd, wr, st.slots[j], st.began[j], st.log, Busy(st.writers, j), st.readIndex, |st.slots|, i);
    assert forall k: nat :: k < |st.slots| ==> Busy(st'.writers, k) == Busy(st.writers, k);
  }

  /** Appending to the log disturbs nobody. */
  lemma LogGrows(st: State, payload: seq<byte>)
    requires Inv(st)
    ensures SlotsInv(st.slots, st.began, st.log + [payload], st.writers, st.cap)
    ensures WritersInv(st.slots, st.began, st.log + [payload], st.writers)
    ensures ReadersInv(st.slots, st.began, st.log + [payload], st.readers)
  {
  }

  lemma ReservingKeepsBusy(ws: map<nat, Writer>, w: nat, wr: Writer, k: nat)
    requires w !in ws && wr.pc.LoadRead?
    ensures Busy(ws[w := wr], k) == Busy(ws, k)
  {
    if Busy(ws, k) {
      var v :| v in ws && Active(ws[v].pc) && ws[v].slot == k;
      assert v in ws[w := wr] && ws[w := wr][v] == ws[v];
    }
  }

  lemma BeginWriteInv(st: State, st': State, w: nat, payload: seq<byte>)
    requires Inv(st) && InBounds(st) && Next(st, st', BeginWrite(w, payload))
    ensures Inv(st')
  {
    LogGrows(st, payload);
    forall k: nat ensures Busy(st'.writers, k) == Busy(st.writers, k) {
      ReservingKeepsBusy(st.writers, w, st'.writers[w], k);
    }
  }

  lemma NextInv(st: State, st': State, step: Step)
    requires Inv(st) && InBounds(st) && OneWriterPerSlot(st.writers) && Next(st, st', step)
    ensures Inv(st')
  {
    match step
    case BeginWrite(w, payload) => BeginWriteInv(st, st', w, payload);
    case WriterStep(w, i) => WriterStepInv(st, w, i);
    case BeginRead(r, s, room, consume) =>
      assert forall k: nat :: k < |st.slots| ==> Busy(st'.writers, k) == Busy(st.writers, k);
    case ReaderStep(r, i) => ReaderStepInv(st, r, i);
    case MoveReadIndex(value) =>
      assert forall k: nat :: k < |st.slots| ==> Busy(st'.writers, k) == Busy(st.writers, k);
  }

  // ------------------------------------------------------------ whole runs

  lemma {:induction false} RunInv(states: seq<State>, steps: seq<Step>, n: nat, cap: nat, k: nat)
    requires Run(states, steps) && Init(states[0], n, cap) && k < |states|
    requires forall m :: 0 <= m < |states| ==> OneWriterPerSlot(states[m].writers)
    ensures Inv(states[k]) && InBounds(states[k])
  {
    if k == 0 {
      InitInv(states[0], n, cap);
    } else {
      RunInv(states, steps, n, cap, k - 1);
      assert Next(states[k - 1], states[k], steps[k - 1]);
      NextInv(states[k - 1], states[k], steps[k - 1]);
    }
    InvInBounds(states[k]);
  }

  /** Payload `log[s]` was handed to the write call that reserved `s`. */
  lemma {:induction false} LoggedWasWritten(states: seq<State>, steps: seq<Step>, n: nat, cap: nat, k: nat, s: nat)
    requires Run(states, steps) && Init(states[0], n, cap) && k < |states|
    requires forall m :: 0 <= m < |states| ==> OneWriterPerSlot(states[m].writers)
    requires s < |states[k].log|
    ensures exists m :: 0 <= m < k && states[m].writeIndex == s
                        && steps[m].BeginWrite? && steps[m].payload == states[k].log[s]
  {
    assert k > 0;
    RunInv(states, steps, n, cap, k - 1);
    assert Next(states[k - 1], states[k], steps[k - 1]);
    if s < |states[k - 1].log| {
      LoggedWasWritten(states, steps, n, cap, k - 1, s);
    }
  }

  /** In every interleaving with one writer in flight per slot, a read of `s`
      that returns Ok returns exactly the bytes some earlier call wrote as `s`:
      never torn, never stale, never from a later lap, and never the zeroed
      slot that sequence 0 starts from. */
  lemma ReadsAreExact(states: seq<State>, steps: seq<Step>, n: nat, cap: nat, k: nat, r: nat)
    requires Run(states, steps) && Init(states[0], n, cap) && k < |states|
    requires forall m :: 0 <= m < |states| ==> OneWriterPerSlot(states[m].writers)
    requires r in states[k].readers && states[k].readers[r].pc.Returned? && states[k].readers[r].pc.outcome.Ok?
    ensures exists m :: 0 <= m < k && states[m].writeIndex == states[k].readers[r].s
                        && steps[m].BeginWrite? && steps[m].payload == states[k].readers[r].pc.outcome.bytes
  {
    RunInv(states, steps, n, cap, k);
    LoggedWasWritten(states, steps, n, cap, k, states[k].readers[r].s);
  }

  // ------------------------------------------------- the guard is needed

  /** A run all of whose states are in bounds. */
  ghost predicate SafeRun(states: seq<State>, steps: seq<Step>) {
    Run(states, steps) && forall k :: 0 <= k < |states| ==> InBounds(states[k])
  }

  lemma RunOn(states: seq<State>, steps: seq<Step>, st: State, step: Step)
    requires SafeRun(states, steps) && InBounds(st) && Next(states[|steps|], st, step)
    ensures SafeRun(states + [st], steps + [step])
  {
  }

  /** A ring of `n` slots of `cap` bytes; writes 0 to `n - 1` carry `[x]` and write `n` carries `[y]`. */
  datatype Arena = Arena(n: nat, cap: nat, x: byte, y: byte) {
    predicate Valid() { 0 < n < U64_MAX && 0 < cap }

    function Payload(m: nat): seq<byte> { if m == n then [y] else [x] }

    function Data(d: byte): seq<byte>
      requires cap > 0
    {
      seq(cap, _ => 0)[0 := d]
    }
  }

  /** The first `m` writes have reserved their numbers. */
  predicate Begun(st: State, a: Arena, m: nat) {
    && InBounds(st) && st.writeIndex == m && st.readIndex == 0 && st.cap == a.cap
    && |st.slots| == a.n && (forall i :: 0 <= i < a.n ==> st.slots[i] == Zeroed(a.cap)) && st.readers == map[]
    && |st.log| == m && (forall w :: w in st.writers ==> w < m)
    && (m > 0 ==> 0 in st.writers && st.writers[0] == Writer(0, 0, [a.x], LoadRead))
    && (m == a.n + 1 ==>
          a.n in st.writers && st.writers[a.n] == Writer(a.n, 0, [a.y], LoadRead) && st.log[a.n] == [a.y])
  }

  lemma ReservingStaysInBounds(st: State, w: nat, payload: seq<byte>)
    requires InBounds(st) && st.writeIndex < U64_MAX && |payload| <= |st.slots[At(st, st.writeIndex)].data|
    ensures InBounds(Reserved(st, w, payload))
  {
  }

  lemma WrapsToZero(n: nat)
    requires n > 0
    ensures 0 % n == 0 && n % n == 0
  {
  }

  lemma BeginsNext(st: State, a: Arena, m: nat)
    requires a.Valid() && m <= a.n && Begun(st, a, m)
    ensures Begun(Reserved(st, m, a.Payload(m)), a, m + 1)
    ensures Next(st, Reserved(st, m, a.Payload(m)), BeginWrite(m, a.Payload(m)))
  {
    assert st.slots[At(st, m)] == Zeroed(a.cap);
    ReservingStaysInBounds(st, m, a.Payload(m));
    WrapsToZero(a.n);
  }

  lemma {:induction false} WritesBegin(a: Arena, m: nat) returns (states: seq<State>, steps: seq<Step>)
    requires a.Valid() && m <= a.n + 1
    ensures SafeRun(states, steps) && Init(states[0], a.n, a.cap) && Begun(states[|steps|], a, m)
  {
    if m == 0 {
      states, steps :=
        [State(0, 0, a.cap, seq(a.n, _ => Zeroed(a.cap)), map[], map[], [], seq(a.n, _ => -1))], [];
    } else {
      states, steps := WritesBegin(a, m - 1);
      var st := Reserved(states[|steps|], m - 1, a.Payload(m - 1));
      BeginsNext(states[|steps|], a, m - 1);
      RunOn(states, steps, st, BeginWrite(m - 1, a.Payload(m - 1)));
      states, steps := states + [st], steps + [BeginWrite(m - 1, a.Payload(m - 1))];
    }
  }

  /** What slot 0, its two writers 0 and `n`, and a reader of `n` see. */
  datatype Duel = Duel(readIndex: nat, slot: Slot, first: WriterPc, second: WriterPc, reader: ReaderPc)

  function First(a: Arena, pc: WriterPc): Writer { Writer(0, 0, [a.x], pc) }

  function Second(a: Arena, pc: WriterPc): Writer { Writer(a.n, 0, [a.y], pc) }

  function Looker(a: Arena, pc: ReaderPc): Reader { Reader(a.n, 0, 1, false, pc) }

  predicate Shows(st: State, a: Arena, d: Duel) {
    && InBounds(st) && |st.slots| == a.n && st.writeIndex == a.n + 1 && st.readIndex == d.readIndex
    && st.slots[0] == d.slot && |st.log| == a.n + 1 && st.log[a.n] == [a.y]
    && 0 in st.writers && st.writers[0] == First(a, d.first)
    && a.n in st.writers && st.writers[a.n] == Second(a, d.second)
    && 0 in st.readers && st.readers[0] == Looker(a, d.reader)
  }

  predicate Fits(a: Arena, d: Duel) {
    a.Valid() && |d.slot.data| == a.cap && (d.reader.CopyOut? ==> d.reader.n <= a.cap)
  }

  datatype Move = A(i: nat) | B(i: nat) | R(i: nat)

  function DuelNext(a: Arena, d: Duel, m: Move): Duel
    requires Fits(a, d)
  {
    match m
    case A(i) =>
      var (pc, s) := WriterAccess(First(a, d.first), d.slot, d.readIndex, i);
      d.(slot := s, first := pc, readIndex := ReadIndexAfter(First(a, d.first), d.readIndex, a.n))
    case B(i) =>
      var (pc, s) := WriterAccess(Second(a, d.second), d.slot, d.readIndex, i);
      d.(slot := s, second := pc, readIndex := ReadIndexAfter(Second(a, d.second), d.readIndex, a.n))
    case R(i) =>
      d.(reader := ReaderAccess(Looker(a, d.reader), d.slot, a.n + 1, d.readIndex, a.n, i),
         readIndex := if d.reader.StoreWatermark? then a.n + 1 else d.readIndex)
  }

  function StepOf(a: Arena, m: Move): Step {
    match m case A(i) => WriterStep(0, i) case B(i) => WriterStep(a.n, i) case R(i) => ReaderStep(0, i)
  }

  lemma WriterStaysInBounds(st: State, w: nat, i: nat)
    requires InBounds(st) && w in st.writers
    ensures InBounds(WriterNext(st, w, i))
  {
  }

  lemma WriterMoves(st: State, a: Arena, d: Duel, m: Move)
    requires Shows(st, a, d) && Fits(a, d) && !m.R?
    ensures Shows(WriterNext(st, if m.A? then 0 else a.n, m.i), a, DuelNext(a, d, m))
  {
    WriterStaysInBounds(st, if m.A? then 0 else a.n, m.i);
  }

  lemma ReaderMoves(st: State, a: Arena, d: Duel, i: nat)
    requires Shows(st, a, d) && Fits(a, d) && Fits(a, DuelNext(a, d, R(i)))
    ensures Shows(ReaderNext(st, 0, i), a, DuelNext(a, d, R(i)))
  {
  }

  lemma DuelMoves(states: seq<State>, steps: seq<Step>, a: Arena, d: Duel, m: Move)
    returns (states': seq<State>, steps': seq<Step>)
    requires SafeRun(states, steps) && Shows(states[|steps|], a, d) && Fits(a, d) && Fits(a, DuelNext(a, d, m))
    ensures SafeRun(states', steps') && states'[0] == states[0]
    ensures Shows(states'[|steps'|], a, DuelNext(a, d, m))
  {
    var st := states[|steps|];
    var st' := match m case A(i) => WriterNext(st, 0, i) case B(i) => WriterNext(st, a.n, i)
                       case R(i) => ReaderNext(st, 0, i);
    if m.R? { ReaderMoves(st, a, d, m.i); } else { WriterMoves(st, a, d, m); }
    RunOn(states, steps, st', StepOf(a, m));
    states', steps' := states + [st'], steps + [StepOf(a, m)];
  }

  /** A sequence of moves on the duel alone. */
  predicate DuelPath(a: Arena, d: Duel, ms: seq<Move>, e: Duel)
    decreases |ms|
  {
    Fits(a, d) && if ms == [] then d == e else DuelPath(a, DuelNext(a, d, ms[0]), ms[1..], e)
  }

  lemma PathFrom(a: Arena, d: Duel, m: Move, ms: seq<Move>, e: Duel)
    requires Fits(a, d) && DuelPath(a, DuelNext(a, d, m), ms, e)
    ensures DuelPath(a, d, [m] + ms, e)
  {
    assert ([m] + ms)[1..] == ms;
  }

  /** ... is a run of the ring. */
  lemma {:induction false} DuelRuns(states: seq<State>, steps: seq<Step>, a: Arena, d: Duel, ms: seq<Move>, e: Duel)
    returns (states': seq<State>, steps': seq<Step>)
    requires SafeRun(states, steps) && Shows(states[|steps|], a, d) && DuelPath(a, d, ms, e)
    ensures SafeRun(states', steps') && states'[0] == states[0] && Shows(states'[|steps'|], a, e)
    decreases |ms|
  {
    states', steps' := states, steps;
    if ms != [] {
      states', steps' := DuelMoves(states, steps, a, d, ms[0]);
      states', steps' := DuelRuns(states', steps', a, DuelNext(a, d, ms[0]), ms[1..], e);
    }
  }

  function Raw(a: Arena, seqno: u64): Slot { Slot(seqno, 0, seq(a.cap, _ => 0)) }

  const ALONE: seq<Move> := [A(0)] + ([A(0)] + ([A(0)] + ([A(0)] + [])))
  const LAPPED: seq<Move> := [B(0)] + ([B(0)] + ([B(0)] + ([B(0)] + [])))
  const DONE: seq<Move> := [B(0)] + ([B(1)] + ([B(0)] + ([B(0)] + [])))
  const LATE: seq<Move> := [A(0)] + ([R(0)] + ([R(0)] + []))
  const READ: seq<Move> := [R(0)] + ([R(0)] + ([R(1)] + []))

  /** The first writer stops before it copies ... */
  lemma FirstWriterStops(a: Arena)
    requires a.Valid()
    ensures DuelPath(a, Duel(0, Raw(a, 0), LoadRead, LoadRead, LoadWrite), ALONE,
                     Duel(0, Raw(a, U64_MAX), Copy({}), LoadRead, LoadWrite))
  {
    var s, e := Raw(a, 0), Duel(0, Raw(a, U64_MAX), Copy({}), LoadRead, LoadWrite);
    PathFrom(a, Duel(0, Raw(a, U64_MAX), ZeroLen, LoadRead, LoadWrite), A(0), [], e);
    PathFrom(a, Duel(0, s, Invalidate, LoadRead, LoadWrite), A(0), [A(0)] + [], e);
    PathFrom(a, Duel(0, s, AdvanceRead(0), LoadRead, LoadWrite), A(0), [A(0)] + ([A(0)] + []), e);
    PathFrom(a, Duel(0, s, LoadRead, LoadRead, LoadWrite), A(0), [A(0)] + ([A(0)] + ([A(0)] + [])), e);
  }

  /** ... the second one laps it ... */
  lemma SecondWriterLaps(a: Arena)
    requires a.Valid()
    ensures DuelPath(a, Duel(0, Raw(a, U64_MAX), Copy({}), LoadRead, LoadWrite), LAPPED,
                     Duel(1, Raw(a, U64_MAX), Copy({}), Copy({}), LoadWrite))
  {
    var s := Raw(a, U64_MAX);
    var e := Duel(1, s, Copy({}), Copy({}), LoadWrite);
    PathFrom(a, Duel(1, s, Copy({}), ZeroLen, LoadWrite), B(0), [], e);
    PathFrom(a, Duel(1, s, Copy({}), Invalidate, LoadWrite), B(0), [B(0)] + [], e);
    PathFrom(a, Duel(0, s, Copy({}), AdvanceRead(0), LoadWrite), B(0), [B(0)] + ([B(0)] + []), e);
    PathFrom(a, Duel(0, s, Copy({}), LoadRead, LoadWrite), B(0), [B(0)] + ([B(0)] + ([B(0)] + [])), e);
  }

  /** ... and publishes ... */
  lemma SecondWriterPublishes(a: Arena)
    requires a.Valid()
    ensures DuelPath(a, Duel(1, Raw(a, U64_MAX), Copy({}), Copy({}), LoadWrite), DONE,
                     Duel(1, Slot(a.n, 1, a.Data(a.y)), Copy({}), Finished, LoadWrite))
  {
    var s, e := Slot(U64_MAX, 0, a.Data(a.y)), Duel(1, Slot(a.n, 1, a.Data(a.y)), Copy({}), Finished, LoadWrite);
    PathFrom(a, Duel(1, s.(len := 1), Copy({}), Publish, LoadWrite), B(0), [], e);
    PathFrom(a, Duel(1, s, Copy({}), StoreLen, LoadWrite), B(0), [B(0)] + [], e);
    PathFrom(a, Duel(1, s, Copy({}), Copy({0}), LoadWrite), B(1), [B(0)] + ([B(0)] + []), e);
    assert {} + {0} == {0};
    PathFrom(a, Duel(1, Raw(a, U64_MAX), Copy({}), Copy({}), LoadWrite), B(0), [B(1)] + ([B(0)] + ([B(0)] + [])), e);
  }

  /** ... then the first one copies over the published byte ... */
  lemma FirstWriterOverwrites(a: Arena)
    requires a.Valid()
    ensures DuelPath(a, Duel(1, Slot(a.n, 1, a.Data(a.y)), Copy({}), Finished, LoadWrite), LATE,
                     Duel(1, Slot(a.n, 1, a.Data(a.x)), Copy({0}), Finished, LoadLen))
  {
    var s := Slot(a.n, 1, a.Data(a.x));
    var e := Duel(1, s, Copy({0}), Finished, LoadLen);
    PathFrom(a, Duel(1, s, Copy({0}), Finished, LoadSeq), R(0), [], e);
    PathFrom(a, Duel(1, s, Copy({0}), Finished, LoadWrite), R(0), [R(0)] + [], e);
    assert a.Data(a.y)[0 := a.x] == a.Data(a.x) && {} + {0} == {0};
    PathFrom(a, Duel(1, Slot(a.n, 1, a.Data(a.y)), Copy({}), Finished, LoadWrite), A(0), [R(0)] + ([R(0)] + []), e);
  }

  /** ... and a reader accepts it. */
  lemma ReaderAccepts(a: Arena)
    requires a.Valid()
    ensures DuelPath(a, Duel(1, Slot(a.n, 1, a.Data(a.x)), Copy({0}), Finished, LoadLen), READ,
                     Duel(1, Slot(a.n, 1, a.Data(a.x)), Copy({0}), Finished, Returned(Ok([a.x]))))
  {
    var s := Slot(a.n, 1, a.Data(a.x));
    var e := Duel(1, s, Copy({0}), Finished, Returned(Ok([a.x])));
    assert Assembled(1, map[0 := a.x]) == [a.x];
    PathFrom(a, Duel(1, s, Copy({0}), Finished, CopyOut(1, map[0 := a.x])), R(1), [], e);
    assert map[][0 := a.x] == map[0 := a.x];
    PathFrom(a, Duel(1, s, Copy({0}), Finished, CopyOut(1, map[])), R(0), [R(1)] + [], e);
    PathFrom(a, Duel(1, s, Copy({0}), Finished, LoadLen), R(0), [R(0)] + ([R(1)] + []), e);
  }

  lemma DuelBegins(a: Arena) returns (states: seq<State>, steps: seq<Step>)
    requires a.Valid()
    ensures SafeRun(states, steps) && Init(states[0], a.n, a.cap)
    ensures Shows(states[|steps|], a, Duel(0, Raw(a, 0), LoadRead, LoadRead, LoadWrite))
  {
    states, steps := WritesBegin(a, a.n + 1);
    var st := states[|steps|];
    var st' := st.(readers := st.readers[0 := Reader(a.n, At(st, a.n), 1, false, LoadWrite)]);
    RunOn(states, steps, st', BeginRead(0, a.n, 1, false));
    states, steps := states + [st'], steps + [BeginRead(0, a.n, 1, false)];
  }

  /** Two writers in one slot, on every ring: the one that was lapped copies over the byte
      `y` that the other published as sequence `n`, and a reader of `n` accepts `x`. */
  lemma LappedWriterBreaksReads(n: nat, cap: nat, x: byte, y: byte) returns (states: seq<State>, steps: seq<Step>)
    requires 0 < n < U64_MAX && cap > 0 && x != y
    ensures SafeRun(states, steps) && Init(states[0], n, cap)
    ensures var last := states[|steps|];
            && |last.log| == n + 1 && last.log[n] == [y]
            && 0 in last.readers && last.readers[0].s == n && last.readers[0].pc == Returned(Ok([x]))
  {
    var a := Arena(n, cap, x, y);
    states, steps := DuelBegins(a);
    FirstWriterStops(a);
    var d := Duel(0, Raw(a, 0), LoadRead, LoadRead, LoadWrite);
    var e := Duel(0, Raw(a, U64_MAX), Copy({}), LoadRead, LoadWrite);
    states, steps := DuelRuns(states, steps, a, d, ALONE, e);
    SecondWriterLaps(a);
    d, e := e, Duel(1, Raw(a, U64_MAX), Copy({}), Copy({}), LoadWrite);
    states, steps := DuelRuns(states, steps, a, d, LAPPED, e);
    SecondWriterPublishes(a);
    d, e := e, Duel(1, Slot(n, 1, a.Data(y)), Copy({}), Finished, LoadWrite);
    states, steps := DuelRuns(states, steps, a, d, DONE, e);
    FirstWriterOverwrites(a);
    d, e := e, Duel(1, Slot(n, 1, a.Data(x)), Copy({0}), Finished, LoadLen);
    states, steps := DuelRuns(states, steps, a, d, LATE, e);
    ReaderAccepts(a);
    d, e := e, Duel(1, Slot(n, 1, a.Data(x)), Copy({0}), Finished, Returned(Ok([x])));
    states, steps := DuelRuns(states, steps, a, d, READ, e);
  }
}
