/** When a read of the shared-memory ring succeeds, and why it does not: every answer of
    `read_slot` traced back to what the ring held at a step of that very read. */
module RingReads {
  import opened Bytes
  import opened RingErrors
  import opened SeqlockRing
  import ByteRing

  ghost predicate Guarded(states: seq<State>, steps: seq<Step>, n: nat, cap: nat) {
    && Run(states, steps) && Init(states[0], n, cap)
    && forall m :: 0 <= m < |states| ==> OneWriterPerSlot(states[m].writers)
  }

  // --------------------------------------------------------------- every refusal

  /** The write of `s` has begun in its slot and is not published yet. */
  ghost predicate InFlight(st: State, s: nat) {
    exists w :: w in st.writers && st.writers[w].idx == s && Active(st.writers[w].pc)
  }

  /** What must be so in a state in which a reader is refused. A first sample that is
      just being written may be reported as overwritten, because the sequence word of a
      zeroed slot is that of sample 0. */
  ghost predicate Reason(st: State, rd: Reader, e: ReadError)
    requires rd.slot < |st.slots| == |st.began|
  {
    var b, n := st.began[rd.slot], |st.slots|;
    match e
    case NoData => |st.log| <= rd.s
    case Overwritten => |st.log| > rd.s + n || b > rd.s || (rd.s == 0 && b == 0 && InFlight(st, 0))
    case NotYetWritten => rd.s < |st.log| && (st.log[rd.s] == [] || b != rd.s || InFlight(st, rd.s))
    case BufferTooSmall => b > rd.s || (rd.s < |st.log| && |st.log[rd.s]| > rd.room)
  }

  /** A slot that no writer is busy with holds the payload of the write that began last. */
  lemma SlotAt(st: State, j: nat)
    requires Inv(st) && j < |st.slots|
    ensures Busy(st.writers, j) ==>
              exists w :: w in st.writers && Active(st.writers[w].pc) && st.writers[w].slot == j
                          && WriterFits(st.writers[w], st.slots[j], st.began[j], st.log)
    ensures SlotFits(st.slots[j], st.began[j], st.log, Busy(st.writers, j))
  {
    if Busy(st.writers, j) {
      var w :| w in st.writers && Active(st.writers[w].pc) && st.writers[w].slot == j;
      assert WriterFits(st.writers[w], st.slots[j], st.began[j], st.log);
    }
  }

  lemma RefusedNow(st: State, r: nat, i: nat, e: ReadError)
    requires Inv(st) && InBounds(st) && r in st.readers && !st.readers[r].pc.Returned?
    requires ReaderNext(st, r, i).readers[r].pc == Returned(Err(e))
    ensures Reason(st, st.readers[r], e)
  {
    var rd := st.readers[r];
    SlotAt(st, rd.slot);
    assert ReaderFits(rd, st.slots[rd.slot], st.began[rd.slot], st.log);
  }

  /** Between two states a read call keeps what it was asked for. */
  lemma StepKeepsReader(st: State, st': State, step: Step, r: nat)
    requires InBounds(st) && Next(st, st', step) && r in st.readers
    ensures |st'.slots| == |st.slots| && |st'.began| == |st.began|
    ensures r in st'.readers && st'.readers[r].(pc := LoadWrite) == st.readers[r].(pc := LoadWrite)
  {
  }

  lemma {:induction false} ReaderStays(states: seq<State>, steps: seq<Step>, n: nat, cap: nat, a: nat, k: nat, r: nat)
    requires Guarded(states, steps, n, cap) && a <= k < |states| && r in states[a].readers
    ensures |states[k].slots| == n && |states[k].began| == n && r in states[k].readers
    ensures states[k].readers[r].(pc := LoadWrite) == states[a].readers[r].(pc := LoadWrite)
  {
    RunInv(states, steps, n, cap, k);
    SizeStays(states, steps, n, cap, k);
    if a < k {
      ReaderStays(states, steps, n, cap, a, k - 1, r);
      RunInv(states, steps, n, cap, k - 1);
      assert Next(states[k - 1], states[k], steps[k - 1]);
      StepKeepsReader(states[k - 1], states[k], steps[k - 1], r);
    }
  }

  lemma {:induction false} SizeStays(states: seq<State>, steps: seq<Step>, n: nat, cap: nat, k: nat)
    requires Guarded(states, steps, n, cap) && k < |states|
    ensures |states[k].slots| == n
  {
    if k > 0 {
      SizeStays(states, steps, n, cap, k - 1);
      RunInv(states, steps, n, cap, k - 1);
      assert Next(states[k - 1], states[k], steps[k - 1]);
    }
  }

  /** A read call that is over either was over before the step, or stepped itself. */
  lemma OverBefore(st: State, st': State, step: Step, r: nat)
    requires InBounds(st) && Next(st, st', step) && r in st'.readers && st'.readers[r].pc.Returned?
    ensures r in st.readers && st.readers[r].(pc := LoadWrite) == st'.readers[r].(pc := LoadWrite)
    ensures st'.readers[r].pc == st.readers[r].pc
            || (step.ReaderStep? && step.r == r && !st.readers[r].pc.Returned?
                && st'.readers[r].pc == ReaderNext(st, r, step.i).readers[r].pc)
  {
  }

  /** In every guarded interleaving, a read that was refused was refused at one of its own
      steps, in a state that gives the reason. */
  lemma {:induction false} RefusedForReason(
      states: seq<State>, steps: seq<Step>, n: nat, cap: nat, k: nat, r: nat, e: ReadError) returns (m: nat)
    requires Guarded(states, steps, n, cap) && k < |states|
    requires r in states[k].readers && states[k].readers[r].pc == Returned(Err(e))
    ensures m < k && steps[m].ReaderStep? && steps[m].r == r && r in states[m].readers
    ensures states[m].readers[r].(pc := LoadWrite) == states[k].readers[r].(pc := LoadWrite)
    ensures states[m].readers[r].slot < |states[m].slots| == |states[m].began| == n
    ensures Reason(states[m], states[m].readers[r], e)
  {
    assert k > 0;
    m := k - 1;
    RunInv(states, steps, n, cap, m);
    SizeStays(states, steps, n, cap, m);
    OverBefore(states[m], states[k], steps[m], r);
    if states[m].readers[r].pc == Returned(Err(e)) {
      m := RefusedForReason(states, steps, n, cap, m, r, e);
    } else {
      RefusedNow(states[m], r, steps[m].i, e);
    }
  }

  // ------------------------------------------------------ what is there is found

  /** Write `s` is complete in slot `j` and nothing has begun to replace it. */
  ghost predicate Stands(st: State, s: nat, j: nat) {
    j < |st.began| && st.began[j] == s && !Busy(st.writers, j)
  }

  lemma BeganGrows(st: State, st': State, step: Step, j: nat)
    requires Inv(st) && InBounds(st) && Next(st, st', step) && j < |st.slots|
    ensures |st'.began| == |st.began| && st.began[j] <= st'.began[j]
  {
    if step.WriterStep? {
      var wr := st.writers[step.w];
      assert WriterFits(wr, st.slots[wr.slot], st.began[wr.slot], st.log);
    }
  }

  lemma {:induction false} BeganGrowsOn(states: seq<State>, steps: seq<Step>, n: nat, cap: nat, a: nat, k: nat, j: nat)
    requires Guarded(states, steps, n, cap) && a <= k < |states| && j < n
    ensures |states[a].began| == |states[k].began| == n && states[a].began[j] <= states[k].began[j]
  {
    RunInv(states, steps, n, cap, k);
    SizeStays(states, steps, n, cap, k);
    if a < k {
      BeganGrowsOn(states, steps, n, cap, a, k - 1, j);
      RunInv(states, steps, n, cap, k - 1);
      SizeStays(states, steps, n, cap, k - 1);
      assert Next(states[k - 1], states[k], steps[k - 1]);
      BeganGrows(states[k - 1], states[k], steps[k - 1], j);
    }
  }

  lemma StillStands(st: State, st': State, step: Step, s: nat, j: nat)
    requires Inv(st) && InBounds(st) && Next(st, st', step) && j < |st.slots| && Stands(st, s, j)
    requires |st'.began| == |st.began| && st'.began[j] == s
    ensures Stands(st', s, j)
  {
  }

  /** How far a reader of a standing sample has come. */
  predicate OnTrack(rd: Reader, n: nat, log: seq<seq<byte>>) {
    rd.s < |log| &&
    match rd.pc
    case CopyOut(m, _) => m == |log[rd.s]| <= rd.room
    case LoadWatermark(bytes) => bytes == log[rd.s] && |bytes| <= rd.room
    case StoreWatermark(bytes) => bytes == log[rd.s] && |bytes| <= rd.room
    case Returned(Ok(bytes)) => bytes == log[rd.s] && |bytes| <= rd.room
    case Returned(Err(e)) =>
      (e == Overwritten && |log| > rd.s + n) || (e == BufferTooSmall && |log[rd.s]| > rd.room)
    case _ => true
  }

  lemma KeepsOnTrack(st: State, r: nat, i: nat)
    requires Inv(st) && InBounds(st) && r in st.readers
    requires var rd := st.readers[r];
             OnTrack(rd, |st.slots|, st.log) && Stands(st, rd.s, rd.slot) && st.log[rd.s] != []
    ensures OnTrack(ReaderNext(st, r, i).readers[r], |st.slots|, st.log)
  {
    var rd := st.readers[r];
    SlotAt(st, rd.slot);
    assert ReaderFits(rd, st.slots[rd.slot], st.began[rd.slot], st.log);
    if rd.pc.CopyOut? && i >= rd.pc.n && forall k: nat :: k < rd.pc.n ==> k in rd.pc.got {
      assert Assembled(rd.pc.n, rd.pc.got) == st.log[rd.s];
    }
  }

  lemma {:induction false} StaysOnTrack(states: seq<State>, steps: seq<Step>, n: nat, cap: nat, a: nat, k: nat, r: nat)
    requires Guarded(states, steps, n, cap) && a <= k < |states| && r in states[a].readers
    requires var rd := states[a].readers[r];
             && rd.s < |states[a].log| && states[a].log[rd.s] != [] && rd.pc == LoadWrite && rd.slot < n
             && Stands(states[a], rd.s, rd.slot) && |states[k].began| == n && states[k].began[rd.slot] == rd.s
    ensures r in states[k].readers && states[k].readers[r].(pc := LoadWrite) == states[a].readers[r]
    ensures |states[k].slots| == n && states[a].log <= states[k].log
    ensures Stands(states[k], states[a].readers[r].s, states[a].readers[r].slot)
    ensures OnTrack(states[k].readers[r], n, states[k].log)
  {
    ReaderStays(states, steps, n, cap, a, k, r);
    if a < k {
      var rd := states[a].readers[r];
      BeganGrowsOn(states, steps, n, cap, a, k - 1, rd.slot);
      BeganGrowsOn(states, steps, n, cap, k - 1, k, rd.slot);
      StaysOnTrack(states, steps, n, cap, a, k - 1, r);
      RunInv(states, steps, n, cap, k - 1);
      var st, step := states[k - 1], steps[k - 1];
      assert Next(st, states[k], step);
      StillStands(st, states[k], step, rd.s, rd.slot);
      if step.ReaderStep? && step.r == r { KeepsOnTrack(st, r, step.i); }
    }
  }

  /** A read that starts when write `s` is complete, and during which nothing begins to
      replace it, returns exactly its payload if it is among the last `n` writes and fits,
      and otherwise one of two errors for one of two reasons. */
  lemma FinishedIsRead(states: seq<State>, steps: seq<Step>, n: nat, cap: nat, a: nat, k: nat, r: nat)
    requires Guarded(states, steps, n, cap) && a < k < |states| && a < |steps| && steps[a].BeginRead? && steps[a].r == r
    requires var s := steps[a].s;
             && s < |states[a].log| && states[a].log[s] != [] && Stands(states[a], s, s % n)
             && |states[k].began| == n && states[k].began[s % n] == s
    requires r in states[k].readers && states[k].readers[r].pc.Returned?
    ensures var payload, o := states[a].log[steps[a].s], states[k].readers[r].pc.outcome;
            && (o == Ok(payload) || (o == Err(BufferTooSmall) && |payload| > steps[a].room)
                || (o == Err(Overwritten) && |states[k].log| > steps[a].s + n))
            && (o == Ok(payload) ==> |payload| <= steps[a].room)
            && (|states[k].log| <= steps[a].s + n && |payload| <= steps[a].room ==> o == Ok(payload))
  {
    RunInv(states, steps, n, cap, a);
    SizeStays(states, steps, n, cap, a);
    assert Next(states[a], states[a + 1], steps[a]);
    StaysOnTrack(states, steps, n, cap, a + 1, k, r);
  }

  // ---------------------------------------------------------- calls come to an end

  function ReaderRank(pc: ReaderPc): nat {
    match pc
    case LoadWrite => 6
    case LoadSeq => 5
    case LoadLen => 4
    case CopyOut(_, _) => 3
    case LoadWatermark(_) => 2
    case StoreWatermark(_) => 1
    case Returned(_) => 0
  }

  /** The bytes a read or write call still has to copy. */
  function ToCopy(n: nat, done: set<nat>): (left: set<nat>) { set k: nat | k < n && k !in done }

  function ReaderLeft(pc: ReaderPc): nat { if pc.CopyOut? then |ToCopy(pc.n, pc.got.Keys)| else 0 }

  /** The next byte to copy, or one past the end when all are copied. */
  lemma PickByte(n: nat, done: set<nat>) returns (i: nat)
    ensures if ToCopy(n, done) == {} then i == n else i in ToCopy(n, done)
  {
    i := n;
    if ToCopy(n, done) != {} { i :| i in ToCopy(n, done); }
  }

  lemma OneFewer(n: nat, done: set<nat>, i: nat)
    requires i in ToCopy(n, done)
    ensures |ToCopy(n, done + {i})| < |ToCopy(n, done)|
  {
    assert ToCopy(n, done + {i}) == ToCopy(n, done) - {i};
  }

  lemma ReaderStepsOn(rd: Reader, s: Slot, writeIndex: nat, readIndex: nat, n: nat) returns (i: nat)
    requires !rd.pc.Returned? && s.len <= |s.data| && (rd.pc.CopyOut? ==> rd.pc.n <= |s.data|)
    ensures rd.pc.CopyOut? && i < rd.pc.n ==> i !in rd.pc.got
    ensures var pc := ReaderAccess(rd, s, writeIndex, readIndex, n, i);
            || ReaderRank(pc) < ReaderRank(rd.pc)
            || (ReaderRank(pc) == ReaderRank(rd.pc) && ReaderLeft(pc) < ReaderLeft(rd.pc))
  {
    i := 0;
    if rd.pc.CopyOut? {
      i := PickByte(rd.pc.n, rd.pc.got.Keys);
      if i < rd.pc.n {
        assert rd.pc.got[i := s.data[i]].Keys == rd.pc.got.Keys + {i};
        OneFewer(rd.pc.n, rd.pc.got.Keys, i);
      } else {
        forall k: nat | k < rd.pc.n ensures k in rd.pc.got { assert k !in ToCopy(rd.pc.n, rd.pc.got.Keys); }
      }
    }
  }

  /** Where the read index ends up when the rest of a read call runs undisturbed. */
  function MarkAfter(rd: Reader, o: Outcome, readIndex: nat): nat {
    match rd.pc
    case Returned(_) => readIndex
    case StoreWatermark(_) => rd.s + 1
    case LoadWatermark(_) => if rd.s >= readIndex then rd.s + 1 else readIndex
    case _ => if o.Ok? && rd.consume && rd.s >= readIndex then rd.s + 1 else readIndex
  }

  /** What the rest of a read call answers when the slot does not change. */
  function Outlook(rd: Reader, s: Slot, writeIndex: nat, n: nat): Outcome
    requires s.len <= |s.data| && (rd.pc.CopyOut? ==> rd.pc.n <= |s.data|)
  {
    var copied := if s.len == 0 then Err(NotYetWritten) else if s.len > rd.room then Err(BufferTooSmall)
                  else if s.seqno != rd.s then Err(Overwritten) else Ok(s.data[..s.len]);
    var found := if s.seqno != rd.s then Err(NotYetWritten) else copied;
    match rd.pc
    case LoadWrite =>
      if rd.s >= writeIndex then Err(NoData) else if writeIndex - rd.s > n then Err(Overwritten) else found
    case LoadSeq => found
    case LoadLen => copied
    case CopyOut(m, got) =>
      if s.seqno != rd.s then Err(Overwritten)
      else Ok(seq(m, k requires 0 <= k < m => if k in got then got[k] else s.data[k]))
    case LoadWatermark(bytes) => Ok(bytes)
    case StoreWatermark(bytes) => Ok(bytes)
    case Returned(o) => o
  }

  lemma OutlookKept(rd: Reader, s: Slot, writeIndex: nat, readIndex: nat, n: nat, i: nat)
    requires s.len <= |s.data| && (rd.pc.CopyOut? ==> rd.pc.n <= |s.data|)
    requires rd.pc.CopyOut? && i < rd.pc.n ==> i !in rd.pc.got
    ensures Outlook(rd.(pc := ReaderAccess(rd, s, writeIndex, readIndex, n, i)), s, writeIndex, n)
         == Outlook(rd, s, writeIndex, n)
  {
    var rd' := rd.(pc := ReaderAccess(rd, s, writeIndex, readIndex, n, i));
    match rd.pc
    case LoadLen =>
      if rd'.pc.CopyOut? && s.seqno == rd.s {
        assert Outlook(rd', s, writeIndex, n).bytes == s.data[..s.len];
      }
    case CopyOut(m, got) =>
      if s.seqno == rd.s { assert Outlook(rd', s, writeIndex, n).bytes == Outlook(rd, s, writeIndex, n).bytes; }
    case _ =>
  }

  /** `st'` is `st` with read call `r` run to its end. */
  ghost predicate ReadOut(st: State, st': State, r: nat) {
    && r in st.readers && r in st'.readers && st'.readers[r].pc.Returned? && InBounds(st)
    && st.slots[st.readers[r].slot].len <= |st.slots[st.readers[r].slot].data|
    && st'.readers[r].pc.outcome
       == Outlook(st.readers[r], st.slots[st.readers[r].slot], st.writeIndex, |st.slots|)
    && st'.readers == st.readers[r := st.readers[r].(pc := st'.readers[r].pc)]
    && st'.writers == st.writers && st'.began == st.began && st'.log == st.log
    && (st.readers[r].pc.Returned? ==> st'.readers[r].pc == st.readers[r].pc)
    && (st.readers[r].pc.LoadWatermark? || st.readers[r].pc.StoreWatermark? ==> st'.readers[r].pc.outcome.Ok?)
    && st'.readIndex == MarkAfter(st.readers[r], st'.readers[r].pc.outcome, st.readIndex)
  }

  lemma ReadOutFrom(st: State, r: nat, i: nat, st': State)
    requires InBounds(st) && r in st.readers && !st.readers[r].pc.Returned?
    requires var pc := st.readers[r].pc; pc.CopyOut? && i < pc.n ==> i !in pc.got
    requires ReadOut(ReaderNext(st, r, i), st', r)
    ensures ReadOut(st, st', r)
  {
    OutlookKept(st.readers[r], st.slots[st.readers[r].slot], st.writeIndex, st.readIndex, |st.slots|, i);
  }

  /** From every reachable state a read call left to itself returns. */
  lemma {:induction false} ReaderReturns(states: seq<State>, steps: seq<Step>, n: nat, cap: nat, r: nat)
    returns (states': seq<State>, steps': seq<Step>)
    requires Guarded(states, steps, n, cap) && r in states[|steps|].readers
    ensures Guarded(states', steps', n, cap) && states <= states' && steps <= steps'
    ensures ReadOut(states[|steps|], states'[|steps'|], r)
    decreases ReaderRank(states[|steps|].readers[r].pc), ReaderLeft(states[|steps|].readers[r].pc)
  {
    states', steps' := states, steps;
    var st := states[|steps|];
    RunInv(states, steps, n, cap, |steps|);
    var rd := st.readers[r];
    SlotAt(st, rd.slot);
    if !rd.pc.Returned? {
      var i := ReaderStepsOn(rd, st.slots[rd.slot], st.writeIndex, st.readIndex, |st.slots|);
      var st' := ReaderNext(st, r, i);
      GuardedOn(states, steps, n, cap, st', ReaderStep(r, i));
      states', steps' := ReaderReturns(states + [st'], steps + [ReaderStep(r, i)], n, cap, r);
      ReadOutFrom(st, r, i, states'[|steps'|]);
    }
  }

  lemma GuardedOn(states: seq<State>, steps: seq<Step>, n: nat, cap: nat, st: State, step: Step)
    requires Guarded(states, steps, n, cap) && InBounds(states[|steps|]) && Next(states[|steps|], st, step)
    requires |st.slots| > 0 && OneWriterPerSlot(st.writers)
    ensures Guarded(states + [st], steps + [step], n, cap)
  {
  }

  function WriterRank(pc: WriterPc): nat {
    match pc
    case LoadRead => 7
    case AdvanceRead(_) => 6
    case Invalidate => 5
    case ZeroLen => 4
    case Copy(_) => 3
    case StoreLen => 2
    case Publish => 1
    case Finished => 0
  }

  function WriterLeft(wr: Writer): nat { if wr.pc.Copy? then |ToCopy(|wr.payload|, wr.pc.done)| else 0 }

  lemma WriterStepsOn(wr: Writer, s: Slot, readIndex: nat) returns (i: nat)
    requires !wr.pc.Finished? && |wr.payload| <= |s.data| && wr.idx < U64_MAX
    ensures var wr' := wr.(pc := WriterAccess(wr, s, readIndex, i).0);
            WriterRank(wr'.pc) < WriterRank(wr.pc)
            || (WriterRank(wr'.pc) == WriterRank(wr.pc) && WriterLeft(wr') < WriterLeft(wr))
  {
    i := 0;
    if wr.pc.Copy? {
      i := PickByte(|wr.payload|, wr.pc.done);
      if i < |wr.payload| {
        OneFewer(|wr.payload|, wr.pc.done, i);
      } else {
        forall k: nat | k < |wr.payload| ensures k in wr.pc.done { assert k !in ToCopy(|wr.payload|, wr.pc.done); }
      }
    }
  }

  /** Nobody else is in flight in the slot, and an active writer was the last to begin there. */
  ghost predicate Alone(st: State, w: nat) {
    && w in st.writers
    && forall v :: v in st.writers && v != w && !st.writers[v].pc.Finished? ==> st.writers[v].slot != st.writers[w].slot
  }

  lemma FinishesStanding(st: State, w: nat, i: nat)
    requires Inv(st) && InBounds(st) && Alone(st, w) && st.writers[w].pc.Publish?
    ensures var st', wr := WriterNext(st, w, i), st.writers[w];
            st'.writers[w].pc.Finished? && Stands(st', wr.idx, wr.slot)
  {
    assert WriterFits(st.writers[w], st.slots[st.writers[w].slot], st.began[st.writers[w].slot], st.log);
  }

  lemma StepsAlone(st: State, w: nat, i: nat)
    requires InBounds(st) && Alone(st, w) && !st.writers[w].pc.Finished? && OneWriterPerSlot(st.writers)
    ensures Alone(WriterNext(st, w, i), w) && OneWriterPerSlot(WriterNext(st, w, i).writers)
  {
  }

  /** Where the read index ends up when the rest of a write call runs undisturbed. */
  function PushAfter(wr: Writer, readIndex: nat, n: nat): nat
    requires n > 0
  {
    match wr.pc
    case LoadRead => if wr.idx >= readIndex + n then wr.idx - (n - 1) else readIndex
    case AdvanceRead(_) => ReadIndexAfter(wr, readIndex, n)
    case _ => readIndex
  }

  /** `st'` is `st` with write call `w` run to its end. */
  ghost predicate RanOut(st: State, st': State, w: nat) {
    && w in st.writers && 0 < |st.slots| == |st'.slots|
    && st'.writers == st.writers[w := st.writers[w].(pc := Finished)]
    && st'.log == st.log && st'.readers == st.readers && st'.writeIndex == st.writeIndex
    && st'.readIndex == PushAfter(st.writers[w], st.readIndex, |st.slots|)
    && Stands(st', st.writers[w].idx, st.writers[w].slot)
  }

  lemma RanOutFrom(st: State, w: nat, i: nat, st': State)
    requires InBounds(st) && w in st.writers && !st.writers[w].pc.Finished?
    requires RanOut(WriterNext(st, w, i), st', w)
    ensures RanOut(st, st', w)
  {
  }

  /** From every reachable state a write call left to itself finishes, and its sample stands. */
  lemma {:induction false} WriterFinishes(states: seq<State>, steps: seq<Step>, n: nat, cap: nat, w: nat)
    returns (states': seq<State>, steps': seq<Step>)
    requires Guarded(states, steps, n, cap) && Alone(states[|steps|], w) && !states[|steps|].writers[w].pc.Finished?
    ensures Guarded(states', steps', n, cap) && states <= states' && steps <= steps'
    ensures RanOut(states[|steps|], states'[|steps'|], w)
    decreases WriterRank(states[|steps|].writers[w].pc), WriterLeft(states[|steps|].writers[w])
  {
    var st := states[|steps|];
    RunInv(states, steps, n, cap, |steps|);
    var wr := st.writers[w];
    var i := WriterStepsOn(wr, st.slots[wr.slot], st.readIndex);
    var st' := WriterNext(st, w, i);
    StepsAlone(st, w, i);
    GuardedOn(states, steps, n, cap, st', WriterStep(w, i));
    states', steps' := states + [st'], steps + [WriterStep(w, i)];
    if wr.pc.Publish? {
      FinishesStanding(st, w, i);
    } else {
      states', steps' := WriterFinishes(states', steps', n, cap, w);
      RanOutFrom(st, w, i, states'[|steps'|]);
    }
  }

  predicate Resting(ws: map<nat, Writer>) { forall w :: w in ws ==> ws[w].pc.Finished? }

  /** A write call begun while no other is in flight finishes, its sample stands, and the
      read index moves exactly when it is a ring behind. */
  lemma WriteAlone(states: seq<State>, steps: seq<Step>, n: nat, cap: nat, w: nat, payload: seq<byte>)
    returns (states': seq<State>, steps': seq<Step>)
    requires Guarded(states, steps, n, cap) && Resting(states[|steps|].writers)
    requires states[|steps|].writeIndex < U64_MAX && w !in states[|steps|].writers && |payload| <= states[|steps|].cap
    ensures Guarded(states', steps', n, cap) && states <= states' && steps <= steps'
    ensures var st, st' := states[|steps|], states'[|steps'|];
            && Resting(st'.writers) && st'.readers == st.readers && n > 0 && st'.log == st.log + [payload]
            && Stands(st', |st.log|, |st.log| % n)
            && st'.readIndex == if |st.log| >= st.readIndex + n then |st.log| - (n - 1) else st.readIndex
  {
    var st := states[|steps|];
    RunInv(states, steps, n, cap, |steps|);
    SizeStays(states, steps, n, cap, |steps|);
    GuardedOn(states, steps, n, cap, Reserved(st, w, payload), BeginWrite(w, payload));
    states', steps' := WriterFinishes(states + [Reserved(st, w, payload)], steps + [BeginWrite(w, payload)], n, cap, w);
  }

  /** A read call left to itself returns a standing sample among the last `n` writes, and
      the read index moves past it exactly when the call consumes and is not behind. */
  lemma ReadAlone(states: seq<State>, steps: seq<Step>, n: nat, cap: nat, r: nat, s: nat, room: nat, consume: bool)
    returns (states': seq<State>, steps': seq<Step>)
    requires Guarded(states, steps, n, cap) && r !in states[|steps|].readers && n > 0
    requires var st := states[|steps|];
             s < |st.log| <= s + n && 0 < |st.log[s]| <= room && Stands(st, s, s % n)
    ensures Guarded(states', steps', n, cap) && states <= states' && steps <= steps'
    ensures var st, st' := states[|steps|], states'[|steps'|];
            && st'.writers == st.writers && st'.log == st.log && r in st'.readers
            && st'.readers[r].s == s && st'.readers[r].pc == Returned(Ok(st.log[s]))
            && st'.readIndex == if consume && s >= st.readIndex then s + 1 else st.readIndex
  {
    var st := states[|steps|];
    RunInv(states, steps, n, cap, |steps|);
    SizeStays(states, steps, n, cap, |steps|);
    var step := BeginRead(r, s, room, consume);
    var st1 := st.(readers := st.readers[r := Reader(s, At(st, s), room, consume, LoadWrite)]);
    GuardedOn(states, steps, n, cap, st1, step);
    states', steps' := ReaderReturns(states + [st1], steps + [step], n, cap, r);
    assert states'[|steps|] == st && states'[|steps| + 1] == st1 && steps'[|steps|] == step;
    SizeStays(states', steps', n, cap, |steps'|);
    RunInv(states', steps', n, cap, |steps'|);
    ReaderStays(states', steps', n, cap, |steps| + 1, |steps'|, r);
    FinishedIsRead(states', steps', n, cap, |steps|, |steps'|, r);
  }

  /** In every reachable state with no write in flight, a payload written and then read
      back without interference comes back as it was written. */
  lemma WriteThenRead(
      states: seq<State>, steps: seq<Step>, n: nat, cap: nat, w: nat, payload: seq<byte>,
      r: nat, room: nat, consume: bool)
    returns (states': seq<State>, steps': seq<Step>)
    requires Guarded(states, steps, n, cap) && n > 0 && Resting(states[|steps|].writers)
    requires var st := states[|steps|];
             && st.writeIndex < U64_MAX && w !in st.writers && r !in st.readers
             && 0 < |payload| <= st.cap && |payload| <= room
    ensures Guarded(states', steps', n, cap) && states <= states' && steps <= steps'
    ensures var st := states'[|steps'|];
            && Resting(st.writers) && r in st.readers && st.readers[r].s == |states[|steps|].log|
            && st.readers[r].pc == Returned(Ok(payload))
  {
    states', steps' := WriteAlone(states, steps, n, cap, w, payload);
    states', steps' := ReadAlone(states', steps', n, cap, r, |states[|steps|].log|, room, consume);
  }

  // ------------------------------------------------- interleaving refines the calls

  ghost predicate Owned(ws: map<nat, Writer>, s: nat) { exists w :: w in ws && ws[w].idx == s }

  predicate InItsSlot(s: int, j: nat, n: nat)
    requires n > 0
  {
    s % n == j
  }

  predicate WriterBooked(wr: Writer, began: seq<int>)
    requires |began| > 0
  {
    && wr.slot < |began| && InItsSlot(wr.idx, wr.slot, |began|)
    && (Active(wr.pc) || wr.pc.Finished? ==> wr.idx <= began[wr.slot])
  }

  /** Every number reserved belongs to a write call, in its slot, and what began last in a
      slot belongs there and is no older than any write that got so far. */
  ghost predicate Booked(st: State) {
    && |st.began| > 0
    && (forall s: nat :: s < |st.log| ==> Owned(st.writers, s))
    && (forall w :: w in st.writers ==> WriterBooked(st.writers[w], st.began))
    && (forall j: nat :: j < |st.began| ==> st.began[j] == -1 || InItsSlot(st.began[j], j, |st.began|))
  }

  lemma StillOwned(ws: map<nat, Writer>, w: nat, wr: Writer, s: nat)
    requires Owned(ws, s) && (w in ws ==> ws[w].idx == wr.idx)
    ensures Owned(ws[w := wr], s)
  {
    var v :| v in ws && ws[v].idx == s;
    assert v in ws[w := wr] && ws[w := wr][v].idx == s;
  }

  lemma ReservingBooks(st: State, w: nat, payload: seq<byte>)
    requires Inv(st) && Booked(st) && w !in st.writers
    ensures Booked(Reserved(st, w, payload))
  {
    var st' := Reserved(st, w, payload);
    forall s: nat | s < |st'.log| ensures Owned(st'.writers, s) {
      if s == |st.log| {
        assert w in st'.writers && st'.writers[w].idx == s;
      } else {
        StillOwned(st.writers, w, st'.writers[w], s);
      }
    }
    assert WriterBooked(st'.writers[w], st.began);
  }

  lemma WriterStepBooks(wr: Writer, pc: WriterPc, began: seq<int>)
    requires |began| > 0 && WriterBooked(wr, began)
    requires Active(pc) || pc.Finished? ==> Active(wr.pc) || wr.pc.Finished? || wr.pc.Invalidate?
    requires wr.pc.Invalidate? ==> began[wr.slot] < wr.idx
    ensures var began' := if wr.pc.Invalidate? then began[wr.slot := wr.idx] else began;
            WriterBooked(wr.(pc := pc), began') && forall j :: 0 <= j < |began| ==> began[j] <= began'[j]
  {
  }

  lemma WritingBooks(st: State, w: nat, i: nat)
    requires Inv(st) && InBounds(st) && Booked(st) && w in st.writers
    ensures Booked(WriterNext(st, w, i))
  {
    var st', wr := WriterNext(st, w, i), st.writers[w];
    assert WriterFits(wr, st.slots[wr.slot], st.began[wr.slot], st.log);
    WriterStepBooks(wr, st'.writers[w].pc, st.began);
    forall s: nat | s < |st'.log| ensures Owned(st'.writers, s) { StillOwned(st.writers, w, st'.writers[w], s); }
    forall v | v in st'.writers ensures WriterBooked(st'.writers[v], st'.began) {
      if v != w { assert WriterBooked(st.writers[v], st.began); }
    }
  }

  lemma {:induction false} RunBooks(states: seq<State>, steps: seq<Step>, n: nat, cap: nat, k: nat)
    requires Guarded(states, steps, n, cap) && k < |states|
    ensures Booked(states[k])
  {
    if k > 0 {
      RunBooks(states, steps, n, cap, k - 1);
      RunInv(states, steps, n, cap, k - 1);
      StepBooks(states[k - 1], states[k], steps[k - 1]);
    }
  }

  lemma StepBooks(st: State, st': State, step: Step)
    requires Inv(st) && InBounds(st) && Booked(st) && Next(st, st', step)
    ensures Booked(st')
  {
    match step
    case BeginWrite(w, payload) => ReservingBooks(st, w, payload);
    case WriterStep(w, i) => WritingBooks(st, w, i);
    case _ =>
  }

  /** With no write in flight the last `n` samples stand. */
  lemma RestingStands(st: State, s: nat)
    requires Inv(st) && Booked(st) && Resting(st.writers) && s < |st.log| <= s + |st.slots|
    ensures Stands(st, s, s % |st.slots|)
  {
    var n, j := |st.slots|, s % |st.slots|;
    assert Owned(st.writers, s);
    var w :| w in st.writers && st.writers[w].idx == s;
    assert WriterBooked(st.writers[w], st.began);
    SlotAt(st, j);
    var b := st.began[j];
    if b > s { ByteRing.NearbyIndicesDiffer(s, b, n); }
  }

  function AsOutcome(r: ByteRing.Result<seq<byte>, ReadError>): Outcome {
    match r case Ok(bytes) => Ok(bytes) case Err(e) => Err(e)
  }

  /** From every reachable state with no write in flight, a read call left to itself gives
      for every number and every buffer the answer of the ring taken call by call. */
  lemma RestingReadIsCall(
      states: seq<State>, steps: seq<Step>, n: nat, cap: nat, r: nat, s: nat, room: nat, consume: bool)
    returns (states': seq<State>, steps': seq<Step>)
    requires Guarded(states, steps, n, cap) && Resting(states[|steps|].writers) && r !in states[|steps|].readers
    ensures Guarded(states', steps', n, cap) && states <= states' && steps <= steps'
    ensures var st, st' := states[|steps|], states'[|steps'|];
            var o := AsOutcome(ByteRing.LogRead(st.log, n, s, room));
            && st'.writers == st.writers && st'.log == st.log && r in st'.readers
            && st'.readers[r].pc == Returned(o)
            && st'.readIndex == if o.Ok? && consume && s >= st.readIndex then s + 1 else st.readIndex
  {
    var st := states[|steps|];
    RunInv(states, steps, n, cap, |steps|);
    SizeStays(states, steps, n, cap, |steps|);
    RunBooks(states, steps, n, cap, |steps|);
    var step := BeginRead(r, s, room, consume);
    var st1 := st.(readers := st.readers[r := Reader(s, At(st, s), room, consume, LoadWrite)]);
    GuardedOn(states, steps, n, cap, st1, step);
    states', steps' := ReaderReturns(states + [st1], steps + [step], n, cap, r);
    if s < |st.log| <= s + n {
      RestingStands(st, s);
      SlotAt(st, s % n);
    }
  }

  // ------------------------------------------------------- the first sample is special

  /** `st'` is `st` with write call `w` run up to its last store. */
  ghost predicate NearEnd(st: State, st': State, w: nat) {
    && w in st.writers && w in st'.writers && st'.writers[w] == st.writers[w].(pc := Publish)
    && st'.log == st.log && st'.readers == st.readers
  }

  lemma NearEndFrom(st: State, w: nat, i: nat, st': State)
    requires InBounds(st) && w in st.writers && NearEnd(WriterNext(st, w, i), st', w)
    ensures NearEnd(st, st', w)
  {
  }

  lemma {:induction false} WriterNearsEnd(states: seq<State>, steps: seq<Step>, n: nat, cap: nat, w: nat)
    returns (states': seq<State>, steps': seq<Step>)
    requires Guarded(states, steps, n, cap) && Alone(states[|steps|], w) && !states[|steps|].writers[w].pc.Finished?
    ensures Guarded(states', steps', n, cap) && states <= states' && steps <= steps'
    ensures NearEnd(states[|steps|], states'[|steps'|], w)
    decreases WriterRank(states[|steps|].writers[w].pc), WriterLeft(states[|steps|].writers[w])
  {
    states', steps' := states, steps;
    var st := states[|steps|];
    RunInv(states, steps, n, cap, |steps|);
    var wr := st.writers[w];
    if !wr.pc.Publish? {
      var i := WriterStepsOn(wr, st.slots[wr.slot], st.readIndex);
      StepsAlone(st, w, i);
      GuardedOn(states, steps, n, cap, WriterNext(st, w, i), WriterStep(w, i));
      states', steps' := WriterNearsEnd(states + [WriterNext(st, w, i)], steps + [WriterStep(w, i)], n, cap, w);
      NearEndFrom(st, w, i, states'[|steps'|]);
    }
  }

  /** Write 0 and a read of 0 have begun; the reader stands at `pc`. */
  ghost predicate Opening(st: State, n: nat, cap: nat, payload: seq<byte>, room: nat, pc: ReaderPc) {
    && InBounds(st) && |st.slots| == n && st.slots[0] == Zeroed(cap) && st.writeIndex == 1 && st.log == [payload]
    && st.writers == map[0 := Writer(0, 0, payload, LoadRead)]
    && st.readers == map[0 := Reader(0, 0, room, false, pc)]
  }

  lemma Opens(n: nat, cap: nat, payload: seq<byte>, room: nat) returns (states: seq<State>, steps: seq<Step>)
    requires n > 0 && |payload| <= cap
    ensures Guarded(states, steps, n, cap) && Opening(states[|steps|], n, cap, payload, room, LoadWrite)
  {
    var s0 := State(0, 0, cap, seq(n, _ => Zeroed(cap)), map[], map[], [], seq(n, _ => -1));
    var s1 := Reserved(s0, 0, payload);
    var s2 := s1.(readers := s1.readers[0 := Reader(0, At(s1, 0), room, false, LoadWrite)]);
    states, steps := [s0], [];
    GuardedOn(states, steps, n, cap, s1, BeginWrite(0, payload));
    states, steps := states + [s1], steps + [BeginWrite(0, payload)];
    GuardedOn(states, steps, n, cap, s2, BeginRead(0, 0, room, false));
    states, steps := states + [s2], steps + [BeginRead(0, 0, room, false)];
  }

  lemma OpeningStep(states: seq<State>, steps: seq<Step>, n: nat, cap: nat, payload: seq<byte>, room: nat, pc: ReaderPc)
    returns (states': seq<State>, steps': seq<Step>)
    requires Guarded(states, steps, n, cap) && n > 0 && Opening(states[|steps|], n, cap, payload, room, pc)
    requires pc.LoadWrite? || pc.LoadSeq?
    ensures Guarded(states', steps', n, cap)
    ensures Opening(states'[|steps'|], n, cap, payload, room, if pc.LoadWrite? then LoadSeq else LoadLen)
  {
    var st := ReaderNext(states[|steps|], 0, 0);
    GuardedOn(states, steps, n, cap, st, ReaderStep(0, 0));
    states', steps' := states + [st], steps + [ReaderStep(0, 0)];
  }

  /** On every ring and for every first payload: a reader of sample 0 can be told that it
      was overwritten although it is the only sample and was never replaced. */
  lemma FirstReadMayFail(n: nat, cap: nat, payload: seq<byte>, room: nat)
    returns (states: seq<State>, steps: seq<Step>)
    requires n > 0 && 0 < |payload| <= cap && |payload| <= room
    ensures Guarded(states, steps, n, cap)
    ensures var st := states[|steps|];
            && st.log == [payload] && 0 in st.readers && st.readers[0].s == 0
            && st.readers[0].pc == Returned(Err(Overwritten))
  {
    states, steps := Opens(n, cap, payload, room);
    states, steps := OpeningStep(states, steps, n, cap, payload, room, LoadWrite);
    states, steps := OpeningStep(states, steps, n, cap, payload, room, LoadSeq);
    states, steps := WriterNearsEnd(states, steps, n, cap, 0);
    RunInv(states, steps, n, cap, |steps|);
    var st := states[|steps|];
    assert WriterFits(st.writers[0], st.slots[0], st.began[0], st.log);
    states, steps := ReaderReturns(states, steps, n, cap, 0);
  }
}
