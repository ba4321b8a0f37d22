/** The per-(peer, topic) send pipeline of `quic_transport.rs`: publishers push,
    one worker prepares up to four messages at once and writes them in order,
    reconnecting as often as it takes. Every lock section, notification and
    await is a step of its own. */
module SendPipeline {
  import opened Bytes

  const TOPIC_PREPARE_DEPTH: nat := 4
  const UNLIMITED: nat := U64_MAX

  datatype Publication = Publication(id: u64, bytes: seq<byte>)

  /** A publication and its place among all publications on this pipeline. */
  datatype Item = Item(pos: nat, data: Publication)

  datatype Job = Job(item: Item, done: bool)

  datatype Pc = Filling | Selecting | Sleeping | Writing

  datatype State = State(
    published: seq<Publication>,        // everything pushed so far, in order
    queue: seq<Item>,      // waiting in the shared slot
    preparing: seq<Job>,   // taken by the worker, being compressed and sealed
    inHand: seq<Item>,     // at most one: prepared and being written
    written: seq<Item>,    // completely written to a stream, in order
    pc: Pc,
    connected: bool,
    permit: bool,             // the stored wake-up
    unsignalled: nat)         // pushes between leaving the lock and notifying

  datatype Step =
    | Push(data: Publication, depth: nat)
    | Signal
    | Take
    | StopTaking
    | Prepared(k: nat)
    | PickReady
    | PickWake
    | Wake
    | Connect
    | WriteFails
    | WriteDone

  // ---------------------------------------------------------------- pushing

  /** The queue after a push: a bounded push first drops the oldest. */
  function Pushed(q: seq<Item>, depth: nat, x: Item): (r: seq<Item>)
    ensures |r| > 0 && r[|r| - 1] == x
  {
    if depth == UNLIMITED then q + [x]
    else
      var capacity := if depth == 0 then 1 else depth;
      q[if |q| >= capacity then |q| - capacity + 1 else 0..] + [x]
  }

  /** The shared slot. */
  class RawDataSlot {
    var data: seq<Item>

    constructor ()
      ensures data == []
    {
      data := [];
    }

    method Enqueue(depth: nat, x: Item)
      modifies this
      ensures data == Pushed(old(data), depth, x)
      ensures depth == UNLIMITED ==> data == old(data) + [x]
      ensures depth != UNLIMITED ==>
                && |data| == Min(|old(data)| + 1, if depth == 0 then 1 else depth)
                && data == old(data)[|old(data)| + 1 - |data|..] + [x]
    {
      if depth != UNLIMITED {
        var capacity := if depth == 0 then 1 else depth;
        ghost var dropped := 0;
        while |data| >= capacity
          invariant dropped <= |old(data)| && data == old(data)[dropped..]
          invariant dropped > 0 ==> |data| >= capacity - 1
        {
          data := data[1..];
          dropped := dropped + 1;
        }
      }
      data := data + [x];
    }
  }

  // ------------------------------------------------------------------ steps

  predicate Enabled(s: State, a: Step) {
    match a
    case Push(_, _) => true
    case Signal => s.unsignalled > 0
    case Take => s.pc == Filling && |s.preparing| < TOPIC_PREPARE_DEPTH && s.queue != []
    case StopTaking => s.pc == Filling && (|s.preparing| >= TOPIC_PREPARE_DEPTH || s.queue == [])
    case Prepared(k) => k < |s.preparing| && !s.preparing[k].done
    case PickReady => s.pc == Selecting && s.preparing != [] && s.preparing[0].done
    case PickWake => s.pc == Selecting && |s.preparing| < TOPIC_PREPARE_DEPTH && s.permit
    case Wake => s.pc == Sleeping && s.permit
    case Connect => s.pc == Writing && !s.connected
    case WriteFails => s.pc == Writing && s.connected
    case WriteDone => s.pc == Writing && s.connected && s.inHand != []
  }

  function Next(s: State, a: Step): (r: State)
    requires Enabled(s, a)
  {
    match a
    case Push(data, depth) =>
      s.(published := s.published + [data], queue := Pushed(s.queue, depth, Item(|s.published|, data)),
         unsignalled := s.unsignalled + 1)
    case Signal => s.(unsignalled := s.unsignalled - 1, permit := true)
    case Take => s.(queue := s.queue[1..], preparing := s.preparing + [Job(s.queue[0], false)])
    case StopTaking => s.(pc := if s.preparing == [] then Sleeping else Selecting)
    case Prepared(k) => s.(preparing := s.preparing[k := s.preparing[k].(done := true)])
    case PickReady => s.(inHand := [s.preparing[0].item], preparing := s.preparing[1..], pc := Writing)
    case PickWake => s.(permit := false, pc := Filling)
    case Wake => s.(permit := false, pc := Filling)
    case Connect => s.(connected := true)
    case WriteFails => s.(connected := false)
    case WriteDone => s.(written := s.written + s.inHand, inHand := [], pc := Filling)
  }

  function Start(): State { State([], [], [], [], [], Filling, false, false, 0) }

  predicate Run(states: seq<State>, steps: seq<Step>) {
    && |states| == |steps| + 1 && states[0] == Start()
    && forall i :: 0 <= i < |steps| ==> Enabled(states[i], steps[i]) && states[i + 1] == Next(states[i], steps[i])
  }

  // -------------------------------------------------------------- invariants

  function Items(jobs: seq<Job>): (r: seq<Item>)
    ensures |r| == |jobs| && forall i :: 0 <= i < |jobs| ==> r[i] == jobs[i].item
  {
    seq(|jobs|, i requires 0 <= i < |jobs| => jobs[i].item)
  }

  /** Taken from the queue, in the order it was taken. */
  function Taken(s: State): seq<Item> { s.written + s.inHand + Items(s.preparing) }

  /** Everything not dropped, oldest first. */
  function Chain(s: State): seq<Item> { Taken(s) + s.queue }

  predicate Genuine(x: Item, published: seq<Publication>) { x.pos < |published| && x.data == published[x.pos] }

  /** Publications in publication order, none twice, unaltered. */
  predicate InOrder(xs: seq<Item>, published: seq<Publication>) {
    && (forall i :: 0 <= i < |xs| ==> Genuine(xs[i], published))
    && (forall i, j :: 0 <= i < j < |xs| ==> xs[i].pos < xs[j].pos)
  }

  /** The queue holds the newest publications, without gaps. */
  predicate NewestOf(q: seq<Item>, published: seq<Publication>) {
    |q| <= |published| && forall i :: 0 <= i < |q| ==>
      q[i] == Item(|published| - |q| + i, published[|published| - |q| + i])
  }

  /** `taken` precedes the queue; the newest publication is in one of them. */
  predicate Ordered(taken: seq<Item>, queue: seq<Item>, published: seq<Publication>) {
    && NewestOf(queue, published) && InOrder(taken, published)
    && (forall i :: 0 <= i < |taken| ==> taken[i].pos < |published| - |queue|)
    && (queue == [] && published != [] ==> taken != [] && taken[|taken| - 1].pos == |published| - 1)
  }

  /** Where the worker stands, and why it may sleep. */
  predicate Control(s: State) {
    && |s.preparing| <= TOPIC_PREPARE_DEPTH
    && |s.inHand| == (if s.pc == Writing then 1 else 0)
    && (s.pc == Sleeping ==> s.preparing == [])
    && (s.pc == Selecting ==> s.preparing != [])
    && ((s.pc == Sleeping || (s.pc == Selecting && |s.preparing| < TOPIC_PREPARE_DEPTH)) && s.queue != [] ==>
          s.permit || s.unsignalled > 0)
  }

  predicate Inv(s: State) { Ordered(Taken(s), s.queue, s.published) && Control(s) }

  lemma ControlKept(s: State, a: Step)
    requires Control(s) && Enabled(s, a)
    ensures Control(Next(s, a))
  {
  }

  /** Dropping from the front keeps the newest. */
  lemma DropKeepsNewest(q: seq<Item>, published: seq<Publication>, k: nat)
    requires NewestOf(q, published) && k <= |q|
    ensures NewestOf(q[k..], published)
  {
    forall i | 0 <= i < |q| - k
      ensures q[k..][i] == Item(|published| - (|q| - k) + i, published[|published| - (|q| - k) + i])
    {
      assert q[k..][i] == q[k + i];
    }
  }

  lemma AppendKeepsNewest(q: seq<Item>, published: seq<Publication>, data: Publication)
    requires NewestOf(q, published)
    ensures NewestOf(q + [Item(|published|, data)], published + [data])
  {
  }

  lemma PushOrdered(taken: seq<Item>, q: seq<Item>, published: seq<Publication>, data: Publication, depth: nat)
    requires Ordered(taken, q, published)
    ensures Ordered(taken, Pushed(q, depth, Item(|published|, data)), published + [data])
  {
    var p' := published + [data];
    var capacity := if depth == 0 then 1 else depth;
    var k := if depth != UNLIMITED && |q| >= capacity then |q| - capacity + 1 else 0;
    assert q[0..] == q;
    assert Pushed(q, depth, Item(|published|, data)) == q[k..] + [Item(|published|, data)];
    DropKeepsNewest(q, published, k);
    AppendKeepsNewest(q[k..], published, data);
    forall i | 0 <= i < |taken| ensures Genuine(taken[i], p') { assert Genuine(taken[i], published); }
  }

  lemma TakeOrdered(taken: seq<Item>, q: seq<Item>, published: seq<Publication>)
    requires Ordered(taken, q, published) && q != []
    ensures Ordered(taken + [q[0]], q[1..], published)
  {
    assert Genuine(q[0], published);
  }

  lemma Regroup(a: seq<Item>, x: Item, c: seq<Item>)
    ensures a + [] + ([x] + c) == a + [x] + c
  {
  }

  lemma PickKeepsTaken(s: State)
    requires Control(s) && Enabled(s, PickReady)
    ensures Taken(Next(s, PickReady)) == Taken(s)
  {
    var x, rest := s.preparing[0].item, Items(s.preparing[1..]);
    assert Items(s.preparing) == [x] + rest;
    Regroup(s.written, x, rest);
  }

  /** Only taking from the queue extends what was taken; the other steps move
      messages along without touching their order. */
  lemma TakenAfter(s: State, a: Step)
    requires Control(s) && Enabled(s, a)
    ensures Taken(Next(s, a)) == if a.Take? then Taken(s) + [s.queue[0]] else Taken(s)
  {
    var s' := Next(s, a);
    match a
    case Take =>
      assert Items(s'.preparing) == Items(s.preparing) + [s.queue[0]];
      assert Taken(s') == Taken(s) + [s.queue[0]];
    case Prepared(k) => assert Items(s'.preparing) == Items(s.preparing);
    case PickReady => PickKeepsTaken(s);
    case WriteDone => assert s'.written + s'.inHand == s.written + s.inHand;
    case _ =>
  }

  lemma NextKeeps(s: State, a: Step)
    requires Inv(s) && Enabled(s, a)
    ensures Inv(Next(s, a))
  {
    ControlKept(s, a);
    TakenAfter(s, a);
    match a
    case Push(data, depth) => PushOrdered(Taken(s), s.queue, s.published, data, depth);
    case Take => TakeOrdered(Taken(s), s.queue, s.published);
    case _ =>
  }

  lemma {:induction false} RunInv(states: seq<State>, steps: seq<Step>, n: nat)
    requires Run(states, steps) && n <= |steps|
    ensures Inv(states[n])
  {
    if n > 0 {
      RunInv(states, steps, n - 1);
      NextKeeps(states[n - 1], steps[n - 1]);
    }
  }

  lemma ChainInOrder(taken: seq<Item>, q: seq<Item>, published: seq<Publication>)
    requires Ordered(taken, q, published)
    ensures InOrder(taken + q, published)
    ensures published != [] ==> taken + q != [] && (taken + q)[|taken + q| - 1].pos == |published| - 1
  {
    forall i | 0 <= i < |taken + q| ensures Genuine((taken + q)[i], published) {
      if i < |taken| { assert Genuine(taken[i], published); }
    }
  }

  /** In every run: what was written, is being written, prepared or queued is an
      in-order subsequence of the publications that includes the newest one, and
      at most four are prepared. */
  lemma PipelineKeepsOrder(states: seq<State>, steps: seq<Step>, n: nat)
    requires Run(states, steps) && n <= |steps|
    ensures InOrder(Chain(states[n]), states[n].published) && |states[n].preparing| <= TOPIC_PREPARE_DEPTH
    ensures states[n].published != [] ==>
              Chain(states[n]) != [] && Chain(states[n])[|Chain(states[n])| - 1].pos == |states[n].published| - 1
  {
    RunInv(states, steps, n);
    ChainInOrder(Taken(states[n]), states[n].queue, states[n].published);
  }

  /** Written messages are never taken back. */
  lemma {:induction false} WrittenGrows(states: seq<State>, steps: seq<Step>, m: nat, n: nat)
    requires Run(states, steps) && m <= n <= |steps|
    ensures states[m].written <= states[n].written
  {
    if m < n { WrittenGrows(states, steps, m, n - 1); }
  }

  predicate Lossless(steps: seq<Step>) {
    forall i :: 0 <= i < |steps| && steps[i].Push? ==> steps[i].depth == UNLIMITED
  }

  /** Every publication, in order. */
  predicate Complete(xs: seq<Item>, published: seq<Publication>) {
    |xs| == |published| && forall i :: 0 <= i < |xs| ==> xs[i] == Item(i, published[i])
  }

  lemma {:induction false} UnlimitedKeepsCount(states: seq<State>, steps: seq<Step>, n: nat)
    requires Run(states, steps) && n <= |steps| && Lossless(steps)
    ensures |Chain(states[n])| == |states[n].published|
  {
    if n > 0 {
      UnlimitedKeepsCount(states, steps, n - 1);
      RunInv(states, steps, n - 1);
      TakenAfter(states[n - 1], steps[n - 1]);
    }
  }

  /** Increasing positions below the count, as many as the count, are all of them. */
  lemma {:induction false} PositionsAtLeast(xs: seq<Item>, published: seq<Publication>, i: nat)
    requires InOrder(xs, published) && i < |xs|
    ensures xs[i].pos >= i
  {
    if i > 0 { PositionsAtLeast(xs, published, i - 1); }
  }

  lemma {:induction false} PositionsAtMost(xs: seq<Item>, published: seq<Publication>, i: nat)
    requires InOrder(xs, published) && i < |xs| == |published|
    ensures xs[i].pos <= i
    decreases |xs| - i
  {
    assert Genuine(xs[i], published);
    if i + 1 < |xs| { PositionsAtMost(xs, published, i + 1); }
  }

  /** When every push is unlimited, nothing is missing, whatever retries and
      reconnects happen. */
  lemma UnlimitedLosesNothing(states: seq<State>, steps: seq<Step>, n: nat)
    requires Run(states, steps) && n <= |steps| && Lossless(steps)
    ensures Complete(Chain(states[n]), states[n].published)
  {
    PipelineKeepsOrder(states, steps, n);
    UnlimitedKeepsCount(states, steps, n);
    var xs, published := Chain(states[n]), states[n].published;
    forall i | 0 <= i < |xs| ensures xs[i] == Item(i, published[i]) {
      PositionsAtLeast(xs, published, i);
      PositionsAtMost(xs, published, i);
      assert Genuine(xs[i], published);
    }
  }

  function Capacity(depth: nat): (c: nat) { if depth == 0 then 1 else depth }

  /** A bounded push drops just enough of the oldest to leave its depth waiting, and takes
      nothing from the worker; with the newest kept without gaps this fixes the queue. */
  lemma BoundedPushKeepsNewest(states: seq<State>, steps: seq<Step>, n: nat)
    requires Run(states, steps) && n < |steps| && steps[n].Push? && steps[n].depth != UNLIMITED
    ensures |states[n + 1].queue| == Min(|states[n].queue| + 1, Capacity(steps[n].depth))
    ensures NewestOf(states[n + 1].queue, states[n + 1].published)
    ensures Taken(states[n + 1]) == Taken(states[n])
  {
    RunInv(states, steps, n);
    RunInv(states, steps, n + 1);
  }

  /** In every run, a queued message leaves the queue only when the worker takes it as the
      oldest, or by a bounded push that finds at least its depth queued, as one of the
      oldest. */
  lemma LeavesQueueOnlyIf(states: seq<State>, steps: seq<Step>, n: nat, i: nat)
    requires Run(states, steps) && n < |steps| && i < |states[n].queue|
    ensures
      || states[n].queue[i] in states[n + 1].queue
      || (steps[n].Take? && i == 0)
      || (steps[n].Push? && steps[n].depth != UNLIMITED && |states[n].queue| >= Capacity(steps[n].depth)
          && i <= |states[n].queue| - Capacity(steps[n].depth))
  {
    var s, s', x := states[n], states[n + 1], states[n].queue[i];
    match steps[n]
    case Take => if i > 0 { assert s'.queue[i - 1] == x; }
    case Push(_, depth) =>
      var k := if depth != UNLIMITED && |s.queue| >= Capacity(depth) then |s.queue| - Capacity(depth) + 1 else 0;
      if i >= k { assert s'.queue[i - k] == x; }
    case _ =>
  }

  /** The worker stops taking only with four messages in preparation or an empty queue. */
  lemma StopsOnlyWhenFull(states: seq<State>, steps: seq<Step>, n: nat)
    requires Run(states, steps) && n < |steps| && steps[n].StopTaking?
    ensures |states[n].preparing| == 4 || states[n].queue == []
  {
    RunInv(states, steps, n);
  }

  /** Nothing left to do: no push is about to signal and the worker sleeps unwoken. */
  predicate Quiet(s: State) { s.pc == Sleeping && !s.permit && s.unsignalled == 0 }

  /** No wake-up is lost: a worker that sleeps for good has written everything it
      took and left nothing queued; with unlimited pushes that is every publication. */
  lemma QuietMeansDelivered(states: seq<State>, steps: seq<Step>, n: nat)
    requires Run(states, steps) && n <= |steps| && Quiet(states[n])
    ensures Chain(states[n]) == states[n].written
    ensures states[n].published != [] ==>
              states[n].written != [] && states[n].written[|states[n].written| - 1].pos == |states[n].published| - 1
    ensures Lossless(steps) ==> Complete(states[n].written, states[n].published)
  {
    RunInv(states, steps, n);
    PipelineKeepsOrder(states, steps, n);
    if Lossless(steps) { UnlimitedLosesNothing(states, steps, n); }
  }

  /** Short of quiet, some step of the worker, of a preparation or of a signal is possible. */
  lemma NeverStuck(states: seq<State>, steps: seq<Step>, n: nat) returns (a: Step)
    requires Run(states, steps) && n <= |steps| && !Quiet(states[n])
    ensures Enabled(states[n], a) && !a.Push? && !a.WriteFails?
  {
    RunInv(states, steps, n);
    var s := states[n];
    match s.pc
    case Filling => a := if |s.preparing| < TOPIC_PREPARE_DEPTH && s.queue != [] then Take else StopTaking;
    case Selecting => a := if s.preparing[0].done then PickReady else Prepared(0);
    case Sleeping => a := if s.permit then Wake else Signal;
    case Writing => a := if s.connected then WriteDone else Connect;
  }

  // ---------------------------------------------------------------- draining

  function Undone(jobs: seq<Job>): nat {
    if jobs == [] then 0 else (if jobs[0].done then 0 else 1) + Undone(jobs[1..])
  }

  lemma {:induction false} UndoneAppend(jobs: seq<Job>, x: Item)
    ensures Undone(jobs + [Job(x, false)]) == Undone(jobs) + 1
  {
    if jobs != [] {
      UndoneAppend(jobs[1..], x);
      assert (jobs + [Job(x, false)])[1..] == jobs[1..] + [Job(x, false)];
    }
  }

  lemma {:induction false} UndonePrepared(jobs: seq<Job>, k: nat)
    requires k < |jobs| && !jobs[k].done
    ensures Undone(jobs[k := jobs[k].(done := true)]) == Undone(jobs) - 1
  {
    var jobs' := jobs[k := jobs[k].(done := true)];
    if k > 0 {
      UndonePrepared(jobs[1..], k - 1);
      assert jobs'[1..] == jobs[1..][k - 1 := jobs[1..][k - 1].(done := true)];
    } else {
      assert jobs'[1..] == jobs[1..];
    }
  }

  /** A bound on the steps that are left: each message has to be taken, prepared, picked
      and written, and each stored or coming wake-up costs one look at the queue. */
  function Work(s: State): nat {
    8 * |s.queue| + 6 * |s.preparing| + Undone(s.preparing)
    + (match s.pc case Filling => 1 case Writing => if s.connected then 2 else 3 case _ => 0)
    + (if s.permit then 2 else 0) + 3 * s.unsignalled
  }

  /** Every step but a push works off, and a failed write costs two steps more. */
  lemma StepWorksOff(s: State, a: Step)
    requires Control(s) && Enabled(s, a) && !a.Push?
    ensures Work(Next(s, a)) < Work(s) + if a.WriteFails? then 2 else 0
  {
    match a
    case Take => UndoneAppend(s.preparing, s.queue[0]);
    case Prepared(k) => UndonePrepared(s.preparing, k);
    case _ =>
  }

  function Failures(steps: seq<Step>, m: nat, n: nat): nat
    requires m <= n <= |steps|
  {
    if m == n then 0 else Failures(steps, m, n - 1) + if steps[n - 1].WriteFails? then 1 else 0
  }

  lemma RunWorksOff(states: seq<State>, steps: seq<Step>, i: nat)
    requires Run(states, steps) && i < |steps| && !steps[i].Push?
    ensures Work(states[i + 1]) < Work(states[i]) + if steps[i].WriteFails? then 2 else 0
  {
    RunInv(states, steps, i);
    StepWorksOff(states[i], steps[i]);
  }

  /** Without new pushes the pipeline works off what it has: however the steps fall, their
      number is bounded by the work at hand and twice the failed writes. */
  lemma {:induction false} DrainsWithin(states: seq<State>, steps: seq<Step>, m: nat, n: nat)
    requires Run(states, steps) && m <= n <= |steps|
    requires forall i :: m <= i < n ==> !steps[i].Push?
    ensures n - m + Work(states[n]) <= Work(states[m]) + 2 * Failures(steps, m, n)
  {
    if m < n {
      DrainsWithin(states, steps, m, n - 1);
      RunWorksOff(states, steps, n - 1);
    }
  }

  /** From every reachable state, a continuation without pushes and failed writes reaches
      quiet, where everything is delivered. */
  lemma {:induction false} ReachesQuiet(states: seq<State>, steps: seq<Step>)
    returns (states': seq<State>, steps': seq<Step>)
    requires Run(states, steps)
    ensures Run(states', steps') && states <= states' && steps <= steps' && Quiet(states'[|steps'|])
    ensures forall i :: |steps| <= i < |steps'| ==> !steps'[i].Push? && !steps'[i].WriteFails?
    ensures |steps'| <= |steps| + Work(states[|steps|])
    decreases Work(states[|steps|])
  {
    states', steps' := states, steps;
    if !Quiet(states[|steps|]) {
      var s := states[|steps|];
      var a := NeverStuck(states, steps, |steps|);
      RunInv(states, steps, |steps|);
      StepWorksOff(s, a);
      states', steps' := ReachesQuiet(states + [Next(s, a)], steps + [a]);
    }
  }
}
