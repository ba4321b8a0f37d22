/** The keep-last fan-out queue between the network receiver and the
    subscriptions of a session (`subscriber_queue.rs`). */
module SubscriberQueue {
  import opened Bytes
  import opened Wrappers

  datatype Message = Message(seqNo: nat, data: seq<byte>)

  /** Everything pushed so far, and how much of its front is gone. The sample
      `log[i]` has sequence number `start + i`. */
  datatype View = View(start: nat, log: seq<seq<byte>>, first: nat) {
    predicate Ok() { first <= |log| }

    function Next(): nat { start + |log| }
    function Oldest(): nat { start + first }

    predicate Retains(q: nat) { Oldest() <= q < Next() }

    function Sample(q: nat): seq<byte>
      requires start <= q < Next()
    {
      log[q - start]
    }
  }

  /** The messages a queue with this view holds: contiguous, up to the newest. */
  function Messages(v: View): (ms: seq<Message>)
    requires v.Ok()
    ensures |ms| == |v.log| - v.first
    ensures forall i :: 0 <= i < |ms| ==> ms[i] == Message(v.Oldest() + i, v.log[v.first + i])
  {
    seq(|v.log| - v.first, i requires 0 <= i < |v.log| - v.first => Message(v.Oldest() + i, v.log[v.first + i]))
  }

  /** Timestamps are kept for exactly these numbers. */
  ghost predicate Covers(stamps: map<nat, nat>, lo: nat, hi: nat) { forall q: nat :: q in stamps <==> lo <= q < hi }

  lemma AppendedMessages(v: View, data: seq<byte>)
    requires v.Ok()
    ensures Messages(v.(log := v.log + [data])) == Messages(v) + [Message(v.Next(), data)]
  {
  }

  function AfterPush(v: View, capacity: nat, data: seq<byte>): (v': View) {
    var log := v.log + [data];
    View(v.start, log, if |log| - v.first > capacity then |log| - capacity else v.first)
  }

  /** A push retains the new sample, and everything else but the oldest of a full queue. */
  lemma PushKeeps(v: View, capacity: nat, data: seq<byte>, p: nat)
    requires v.Ok() && 1 <= capacity && |v.log| - v.first <= capacity
    ensures AfterPush(v, capacity, data).Retains(p) <==>
            p == v.Next() || (v.Retains(p) && !(|v.log| - v.first == capacity && p == v.Oldest()))
  {
  }

  /** The sample a reader at `q` gets: its own if retained, the newest if its own is
      gone, none if it is ahead. */
  function Served(v: View, q: nat): (a: Option<nat>)
    ensures a.Some? ==> v.Retains(a.value) && a.value >= q
  {
    if v.first >= |v.log| || q >= v.Next() then None
    else if q < v.Oldest() then Some(v.Next() - 1)
    else Some(q)
  }

  /** Nothing is served exactly when nothing at or after `q` is retained; otherwise the
      sample itself if it is retained, and the newest if it is gone. */
  lemma ServedIs(v: View, q: nat)
    requires v.Ok()
    ensures Served(v, q).None? <==> forall p: nat :: v.Retains(p) ==> p < q
    ensures v.Retains(q) ==> Served(v, q) == Some(q)
    ensures Served(v, q).Some? && !v.Retains(q) ==>
              && q < v.Oldest() && Served(v, q).value == v.Next() - 1
              && forall p: nat :: v.Retains(p) ==> p <= v.Next() - 1
  {
    if Served(v, q).Some? { assert v.Retains(Served(v, q).value); }
  }

  /** Size and number of the sample served. */
  function Sized(v: View, q: nat): (r: Option<(nat, nat)>) {
    match Served(v, q)
    case None => None
    case Some(a) => Some((|v.Sample(a)|, a))
  }

  /** A buffer after a sample was copied to its front. */
  function Laid(data: seq<byte>, buffer: seq<byte>): (r: seq<byte>)
    requires |data| <= |buffer|
    ensures |r| == |buffer|
  {
    data + buffer[|data|..]
  }

  /** After a take everything up to the sample taken is gone. */
  function AfterTake(v: View, a: nat): (v': View)
    requires v.Retains(a)
  {
    v.(first := a + 1 - v.start)
  }

  class Queue {
    var messages: seq<Message>
    const capacity: nat
    var nextSeq: nat
    var len: nat
    var active: bool
    var timestamps: map<nat, nat>
    ghost var view: View

    /** What the two locks protect. */
    ghost predicate Holds()
      reads this
    {
      view.Ok() && messages == Messages(view) && Covers(timestamps, view.Oldest(), view.Next())
    }

    ghost predicate Valid()
      reads this
    {
      && capacity >= 1 && Holds() && |messages| <= capacity
      && nextSeq == view.Next() && len == |messages|
    }

    /** `with_seq`; a capacity of zero means one. */
    constructor (capacity: nat, startSeq: nat)
      ensures Valid() && view == View(startSeq, [], 0) && this.capacity == (if capacity == 0 then 1 else capacity)
      ensures !active
    {
      messages := [];
      this.capacity := if capacity == 0 then 1 else capacity;
      nextSeq := startSeq;
      len := 0;
      active := false;
      timestamps := map[];
      view := View(startSeq, [], 0);
    }

    /** Take the front message and its timestamp away. */
    method DropOldest()
      requires Holds() && messages != []
      modifies this`messages, this`timestamps, this`view
      ensures Holds() && view == old(view).(first := old(view).first + 1) && messages == old(messages)[1..]
      ensures forall p :: p in timestamps ==> p in old(timestamps) && timestamps[p] == old(timestamps)[p]
    {
      timestamps := timestamps - {messages[0].seqNo};
      messages := messages[1..];
      view := view.(first := view.first + 1);
    }

    /** Drop from the front until one more fits. */
    method MakeRoom()
      requires Holds() && 1 <= capacity && |messages| <= capacity
      modifies this`messages, this`timestamps, this`view
      ensures Holds() && |messages| < capacity
      ensures messages == if |old(messages)| == capacity then old(messages)[1..] else old(messages)
      ensures view == old(view).(first := if |old(messages)| == capacity then old(view).first + 1 else old(view).first)
      ensures forall p :: p in timestamps ==> p in old(timestamps) && timestamps[p] == old(timestamps)[p]
    {
      while |messages| >= capacity
        invariant Holds() && |messages| <= capacity
        invariant
          || (view == old(view) && timestamps == old(timestamps) && messages == old(messages))
          || (&& |messages| < capacity == |old(messages)| && messages == old(messages)[1..]
              && view == old(view).(first := old(view).first + 1))
        invariant forall p :: p in timestamps ==> p in old(timestamps) && timestamps[p] == old(timestamps)[p]
        decreases |messages|
      {
        DropOldest();
      }
    }

    method Push(data: seq<byte>, now: nat) returns (q: nat)
      requires Valid()
      modifies this
      ensures Valid() && view == AfterPush(old(view), capacity, data) && q == old(view).Next()
      ensures q in timestamps && timestamps[q] == now
      ensures forall p :: p in timestamps && p != q ==> p in old(timestamps) && timestamps[p] == old(timestamps)[p]
      ensures |messages| == Min(|old(messages)| + 1, capacity) && active
      ensures messages == old(messages)[|old(messages)| + 1 - |messages|..] + [Message(q, data)]
    {
      q := nextSeq;
      nextSeq := nextSeq + 1;
      MakeRoom();
      Append(q, data, now);
      len := |messages|;
      active := true;
    }

    method Append(q: nat, data: seq<byte>, now: nat)
      requires Holds() && q == view.Next()
      modifies this`messages, this`timestamps, this`view
      ensures Holds() && view == old(view).(log := old(view).log + [data])
      ensures messages == old(messages) + [Message(q, data)]
      ensures timestamps == old(timestamps)[q := now]
    {
      messages := messages + [Message(q, data)];
      AppendedMessages(view, data);
      view := view.(log := view.log + [data]);
      timestamps := timestamps[q := now];
    }

    /** Copy a sample to the front of the caller's buffer. */
    static method CopyOut(data: seq<byte>, out: array<byte>)
      requires |data| <= out.Length
      modifies out
      ensures out[..] == Laid(data, old(out[..]))
    {
      forall i | 0 <= i < |data| { out[i] := data[i]; }
    }

    /** Copy the newest sample and forget everything. */
    method TakeNewest(out: array<byte>)
      requires Valid() && messages != [] && |messages[|messages| - 1].data| <= out.Length
      modifies this, out
      ensures old(view).Retains(old(view).Next() - 1)
      ensures Valid() && view == AfterTake(old(view), old(view).Next() - 1)
      ensures out[..] == Laid(old(view).Sample(old(view).Next() - 1), old(out[..])) && active == old(active)
      ensures timestamps == map[]
    {
      CopyOut(messages[|messages| - 1].data, out);
      messages := [];
      len := 0;
      timestamps := map[];
      view := view.(first := |view.log|);
    }

    /** Copy the sample at index `offset` and forget everything up to it. */
    method TakeAt(offset: nat, out: array<byte>)
      requires Valid() && offset < |messages| && |messages[offset].data| <= out.Length
      modifies this, out
      ensures old(view).Retains(old(view).Oldest() + offset)
      ensures Valid() && view == AfterTake(old(view), old(view).Oldest() + offset)
      ensures out[..] == Laid(old(view).Sample(old(view).Oldest() + offset), old(out[..])) && active == old(active)
      ensures forall p :: p in timestamps ==> p in old(timestamps) && timestamps[p] == old(timestamps)[p]
    {
      CopyOut(messages[offset].data, out);
      DrainThrough(offset);
      len := |messages|;
    }

    /** Index of the sample served for `q`; the length when there is none. */
    method Locate(q: nat) returns (k: nat)
      requires Valid()
      ensures k <= |messages| && (k == |messages| <==> Served(view, q).None?)
      ensures k < |messages| ==>
                && Served(view, q) == Some(view.Oldest() + k)
                && messages[k].data == view.Sample(view.Oldest() + k)
    {
      if messages == [] { return 0; }
      var oldest := messages[0].seqNo;
      if q < oldest { return |messages| - 1; }
      k := if q - oldest < |messages| then q - oldest else |messages|;
    }

    /** `try_take`: the sample served for `q`; if it fits the buffer it is copied and
        removed, with everything before it. */
    method TryTake(q: nat, out: array<byte>) returns (r: Option<(nat, nat)>)
      requires Valid()
      modifies this, out
      ensures Valid()
      ensures r == Sized(old(view), q)
      ensures if r.Some? && r.value.0 <= out.Length
              then view == AfterTake(old(view), r.value.1) && out[..] == Laid(old(view).Sample(r.value.1), old(out[..]))
              else view == old(view) && out[..] == old(out[..])
      ensures forall p :: p in timestamps ==> p in old(timestamps) && timestamps[p] == old(timestamps)[p]
      ensures active == old(active)
    {
      var k := Locate(q);
      if k == |messages| { return None; }
      var m := messages[k];
      r := Some((|m.data|, m.seqNo));
      if |m.data| > out.Length { return; }
      if q < messages[0].seqNo { TakeNewest(out); } else { TakeAt(k, out); }
    }

    /** Remove the messages up to index `offset`, and their timestamps one by one. */
    method DrainThrough(offset: nat)
      requires Holds() && offset < |messages|
      modifies this`messages, this`timestamps, this`view
      ensures Holds() && view == old(view).(first := old(view).first + offset + 1)
      ensures forall p :: p in timestamps ==> p in old(timestamps) && timestamps[p] == old(timestamps)[p]
    {
      ghost var v := view;
      var oldest, last := messages[0].seqNo, messages[offset].seqNo;
      messages := messages[offset + 1..];
      view := view.(first := view.first + offset + 1);
      var p := oldest;
      while p <= last
        invariant oldest <= p <= last + 1
        invariant Covers(timestamps, p, v.Next())
        invariant forall i :: i in timestamps ==> i in old(timestamps) && timestamps[i] == old(timestamps)[i]
        invariant view == v.(first := v.first + offset + 1) && messages == Messages(view)
      {
        timestamps := timestamps - {p};
        p := p + 1;
      }
    }

    /** `read_at`: like a take, but the sample stays for the other subscriptions. */
    method ReadAt(q: nat, out: array<byte>) returns (r: Option<(nat, nat)>)
      requires Valid()
      modifies out
      ensures r == Sized(view, q)
      ensures out[..] == if r.Some? && r.value.0 <= out.Length then Laid(view.Sample(r.value.1), old(out[..]))
                else old(out[..])
    {
      if messages == [] { return None; }
      var oldest, newest := messages[0].seqNo, messages[|messages| - 1].seqNo;
      if q > newest { return None; }
      var actual := if q < oldest then newest else q;
      var data := messages[actual - oldest].data;
      r := Some((|data|, actual));
      if |data| <= out.Length { CopyOut(data, out); }
    }

    method DataAvailableFrom(q: nat) returns (b: bool)
      requires Valid()
      ensures b == Served(view, q).Some?
    {
      b := messages != [] && q <= messages[|messages| - 1].seqNo;
    }

    method PeekSize(q: nat) returns (r: Option<(nat, nat)>)
      requires Valid()
      ensures r == Sized(view, q)
    {
      if messages == [] { return None; }
      var oldest, newest := messages[0].seqNo, messages[|messages| - 1].seqNo;
      if q > newest { return None; }
      var actual := if q >= oldest then q else newest;
      r := Some((|messages[actual - oldest].data|, actual));
    }

    /** `peek_prefix`: the first five bytes, padded with zeros. */
    method PeekPrefix(q: nat) returns (r: Option<(seq<byte>, nat)>)
      requires Valid()
      ensures r.Some? <==> Served(view, q).Some?
      ensures r.Some? ==> r.value.1 == Served(view, q).value && |r.value.0| == 5
      ensures r.Some? ==> forall i :: 0 <= i < 5 ==>
                r.value.0[i] == if i < |view.Sample(r.value.1)| then view.Sample(r.value.1)[i] else 0
    {
      if messages == [] { return None; }
      var oldest, newest := messages[0].seqNo, messages[|messages| - 1].seqNo;
      if q > newest { return None; }
      var actual := if q >= oldest then q else newest;
      var raw := messages[actual - oldest].data;
      var k := if |raw| < 5 then |raw| else 5;
      r := Some((raw[..k] + seq(5 - k, _ => 0), actual));
    }
  }

  // ------------------------------------------------------ a subscription's cursor

  datatype Step = Push(data: seq<byte>) | Take(at: nat) | Read

  /** A queue, one reader's cursor, and the sequence numbers it was given. */
  datatype Reading = Reading(view: View, cursor: nat, seen: seq<nat>)

  function Next(s: Reading, capacity: nat, a: Step): (r: Reading) {
    match a
    case Push(data) => s.(view := AfterPush(s.view, capacity, data))
    case Take(at) => if Served(s.view, at).Some? then s.(view := AfterTake(s.view, Served(s.view, at).value)) else s
    case Read =>
      match Served(s.view, s.cursor)
      case None => s
      case Some(q) => s.(cursor := q + 1, seen := s.seen + [q])
  }

  predicate Run(states: seq<Reading>, capacity: nat, steps: seq<Step>) {
    && |states| == |steps| + 1 && states[0].view.Ok() && states[0].seen == []
    && forall i :: 0 <= i < |steps| ==> states[i + 1] == Next(states[i], capacity, steps[i])
  }

  predicate Grown(v: View, v': View) { v'.start == v.start && v.log <= v'.log && v.first <= v'.first && v'.Ok() }

  lemma NextGrows(s: Reading, capacity: nat, a: Step)
    requires s.view.Ok()
    ensures Grown(s.view, Next(s, capacity, a).view)
  {
  }

  lemma {:induction false} RunGrows(states: seq<Reading>, capacity: nat, steps: seq<Step>, m: nat, n: nat)
    requires Run(states, capacity, steps) && m <= n <= |steps|
    ensures states[n].view.Ok() && Grown(states[m].view, states[n].view)
  {
    if m < n {
      RunGrows(states, capacity, steps, m, n - 1);
      NextGrows(states[n - 1], capacity, steps[n - 1]);
    } else if n > 0 {
      RunGrows(states, capacity, steps, 0, n - 1);
      NextGrows(states[n - 1], capacity, steps[n - 1]);
    }
  }

  /** The numbers a reader is given strictly increase, stay below its cursor and name
      samples that were pushed. */
  lemma {:induction false} CursorAdvances(states: seq<Reading>, capacity: nat, steps: seq<Step>, n: nat)
    requires Run(states, capacity, steps) && n <= |steps|
    ensures forall i :: 0 <= i < |states[n].seen| ==>
              states[0].cursor <= states[n].seen[i] < states[n].cursor && states[n].seen[i] < states[n].view.Next()
    ensures forall i, j :: 0 <= i < j < |states[n].seen| ==> states[n].seen[i] < states[n].seen[j]
    ensures states[0].cursor <= states[n].cursor
    ensures states[n].seen == [] ==> states[n].cursor == states[0].cursor
    ensures states[n].seen != [] ==> states[n].cursor == states[n].seen[|states[n].seen| - 1] + 1
  {
    RunGrows(states, capacity, steps, 0, n);
    if n > 0 {
      CursorAdvances(states, capacity, steps, n - 1);
      RunGrows(states, capacity, steps, n - 1, n);
    }
  }

  /** A read gives the very sample the cursor names, unless that sample is no longer
      retained; and the sample given is the one pushed under that number. */
  lemma ReadsAreConsecutive(states: seq<Reading>, capacity: nat, steps: seq<Step>, n: nat)
    requires Run(states, capacity, steps) && n < |steps| && steps[n].Read?
    requires states[n + 1].seen != states[n].seen
    ensures |states[n + 1].seen| == |states[n].seen| + 1
    ensures var q := states[n + 1].seen[|states[n].seen|];
            && states[n].view.Retains(q)
            && (q == states[n].cursor
                || (states[n].cursor < states[n].view.Oldest() && q == states[n].view.Next() - 1))
            && forall m :: n <= m <= |steps| ==>
                 states[m].view.start <= q < states[m].view.Next()
                     && states[m].view.Sample(q) == states[n].view.Sample(q)
  {
    var q := states[n + 1].seen[|states[n].seen|];
    forall m | n <= m <= |steps|
      ensures states[m].view.start <= q < states[m].view.Next() && states[m].view.Sample(q) == states[n].view.Sample(q)
    {
      RunGrows(states, capacity, steps, n, m);
    }
  }

  /** A reader that is never overrun misses nothing: it has seen every number from
      where it started up to its cursor. */
  lemma {:induction false} NothingMissed(states: seq<Reading>, capacity: nat, steps: seq<Step>, n: nat)
    requires Run(states, capacity, steps) && n <= |steps|
    requires forall m :: 0 <= m < n && steps[m].Read? && Served(states[m].view, states[m].cursor).Some? ==>
               states[m].cursor >= states[m].view.Oldest()
    ensures states[n].seen == seq(|states[n].seen|, i => states[0].cursor + i)
    ensures states[n].cursor == states[0].cursor + |states[n].seen|
  {
    if n > 0 {
      NothingMissed(states, capacity, steps, n - 1);
    }
  }

  // ------------------------------------------------------- nothing goes too early

  /** Step `a` takes nothing at or after `q`. */
  predicate Spares(s: Reading, a: Step, q: nat) {
    a.Take? && Served(s.view, a.at).Some? ==> Served(s.view, a.at).value < q
  }

  lemma NextRetains(s: Reading, capacity: nat, a: Step, q: nat)
    requires s.view.Ok() && s.view.Retains(q) && Spares(s, a, q)
    ensures Next(s, capacity, a).view.Retains(q) || Next(s, capacity, a).view.Next() - q > capacity
  {
  }

  /** A retained sample stays retained while it is among the last `capacity` pushed and
      nobody takes it or a later one. */
  lemma {:induction false} StaysRetained(states: seq<Reading>, capacity: nat, steps: seq<Step>, m: nat, n: nat, q: nat)
    requires Run(states, capacity, steps) && m <= n <= |steps| && states[m].view.Retains(q)
    requires states[n].view.Next() - q <= capacity
    requires forall i :: m <= i < n ==> Spares(states[i], steps[i], q)
    ensures states[n].view.Retains(q)
  {
    if m < n {
      RunGrows(states, capacity, steps, n - 1, n);
      StaysRetained(states, capacity, steps, m, n - 1, q);
      NextRetains(states[n - 1], capacity, steps[n - 1], q);
    }
  }

  /** Without takes a cursor is overrun only after more than `capacity` pushes past it. */
  lemma {:induction false} OverrunOnlyBehind(states: seq<Reading>, capacity: nat, steps: seq<Step>, n: nat, q: nat)
    requires Run(states, capacity, steps) && n <= |steps| && capacity >= 1
    requires forall i :: 0 <= i < n ==> !steps[i].Take?
    requires states[0].view.Oldest() <= q < states[n].view.Next()
    ensures q < states[n].view.Oldest() ==> states[n].view.Next() - q > capacity
  {
    if n > 0 {
      RunGrows(states, capacity, steps, 0, n - 1);
      if q < states[n - 1].view.Next() { OverrunOnlyBehind(states, capacity, steps, n - 1, q); }
    }
  }
}
