/** The two QoS compatibility checks: on profiles (`qos.rs`) and, in
    nanoseconds, on node table entries (`discovery_shm.rs`). */
module Qos {
  import opened Bytes
  import opened Wrappers
  import opened SyncCodec

  const NANOS: nat := 1_000_000_000

  type Nanos = x: int | 0 <= x < 1_000_000_000

  datatype Reliability = BestEffort | Reliable
  datatype Durability = Volatile | TransientLocal
  datatype History = KeepLast(depth: nat) | KeepAll
  datatype Liveliness = Automatic | ManualByTopic | ManualByParticipant | Unknown

  datatype Duration = Duration(secs: u64, nanos: Nanos) {
    function Total(): nat { secs * NANOS + nanos }
  }

  datatype Profile = Profile(
    reliability: Reliability, durability: Durability, history: History,
    deadline: Option<Duration>, lifespan: Option<Duration>,
    liveliness: Liveliness, lease: Option<Duration>)

  // -------------------------------------------------- the check on profiles

  predicate DeadlineRefused(p: Option<Duration>, s: Option<Duration>) {
    p.Some? && s.Some? && p.value.Total() > s.value.Total()
  }

  predicate LifespanRefused(p: Option<Duration>, s: Option<Duration>) {
    p.Some? && s.Some? && p.value.Total() < s.value.Total()
  }

  predicate LivelinessRefused(p: Liveliness, s: Liveliness) {
    || (s == ManualByTopic && p == Automatic)
    || (s == ManualByParticipant && p != ManualByParticipant)
  }

  /** `qos_profiles_compatible` */
  predicate ProfilesCompatible(p: Profile, s: Profile) {
    && !(p.reliability == BestEffort && s.reliability == Reliable)
    && !(s.durability == TransientLocal && p.durability == Volatile)
    && !DeadlineRefused(p.deadline, s.deadline)
    && !LivelinessRefused(p.liveliness, s.liveliness)
    && !LifespanRefused(p.lifespan, s.lifespan)
  }

  // --------------------------------------------------- the check on entries

  /** `sec as u64 * 1_000_000_000 + nsec as u64` never overflows. */
  function EntryNanos(sec: u32, nsec: u32): (n: u64)
    ensures n == sec * NANOS + nsec
  {
    sec * NANOS + nsec
  }

  predicate EntryDeadlineRefused(p: TopicHead, s: TopicHead) {
    var pd, sd := EntryNanos(p.deadlineSec, p.deadlineNsec), EntryNanos(s.deadlineSec, s.deadlineNsec);
    pd > 0 && sd > 0 && pd > sd
  }

  predicate EntryLifespanRefused(p: TopicHead, s: TopicHead) {
    var pl, sl := EntryNanos(p.lifespanSec, p.lifespanNsec), EntryNanos(s.lifespanSec, s.lifespanNsec);
    pl > 0 && sl > 0 && pl < sl
  }

  /** `topic_entry_qos_compatible` */
  predicate EntriesCompatible(p: TopicHead, s: TopicHead) {
    && !(p.reliability == 0 && s.reliability == 1)
    && !(s.durability == 1 && p.durability == 0)
    && !EntryDeadlineRefused(p, s)
    && !(s.liveliness == 1 && p.liveliness == 0)
    && !(s.liveliness == 2 && p.liveliness != 2)
    && !EntryLifespanRefused(p, s)
  }

  // ------------------------------------------------------ profile to entry

  function DurationFields(d: Option<Duration>): (u32, u32) {
    if d.None? then (0, 0) else (if d.value.secs > U32_MAX then U32_MAX else d.value.secs, d.value.nanos)
  }

  /** `depth as i32` */
  function DepthField(h: History): i32 {
    match h
    case KeepAll => -1
    case KeepLast(depth) => I32FromBits(depth % 0x1_0000_0000)
  }

  function LivelinessField(l: Liveliness): byte {
    match l case ManualByTopic => 1 case ManualByParticipant => 2 case _ => 0
  }

  /** `qos_to_entry_fields` */
  function ToHead(hash: u64, q: Profile): TopicHead {
    TopicHead(hash, 0,
      if q.reliability == Reliable then 1 else 0,
      if q.durability == TransientLocal then 1 else 0,
      if q.history.KeepAll? then 0 else 1, DepthField(q.history),
      DurationFields(q.deadline).0, DurationFields(q.deadline).1,
      DurationFields(q.lifespan).0, DurationFields(q.lifespan).1,
      LivelinessField(q.liveliness), DurationFields(q.lease).0, DurationFields(q.lease).1)
  }

  // --------------------------------------------------------------- agreement

  /** Both durations so long that only their nanoseconds survive the clamp. */
  predicate BothClamped(p: Option<Duration>, s: Option<Duration>) {
    p.Some? && s.Some? && p.value.secs >= U32_MAX && s.value.secs >= U32_MAX
  }

  lemma TotalOrder(a: Duration, b: Duration)
    ensures a.Total() < b.Total() <==> a.secs < b.secs || (a.secs == b.secs && a.nanos < b.nanos)
    ensures a.Total() == 0 <==> a.secs == 0 && a.nanos == 0
  {
  }

  /** The entry form of the deadline check agrees with the profile form exactly
      when a zero subscriber deadline does not meet a non-zero publisher one,
      and two clamped deadlines are still ordered by their nanoseconds. */
  lemma DeadlineAgreesIff(p: Profile, s: Profile, h: u64)
    ensures EntryDeadlineRefused(ToHead(h, p), ToHead(h, s)) == DeadlineRefused(p.deadline, s.deadline)
       <==> !(p.deadline.Some? && s.deadline.Some? && s.deadline.value.Total() == 0 < p.deadline.value.Total())
            && (BothClamped(p.deadline, s.deadline) ==>
                  (p.deadline.value.nanos > s.deadline.value.nanos
                   <==> p.deadline.value.Total() > s.deadline.value.Total()))
  {
    if p.deadline.Some? && s.deadline.Some? {
      TotalOrder(s.deadline.value, p.deadline.value);
      TotalOrder(p.deadline.value, s.deadline.value);
    }
  }

  lemma LifespanAgreesIff(p: Profile, s: Profile, h: u64)
    ensures EntryLifespanRefused(ToHead(h, p), ToHead(h, s)) == LifespanRefused(p.lifespan, s.lifespan)
       <==> !(p.lifespan.Some? && s.lifespan.Some? && p.lifespan.value.Total() == 0 < s.lifespan.value.Total())
            && (BothClamped(p.lifespan, s.lifespan) ==>
                  (p.lifespan.value.nanos < s.lifespan.value.nanos
                   <==> p.lifespan.value.Total() < s.lifespan.value.Total()))
  {
    if p.lifespan.Some? && s.lifespan.Some? {
      TotalOrder(s.lifespan.value, p.lifespan.value);
      TotalOrder(p.lifespan.value, s.lifespan.value);
    }
  }

  lemma LivelinessAgreesIff(p: Liveliness, s: Liveliness)
    ensures LivelinessRefused(p, s) == ((LivelinessField(s) == 1 && LivelinessField(p) == 0)
                                        || (LivelinessField(s) == 2 && LivelinessField(p) != 2))
       <==> !(p == Unknown && s == ManualByTopic)
  {
  }

  /** A duration an entry can hold: present and non-zero, its seconds in 32 bits. */
  predicate Storable(d: Option<Duration>) {
    d.Some? ==> d.value.secs <= U32_MAX && d.value.Total() > 0
  }

  lemma StorableAgree(p: Profile, s: Profile, h: u64)
    requires Storable(p.deadline) && Storable(s.deadline) && Storable(p.lifespan) && Storable(s.lifespan)
    ensures EntryDeadlineRefused(ToHead(h, p), ToHead(h, s)) == DeadlineRefused(p.deadline, s.deadline)
    ensures EntryLifespanRefused(ToHead(h, p), ToHead(h, s)) == LifespanRefused(p.lifespan, s.lifespan)
  {
    if BothClamped(p.deadline, s.deadline) { TotalOrder(s.deadline.value, p.deadline.value); }
    if BothClamped(p.lifespan, s.lifespan) { TotalOrder(p.lifespan.value, s.lifespan.value); }
    DeadlineAgreesIff(p, s, h);
    LifespanAgreesIff(p, s, h);
  }

  /** On every pair of profiles with known liveliness and storable durations the
      daemon's check on table entries decides as the profile check does. */
  lemma ChecksAgree(p: Profile, s: Profile, h: u64)
    requires p.liveliness != Unknown && s.liveliness != Unknown
    requires Storable(p.deadline) && Storable(s.deadline) && Storable(p.lifespan) && Storable(s.lifespan)
    ensures EntriesCompatible(ToHead(h, p), ToHead(h, s)) <==> ProfilesCompatible(p, s)
  {
    StorableAgree(p, s, h);
    LivelinessAgreesIff(p.liveliness, s.liveliness);
  }

  // ------------------------------------------------- offered against requested

  function ReliabilityRank(r: Reliability): nat { match r case BestEffort => 0 case Reliable => 1 }

  function DurabilityRank(d: Durability): nat { match d case Volatile => 0 case TransientLocal => 1 }

  function LivelinessRank(l: Liveliness): nat {
    match l case Automatic => 0 case ManualByTopic => 1 case ManualByParticipant => 2 case Unknown => 0
  }

  /** `a` is at most `b`, where an absent duration compares with nothing. */
  predicate AtMost(a: Option<Duration>, b: Option<Duration>) {
    a.Some? && b.Some? ==>
      a.value.secs < b.value.secs || (a.value.secs == b.value.secs && a.value.nanos <= b.value.nanos)
  }

  /** With known liveliness, two profiles are compatible exactly when the publisher offers
      at least what the subscriber requests in every dimension: reliability, durability and
      liveliness no weaker, deadlines no longer, lifespans no shorter. */
  lemma OffersWhatIsRequested(p: Profile, s: Profile)
    requires p.liveliness != Unknown && s.liveliness != Unknown
    ensures ProfilesCompatible(p, s) <==>
              && ReliabilityRank(p.reliability) >= ReliabilityRank(s.reliability)
              && DurabilityRank(p.durability) >= DurabilityRank(s.durability)
              && LivelinessRank(p.liveliness) >= LivelinessRank(s.liveliness)
              && AtMost(p.deadline, s.deadline) && AtMost(s.lifespan, p.lifespan)
  {
    if p.deadline.Some? && s.deadline.Some? { TotalOrder(s.deadline.value, p.deadline.value); }
    if p.lifespan.Some? && s.lifespan.Some? { TotalOrder(p.lifespan.value, s.lifespan.value); }
  }

  /** `(as, an)` is at most `(bs, bn)` in seconds and nanoseconds; zero stands for absent. */
  predicate FieldsAtMost(s1: u32, n1: u32, s2: u32, n2: u32) {
    (s1 == 0 && n1 == 0) || (s2 == 0 && n2 == 0) || s1 * NANOS + n1 <= s2 * NANOS + n2
  }

  /** The same on table entries, for the codes a table holds. */
  lemma EntryOffersWhatIsRequested(p: TopicHead, s: TopicHead)
    requires p.reliability <= 1 && s.reliability <= 1 && p.durability <= 1 && s.durability <= 1
    requires p.liveliness <= 2 && s.liveliness <= 2
    ensures EntriesCompatible(p, s) <==>
              && p.reliability >= s.reliability && p.durability >= s.durability && p.liveliness >= s.liveliness
              && FieldsAtMost(p.deadlineSec, p.deadlineNsec, s.deadlineSec, s.deadlineNsec)
              && FieldsAtMost(s.lifespanSec, s.lifespanNsec, p.lifespanSec, p.lifespanNsec)
  {
  }

  // ------------------------------------------------------ entry to profile

  /** A zero pair of fields stands for no duration; nanoseconds carry into seconds. */
  function DurationOf(sec: u32, nsec: u32): (d: Option<Duration>) {
    if sec == 0 && nsec == 0 then None else Some(Duration(sec + nsec / NANOS, nsec % NANOS))
  }

  /** `entry_fields_to_qos` */
  function FromHead(h: TopicHead): (q: Profile) {
    Profile(
      if h.reliability == 0 then BestEffort else Reliable,
      if h.durability == 0 then Volatile else TransientLocal,
      if h.historyKind == 0 then KeepAll else KeepLast(if h.historyDepth <= 0 then 10 else h.historyDepth),
      DurationOf(h.deadlineSec, h.deadlineNsec), DurationOf(h.lifespanSec, h.lifespanNsec),
      match h.liveliness case 1 => ManualByTopic case 2 => ManualByParticipant case _ => Automatic,
      DurationOf(h.leaseSec, h.leaseNsec))
  }

  lemma DurationBackIff(d: Option<Duration>)
    ensures DurationOf(DurationFields(d).0, DurationFields(d).1) == d <==> Storable(d)
  {
    if d.Some? { TotalOrder(Duration(0, 0), d.value); }
  }

  /** A profile comes back from the table as it was stored exactly when its durations are
      absent or positive with seconds in 32 bits, its depth is positive and below 2^31, and
      its liveliness is known. */
  lemma ProfileRoundTripIff(hash: u64, q: Profile)
    ensures FromHead(ToHead(hash, q)) == q <==>
              && Storable(q.deadline) && Storable(q.lifespan) && Storable(q.lease) && q.liveliness != Unknown
              && (q.history.KeepLast? ==> 0 < q.history.depth < 0x8000_0000)
  {
    DurationBackIff(q.deadline);
    DurationBackIff(q.lifespan);
    DurationBackIff(q.lease);
  }
}
