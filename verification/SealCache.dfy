/** `seal_topic_for_daemon` (`security.rs`): one sealed envelope per publication and
    remote daemon, shared by all callers that ask for it while it is cached. The
    two lock sections and the shared initialisation in between are separate steps,
    taken by any number of callers in any interleaving. */
module SealCache {
  import opened Bytes
  import opened Wrappers

  const QKD_TOPIC_SEAL_CACHE_SIZE: nat := 256

  datatype SealKey = SealKey(daemon: u64, topic: u64, publication: u64)

  /** Cells are numbered in the order they were made. */
  datatype Cache = Cache(entries: map<SealKey, nat>, order: seq<SealKey>)

  function Popped(c: Cache): (r: Cache)
    requires c.order != []
  {
    Cache(c.entries - {c.order[0]}, c.order[1..])
  }

  /** Evict in insertion order until there is room. */
  function MadeRoom(c: Cache): (r: Cache)
    decreases |c.order|
  {
    if |c.entries| >= QKD_TOPIC_SEAL_CACHE_SIZE && c.order != [] then MadeRoom(Popped(c)) else c
  }

  /** The first lock section: the cell for `key`, made if needed as number `cell`. */
  function Looked(c: Cache, key: SealKey, cell: nat): (r: (Cache, nat)) {
    if key in c.entries then (c, c.entries[key])
    else
      var roomy := MadeRoom(c);
      (Cache(roomy.entries[key := cell], roomy.order + [key]), cell)
  }

  function Without(order: seq<SealKey>, key: SealKey): (r: seq<SealKey>) {
    if order == [] then []
    else if order[0] == key then Without(order[1..], key)
    else [order[0]] + Without(order[1..], key)
  }

  /** The second lock section: drop the failed cell if it is still the current one. */
  function Forgotten(c: Cache, key: SealKey, cell: nat): (r: Cache) {
    if key in c.entries && c.entries[key] == cell then Cache(c.entries - {key}, Without(c.order, key)) else c
  }

  // ------------------------------------------------------- order and map agree

  predicate NoRepeats(order: seq<SealKey>) { forall i, j :: 0 <= i < j < |order| ==> order[i] != order[j] }

  ghost predicate Agree(c: Cache) { NoRepeats(c.order) && forall k :: k in c.order <==> k in c.entries }

  lemma {:induction false} SizesAgree(c: Cache)
    requires Agree(c)
    ensures |c.order| == |c.entries|
    decreases |c.order|
  {
    if c.order != [] {
      PoppedAgrees(c);
      SizesAgree(Popped(c));
      RemovedSize(c.entries, c.order[0]);
    } else {
      assert c.entries.Keys == {};
    }
  }

  lemma RemovedSize(m: map<SealKey, nat>, k: SealKey)
    requires k in m
    ensures |m - {k}| == |m| - 1
  {
    assert (m - {k}).Keys == m.Keys - {k};
  }

  lemma PoppedAgrees(c: Cache)
    requires Agree(c) && c.order != []
    ensures Agree(Popped(c))
  {
    var order := c.order;
    forall k ensures k in order[1..] <==> k in c.entries && k != order[0] {
      assert order == [order[0]] + order[1..];
    }
  }

  ghost predicate CacheOk(c: Cache) { Agree(c) && |c.entries| <= QKD_TOPIC_SEAL_CACHE_SIZE }

  /** Eviction takes at most the one oldest key. */
  lemma MadeRoomIs(c: Cache)
    requires CacheOk(c)
    ensures Agree(MadeRoom(c)) && |MadeRoom(c).entries| < QKD_TOPIC_SEAL_CACHE_SIZE
    ensures if |c.entries| == QKD_TOPIC_SEAL_CACHE_SIZE then c.order != [] && MadeRoom(c) == Popped(c)
              else MadeRoom(c) == c
  {
    SizesAgree(c);
    if |c.entries| == QKD_TOPIC_SEAL_CACHE_SIZE {
      PoppedAgrees(c);
      RemovedSize(c.entries, c.order[0]);
    }
  }

  lemma AppendAgrees(c: Cache, key: SealKey, cell: nat)
    requires Agree(c) && key !in c.entries
    ensures Agree(Cache(c.entries[key := cell], c.order + [key])) && |c.entries[key := cell]| == |c.entries| + 1
  {
    assert c.entries[key := cell].Keys == c.entries.Keys + {key};
  }

  /** Making room only takes entries away. */
  lemma MadeRoomKeeps(c: Cache, k: SealKey)
    requires CacheOk(c) && k in MadeRoom(c).entries
    ensures k in c.entries && MadeRoom(c).entries[k] == c.entries[k]
  {
    MadeRoomIs(c);
  }

  lemma LookedOk(c: Cache, key: SealKey, cell: nat)
    requires CacheOk(c)
    ensures CacheOk(Looked(c, key, cell).0)
    ensures key in Looked(c, key, cell).0.entries && Looked(c, key, cell).0.entries[key] == Looked(c, key, cell).1
  {
    if key !in c.entries {
      MadeRoomIs(c);
      if key in MadeRoom(c).entries { MadeRoomKeeps(c, key); }
      AppendAgrees(MadeRoom(c), key, cell);
    }
  }

  lemma LookedKeeps(c: Cache, key: SealKey, cell: nat, k: SealKey)
    requires CacheOk(c) && k != key && k in Looked(c, key, cell).0.entries
    ensures k in c.entries && Looked(c, key, cell).0.entries[k] == c.entries[k]
  {
    if key !in c.entries { MadeRoomKeeps(c, k); }
  }

  lemma {:induction false} WithoutIs(order: seq<SealKey>, key: SealKey)
    requires NoRepeats(order)
    ensures NoRepeats(Without(order, key)) && forall k :: k in Without(order, key) <==> k in order && k != key
  {
    if order != [] {
      var x, rest := order[0], order[1..];
      WithoutIs(rest, key);
      assert order == [x] + rest;
      assert x !in rest;
      var r := Without(rest, key);
      forall i, j | 0 <= i < j < |[x] + r| ensures ([x] + r)[i] != ([x] + r)[j] {
        if i == 0 { assert r[j - 1] in rest; }
      }
    }
  }

  lemma ForgottenOk(c: Cache, key: SealKey, cell: nat)
    requires CacheOk(c)
    ensures CacheOk(Forgotten(c, key, cell))
  {
    WithoutIs(c.order, key);
    if key in c.entries { RemovedSize(c.entries, key); }
  }

  /** The cache behind its lock. */
  class TopicSealCache {
    var entries: map<SealKey, nat>
    var order: seq<SealKey>

    ghost function Contents(): Cache reads this { Cache(entries, order) }

    constructor ()
      ensures Contents() == Cache(map[], []) && CacheOk(Contents())
    {
      entries := map[];
      order := [];
    }

    /** The cell for a publication; `cell` is the number of a new one, if needed. */
    method Lookup(key: SealKey, cell: nat) returns (got: nat)
      requires CacheOk(Contents())
      modifies this
      ensures CacheOk(Contents()) && (Contents(), got) == Looked(old(Contents()), key, cell)
      ensures key in entries && entries[key] == got && got == if key in old(entries) then old(entries)[key] else cell
      ensures key in old(entries) ==> unchanged(this)
      ensures key !in old(entries) ==> order != [] && order[|order| - 1] == key
    {
      LookedOk(Contents(), key, cell);
      if key in entries { return entries[key]; }
      while |entries| >= QKD_TOPIC_SEAL_CACHE_SIZE && order != []
        invariant MadeRoom(Contents()) == MadeRoom(old(Contents()))
        decreases |order|
      {
        entries := entries - {order[0]};
        order := order[1..];
      }
      entries := entries[key := cell];
      order := order + [key];
      got := cell;
    }

    method Forget(key: SealKey, cell: nat)
      requires CacheOk(Contents())
      modifies this
      ensures CacheOk(Contents()) && Contents() == Forgotten(old(Contents()), key, cell)
      ensures key in entries ==> entries[key] != cell
      ensures forall k :: k in old(entries) && !(k == key && old(entries)[k] == cell) ==>
                k in entries && entries[k] == old(entries)[k]
    {
      ForgottenOk(Contents(), key, cell);
      if key in entries && entries[key] == cell {
        entries := entries - {key};
        order := Without(order, key);
      }
    }
  }

  // ------------------------------------------------------------ concurrent callers

  datatype Pc =
    | Idle
    | Waiting(key: SealKey, cell: nat)
    | Sealing(key: SealKey, cell: nat)
    | Failed(key: SealKey, cell: nat)

  /** A cell, with the publication it was made for and its envelope once sealed. */
  datatype Cell = Cell(key: SealKey, wire: Option<seq<byte>>)

  datatype Answer = Answer(key: SealKey, cell: nat, wire: seq<byte>)

  datatype State = State(cache: Cache, cells: seq<Cell>, callers: seq<Pc>, answers: seq<Answer>, seals: nat)

  datatype Action =
    | Ask(c: nat, key: SealKey)
    | Reuse(c: nat)
    | Start(c: nat)
    | Sealed(c: nat, wire: seq<byte>)
    | Fail(c: nat)
    | CleanUp(c: nat)

  predicate Enabled(s: State, a: Action) {
    && a.c < |s.callers|
    && match a
       case Ask(c, _) => s.callers[c].Idle?
       case Reuse(c) => s.callers[c].Waiting? && s.callers[c].cell < |s.cells| && s.cells[s.callers[c].cell].wire.Some?
       case Start(c) =>
         && s.callers[c].Waiting? && s.callers[c].cell < |s.cells| && s.cells[s.callers[c].cell].wire.None?
         && forall d :: 0 <= d < |s.callers| ==> !(s.callers[d].Sealing? && s.callers[d].cell == s.callers[c].cell)
       case Sealed(c, _) => s.callers[c].Sealing? && s.callers[c].cell < |s.cells|
       case Fail(c) => s.callers[c].Sealing?
       case CleanUp(c) => s.callers[c].Failed?
  }

  function Next(s: State, a: Action): (r: State)
    requires Enabled(s, a)
  {
    var pc := s.callers[a.c];
    match a
    case Ask(c, key) =>
      var (cache, cell) := Looked(s.cache, key, |s.cells|);
      s.(cache := cache, cells := if cell == |s.cells| then s.cells + [Cell(key, None)] else s.cells,
         callers := s.callers[c := Waiting(key, cell)])
    case Reuse(c) =>
      s.(callers := s.callers[c := Idle], answers := s.answers + [Answer(pc.key, pc.cell, s.cells[pc.cell].wire.value)])
    case Start(c) => s.(callers := s.callers[c := Sealing(pc.key, pc.cell)])
    case Sealed(c, wire) =>
      s.(cells := s.cells[pc.cell := s.cells[pc.cell].(wire := Some(wire))], callers := s.callers[c := Idle],
         answers := s.answers + [Answer(pc.key, pc.cell, wire)], seals := s.seals + 1)
    case Fail(c) => s.(callers := s.callers[c := Failed(pc.key, pc.cell)])
    case CleanUp(c) => s.(cache := Forgotten(s.cache, pc.key, pc.cell), callers := s.callers[c := Idle])
  }

  function Filled(cells: seq<Cell>): (n: nat) {
    if cells == [] then 0 else Filled(cells[..|cells| - 1]) + if cells[|cells| - 1].wire.Some? then 1 else 0
  }

  predicate CallerOk(s: State, pc: Pc) {
    pc.Idle? || (pc.cell < |s.cells| && s.cells[pc.cell].key == pc.key && (pc.Sealing? ==> s.cells[pc.cell].wire.None?))
  }

  predicate AnswerOk(s: State, a: Answer) { a.cell < |s.cells| && s.cells[a.cell] == Cell(a.key, Some(a.wire)) }

  predicate CellsMatch(cache: Cache, cells: seq<Cell>) {
    forall k :: k in cache.entries ==> cache.entries[k] < |cells| && cells[cache.entries[k]].key == k
  }

  predicate OneSealer(callers: seq<Pc>) {
    forall c, d :: 0 <= c < d < |callers| && callers[c].Sealing? && callers[d].Sealing? ==>
      callers[c].cell != callers[d].cell
  }

  predicate CallersOk(s: State) { forall c :: 0 <= c < |s.callers| ==> CallerOk(s, s.callers[c]) }

  predicate AnswersOk(s: State) { forall i :: 0 <= i < |s.answers| ==> AnswerOk(s, s.answers[i]) }

  ghost predicate Inv(s: State) {
    && CacheOk(s.cache) && CellsMatch(s.cache, s.cells) && CallersOk(s) && OneSealer(s.callers) && AnswersOk(s)
    && s.seals == Filled(s.cells)
  }

  lemma {:induction false} FilledOne(cells: seq<Cell>, i: nat, wire: seq<byte>)
    requires i < |cells| && cells[i].wire.None?
    ensures Filled(cells[i := cells[i].(wire := Some(wire))]) == Filled(cells) + 1
  {
    var cells' := cells[i := cells[i].(wire := Some(wire))];
    if i < |cells| - 1 {
      FilledOne(cells[..|cells| - 1], i, wire);
      assert cells'[..|cells| - 1] == cells[..|cells| - 1][i := cells[i].(wire := Some(wire))];
    } else {
      assert cells'[..|cells| - 1] == cells[..|cells| - 1];
    }
  }

  lemma AskKeepsCache(s: State, c: nat, key: SealKey)
    requires CacheOk(s.cache) && CellsMatch(s.cache, s.cells) && Enabled(s, Ask(c, key))
    ensures CacheOk(Next(s, Ask(c, key)).cache) && CellsMatch(Next(s, Ask(c, key)).cache, Next(s, Ask(c, key)).cells)
    ensures CallerOk(Next(s, Ask(c, key)), Next(s, Ask(c, key)).callers[c])
  {
    LookedOk(s.cache, key, |s.cells|);
    forall k | k in Looked(s.cache, key, |s.cells|).0.entries && k != key
      ensures k in s.cache.entries && Looked(s.cache, key, |s.cells|).0.entries[k] == s.cache.entries[k]
    {
      LookedKeeps(s.cache, key, |s.cells|, k);
    }
  }

  /** Later states know every cell of earlier ones, envelopes included. */
  predicate CellsGrow(s: State, s': State) {
    |s.cells| <= |s'.cells| && forall i :: 0 <= i < |s.cells| ==> CellGrows(s.cells[i], s'.cells[i])
  }

  predicate CellGrows(x: Cell, y: Cell) { x.key == y.key && (x.wire.Some? ==> y.wire == x.wire) }

  lemma GrowKeepsAnswers(s: State, s': State)
    requires AnswersOk(s) && CellsGrow(s, s')
    requires s.answers <= s'.answers && forall i :: |s.answers| <= i < |s'.answers| ==> AnswerOk(s', s'.answers[i])
    ensures AnswersOk(s')
  {
    forall i | 0 <= i < |s'.answers| ensures AnswerOk(s', s'.answers[i]) {
      if i < |s.answers| {
        assert AnswerOk(s, s.answers[i]);
        assert CellGrows(s.cells[s.answers[i].cell], s'.cells[s.answers[i].cell]);
      }
    }
  }

  lemma AskGrows(s: State, c: nat, key: SealKey)
    requires Enabled(s, Ask(c, key))
    ensures s.cells <= Next(s, Ask(c, key)).cells && Filled(Next(s, Ask(c, key)).cells) == Filled(s.cells)
    ensures CellsGrow(s, Next(s, Ask(c, key)))
  {
    var cells := s.cells + [Cell(key, None)];
    assert cells[..|cells| - 1] == s.cells;
  }

  lemma GrowKeepsCallers(s: State, s': State, c: nat)
    requires CallersOk(s) && s.cells <= s'.cells && c < |s.callers|
    requires |s'.callers| == |s.callers| && s'.callers == s.callers[c := s'.callers[c]] && CallerOk(s', s'.callers[c])
    ensures CallersOk(s')
  {
    forall d | 0 <= d < |s.callers| && d != c ensures CallerOk(s', s.callers[d]) { assert CallerOk(s, s.callers[d]); }
  }

  lemma OneSealerKept(callers: seq<Pc>, c: nat, pc: Pc)
    requires OneSealer(callers) && c < |callers| && !pc.Sealing?
    ensures OneSealer(callers[c := pc])
  {
  }

  lemma AskKeeps(s: State, c: nat, key: SealKey)
    requires Inv(s) && Enabled(s, Ask(c, key))
    ensures Inv(Next(s, Ask(c, key)))
  {
    var s' := Next(s, Ask(c, key));
    AskKeepsCache(s, c, key);
    AskGrows(s, c, key);
    OneSealerKept(s.callers, c, s'.callers[c]);
    assert s'.callers == s.callers[c := s'.callers[c]];
    GrowKeepsCallers(s, s', c);
    GrowKeepsAnswers(s, s');
  }

  lemma SealedKeeps(s: State, c: nat, wire: seq<byte>)
    requires Inv(s) && Enabled(s, Sealed(c, wire))
    ensures Inv(Next(s, Sealed(c, wire)))
  {
    var s' := Next(s, Sealed(c, wire));
    assert CallerOk(s, s.callers[c]);
    FilledOne(s.cells, s.callers[c].cell, wire);
    forall d | 0 <= d < |s.callers| && d != c ensures CallerOk(s', s.callers[d]) { assert CallerOk(s, s.callers[d]); }
    GrowKeepsAnswers(s, s');
  }

  /** Steps that neither make nor fill a cell. */
  lemma QuietKeeps(s: State, a: Action)
    requires Inv(s) && Enabled(s, a) && !a.Ask? && !a.Sealed?
    requires CacheOk(Next(s, a).cache) && CellsMatch(Next(s, a).cache, s.cells)
    ensures Inv(Next(s, a))
  {
    var s' := Next(s, a);
    assert CallerOk(s, s.callers[a.c]);
    forall d | 0 <= d < |s.callers| && d != a.c ensures CallerOk(s', s.callers[d]) { assert CallerOk(s, s.callers[d]); }
    GrowKeepsAnswers(s, s');
  }

  lemma NextKeeps(s: State, a: Action)
    requires Inv(s) && Enabled(s, a)
    ensures Inv(Next(s, a))
  {
    match a
    case Ask(c, key) => AskKeeps(s, c, key);
    case Sealed(c, wire) => SealedKeeps(s, c, wire);
    case CleanUp(c) =>
      ForgottenOk(s.cache, s.callers[c].key, s.callers[c].cell);
      QuietKeeps(s, a);
    case _ => QuietKeeps(s, a);
  }

  predicate Run(states: seq<State>, actions: seq<Action>) {
    && |states| == |actions| + 1
    && states[0] == State(Cache(map[], []), [], states[0].callers, [], 0)
    && (forall c :: 0 <= c < |states[0].callers| ==> states[0].callers[c] == Idle)
    && forall i :: 0 <= i < |actions| ==> Enabled(states[i], actions[i]) && states[i + 1] == Next(states[i], actions[i])
  }

  /** In every interleaving: order and map agree, at most 256 publications are cached,
      every envelope handed out is the one sealed for its cell and publication, and
      keys were used exactly once for each cell that was ever sealed. */
  lemma {:induction false} RunInv(states: seq<State>, actions: seq<Action>, n: nat)
    requires Run(states, actions) && n <= |actions|
    ensures Inv(states[n])
  {
    if n > 0 {
      RunInv(states, actions, n - 1);
      NextKeeps(states[n - 1], actions[n - 1]);
    }
  }

  /** Asking for a cached, sealed publication hands out the same envelope again and
      uses no key. */
  lemma CachedIsReused(states: seq<State>, actions: seq<Action>, n: nat, c: nat, key: SealKey, a: Answer)
    requires Run(states, actions) && n <= |actions| && a in states[n].answers && a.key == key
    requires key in states[n].cache.entries && states[n].cache.entries[key] == a.cell
    requires c < |states[n].callers| && states[n].callers[c].Idle?
    ensures var s1 := Next(states[n], Ask(c, key));
            && s1.cache == states[n].cache && Enabled(s1, Reuse(c))
            && Next(s1, Reuse(c)).answers == states[n].answers + [a] && Next(s1, Reuse(c)).seals == states[n].seals
  {
    RunInv(states, actions, n);
    assert AnswerOk(states[n], a);
  }

  /** Two answers from the same cell are the same envelope. */
  lemma SameCellSameWire(states: seq<State>, actions: seq<Action>, n: nat, a: Answer, b: Answer)
    requires Run(states, actions) && n <= |actions| && a in states[n].answers && b in states[n].answers
               && a.cell == b.cell
    ensures a == b
  {
    RunInv(states, actions, n);
    assert AnswerOk(states[n], a) && AnswerOk(states[n], b);
  }

  /** A publication changes its cell only by eviction when the cache is full and it
      is the oldest, or when its own sealing failed. */
  lemma CellStays(s: State, a: Action, key: SealKey)
    requires Inv(s) && Enabled(s, a) && key in s.cache.entries
    ensures
      || (key in Next(s, a).cache.entries && Next(s, a).cache.entries[key] == s.cache.entries[key])
      || (a.Ask? && a.key != key && |s.cache.entries| == QKD_TOPIC_SEAL_CACHE_SIZE && s.cache.order != []
          && s.cache.order[0] == key)
      || (a.CleanUp? && s.callers[a.c] == Failed(key, s.cache.entries[key]))
  {
    if a.Ask? { MadeRoomIs(s.cache); }
  }

  // ------------------------------------------------------- oldest first, failures gone

  /** Cells are numbered as they are made, so the order is oldest first. */
  predicate OldestFirst(c: Cache) {
    forall i, j :: 0 <= i < j < |c.order| && c.order[i] in c.entries && c.order[j] in c.entries ==>
      c.entries[c.order[i]] < c.entries[c.order[j]]
  }

  lemma PoppedOldestFirst(c: Cache)
    requires OldestFirst(c) && c.order != []
    ensures OldestFirst(Popped(c))
  {
    var r := Popped(c);
    forall i, j | 0 <= i < j < |r.order| && r.order[i] in r.entries && r.order[j] in r.entries
      ensures r.entries[r.order[i]] < r.entries[r.order[j]]
    {
      assert r.order[i] == c.order[i + 1] && r.order[j] == c.order[j + 1];
    }
  }

  lemma AppendOldestFirst(c: Cache, key: SealKey, cell: nat)
    requires OldestFirst(c) && key !in c.entries && key !in c.order
    requires forall k :: k in c.entries ==> c.entries[k] < cell
    ensures OldestFirst(Cache(c.entries[key := cell], c.order + [key]))
  {
    var r := Cache(c.entries[key := cell], c.order + [key]);
    forall i, j | 0 <= i < j < |r.order| && r.order[i] in r.entries && r.order[j] in r.entries
      ensures r.entries[r.order[i]] < r.entries[r.order[j]]
    {
      assert r.order[i] == c.order[i];
    }
  }

  lemma LookedOldestFirst(c: Cache, key: SealKey, cell: nat)
    requires CacheOk(c) && OldestFirst(c) && forall k :: k in c.entries ==> c.entries[k] < cell
    ensures OldestFirst(Looked(c, key, cell).0)
  {
    if key !in c.entries {
      MadeRoomIs(c);
      var r := MadeRoom(c);
      if r != c { PoppedOldestFirst(c); }
      AppendOldestFirst(r, key, cell);
    }
  }

  lemma {:induction false} WithoutAt(order: seq<SealKey>, key: SealKey, i: nat, j: nat) returns (p: nat, q: nat)
    requires i < j < |Without(order, key)|
    ensures p < q < |order| && Without(order, key)[i] == order[p] && Without(order, key)[j] == order[q]
    decreases |order|
  {
    var rest := order[1..];
    if order[0] == key {
      p, q := WithoutAt(rest, key, i, j);
      p, q := p + 1, q + 1;
    } else if i > 0 {
      p, q := WithoutAt(rest, key, i - 1, j - 1);
      p, q := p + 1, q + 1;
    } else {
      p := 0;
      q := WithoutOne(rest, key, j - 1);
      q := q + 1;
    }
  }

  lemma {:induction false} WithoutOne(order: seq<SealKey>, key: SealKey, j: nat) returns (q: nat)
    requires j < |Without(order, key)|
    ensures q < |order| && Without(order, key)[j] == order[q]
    decreases |order|
  {
    if order[0] == key {
      q := WithoutOne(order[1..], key, j);
      q := q + 1;
    } else if j > 0 {
      q := WithoutOne(order[1..], key, j - 1);
      q := q + 1;
    } else {
      q := 0;
    }
  }

  lemma ForgottenOldestFirst(c: Cache, key: SealKey, cell: nat)
    requires OldestFirst(c)
    ensures OldestFirst(Forgotten(c, key, cell))
  {
    var r := Forgotten(c, key, cell);
    forall i, j | 0 <= i < j < |r.order| && r.order[i] in r.entries && r.order[j] in r.entries
      ensures r.entries[r.order[i]] < r.entries[r.order[j]]
    {
      if r != c { var p, q := WithoutAt(c.order, key, i, j); }
    }
  }

  /** In every interleaving the publication an eviction takes is the one whose cell was made
      first of all that are cached. */
  lemma {:induction false} RunOldestFirst(states: seq<State>, actions: seq<Action>, n: nat)
    requires Run(states, actions) && n <= |actions|
    ensures OldestFirst(states[n].cache)
  {
    if n > 0 {
      RunOldestFirst(states, actions, n - 1);
      RunInv(states, actions, n - 1);
      var s := states[n - 1];
      match actions[n - 1]
      case Ask(_, key) => LookedOldestFirst(s.cache, key, |s.cells|);
      case CleanUp(c) => ForgottenOldestFirst(s.cache, s.callers[c].key, s.callers[c].cell);
      case _ =>
    }
  }

  /** After the clean-up of a failed sealing its cell is not cached, so the next caller
      for that publication gets a cell that was never tried. */
  lemma FailureIsForgotten(states: seq<State>, actions: seq<Action>, n: nat, c: nat)
    requires Run(states, actions) && n < |actions| && actions[n].CleanUp?
    requires c < |states[n + 1].callers| && states[n + 1].callers[c].Idle?
    ensures var pc, s := states[n].callers[actions[n].c], states[n + 1];
            && (pc.key in s.cache.entries ==> s.cache.entries[pc.key] != pc.cell)
            && Next(s, Ask(c, pc.key)).callers[c].cell != pc.cell
            && forall k :: k in states[n].cache.entries && k != pc.key ==>
                 k in s.cache.entries && s.cache.entries[k] == states[n].cache.entries[k]
  {
    RunInv(states, actions, n);
    RunInv(states, actions, n + 1);
    assert CallerOk(states[n], states[n].callers[actions[n].c]);
  }

  /** Nobody waits for nothing: a waiting caller can take the envelope, can seal it itself,
      or another caller is sealing it right now. */
  lemma WaitsForSomeone(states: seq<State>, actions: seq<Action>, n: nat, c: nat)
    requires Run(states, actions) && n <= |actions| && c < |states[n].callers| && states[n].callers[c].Waiting?
    ensures
      || Enabled(states[n], Reuse(c))
      || Enabled(states[n], Start(c))
      || exists d :: 0 <= d < |states[n].callers| && states[n].callers[d].Sealing?
                     && states[n].callers[d].cell == states[n].callers[c].cell
  {
    RunInv(states, actions, n);
    assert CallerOk(states[n], states[n].callers[c]);
  }
}
