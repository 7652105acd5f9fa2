/** The single-flight cache of the attestor, as an object and as a step system over all its calls. */
module SingleFlight {
  import opened Bytes

  const CACHE_CAPACITY: nat := 1_024

  type CellId = nat
  type CallId = nat

  /** A once-cell and the height that it is for. */
  datatype Cell<V> = Cell(height: u32, value: Option<V>)

  /** A call waits for the cell, asks the node, has failed, or has left the cell but not dropped it. */
  datatype Phase = Waiting | Asking | Failed | Done

  datatype Call = Call(height: u32, cell: CellId, phase: Phase)

  /** The locked map, the cells, and the calls that hold one. `answers` are the answers that the node
      gave, and `returned` the values that calls gave, each with its height. */
  datatype State<V(==)> = State(
    cache: map<u32, CellId>,
    cells: map<CellId, Cell<V>>,
    calls: map<CallId, Call>,
    answers: set<(u32, V)>,
    returned: seq<(u32, V)>)

  predicate Filled<V>(cells: map<CellId, Cell<V>>, id: CellId) {
    id in cells && cells[id].value.Some?
  }

  // Eviction.

  /** `kept` is `cache` without its lowest filled cells, as many as it takes to get below the
      capacity, or all of them. */
  ghost predicate Evicted<V>(cells: map<CellId, Cell<V>>, cache: map<u32, CellId>, kept: map<u32, CellId>) {
    && kept.Keys <= cache.Keys && (forall h <- kept :: kept[h] == cache[h])
    && (forall h <- cache.Keys - kept.Keys :: Filled(cells, cache[h]))
    && (forall h <- cache.Keys - kept.Keys, k <- kept :: Filled(cells, kept[k]) ==> h < k)
    && (if |cache| < 1_024 then kept == cache else |kept| >= 1_023)
    && (|kept| <= 1_023 || forall h <- kept :: !Filled(cells, kept[h]))
  }

  method LowestFilled<V>(cells: map<CellId, Cell<V>>, cache: map<u32, CellId>) returns (lowest: Option<u32>)
    ensures lowest.None? ==> forall h <- cache :: !Filled(cells, cache[h])
    ensures lowest.Some? ==> lowest.value in cache && Filled(cells, cache[lowest.value])
    ensures lowest.Some? ==> forall h <- cache :: Filled(cells, cache[h]) ==> lowest.value <= h
  {
    lowest := None;
    var rest := cache.Keys;
    while rest != {}
      invariant rest <= cache.Keys
      invariant lowest.None? ==> forall h <- cache.Keys - rest :: !Filled(cells, cache[h])
      invariant lowest.Some? ==> lowest.value in cache && Filled(cells, cache[lowest.value])
      invariant lowest.Some? ==> forall h <- cache.Keys - rest :: Filled(cells, cache[h]) ==> lowest.value <= h
      decreases |rest|
    {
      var h :| h in rest;
      rest := rest - {h};
      if Filled(cells, cache[h]) && (lowest.None? || h < lowest.value) {
        lowest := Some(h);
      }
    }
  }

  method Evict<V>(cells: map<CellId, Cell<V>>, cache: map<u32, CellId>) returns (kept: map<u32, CellId>)
    ensures Evicted(cells, cache, kept)
  {
    kept := cache;
    while |kept| >= CACHE_CAPACITY
      invariant kept.Keys <= cache.Keys && forall h <- kept :: kept[h] == cache[h]
      invariant forall h <- cache.Keys - kept.Keys :: Filled(cells, cache[h])
      invariant forall h <- cache.Keys - kept.Keys, k <- kept :: Filled(cells, kept[k]) ==> h < k
      invariant |cache| < CACHE_CAPACITY ==> kept == cache
      invariant |cache| >= CACHE_CAPACITY ==> |kept| >= CACHE_CAPACITY - 1
      decreases |kept|
    {
      var lowest := LowestFilled(cells, kept);
      if lowest.None? {
        return;
      }
      Smaller(kept, lowest.value);
      ghost var was := kept;
      kept := kept - {lowest.value};
      assert cache.Keys - kept.Keys == (cache.Keys - was.Keys) + {lowest.value};
      assert forall k <- kept :: kept[k] == was[k] && (Filled(cells, was[k]) ==> lowest.value < k);
    }
  }

  lemma Smaller(m: map<u32, CellId>, h: u32)
    requires h in m
    ensures |m - {h}| == |m| - 1
  {
    assert (m - {h}).Keys == m.Keys - {h};
  }

  // The steps.

  datatype Event<V> =
    | Enter(call: CallId, height: u32, cell: CellId)
    | Start(call: CallId)
    | Succeed(call: CallId, value: V)
    | Observe(call: CallId)
    | Fail(call: CallId)
    | Forget(call: CallId)
    | Drop(call: CallId)
    | Cancel(call: CallId)

  function InPhase<V>(s: State<V>, c: CallId, phase: Phase): State<V>
    requires c in s.calls
  {
    s.(calls := s.calls[c := s.calls[c].(phase := phase)])
  }

  /** A new call gets the cell in the map, or makes room for a new one. */
  ghost predicate Enters<V>(s: State<V>, c: CallId, height: u32, id: CellId, t: State<V>) {
    && c !in s.calls
    && if height in s.cache then id == s.cache[height] && t == s.(calls := s.calls[c := Call(height, id, Waiting)])
       else
         && id !in s.cells && (forall d <- s.calls :: s.calls[d].cell != id)
         && (forall h <- s.cache :: s.cache[h] != id)
         && height in t.cache && Evicted(s.cells, s.cache, t.cache - {height})
         && t == s.(cache := (t.cache - {height})[height := id], cells := s.cells[id := Cell(height, None)],
                    calls := s.calls[c := Call(height, id, Waiting)])
  }

  /** The map and the call `c` are the only holders of its cell. */
  ghost predicate OnlyHolder<V>(s: State<V>, c: CallId)
    requires c in s.calls
  {
    forall d <- s.calls :: s.calls[d].cell == s.calls[c].cell ==> d == c
  }

  ghost predicate Step<V>(s: State<V>, e: Event<V>, t: State<V>) {
    if e.Enter? then Enters(s, e.call, e.height, e.cell, t)
    else
      && e.call in s.calls
      && var call := s.calls[e.call];
         && call.cell in s.cells
         && var cell := s.cells[call.cell];
            match e
            case Start(c) =>
              && call.phase == Waiting && cell.value.None?
              && (forall d <- s.calls :: s.calls[d].cell == call.cell ==> s.calls[d].phase != Asking)
              && t == InPhase(s, c, Asking)
            case Succeed(c, v) =>
              && call.phase == Asking
              && t == s.(calls := s.calls - {c}, cells := s.cells[call.cell := cell.(value := Some(v))],
                         answers := s.answers + {(call.height, v)}, returned := s.returned + [(call.height, v)])
            case Observe(c) =>
              && call.phase == Waiting && cell.value.Some?
              && t == s.(calls := s.calls - {c}, returned := s.returned + [(call.height, cell.value.value)])
            case Fail(c) => call.phase == Asking && t == InPhase(s, c, Failed)
            case Forget(c) =>
              && call.phase == Failed
              && var kept := call.height in s.cache && s.cache[call.height] == call.cell;
                 var free := kept && cell.value.None? && OnlyHolder(s, c);
                 t == InPhase(if free then s.(cache := s.cache - {call.height}) else s, c, Done)
            case Drop(c) => call.phase == Done && t == s.(calls := s.calls - {c})
            case Cancel(c) => (call.phase == Waiting || call.phase == Asking) && t == s.(calls := s.calls - {c})
  }

  // What holds in every state.

  ghost predicate CellsOk<V>(s: State<V>) {
    && (forall h <- s.cache :: s.cache[h] in s.cells && s.cells[s.cache[h]].height == h)
    && (forall c <- s.calls :: s.calls[c].cell in s.cells && s.cells[s.calls[c].cell].height == s.calls[c].height)
    && (forall id <- s.cells :: s.cells[id].value.Some? ==> (s.cells[id].height, s.cells[id].value.value) in s.answers)
    && (forall r <- s.returned :: r in s.answers)
  }

  /** The cell that a call still fills, or may fill, is the one in the map. */
  ghost predicate Current<V>(s: State<V>, c: CallId)
    requires c in s.calls && s.calls[c].cell in s.cells
  {
    var call := s.calls[c];
    call.phase != Done && s.cells[call.cell].value.None? ==> call.height in s.cache && s.cache[call.height] == call.cell
  }

  ghost predicate FlightsOk<V>(s: State<V>)
    requires CellsOk(s)
  {
    && (forall c <- s.calls :: Current(s, c))
    && (forall c <- s.calls :: s.calls[c].phase == Asking ==> s.cells[s.calls[c].cell].value.None?)
    && (forall c <- s.calls, d <- s.calls ::
          s.calls[c].phase == Asking && s.calls[d].phase == Asking && s.calls[c].cell == s.calls[d].cell ==> c == d)
  }

  ghost predicate Inv<V>(s: State<V>) {
    CellsOk(s) && FlightsOk(s)
  }

  /** What a call that makes a new cell changes. */
  ghost predicate EntersNew<V>(s: State<V>, c: CallId, height: u32, id: CellId, t: State<V>) {
    && c !in s.calls && height !in s.cache && id !in s.cells
    && t.cells == s.cells[id := Cell(height, None)] && t.calls == s.calls[c := Call(height, id, Waiting)]
    && t.answers == s.answers && t.returned == s.returned
    && height in t.cache && t.cache[height] == id
    && (forall h <- t.cache | h != height :: h in s.cache && t.cache[h] == s.cache[h])
    && (forall h <- s.cache | h !in t.cache :: Filled(s.cells, s.cache[h]))
  }

  lemma EnterMeans<V>(s: State<V>, c: CallId, height: u32, id: CellId, t: State<V>)
    requires Enters(s, c, height, id, t) && height !in s.cache
    ensures EntersNew(s, c, height, id, t)
  {
    var kept := t.cache - {height};
    assert t.cache == kept[height := id];
    forall h | h in s.cache && h !in t.cache ensures Filled(s.cells, s.cache[h]) {
      assert h in s.cache.Keys - kept.Keys;
    }
    forall h | h in t.cache && h != height ensures h in s.cache && t.cache[h] == s.cache[h] {
      assert h in kept;
    }
  }

  lemma NewCallKeepsInv<V>(s: State<V>, c: CallId, height: u32, id: CellId, t: State<V>)
    requires Inv(s) && EntersNew(s, c, height, id, t)
    ensures Inv(t)
  {
    assert CellsOk(t);
    forall d | d in t.calls ensures Current(t, d) {
      if d != c {
        assert Current(s, d);
      }
    }
  }

  lemma EnterKeepsInv<V>(s: State<V>, c: CallId, height: u32, id: CellId, t: State<V>)
    requires Inv(s) && Enters(s, c, height, id, t)
    ensures Inv(t)
  {
    hide Evicted;
    if height in s.cache {
      assert CellsOk(t);
      forall d | d in t.calls ensures Current(t, d) {
        if d != c {
          assert Current(s, d);
        }
      }
    } else {
      hide Inv, EntersNew;
      EnterMeans(s, c, height, id, t);
      NewCallKeepsInv(s, c, height, id, t);
    }
  }

  lemma StepKeepsCells<V>(s: State<V>, e: Event<V>, t: State<V>)
    requires Inv(s) && Step(s, e, t) && !e.Enter?
    ensures CellsOk(t)
  {
    hide OnlyHolder, FlightsOk;
  }

  /** Only the call that is alone with its cell takes it out of the map. */
  lemma ForgetKeepsFlights<V>(s: State<V>, c: CallId, t: State<V>)
    requires Inv(s) && Step(s, Forget(c), t) && CellsOk(t)
    ensures FlightsOk(t)
  {
    forall d | d in t.calls ensures Current(t, d) {
      assert Current(s, d);
    }
  }

  /** Any other step leaves the map alone and empties no cell. */
  lemma StepKeepsCurrent<V>(s: State<V>, e: Event<V>, t: State<V>, d: CallId)
    requires Inv(s) && Step(s, e, t) && !e.Enter? && !e.Forget? && CellsOk(t) && d in t.calls
    ensures d in s.calls && Current(t, d)
  {
    hide OnlyHolder;
    assert t.cache == s.cache && d in s.calls;
    assert Current(s, d);
  }

  lemma StepKeepsFlights<V>(s: State<V>, e: Event<V>, t: State<V>)
    requires Inv(s) && Step(s, e, t) && !e.Enter? && CellsOk(t)
    ensures FlightsOk(t)
  {
    hide OnlyHolder, Current;
    if e.Forget? {
      ForgetKeepsFlights(s, e.call, t);
    } else {
      forall d | d in t.calls ensures Current(t, d) {
        StepKeepsCurrent(s, e, t, d);
      }
    }
  }

  lemma StepKeepsInv<V>(s: State<V>, e: Event<V>, t: State<V>)
    requires Inv(s) && Step(s, e, t)
    ensures Inv(t)
  {
    hide Inv, Enters;
    if e.Enter? {
      EnterKeepsInv(s, e.call, e.height, e.cell, t);
    } else {
      StepKeepsBoth(s, e, t);
    }
  }

  lemma StepKeepsBoth<V>(s: State<V>, e: Event<V>, t: State<V>)
    requires Inv(s) && Step(s, e, t) && !e.Enter?
    ensures Inv(t)
  {
    hide Step, CellsOk, FlightsOk;
    StepKeepsCells(s, e, t);
    StepKeepsFlights(s, e, t);
  }

  // The cache as it runs.

  /** The locked map and its cells, as the attestor holds them. */
  class RootsCache<V(==)> {
    var cache: map<u32, CellId>
    var cells: map<CellId, Cell<V>>

    constructor ()
      ensures cache == map[] && cells == map[]
    {
      cache, cells := map[], map[];
    }

    /** The cell of `height`; `unused` is the identity of a new one. In the state `s` of all calls, this
        is the step in which call `c` enters. */
    method TreeRootsCell(height: u32, unused: CellId, ghost s: State<V>, ghost c: CallId) returns (id: CellId)
      requires s.cache == cache && s.cells == cells && Inv(s) && c !in s.calls && unused !in s.cells
      modifies this
      ensures Step(s, Enter(c, height, id),
                   s.(cache := cache, cells := cells, calls := s.calls[c := Call(height, id, Waiting)]))
    {
      hide Evicted, FlightsOk;
      if height in cache {
        return cache[height];
      }
      var kept := Evict(cells, cache);
      EntersFresh(s, c, height, unused, kept);
      cache, cells, id := kept[height := unused], cells[unused := Cell(height, None)], unused;
    }

    /** Removes the cell `id` of the failed call `c`, if only the map and the call hold it. `holders` is
        the number of holders that the runtime counts. In the state `s` of all calls, this is the step in
        which the call forgets its cell. */
    method ForgetFailedCell(height: u32, id: CellId, holders: nat, ghost s: State<V>, ghost c: CallId)
      requires s.cache == cache && s.cells == cells && Inv(s) && c in s.calls && s.calls[c] == Call(height, id, Failed)
      requires holders == StrongCount(s, id)
      modifies this`cache
      ensures Step(s, Forget(c), InPhase(s.(cache := cache), c, Done))
    {
      if height in cache && cache[height] == id {
        CountsHolders(s, c);
      }
      if height in cache && cache[height] == id && !Filled(cells, id) && holders == 2 {
        cache := cache - {height};
      }
    }
  }

  lemma EntersFresh<V>(s: State<V>, c: CallId, height: u32, id: CellId, kept: map<u32, CellId>)
    requires CellsOk(s) && c !in s.calls && height !in s.cache && id !in s.cells && Evicted(s.cells, s.cache, kept)
    ensures Step(s, Enter(c, height, id),
                 s.(cache := kept[height := id], cells := s.cells[id := Cell(height, None)],
                    calls := s.calls[c := Call(height, id, Waiting)]))
  {
    assert height !in kept;
    assert kept[height := id] - {height} == kept;
    hide Evicted;
  }

  function Holders<V>(s: State<V>, id: CellId): set<CallId> {
    set c | c in s.calls && s.calls[c].cell == id
  }

  /** The holders of a cell: the map, if it has the cell, and the calls. */
  ghost function StrongCount<V>(s: State<V>, id: CellId): nat {
    (if id in s.cache.Values then 1 else 0) + |Holders(s, id)|
  }

  lemma CountsHolders<V>(s: State<V>, c: CallId)
    requires c in s.calls && s.calls[c].height in s.cache && s.cache[s.calls[c].height] == s.calls[c].cell
    ensures StrongCount(s, s.calls[c].cell) == 2 <==> OnlyHolder(s, c)
  {
    var id := s.calls[c].cell;
    assert s.calls[c].height in s.cache.Keys && id in s.cache.Values;
    var hs := Holders(s, id);
    assert c in hs;
    if |hs| == 1 {
      forall d | d in s.calls && s.calls[d].cell == id ensures d == c {
        Singleton(hs, c, d);
      }
    }
    if OnlyHolder(s, c) {
      assert hs == {c};
    }
  }

  lemma Singleton(hs: set<CallId>, c: CallId, d: CallId)
    requires |hs| == 1 && c in hs && d in hs
    ensures c == d
  {
    assert |hs - {c}| == 0;
  }

  // Whole runs.

  function Empty<V(==)>(): State<V> {
    State(map[], map[], map[], {}, [])
  }

  ghost predicate Run<V>(states: seq<State<V>>, events: seq<Event<V>>) {
    && |states| == |events| + 1 && states[0] == Empty()
    && forall i | 0 <= i < |events| :: Step(states[i], events[i], states[i + 1])
  }

  lemma {:induction false} ReachableIsOk<V>(states: seq<State<V>>, events: seq<Event<V>>, i: nat)
    requires Run(states, events) && i < |states|
    ensures Inv(states[i])
  {
    hide Step;
    if i > 0 {
      ReachableIsOk(states, events, i - 1);
      StepKeepsInv(states[i - 1], events[i - 1], states[i]);
    }
  }

  /** Over every interleaving: at most one request per height is in progress, the empty cell of an
      active call is the one in the map, and every returned value is an answer for its height. */
  lemma SingleFlight<V>(states: seq<State<V>>, events: seq<Event<V>>, i: nat)
    requires Run(states, events) && i < |states|
    ensures var s := states[i];
            && (forall c <- s.calls, d <- s.calls ::
                  s.calls[c].phase == Asking && s.calls[d].phase == Asking && s.calls[c].height == s.calls[d].height ==>
                    c == d)
            && (forall c <- s.calls :: s.calls[c].cell in s.cells && Current(s, c))
            && (forall r <- s.returned :: r in s.answers)
  {
    hide Step, Run;
    ReachableIsOk(states, events, i);
    var s := states[i];
    forall c, d | c in s.calls && d in s.calls && s.calls[c].phase == Asking && s.calls[d].phase == Asking
                  && s.calls[c].height == s.calls[d].height
      ensures c == d
    {
      assert Current(s, c) && Current(s, d);
    }
  }

  /** Eviction takes filled cells only, and a new call leaves the map within its capacity or without
      another filled cell. */
  lemma EvictionIsSafe<V>(s: State<V>, c: CallId, height: u32, id: CellId, t: State<V>)
    requires Inv(s) && Enters(s, c, height, id, t)
    ensures forall h <- s.cache | h !in t.cache :: Filled(s.cells, s.cache[h])
    ensures height !in s.cache ==> |t.cache| <= 1_024 || forall h <- t.cache :: !Filled(t.cells, t.cache[h])
  {
    if height !in s.cache {
      var kept := t.cache - {height};
      Smaller(t.cache, height);
      forall h | h in s.cache && h !in t.cache ensures Filled(s.cells, s.cache[h]) {
        assert h in s.cache.Keys - kept.Keys;
      }
      forall h | h in t.cache && |t.cache| > 1_024 ensures !Filled(t.cells, t.cache[h]) {
        if h != height {
          assert h in kept;
        }
      }
    }
  }

  /** A failed call gives its place in the map back exactly if no other call holds the cell when it
      forgets it. */
  lemma ForgetFreesThePlace<V>(s: State<V>, c: CallId, t: State<V>)
    requires Inv(s) && Step(s, Forget(c), t) && s.cells[s.calls[c].cell].value.None?
    ensures s.calls[c].height !in t.cache <==> OnlyHolder(s, c)
  {
    assert Current(s, c);
  }

  // Cells that stay behind.

  /** The map keeps an empty cell for `h` that no call holds. */
  ghost predicate Stale<V>(s: State<V>, h: u32) {
    && h in s.cache && s.cache[h] in s.cells && s.cells[s.cache[h]].value.None?
    && forall c <- s.calls :: s.calls[c].cell != s.cache[h]
  }

  /** The last holder of the empty cell for `h` in the map leaves: cancelled, or behind a failure with
      which it did not free the cell. */
  ghost predicate LeavesStale<V>(s: State<V>, e: Event<V>, h: u32) {
    && (e.Cancel? || e.Drop?) && e.call in s.calls && OnlyHolder(s, e.call)
    && h in s.cache && s.cache[h] == s.calls[e.call].cell && !Filled(s.cells, s.cache[h])
  }

  lemma EnterAndStale<V>(s: State<V>, e: Event<V>, t: State<V>, h: u32)
    requires CellsOk(s) && Step(s, e, t) && e.Enter?
    ensures Stale(t, h) <==> Stale(s, h) && e.height != h
  {
    hide Evicted;
    if e.height in s.cache {
      assert e.call in t.calls && t.calls[e.call].cell == s.cache[e.height];
      if Stale(s, h) && e.height != h {
        assert s.cells[s.cache[h]].height == h;
      }
      forall c | c in s.calls ensures c in t.calls && t.calls[c] == s.calls[c] {
      }
    } else {
      EnterMeans(s, e.call, e.height, e.cell, t);
      hide Enters;
      assert e.call in t.calls && t.calls[e.call].cell == e.cell == t.cache[e.height];
      forall c | c in s.calls ensures c in t.calls && t.calls[c] == s.calls[c] {
      }
    }
  }

  lemma LeaveAndStale<V>(s: State<V>, e: Event<V>, t: State<V>, h: u32)
    requires CellsOk(s) && Step(s, e, t) && (e.Cancel? || e.Drop? || e.Observe? || e.Succeed?)
    ensures Stale(t, h) <==> Stale(s, h) || LeavesStale(s, e, h)
  {
    var call := s.calls[e.call];
    assert forall c <- t.calls :: c in s.calls && t.calls[c] == s.calls[c];
    assert forall c <- s.calls | c != e.call :: c in t.calls;
    if h in s.cache && s.cache[h] == call.cell {
      assert s.cells[call.cell].height == h;
    }
  }

  lemma StayAndStale<V>(s: State<V>, e: Event<V>, t: State<V>, h: u32)
    requires CellsOk(s) && Step(s, e, t) && (e.Start? || e.Fail? || e.Forget?)
    ensures Stale(t, h) <==> Stale(s, h)
  {
    hide OnlyHolder;
    assert t.calls.Keys == s.calls.Keys && forall c <- s.calls :: t.calls[c].cell == s.calls[c].cell;
    if Stale(s, h) {
      assert s.cache[h] != s.calls[e.call].cell && s.cells[s.calls[e.call].cell].height == s.calls[e.call].height;
    }
  }

  /** A cell becomes stale only when its last holder leaves it, and stays so until a call for its
      height enters: eviction never takes it. */
  lemma StepAndStale<V>(s: State<V>, e: Event<V>, t: State<V>, h: u32)
    requires Inv(s) && Step(s, e, t)
    ensures Stale(t, h) <==> LeavesStale(s, e, h) || (Stale(s, h) && !(e.Enter? && e.height == h))
  {
    hide Step, CellsOk, FlightsOk, Stale;
    if e.Enter? {
      EnterAndStale(s, e, t, h);
    } else if e.Start? || e.Fail? || e.Forget? {
      StayAndStale(s, e, t, h);
    } else {
      LeaveAndStale(s, e, t, h);
    }
  }

  /** Since event `j` no call for `h` has entered. */
  ghost predicate Unvisited<V>(events: seq<Event<V>>, j: nat, i: nat, h: u32)
    requires i <= |events|
  {
    forall k | j < k < i :: !(events[k].Enter? && events[k].height == h)
  }

  /** Over all runs: the map holds an empty cell for `h` that no call holds if and only if the last
      holder of that cell was cancelled, or failed beside another holder, and no call for `h` has
      entered since. */
  lemma {:induction false} StaleExactly<V>(states: seq<State<V>>, events: seq<Event<V>>, i: nat, h: u32)
    requires Run(states, events) && i <= |events|
    ensures Stale(states[i], h)
            <==> exists j | 0 <= j < i :: LeavesStale(states[j], events[j], h) && Unvisited(events, j, i, h)
  {
    hide Step, Stale, LeavesStale;
    if i == 0 {
      NothingStale<V>(h);
    } else {
      var n := i - 1;
      StaleExactly(states, events, n, h);
      ReachableIsOk(states, events, n);
      assert Step(states[n], events[n], states[n + 1]);
      StepAndStale(states[n], events[n], states[i], h);
      if LeavesStale(states[n], events[n], h) {
        assert Unvisited(events, n, i, h);
      }
      if Stale(states[n], h) && !(events[n].Enter? && events[n].height == h) {
        var j :| 0 <= j < n && LeavesStale(states[j], events[j], h) && Unvisited(events, j, n, h);
        assert Unvisited(events, j, i, h);
      }
      if j :| 0 <= j < i && LeavesStale(states[j], events[j], h) && Unvisited(events, j, i, h) {
        if j < n {
          assert Unvisited(events, j, n, h);
        }
      }
    }
  }

  lemma NothingStale<V>(h: u32)
    ensures !Stale(Empty<V>(), h)
  {
  }

  // A failed call can leave its place behind.

  /** Two calls for one height that both fail, and both look for other holders before either has
      dropped the cell. */
  function BothFail<V>(h: u32): seq<Event<V>> {
    [Enter(0, h, 0), Enter(1, h, 0), Start(0), Fail(0), Start(1), Fail(1), Forget(0), Forget(1), Drop(0), Drop(1)]
  }

  function Held<V(==)>(h: u32, calls: map<CallId, Phase>): State<V> {
    State(map[h := 0], map[0 := Cell(h, None)], map c | c in calls :: Call(h, 0, calls[c]), {}, [])
  }

  /** The phases of the two calls behind each event. */
  function BothFailPhases(): seq<map<CallId, Phase>> {
    var m1 := map[0 := Waiting];
    var m2 := m1[1 := Waiting];
    var m3 := m2[0 := Asking];
    var m4 := m3[0 := Failed];
    var m5 := m4[1 := Asking];
    var m6 := m5[1 := Failed];
    var m7 := m6[0 := Done];
    var m8 := m7[1 := Done];
    var m9 := m8 - {0};
    [m1, m2, m3, m4, m5, m6, m7, m8, m9, m9 - {1}]
  }

  function BothFailStates<V(==)>(h: u32): seq<State<V>> {
    var ms := BothFailPhases();
    [Empty(), Held(h, ms[0]), Held(h, ms[1]), Held(h, ms[2]), Held(h, ms[3]), Held(h, ms[4]), Held(h, ms[5]),
     Held(h, ms[6]),
     Held(h, ms[7]), Held(h, ms[8]), Held(h, ms[9])]
  }

  lemma FirstEnters<V>(h: u32)
    ensures Step(Empty<V>(), Enter(0, h, 0), Held<V>(h, map[0 := Waiting]))
  {
    var t := Held<V>(h, map[0 := Waiting]);
    assert t.cache - {h} == map[];
  }

  lemma SecondEnters<V>(h: u32, m: map<CallId, Phase>, c: CallId)
    requires c !in m
    ensures Step(Held<V>(h, m), Enter(c, h, 0), Held<V>(h, m[c := Waiting]))
  {
    assert Held<V>(h, m[c := Waiting]).calls == Held<V>(h, m).calls[c := Call(h, 0, Waiting)];
  }

  lemma PhaseMoves<V>(h: u32, m: map<CallId, Phase>, c: CallId)
    requires c in m
    ensures (m[c] == Waiting && forall d <- m :: m[d] != Asking) ==>
              Step(Held<V>(h, m), Start(c), Held<V>(h, m[c := Asking]))
    ensures m[c] == Asking ==> Step(Held<V>(h, m), Fail(c), Held<V>(h, m[c := Failed]))
    ensures m[c] == Done ==> Step(Held<V>(h, m), Drop(c), Held<V>(h, m - {c}))
  {
    forall p ensures Held<V>(h, m[c := p]) == InPhase(Held<V>(h, m), c, p) {
      assert Held<V>(h, m[c := p]).calls == InPhase(Held<V>(h, m), c, p).calls;
    }
    assert Held<V>(h, m - {c}).calls == Held<V>(h, m).calls - {c};
  }

  lemma CancelMoves<V>(h: u32, m: map<CallId, Phase>, c: CallId)
    requires c in m && (m[c] == Waiting || m[c] == Asking)
    ensures Step(Held<V>(h, m), Cancel(c), Held<V>(h, m - {c}))
  {
    assert Held<V>(h, m - {c}).calls == Held<V>(h, m).calls - {c};
  }

  lemma OtherHolderStays<V>(h: u32, m: map<CallId, Phase>, c: CallId, d: CallId)
    requires c in m && d in m && c != d && m[c] == Failed
    ensures Step(Held<V>(h, m), Forget(c), Held<V>(h, m[c := Done]))
  {
    var s := Held<V>(h, m);
    assert d in s.calls && s.calls[d].cell == s.calls[c].cell;
    assert !OnlyHolder(s, c);
    assert Held<V>(h, m[c := Done]).calls == InPhase(s, c, Done).calls;
  }

  /** In the end the map keeps an empty cell that no call holds. */
  lemma FailedCellCanStay<V>(h: u32)
    ensures Run<V>(BothFailStates(h), BothFail(h))
    ensures Stale(BothFailStates<V>(h)[10], h)
  {
    hide Step, Held, BothFailPhases, Stale;
    var ms := BothFailPhases();
    PhasesFollow();
    FirstEnters<V>(h);
    SecondEnters<V>(h, ms[0], 1);
    PhaseMoves<V>(h, ms[1], 0);
    PhaseMoves<V>(h, ms[2], 0);
    PhaseMoves<V>(h, ms[3], 1);
    PhaseMoves<V>(h, ms[4], 1);
    OtherHolderStays<V>(h, ms[5], 0, 1);
    OtherHolderStays<V>(h, ms[6], 1, 0);
    PhaseMoves<V>(h, ms[7], 0);
    PhaseMoves<V>(h, ms[8], 1);
    NobodyHolds<V>(h);
  }

  /** A sole call that is cancelled, before or during its request, leaves its empty cell too. */
  lemma CancelledCellStays<V>(h: u32)
    ensures Run<V>([Empty(), Held(h, map[0 := Waiting]), Held(h, map[])], [Enter(0, h, 0), Cancel(0)])
    ensures Run<V>([Empty(), Held(h, map[0 := Waiting]), Held(h, map[0 := Asking]), Held(h, map[])],
                   [Enter(0, h, 0), Start(0), Cancel(0)])
    ensures Stale(Held<V>(h, map[]), h)
  {
    hide Step, Held, Stale;
    FirstEnters<V>(h);
    PhaseMoves<V>(h, map[0 := Waiting], 0);
    CancelMoves<V>(h, map[0 := Waiting], 0);
    CancelMoves<V>(h, map[0 := Asking], 0);
    var none: map<CallId, Phase> := map[];
    assert map[0 := Waiting] - {0} == none && map[0 := Asking] - {0} == none;
    assert map[0 := Waiting][0 := Asking] == map[0 := Asking];
    NobodyHolds<V>(h);
  }

  lemma PhasesFollow()
    ensures var ms := BothFailPhases();
            && |ms| == 10 && ms[0] == map[0 := Waiting] && ms[1] == ms[0][1 := Waiting] && ms[2] == ms[1][0 := Asking]
            && ms[3] == ms[2][0 := Failed] && ms[4] == ms[3][1 := Asking] && ms[5] == ms[4][1 := Failed]
            && ms[6] == ms[5][0 := Done] && ms[7] == ms[6][1 := Done] && ms[8] == ms[7] - {0}
            && ms[9] == ms[8] - {1} == map[]
  {
  }

  lemma NobodyHolds<V>(h: u32)
    ensures Stale(Held<V>(h, map[]), h)
  {
  }
}
