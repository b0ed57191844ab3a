/** The fan-in of per-chain trigger channels into one shared channel. Every chain has a
    bounded queue fed by its trigger engine and one goroutine that takes an item, stamps it
    with the chain id and sends it on; one consumer reads the shared channel. */
module FanIn {
  import opened Collections
  import opened Strings

  const LANE_CAPACITY := 1000

  /** A chain's channel and its goroutine. `produced` remembers everything its trigger
      engine ever put in. */
  datatype Lane<T> = Lane(id: int, produced: seq<T>, queue: seq<T>, closed: bool, hand: Option<T>, stopped: bool)

  datatype State<T> = State(
    lanes: seq<Lane<T>>,
    capacity: nat,
    shared: seq<(int, T)>,
    consumed: seq<(int, T)>,
    cancelled: bool,
    consumerStopped: bool)

  /** One step of some participant; lanes are named by position. */
  datatype Step<T> =
    | Produce(lane: nat, item: T)
    | Close(lane: nat)
    | Receive(lane: nat)
    | Send(lane: nat)
    | Stop(lane: nat)
    | Consume
    | Cancel
    | StopConsumer

  predicate Enabled<T>(s: State<T>, a: Step<T>) {
    match a
    case Produce(i, _) => i < |s.lanes| && !s.lanes[i].closed && |s.lanes[i].queue| < LANE_CAPACITY
    case Close(i) => i < |s.lanes|
    case Receive(i) => i < |s.lanes| && !s.lanes[i].stopped && s.lanes[i].hand == None && s.lanes[i].queue != []
    case Send(i) => i < |s.lanes| && s.lanes[i].hand.Some? && |s.shared| < s.capacity
    case Stop(i) =>
      i < |s.lanes| && s.lanes[i].hand == None && (s.cancelled || (s.lanes[i].closed && s.lanes[i].queue == []))
    case Consume => s.shared != [] && !s.consumerStopped
    case Cancel => true
    case StopConsumer => s.cancelled
  }

  function Fire<T>(s: State<T>, a: Step<T>): State<T>
    requires Enabled(s, a)
  {
    match a
    case Produce(i, x) =>
      var l := s.lanes[i];
      s.(lanes := s.lanes[i := l.(produced := l.produced + [x], queue := l.queue + [x])])
    case Close(i) => s.(lanes := s.lanes[i := s.lanes[i].(closed := true)])
    case Receive(i) =>
      var l := s.lanes[i];
      s.(lanes := s.lanes[i := l.(hand := Some(l.queue[0]), queue := l.queue[1..])])
    case Send(i) =>
      var l := s.lanes[i];
      s.(lanes := s.lanes[i := l.(hand := None)], shared := s.shared + [(l.id, l.hand.value)])
    case Stop(i) => s.(lanes := s.lanes[i := s.lanes[i].(stopped := true)])
    case Consume => s.(shared := s.shared[1..], consumed := s.consumed + [s.shared[0]])
    case Cancel => s.(cancelled := true)
    case StopConsumer => s.(consumerStopped := true)
  }

  /** An interleaving: each step enabled when its turn comes. */
  predicate Runs<T>(s: State<T>, steps: seq<Step<T>>)
    decreases |steps|
  {
    steps == [] || (Enabled(s, steps[0]) && Runs(Fire(s, steps[0]), steps[1..]))
  }

  function After<T>(s: State<T>, steps: seq<Step<T>>): State<T>
    requires Runs(s, steps)
    decreases |steps|
  {
    if steps == [] then s else After(Fire(s, steps[0]), steps[1..])
  }

  /** One lane per initialised chain; the shared buffer is sized by the configured chains. */
  function Init<T>(ids: seq<int>, configured: nat): State<T> {
    var lanes := seq(|ids|, i requires 0 <= i < |ids| => Lane(ids[i], [], [], false, None, false));
    State(lanes, configured * 1000, [], [], false, false)
  }

  // ---------------------------------------------------------------- conservation

  /** The items of a tagged sequence that carry the id, in order. */
  function Tagged<T>(s: seq<(int, T)>, id: int): seq<T> {
    if s == [] then []
    else
      var rest := Tagged(s[..|s| - 1], id);
      if s[|s| - 1].0 == id then rest + [s[|s| - 1].1] else rest
  }

  lemma {:induction false} TaggedConcat<T>(a: seq<(int, T)>, b: seq<(int, T)>, id: int)
    ensures Tagged(a + b, id) == Tagged(a, id) + Tagged(b, id)
    decreases |b|
  {
    if b == [] {
      assert a + b == a;
    } else {
      var n := |b| - 1;
      assert (a + b)[..|a + b| - 1] == a + b[..n];
      TaggedConcat(a, b[..n], id);
    }
  }

  function InHand<T>(l: Lane<T>): seq<T> {
    if l.hand.Some? then [l.hand.value] else []
  }

  /** Everything lane i still has, oldest first. */
  function Backlog<T>(s: State<T>, i: nat): seq<T>
    requires i < |s.lanes|
  {
    Tagged(s.shared, s.lanes[i].id) + (InHand(s.lanes[i]) + s.lanes[i].queue)
  }

  ghost predicate Conserved<T>(s: State<T>, i: nat)
    requires i < |s.lanes|
  {
    Tagged(s.consumed, s.lanes[i].id) + Backlog(s, i) == s.lanes[i].produced
  }

  ghost predicate HasID<T>(lanes: seq<Lane<T>>, id: int) {
    exists i :: 0 <= i < |lanes| && lanes[i].id == id
  }

  ghost predicate KnownTags<T>(s: State<T>, q: seq<(int, T)>) {
    forall k :: 0 <= k < |q| ==> HasID(s.lanes, q[k].0)
  }

  ghost predicate DistinctLanes<T>(s: State<T>) {
    forall i, j :: 0 <= i < j < |s.lanes| ==> s.lanes[i].id != s.lanes[j].id
  }

  /** A goroutine leaves with an empty hand, and without cancellation only after draining
      its closed queue. */
  ghost predicate LaneOk<T>(l: Lane<T>, cancelled: bool) {
    && |l.queue| <= LANE_CAPACITY
    && (l.stopped ==> l.hand == None && (cancelled || (l.closed && l.queue == [])))
  }

  ghost predicate Sound<T>(s: State<T>) {
    && DistinctLanes(s)
    && (forall i :: 0 <= i < |s.lanes| ==> Conserved(s, i))
    && (forall i :: 0 <= i < |s.lanes| ==> LaneOk(s.lanes[i], s.cancelled))
    && |s.shared| <= s.capacity
    && KnownTags(s, s.shared) && KnownTags(s, s.consumed)
    && (s.consumerStopped ==> s.cancelled)
  }

  lemma SendConserves<T>(s: State<T>, i: nat, j: nat)
    requires Enabled(s, Send(i)) && j < |s.lanes| && Conserved(s, j) && (i != j ==> s.lanes[i].id != s.lanes[j].id)
    ensures Conserved(Fire(s, Send(i)), j)
  {
  }

  lemma ConsumeConserves<T>(s: State<T>, j: nat)
    requires Enabled(s, Consume) && j < |s.lanes| && Conserved(s, j)
    ensures Conserved(Fire(s, Consume), j)
  {
    var id, x := s.lanes[j].id, s.shared[0];
    TaggedConcat(s.consumed, [x], id);
    TaggedConcat([x], s.shared[1..], id);
    assert s.shared == [x] + s.shared[1..];
    var done, head, tail, rest := Tagged(s.consumed, id), Tagged([x], id), Tagged(s.shared[1..], id),
        InHand(s.lanes[j]) + s.lanes[j].queue;
    assert (done + head) + (tail + rest) == done + ((head + tail) + rest);
  }

  lemma LaneConserves<T>(s: State<T>, a: Step<T>, j: nat)
    requires Enabled(s, a) && !a.Send? && !a.Consume? && j < |s.lanes| && Conserved(s, j)
    ensures Conserved(Fire(s, a), j)
  {
    match a
    case Produce(i, x) =>
      if i == j {
        var done, rest, l := Tagged(s.consumed, s.lanes[j].id), Tagged(s.shared, s.lanes[j].id), s.lanes[j];
        assert done + (rest + (InHand(l) + (l.queue + [x]))) == (done + (rest + (InHand(l) + l.queue))) + [x];
      }
    case Receive(i) =>
      if i == j {
        var l := s.lanes[j];
        assert [l.queue[0]] + l.queue[1..] == [] + l.queue;
      }
    case _ =>
  }

  /** No step loses, duplicates, reorders or mis-tags anything of lane j. */
  lemma StepConserves<T>(s: State<T>, a: Step<T>, j: nat)
    requires Enabled(s, a) && j < |s.lanes| && Conserved(s, j)
    requires forall i :: 0 <= i < |s.lanes| && i != j ==> s.lanes[i].id != s.lanes[j].id
    ensures Conserved(Fire(s, a), j)
  {
    match a
    case Send(i) => SendConserves(s, i, j);
    case Consume => ConsumeConserves(s, j);
    case _ => LaneConserves(s, a, j);
  }

  lemma StepIDs<T>(s: State<T>, a: Step<T>)
    requires Enabled(s, a)
    ensures |Fire(s, a).lanes| == |s.lanes|
    ensures forall i :: 0 <= i < |s.lanes| ==> Fire(s, a).lanes[i].id == s.lanes[i].id
  {
  }

  lemma SameIDs<T>(a: seq<Lane<T>>, b: seq<Lane<T>>, id: int)
    requires |a| == |b| && (forall i :: 0 <= i < |a| ==> a[i].id == b[i].id) && HasID(a, id)
    ensures HasID(b, id)
  {
    var i :| 0 <= i < |a| && a[i].id == id;
    assert b[i].id == id;
  }

  lemma StepTags<T>(s: State<T>, a: Step<T>)
    requires Enabled(s, a) && KnownTags(s, s.shared) && KnownTags(s, s.consumed)
    ensures KnownTags(Fire(s, a), Fire(s, a).shared) && KnownTags(Fire(s, a), Fire(s, a).consumed)
  {
    var t := Fire(s, a);
    StepIDs(s, a);
    if a.Send? { assert HasID(s.lanes, s.lanes[a.lane].id); }
    forall k | 0 <= k < |t.shared| ensures HasID(t.lanes, t.shared[k].0) { SameIDs(s.lanes, t.lanes, t.shared[k].0); }
    forall k | 0 <= k < |t.consumed| ensures HasID(t.lanes, t.consumed[k].0) {
      SameIDs(s.lanes, t.lanes, t.consumed[k].0);
    }
  }

  lemma StepLanes<T>(s: State<T>, a: Step<T>)
    requires Enabled(s, a) && DistinctLanes(s) && forall i :: 0 <= i < |s.lanes| ==> LaneOk(s.lanes[i], s.cancelled)
    ensures var t := Fire(s, a);
            && |t.lanes| == |s.lanes| && DistinctLanes(t)
            && forall i :: 0 <= i < |t.lanes| ==> LaneOk(t.lanes[i], t.cancelled)
  {
    var t := Fire(s, a);
    assert forall i :: 0 <= i < |s.lanes| ==> t.lanes[i].id == s.lanes[i].id;
  }

  lemma StepSound<T>(s: State<T>, a: Step<T>)
    requires Sound(s) && Enabled(s, a)
    ensures Sound(Fire(s, a))
  {
    StepLanes(s, a);
    forall j | 0 <= j < |s.lanes| ensures Conserved(Fire(s, a), j) { StepConserves(s, a, j); }
    StepTags(s, a);
  }

  lemma {:induction false} RunSound<T>(s: State<T>, steps: seq<Step<T>>)
    requires Sound(s) && Runs(s, steps)
    ensures Sound(After(s, steps))
    decreases |steps|
  {
    if steps != [] {
      StepSound(s, steps[0]);
      RunSound(Fire(s, steps[0]), steps[1..]);
    }
  }

  lemma InitSound<T>(ids: seq<int>, configured: nat)
    requires Distinct(ids)
    ensures Sound(Init<T>(ids, configured))
  {
  }

  /** Every interleaving from start-up: for each chain, what was consumed followed by what
      is still on its way is exactly what was produced, so what was consumed is a prefix. */
  lemma Conservation<T>(ids: seq<int>, configured: nat, steps: seq<Step<T>>, i: nat)
    requires Distinct(ids) && Runs(Init<T>(ids, configured), steps)
    requires i < |After(Init<T>(ids, configured), steps).lanes|
    ensures var t := After(Init<T>(ids, configured), steps);
            && Tagged(t.consumed, t.lanes[i].id) + Backlog(t, i) == t.lanes[i].produced
            && Tagged(t.consumed, t.lanes[i].id) <= t.lanes[i].produced
  {
    InitSound<T>(ids, configured);
    RunSound(Init<T>(ids, configured), steps);
    var t := After(Init<T>(ids, configured), steps);
    assert Conserved(t, i);
  }

  // ---------------------------------------------------------------- delivery

  /** Steps of the goroutines and the consumer on items already produced. */
  predicate Forwards<T>(a: Step<T>) {
    a.Receive? || a.Send? || a.Consume?
  }

  function LaneWork<T>(l: Lane<T>): nat {
    3 * |l.queue| + if l.hand.Some? then 2 else 0
  }

  function LanesWork<T>(lanes: seq<Lane<T>>): nat {
    if lanes == [] then 0 else LanesWork(lanes[..|lanes| - 1]) + LaneWork(lanes[|lanes| - 1])
  }

  /** Forwarding steps still to be made before everything produced has been consumed. */
  function Work<T>(s: State<T>): nat {
    LanesWork(s.lanes) + |s.shared|
  }

  lemma {:induction false} LanesWorkUpdate<T>(lanes: seq<Lane<T>>, i: nat, l: Lane<T>)
    requires i < |lanes|
    ensures LanesWork(lanes[i := l]) == LanesWork(lanes) - LaneWork(lanes[i]) + LaneWork(l)
  {
    var n := |lanes| - 1;
    if i == n {
      assert lanes[i := l][..n] == lanes[..n];
    } else {
      assert lanes[i := l][..n] == lanes[..n][i := l];
      LanesWorkUpdate(lanes[..n], i, l);
    }
  }

  lemma {:induction false} LanesWorkZero<T>(lanes: seq<Lane<T>>)
    ensures LanesWork(lanes) == 0 <==> forall i :: 0 <= i < |lanes| ==> LaneWork(lanes[i]) == 0
  {
    if lanes != [] {
      var n := |lanes| - 1;
      LanesWorkZero(lanes[..n]);
      assert forall i :: 0 <= i < n ==> lanes[..n][i] == lanes[i];
    }
  }

  lemma ForwardKeeps<T>(s: State<T>, a: Step<T>)
    requires Enabled(s, a) && Forwards(a)
    ensures var t := Fire(s, a);
            && t.cancelled == s.cancelled && t.capacity == s.capacity && |t.lanes| == |s.lanes|
            && forall i :: 0 <= i < |s.lanes| ==>
                 t.lanes[i].produced == s.lanes[i].produced && t.lanes[i].id == s.lanes[i].id
  {
  }

  function Forwarded<T>(steps: seq<Step<T>>): nat {
    if steps == [] then 0 else (if Forwards(steps[0]) then 1 else 0) + Forwarded(steps[1..])
  }

  function ItemsProduced<T>(steps: seq<Step<T>>): nat {
    if steps == [] then 0 else (if steps[0].Produce? then 1 else 0) + ItemsProduced(steps[1..])
  }

  lemma StepWork<T>(s: State<T>, a: Step<T>)
    requires Enabled(s, a)
    ensures Work(Fire(s, a)) == Work(s) + (if a.Produce? then 3 else 0) - if Forwards(a) then 1 else 0
  {
    if a.Produce? || a.Close? || a.Receive? || a.Send? || a.Stop? {
      LanesWorkUpdate(s.lanes, a.lane, Fire(s, a).lanes[a.lane]);
    }
  }

  /** Over every run, cancellation included: each item produced is worth three forwarding
      steps, and what is left is what was not forwarded. */
  lemma {:induction false} RunWork<T>(s: State<T>, steps: seq<Step<T>>)
    requires Runs(s, steps)
    ensures Work(After(s, steps)) == Work(s) + 3 * ItemsProduced(steps) - Forwarded(steps)
    decreases |steps|
  {
    if steps != [] {
      StepWork(s, steps[0]);
      RunWork(Fire(s, steps[0]), steps[1..]);
    }
  }

  /** Before cancellation some forwarding step is enabled as long as anything is left. */
  lemma NeverStuck<T>(s: State<T>) returns (a: Step<T>)
    requires Sound(s) && !s.cancelled && s.capacity > 0 && Work(s) > 0
    ensures Enabled(s, a) && Forwards(a)
  {
    LanesWorkZero(s.lanes);
    if s.shared != [] {
      a := Consume;
    } else {
      var i :| 0 <= i < |s.lanes| && LaneWork(s.lanes[i]) != 0;
      assert LaneOk(s.lanes[i], false);
      a := if s.lanes[i].hand.Some? then Send(i) else Receive(i);
    }
  }

  ghost predicate AllForward<T>(steps: seq<Step<T>>) {
    forall k :: 0 <= k < |steps| ==> Forwards(steps[k])
  }

  /** However the scheduler interleaves them, exactly Work(s) forwarding steps are made
      before nothing is left; then every chain's whole output has been consumed, in order. */
  lemma {:induction false} Delivery<T>(s: State<T>, steps: seq<Step<T>>)
    requires Sound(s) && Runs(s, steps) && AllForward(steps)
    ensures |steps| <= Work(s) && Work(After(s, steps)) == Work(s) - |steps|
    ensures var t := After(s, steps);
            && t.cancelled == s.cancelled && t.capacity == s.capacity && |t.lanes| == |s.lanes|
            && (|steps| == Work(s) ==>
                  forall i :: 0 <= i < |s.lanes| ==> Tagged(t.consumed, s.lanes[i].id) == s.lanes[i].produced)
    decreases |steps|
  {
    if steps == [] {
      LanesWorkZero(s.lanes);
      forall i | 0 <= i < |s.lanes| && Work(s) == 0 ensures Tagged(s.consumed, s.lanes[i].id) == s.lanes[i].produced {
        assert Conserved(s, i) && LaneWork(s.lanes[i]) == 0;
      }
    } else {
      StepWork(s, steps[0]);
      ForwardKeeps(s, steps[0]);
      StepSound(s, steps[0]);
      Delivery(Fire(s, steps[0]), steps[1..]);
    }
  }

  /** Such a complete delivery exists from every sound uncancelled state. */
  lemma {:induction false} Deliverable<T>(s: State<T>) returns (steps: seq<Step<T>>)
    requires Sound(s) && !s.cancelled && s.capacity > 0
    ensures Runs(s, steps) && AllForward(steps) && |steps| == Work(s)
    decreases Work(s)
  {
    if Work(s) == 0 {
      steps := [];
    } else {
      var a := NeverStuck(s);
      StepWork(s, a);
      ForwardKeeps(s, a);
      StepSound(s, a);
      var rest := Deliverable(Fire(s, a));
      steps := [a] + rest;
      assert steps[1..] == rest;
    }
  }

  lemma {:induction false} TaggedShorter<T>(q: seq<(int, T)>, id: int)
    ensures |Tagged(q, id)| <= |q|
  {
    if q != [] { TaggedShorter(q[..|q| - 1], id); }
  }

  /** A chain is never more than its queue, one item and the shared buffer behind. */
  lemma BacklogBound<T>(s: State<T>, i: nat)
    requires Sound(s) && i < |s.lanes|
    ensures |s.lanes[i].produced| - |Tagged(s.consumed, s.lanes[i].id)| <= LANE_CAPACITY + 1 + s.capacity
  {
    assert Conserved(s, i) && LaneOk(s.lanes[i], s.cancelled);
    TaggedShorter(s.shared, s.lanes[i].id);
  }

  // ---------------------------------------------------------------- headroom

  /** Lane i alone has filled the shared channel, and lane j cannot send what it holds. */
  ghost predicate Starved<T>(s: State<T>, i: nat, j: nat) {
    && i < |s.lanes| && j < |s.lanes| && i != j && s.lanes[j].hand.Some?
    && |s.shared| == s.capacity && (forall k :: 0 <= k < |s.shared| ==> s.shared[k].0 == s.lanes[i].id)
    && !Enabled(s, Send(j))
  }

  /** k items of lane i pushed through to the shared channel. */
  function Busy<T>(i: nat, x: T, k: nat): seq<Step<T>> {
    if k == 0 then [] else [Produce(i, x), Receive(i), Send(i)] + Busy(i, x, k - 1)
  }

  lemma RunsConcat<T>(s: State<T>, a: Step<T>, steps: seq<Step<T>>)
    requires Enabled(s, a) && Runs(Fire(s, a), steps)
    ensures Runs(s, [a] + steps) && After(s, [a] + steps) == After(Fire(s, a), steps)
  {
    assert ([a] + steps)[1..] == steps;
  }

  /** Lane i is idle, the shared channel holds only its items and has room for k more. */
  ghost predicate Roomy<T>(s: State<T>, i: nat, k: nat) {
    && i < |s.lanes| && |s.shared| + k <= s.capacity
    && s.lanes[i].queue == [] && s.lanes[i].hand == None && !s.lanes[i].stopped && !s.lanes[i].closed
    && forall q :: 0 <= q < |s.shared| ==> s.shared[q].0 == s.lanes[i].id
  }

  /** k more items went through lane i, and nothing else changed. */
  ghost predicate Pushed<T>(s: State<T>, t: State<T>, i: nat, k: nat) {
    && |t.lanes| == |s.lanes| && t.capacity == s.capacity && |t.shared| == |s.shared| + k
    && i < |s.lanes| && t.lanes[i].id == s.lanes[i].id
    && (forall j :: 0 <= j < |s.lanes| && j != i ==> t.lanes[j] == s.lanes[j])
  }

  lemma PushOne<T>(s: State<T>, i: nat, x: T, k: nat) returns (t: State<T>)
    requires k > 0 && Roomy(s, i, k)
    ensures Enabled(s, Produce(i, x)) && Enabled(Fire(s, Produce(i, x)), Receive(i))
    ensures Enabled(Fire(Fire(s, Produce(i, x)), Receive(i)), Send(i))
    ensures t == Fire(Fire(Fire(s, Produce(i, x)), Receive(i)), Send(i)) && Roomy(t, i, k - 1) && Pushed(s, t, i, 1)
  {
    var s1 := Fire(s, Produce(i, x));
    var s2 := Fire(s1, Receive(i));
    assert s1.lanes[i].queue == [x] && s2.lanes[i].queue == [];
    t := Fire(s2, Send(i));
  }

  lemma {:induction false} BusyRuns<T>(s: State<T>, i: nat, x: T, k: nat)
    requires Roomy(s, i, k)
    ensures Runs(s, Busy(i, x, k)) && Pushed(s, After(s, Busy(i, x, k)), i, k)
    ensures Roomy(After(s, Busy(i, x, k)), i, 0)
    decreases k
  {
    if k > 0 {
      var t := PushOne(s, i, x, k);
      var rest := Busy(i, x, k - 1);
      BusyRuns(t, i, x, k - 1);
      var s1 := Fire(s, Produce(i, x));
      RunsConcat(Fire(s1, Receive(i)), Send(i), rest);
      RunsConcat(s1, Receive(i), [Send(i)] + rest);
      RunsConcat(s, Produce(i, x), [Receive(i)] + ([Send(i)] + rest));
      assert Busy(i, x, k) == [Produce(i, x)] + ([Receive(i)] + ([Send(i)] + rest));
    }
  }

  /** Scaling the shared buffer by the number of chains does not reserve room for each: for
      any chains and any two of them, the one alone can fill all of it while the other's
      item waits in hand. */
  lemma OneChainFillsAll<T>(ids: seq<int>, configured: nat, i: nat, j: nat, x: T, y: T) returns (steps: seq<Step<T>>)
    requires i < |ids| && j < |ids| && i != j
    ensures Runs(Init<T>(ids, configured), steps) && Starved(After(Init<T>(ids, configured), steps), i, j)
  {
    var s := Init<T>(ids, configured);
    var s1 := Fire(s, Produce(j, y));
    assert s1.lanes[j].queue == [y];
    var s2 := Fire(s1, Receive(j));
    var busy := Busy(i, x, s.capacity);
    BusyRuns(s2, i, x, s.capacity);
    RunsConcat(s1, Receive(j), busy);
    RunsConcat(s, Produce(j, y), [Receive(j)] + busy);
    steps := [Produce(j, y)] + ([Receive(j)] + busy);
    assert After(s, steps).lanes[j] == s2.lanes[j];
  }

  lemma {:induction false} RunKeepsLanes<T>(s: State<T>, steps: seq<Step<T>>)
    requires Runs(s, steps)
    ensures |After(s, steps).lanes| == |s.lanes|
    decreases |steps|
  {
    if steps != [] { RunKeepsLanes(Fire(s, steps[0]), steps[1..]); }
  }

  ghost predicate CanStarve<T(!new)>(ids: seq<int>, configured: nat) {
    exists steps: seq<Step<T>>, i, j ::
      Runs(Init<T>(ids, configured), steps) && Starved(After(Init<T>(ids, configured), steps), i, j)
  }

  /** So one busy chain can never take the others' headroom if and only if fewer than two
      chains are up. */
  lemma StarvesExactly<T(!new)>(ids: seq<int>, configured: nat, x: T)
    ensures CanStarve<T>(ids, configured) <==> |ids| >= 2
  {
    if |ids| >= 2 {
      var steps := OneChainFillsAll(ids, configured, 0, 1, x, x);
    }
    forall steps: seq<Step<T>>, i, j |
      Runs(Init<T>(ids, configured), steps) && Starved(After(Init<T>(ids, configured), steps), i, j)
      ensures |ids| >= 2
    {
      RunKeepsLanes(Init<T>(ids, configured), steps);
    }
  }
}
