/** The fan-in with the order in which a full Go channel lets blocked senders in: first come,
    first served, each one as soon as a receive has made room. */
module FairSends {
  import opened Collections
  import F = FanIn

  /** The fan-in and the lanes blocked in their send, the longest waiting first. */
  datatype Fair<T> = Fair(state: F.State<T>, waiting: seq<nat>)

  /** A lane starts its send, the consumer takes an item, or anything else happens. */
  datatype Move<T> = Offer(lane: nat) | Take | Other(step: F.Step<T>)

  predicate CanMove<T>(f: Fair<T>, m: Move<T>) {
    match m
    case Offer(i) => i < |f.state.lanes| && f.state.lanes[i].hand.Some? && i !in f.waiting
    case Take => F.Enabled(f.state, F.Consume)
    case Other(a) => !a.Send? && !a.Consume? && F.Enabled(f.state, a)
  }

  /** Whoever waits holds an item, and nobody waits while there is room. */
  ghost predicate Valid<T>(f: Fair<T>) {
    && Distinct(f.waiting) && |f.state.shared| <= f.state.capacity
    && (forall k :: 0 <= k < |f.waiting| ==> HasItem(f.state, f.waiting[k]))
    && (f.waiting != [] ==> |f.state.shared| == f.state.capacity)
  }

  predicate HasItem<T>(s: F.State<T>, i: nat) {
    i < |s.lanes| && s.lanes[i].hand.Some?
  }

  function Make<T>(f: Fair<T>, m: Move<T>): Fair<T>
    requires Valid(f) && CanMove(f, m)
  {
    match m
    case Offer(i) =>
      if |f.state.shared| < f.state.capacity then f.(state := F.Fire(f.state, F.Send(i)))
      else f.(waiting := f.waiting + [i])
    case Take =>
      var s := F.Fire(f.state, F.Consume);
      if f.waiting == [] then f.(state := s)
      else
        assert HasItem(f.state, f.waiting[0]);
        Fair(F.Fire(s, F.Send(f.waiting[0])), f.waiting[1..])
    case Other(a) => f.(state := F.Fire(f.state, a))
  }

  lemma MakeValid<T>(f: Fair<T>, m: Move<T>)
    requires Valid(f) && CanMove(f, m)
    ensures Valid(Make(f, m)) && |Make(f, m).state.lanes| == |f.state.lanes|
    ensures Make(f, m).state.capacity == f.state.capacity
  {
    var g := Make(f, m);
    forall k | 0 <= k < |g.waiting| ensures HasItem(g.state, g.waiting[k]) {
      if m.Take? {
        assert g.waiting[k] == f.waiting[k + 1] && HasItem(f.state, f.waiting[k + 1]);
      } else if k < |f.waiting| {
        assert HasItem(f.state, f.waiting[k]);
      }
    }
  }

  predicate Runs<T>(f: Fair<T>, moves: seq<Move<T>>)
    requires Valid(f)
    decreases |moves|
  {
    moves == [] || (CanMove(f, moves[0]) && (MakeValid(f, moves[0]); Runs(Make(f, moves[0]), moves[1..])))
  }

  function After<T>(f: Fair<T>, moves: seq<Move<T>>): (g: Fair<T>)
    requires Valid(f) && Runs(f, moves)
    ensures Valid(g) && |g.state.lanes| == |f.state.lanes| && g.state.capacity == f.state.capacity
    decreases |moves|
  {
    if moves == [] then f
    else
      MakeValid(f, moves[0]);
      After(Make(f, moves[0]), moves[1..])
  }

  // ---------------------------------------------------------------- it is the fan-in

  /** The fan-in's steps that a move consists of. */
  function Steps<T>(f: Fair<T>, m: Move<T>): seq<F.Step<T>> {
    match m
    case Offer(i) => if |f.state.shared| < f.state.capacity then [F.Send(i)] else []
    case Take => if f.waiting == [] then [F.Consume] else [F.Consume, F.Send(f.waiting[0])]
    case Other(a) => [a]
  }

  lemma MoveRefines<T>(f: Fair<T>, m: Move<T>)
    requires Valid(f) && CanMove(f, m)
    ensures F.Runs(f.state, Steps(f, m)) && F.After(f.state, Steps(f, m)) == Make(f, m).state
  {
    if m.Take? && f.waiting != [] {
      assert HasItem(f.state, f.waiting[0]);
      var s, send := F.Fire(f.state, F.Consume), F.Send(f.waiting[0]);
      F.RunsConcat(s, send, []);
      F.RunsConcat(f.state, F.Consume, [send]);
      assert [send] + [] == [send] && [F.Consume] + [send] == Steps(f, m);
    }
  }

  lemma {:induction false} CoarseConcat<T>(s: F.State<T>, a: seq<F.Step<T>>, b: seq<F.Step<T>>)
    requires F.Runs(s, a) && F.Runs(F.After(s, a), b)
    ensures F.Runs(s, a + b) && F.After(s, a + b) == F.After(F.After(s, a), b)
    decreases |a|
  {
    if a == [] {
      assert a + b == b;
    } else {
      assert (a + b)[1..] == a[1..] + b;
      CoarseConcat(F.Fire(s, a[0]), a[1..], b);
    }
  }

  /** Every fair run is a run of the fan-in, so all that holds of the fan-in's runs holds of it. */
  lemma {:induction false} RunRefines<T>(f: Fair<T>, moves: seq<Move<T>>) returns (steps: seq<F.Step<T>>)
    requires Valid(f) && Runs(f, moves)
    ensures F.Runs(f.state, steps) && F.After(f.state, steps) == After(f, moves).state
    decreases |moves|
  {
    if moves == [] {
      steps := [];
    } else {
      MakeValid(f, moves[0]);
      MoveRefines(f, moves[0]);
      var rest := RunRefines(Make(f, moves[0]), moves[1..]);
      CoarseConcat(f.state, Steps(f, moves[0]), rest);
      steps := Steps(f, moves[0]) + rest;
    }
  }

  // ---------------------------------------------------------------- first come, first served

  /** What lane i is sending. */
  function Item<T>(s: F.State<T>, i: nat): (int, T)
    requires HasItem(s, i)
  {
    (s.lanes[i].id, s.lanes[i].hand.value)
  }

  function Held<T>(f: Fair<T>): seq<(int, T)>
    requires Valid(f)
  {
    seq(|f.waiting|, k requires 0 <= k < |f.waiting| => Item(f.state, f.waiting[k]))
  }

  /** Everything ever offered, in the order of its offer. */
  function Line<T>(f: Fair<T>): seq<(int, T)>
    requires Valid(f)
  {
    f.state.consumed + f.state.shared + Held(f)
  }

  lemma OfferLine<T>(f: Fair<T>, i: nat)
    requires Valid(f) && CanMove(f, Offer(i))
    ensures Valid(Make(f, Offer(i))) && Line(Make(f, Offer(i))) == Line(f) + [Item(f.state, i)]
  {
    MakeValid(f, Offer(i));
    var g := Make(f, Offer(i));
    if |f.state.shared| < f.state.capacity {
      assert Held(f) == [] && Held(g) == [];
    } else {
      assert Held(g) == Held(f) + [Item(f.state, i)];
    }
  }

  /** A take lets the first in the queue in. */
  lemma TakeHeld<T>(f: Fair<T>)
    requires Valid(f) && CanMove(f, Take) && f.waiting != [] && Valid(Make(f, Take))
    ensures Held(f) == [Held(f)[0]] + Held(Make(f, Take))
    ensures Make(f, Take).state.shared == F.Fire(f.state, F.Consume).shared + [Held(f)[0]]
    ensures Make(f, Take).state.consumed == F.Fire(f.state, F.Consume).consumed
  {
    var g := Make(f, Take);
    assert HasItem(f.state, f.waiting[0]);
    forall k | 0 <= k < |g.waiting| ensures Held(g)[k] == Held(f)[k + 1] {
      assert g.waiting[k] == f.waiting[k + 1] != f.waiting[0] && HasItem(f.state, f.waiting[k + 1]);
    }
  }

  lemma Regroup<T>(a: seq<T>, b: seq<T>, x: T, r: seq<T>)
    ensures a + (b + [x]) + r == (a + b) + ([x] + r)
  {
  }

  lemma TakeLine<T>(f: Fair<T>)
    requires Valid(f) && CanMove(f, Take)
    ensures Valid(Make(f, Take)) && Line(Make(f, Take)) == Line(f)
  {
    MakeValid(f, Take);
    var t := F.Fire(f.state, F.Consume);
    assert t.consumed + t.shared == f.state.consumed + f.state.shared;
    if f.waiting != [] {
      TakeHeld(f);
      Regroup(t.consumed, t.shared, Held(f)[0], Held(Make(f, Take)));
    }
  }

  lemma OtherLine<T>(f: Fair<T>, a: F.Step<T>)
    requires Valid(f) && CanMove(f, Other(a))
    ensures Valid(Make(f, Other(a))) && Line(Make(f, Other(a))) == Line(f)
  {
    MakeValid(f, Other(a));
    var g := Make(f, Other(a));
    forall k | 0 <= k < |f.waiting| ensures Held(g)[k] == Held(f)[k] { assert HasItem(f.state, f.waiting[k]); }
    assert Held(g) == Held(f);
  }

  function Takes<T>(moves: seq<Move<T>>): nat {
    if moves == [] then 0 else (if moves[0].Take? then 1 else 0) + Takes(moves[1..])
  }

  lemma MoveLine<T>(f: Fair<T>, m: Move<T>)
    requires Valid(f) && CanMove(f, m)
    ensures Valid(Make(f, m)) && Line(f) <= Line(Make(f, m))
    ensures |Make(f, m).state.consumed| == |f.state.consumed| + if m.Take? then 1 else 0
  {
    match m
    case Offer(i) => OfferLine(f, i);
    case Take => TakeLine(f);
    case Other(a) => OtherLine(f, a);
  }

  /** Over every run the line only grows at its end, and the consumer goes along it one take
      at a time. */
  lemma {:induction false} LineGrows<T>(f: Fair<T>, moves: seq<Move<T>>)
    requires Valid(f) && Runs(f, moves)
    ensures Line(f) <= Line(After(f, moves))
    ensures |After(f, moves).state.consumed| == |f.state.consumed| + Takes(moves)
    decreases |moves|
  {
    if moves != [] {
      MoveLine(f, moves[0]);
      LineGrows(Make(f, moves[0]), moves[1..]);
    }
  }

  /** The lane that is p-th among those waiting has fewer than |lanes| before it. Its item is in
      the channel if and only if the consumer has made more than p takes since, and has been
      consumed if and only if it has made more than p and a whole buffer, whatever all other
      lanes do meanwhile. */
  lemma BoundedWait<T>(f: Fair<T>, moves: seq<Move<T>>, p: nat)
    requires Valid(f) && Runs(f, moves) && p < |f.waiting|
    ensures p < |f.state.lanes| && HasItem(f.state, f.waiting[p])
    ensures var g, place := After(f, moves).state, |f.state.consumed| + f.state.capacity + p;
            && (place < |g.consumed + g.shared| <==> Takes(moves) > p)
            && (place < |g.consumed + g.shared| ==> (g.consumed + g.shared)[place] == Item(f.state, f.waiting[p]))
            && (place < |g.consumed| <==> Takes(moves) > p + f.state.capacity)
            && (place < |g.consumed| ==> g.consumed[place] == Item(f.state, f.waiting[p]))
  {
    QueueBound(f);
    LineGrows(f, moves);
    LineAt(f, p);
    Placed(f, After(f, moves), p, Takes(moves));
  }

  lemma LineAt<T>(f: Fair<T>, p: nat)
    requires Valid(f) && p < |f.waiting|
    ensures HasItem(f.state, f.waiting[p]) && |f.state.shared| == f.state.capacity
    ensures var place := |f.state.consumed| + f.state.capacity + p;
            place < |Line(f)| && Line(f)[place] == Item(f.state, f.waiting[p])
  {
    assert Line(f)[|f.state.consumed| + f.state.capacity + p] == Held(f)[p];
  }

  lemma Placed<T>(f: Fair<T>, g: Fair<T>, p: nat, takes: nat)
    requires Valid(f) && Valid(g) && p < |f.waiting| && HasItem(f.state, f.waiting[p])
    requires g.state.capacity == f.state.capacity && |g.state.consumed| == |f.state.consumed| + takes
    requires var place := |f.state.consumed| + f.state.capacity + p;
             place < |Line(g)| && Line(g)[place] == Item(f.state, f.waiting[p])
    ensures var s, place := g.state, |f.state.consumed| + f.state.capacity + p;
            && (place < |s.consumed + s.shared| <==> takes > p)
            && (place < |s.consumed + s.shared| ==> (s.consumed + s.shared)[place] == Item(f.state, f.waiting[p]))
            && (place < |s.consumed| <==> takes > p + f.state.capacity)
            && (place < |s.consumed| ==> s.consumed[place] == Item(f.state, f.waiting[p]))
  {
    assert |Line(g)| == |g.state.consumed + g.state.shared| + |g.waiting|;
  }

  /** The queue is never longer than the number of lanes. */
  lemma QueueBound<T>(f: Fair<T>)
    requires Valid(f)
    ensures |f.waiting| <= |f.state.lanes|
  {
    DistinctCount(f.waiting);
    BelowCount(|f.state.lanes|);
    forall j | j in f.waiting ensures j in Below(|f.state.lanes|) {
      var k :| 0 <= k < |f.waiting| && f.waiting[k] == j;
      assert HasItem(f.state, f.waiting[k]);
      BelowMembers(|f.state.lanes|, j);
    }
    SubsetSize(Elements(f.waiting), Below(|f.state.lanes|));
  }

  // ---------------------------------------------------------------- from start-up

  function Init<T>(ids: seq<int>, configured: nat): Fair<T> {
    Fair(F.Init<T>(ids, configured), [])
  }

  /** So every fair interleaving from start-up conserves each chain's items too. */
  lemma FairConservation<T>(ids: seq<int>, configured: nat, moves: seq<Move<T>>, i: nat)
    requires Distinct(ids) && Runs(Init<T>(ids, configured), moves) && i < |ids|
    ensures var t := After(Init<T>(ids, configured), moves).state;
            F.Tagged(t.consumed, t.lanes[i].id) + F.Backlog(t, i) == t.lanes[i].produced
  {
    var steps := RunRefines(Init<T>(ids, configured), moves);
    F.Conservation(ids, configured, steps, i);
  }
}
