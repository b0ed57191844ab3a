/** Which chains the operator advertises, as time passes, heads arrive and block tasks come
    and go. Times are in milliseconds. */
module Advertising {

  const STALE_THRESHOLD: int := 90_000

  /** A chain's liveness: how many block tasks it has and when a head was last marked. */
  datatype Chain = Chain(blockTasks: set<string>, lastHead: int)

  datatype State = State(now: int, order: seq<int>, chains: map<int, Chain>)

  predicate BlockWork(c: Chain) {
    c.blockTasks != {}
  }

  predicate HeadFresh(c: Chain, now: int) {
    now - c.lastHead <= STALE_THRESHOLD
  }

  /** supportedChainIDs */
  method SupportedChainIDs(s: State) returns (out: seq<int>)
    ensures out == Advertised(s)
  {
    out := [];
    for i := 0 to |s.order|
      invariant out == Advertised(s.(order := s.order[..i]))
    {
      assert s.order[..i + 1][..i] == s.order[..i];
      var id := s.order[i];
      if id <= 0 { continue; }
      if id !in s.chains { continue; }
      if BlockWork(s.chains[id]) && !HeadFresh(s.chains[id], s.now) { continue; }
      out := out + [id];
    }
    assert s.order[..|s.order|] == s.order;
  }

  /** The advertised chains, in configured order. */
  function Advertised(s: State): seq<int>
    decreases |s.order|
  {
    if s.order == [] then []
    else
      var n := |s.order| - 1;
      var id, earlier := s.order[n], Advertised(s.(order := s.order[..n]));
      if id > 0 && id in s.chains && (BlockWork(s.chains[id]) ==> HeadFresh(s.chains[id], s.now))
      then earlier + [id]
      else earlier
  }

  lemma {:induction false} AdvertisedIff(s: State, id: int)
    ensures id in Advertised(s) <==>
            id in s.order && id > 0 && id in s.chains && !(BlockWork(s.chains[id]) && !HeadFresh(s.chains[id], s.now))
    decreases |s.order|
  {
    if s.order != [] {
      var n := |s.order| - 1;
      AdvertisedIff(s.(order := s.order[..n]), id);
      assert s.order == s.order[..n] + [s.order[n]];
    }
  }

  // ---------------------------------------------------------------- runs

  /** Registering a block task and marking the watermark are two steps of the message loop;
      the heartbeat may read the chains in between. */
  datatype Step =
    | Tick(elapsed: nat)
    | AddBlock(chain: int, task: string, accepted: bool)
    | Mark(chain: int)
    | RemoveBlock(task: string)

  predicate Enabled(s: State, a: Step) {
    match a
    case AddBlock(c, _, _) => c in s.chains
    case Mark(c) => c in s.chains
    case _ => true
  }

  function Fire(s: State, a: Step): State
    requires Enabled(s, a)
  {
    match a
    case Tick(d) => s.(now := s.now + d)
    case AddBlock(c, task, accepted) =>
      if accepted then s.(chains := s.chains[c := s.chains[c].(blockTasks := s.chains[c].blockTasks + {task})]) else s
    case Mark(c) => s.(chains := s.chains[c := s.chains[c].(lastHead := s.now)])
    case RemoveBlock(task) =>
      s.(chains := map c | c in s.chains :: s.chains[c].(blockTasks := s.chains[c].blockTasks - {task}))
  }

  predicate Runs(s: State, steps: seq<Step>)
    decreases |steps|
  {
    steps == [] || (Enabled(s, steps[0]) && Runs(Fire(s, steps[0]), steps[1..]))
  }

  function After(s: State, steps: seq<Step>): State
    requires Runs(s, steps)
    decreases |steps|
  {
    if steps == [] then s else After(Fire(s, steps[0]), steps[1..])
  }

  /** Every chain starts marked at boot. */
  function Boot(now: int, order: seq<int>): State {
    State(now, order, map c | c in order :: Chain({}, now))
  }

  // ---------------------------------------------------------------- what a run says

  /** Time passed over a run. */
  function Elapsed(steps: seq<Step>): nat {
    if steps == [] then 0 else (if steps[0].Tick? then steps[0].elapsed else 0) + Elapsed(steps[1..])
  }

  predicate MarkedAt(steps: seq<Step>, i: nat, c: int, window: int)
    requires i < |steps|
  {
    steps[i] == Mark(c) && Elapsed(steps[i + 1..]) <= window
  }

  /** The run marked chain c at most `window` before its end. */
  predicate MarkedWithin(steps: seq<Step>, c: int, window: int) {
    exists i :: 0 <= i < |steps| && MarkedAt(steps, i, c, window)
  }

  predicate NeverRemoved(steps: seq<Step>, task: string) {
    forall i :: 0 <= i < |steps| ==> steps[i] != RemoveBlock(task)
  }

  predicate GivenAt(steps: seq<Step>, i: nat, c: int, task: string)
    requires i < |steps|
  {
    steps[i] == AddBlock(c, task, true) && NeverRemoved(steps[i + 1..], task)
  }

  /** The run gave chain c this block task and did not take it away again. */
  predicate Given(steps: seq<Step>, c: int, task: string) {
    exists i :: 0 <= i < |steps| && GivenAt(steps, i, c, task)
  }

  lemma MarkedWithinNext(a: Step, rest: seq<Step>, c: int, window: int)
    ensures MarkedWithin([a] + rest, c, window) <==>
            (a == Mark(c) && Elapsed(rest) <= window) || MarkedWithin(rest, c, window)
  {
    var steps := [a] + rest;
    assert steps[1..] == rest;
    assert MarkedAt(steps, 0, c, window) <==> a == Mark(c) && Elapsed(rest) <= window;
    forall i | 0 <= i < |rest| ensures MarkedAt(steps, i + 1, c, window) <==> MarkedAt(rest, i, c, window) {
      assert steps[i + 2..] == rest[i + 1..];
    }
    if MarkedWithin(steps, c, window) {
      var i :| 0 <= i < |steps| && MarkedAt(steps, i, c, window);
      if i > 0 { assert MarkedAt(rest, i - 1, c, window); }
    }
  }

  lemma GivenNext(a: Step, rest: seq<Step>, c: int, task: string)
    ensures Given([a] + rest, c, task) <==>
            (a == AddBlock(c, task, true) && NeverRemoved(rest, task)) || Given(rest, c, task)
  {
    var steps := [a] + rest;
    assert steps[1..] == rest;
    assert GivenAt(steps, 0, c, task) <==> a == AddBlock(c, task, true) && NeverRemoved(rest, task);
    forall i | 0 <= i < |rest| ensures GivenAt(steps, i + 1, c, task) <==> GivenAt(rest, i, c, task) {
      assert steps[i + 2..] == rest[i + 1..];
    }
    if Given(steps, c, task) {
      var i :| 0 <= i < |steps| && GivenAt(steps, i, c, task);
      if i > 0 { assert GivenAt(rest, i - 1, c, task); }
    }
  }

  lemma {:induction false} RunKeepsChains(s: State, steps: seq<Step>)
    requires Runs(s, steps)
    ensures After(s, steps).order == s.order && After(s, steps).chains.Keys == s.chains.Keys
    ensures After(s, steps).now == s.now + Elapsed(steps)
    decreases |steps|
  {
    if steps != [] { RunKeepsChains(Fire(s, steps[0]), steps[1..]); }
  }

  /** Freshness after a run, read off the run. */
  lemma {:induction false} FreshByRun(s: State, steps: seq<Step>, c: int)
    requires Runs(s, steps) && c in s.chains && s.chains[c].lastHead <= s.now
    ensures c in After(s, steps).chains
    ensures HeadFresh(After(s, steps).chains[c], After(s, steps).now) <==>
            s.now - s.chains[c].lastHead + Elapsed(steps) <= STALE_THRESHOLD || MarkedWithin(steps, c, STALE_THRESHOLD)
    decreases |steps|
  {
    if steps != [] {
      FreshByRun(Fire(s, steps[0]), steps[1..], c);
      assert steps == [steps[0]] + steps[1..];
      MarkedWithinNext(steps[0], steps[1..], c, STALE_THRESHOLD);
    }
  }

  /** Which block tasks a chain has after a run, read off the run. */
  lemma {:induction false} TasksByRun(s: State, steps: seq<Step>, c: int, task: string)
    requires Runs(s, steps) && c in s.chains
    ensures c in After(s, steps).chains
    ensures task in After(s, steps).chains[c].blockTasks <==>
            (task in s.chains[c].blockTasks && NeverRemoved(steps, task)) || Given(steps, c, task)
    decreases |steps|
  {
    if steps != [] {
      TasksByRun(Fire(s, steps[0]), steps[1..], c, task);
      assert steps == [steps[0]] + steps[1..];
      assert NeverRemoved(steps, task) <==> steps[0] != RemoveBlock(task) && NeverRemoved(steps[1..], task);
      GivenNext(steps[0], steps[1..], c, task);
    }
  }

  // ---------------------------------------------------------------- the promises

  ghost predicate WorkGiven(steps: seq<Step>, c: int) {
    exists task :: Given(steps, c, task)
  }

  /** After every run from boot, a configured positive chain is missing exactly when the run
      left it block work and neither boot nor a mark is within the last 90 seconds. */
  lemma MissingExactly(now: int, order: seq<int>, steps: seq<Step>, c: int)
    requires Runs(Boot(now, order), steps) && c in order && c > 0
    ensures c !in Advertised(After(Boot(now, order), steps)) <==>
            WorkGiven(steps, c) && Elapsed(steps) > STALE_THRESHOLD && !MarkedWithin(steps, c, STALE_THRESHOLD)
  {
    var s := Boot(now, order);
    var t := After(s, steps);
    RunKeepsChains(s, steps);
    AdvertisedIff(t, c);
    FreshByRun(s, steps, c);
    forall task ensures task in t.chains[c].blockTasks <==> Given(steps, c, task) { TasksByRun(s, steps, c, task); }
    if BlockWork(t.chains[c]) { var task :| task in t.chains[c].blockTasks; }
  }

  /** An idle chain is always advertised. */
  lemma IdleAdvertised(now: int, order: seq<int>, steps: seq<Step>, c: int)
    requires Runs(Boot(now, order), steps) && c in order && c > 0 && !WorkGiven(steps, c)
    ensures c in Advertised(After(Boot(now, order), steps))
  {
    MissingExactly(now, order, steps, c);
  }

  /** From a mark on, the chain stays advertised for 90 seconds whatever happens. */
  lemma MarkAdvertises(s: State, c: int, steps: seq<Step>)
    requires c in s.order && c > 0 && c in s.chains
    requires Runs(Fire(s, Mark(c)), steps) && Elapsed(steps) <= STALE_THRESHOLD
    ensures c in Advertised(After(Fire(s, Mark(c)), steps))
  {
    var t := Fire(s, Mark(c));
    RunKeepsChains(t, steps);
    FreshByRun(t, steps, c);
    AdvertisedIff(After(t, steps), c);
  }

  /** Between registering the first block task and the mark, the chain is missing exactly
      when its last mark is older than 90 seconds; the mark brings it back. */
  lemma GapBeforeMark(s: State, c: int, task: string)
    requires c in s.order && c > 0 && c in s.chains
    ensures c !in Advertised(Fire(s, AddBlock(c, task, true))) <==> s.now - s.chains[c].lastHead > STALE_THRESHOLD
    ensures c in Advertised(Fire(Fire(s, AddBlock(c, task, true)), Mark(c)))
  {
    var t := Fire(s, AddBlock(c, task, true));
    assert task in t.chains[c].blockTasks;
    AdvertisedIff(t, c);
    AdvertisedIff(Fire(t, Mark(c)), c);
  }
}
