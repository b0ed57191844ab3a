/** The reconnect loop of the operator's message stream: capped exponential backoff with
    jitter, and a reset once an iteration has lasted two minutes. Durations are in
    nanoseconds. */
module Backoff {
  import opened Numbers
  import opened Strings

  const SECOND: int := 1_000_000_000
  const BACKOFF_INITIAL: int := 1 * SECOND
  const BACKOFF_MAX: int := 60 * SECOND
  const RESET_AFTER: int := 120 * SECOND
  const RETRY_INTERVAL: int := 60 * SECOND

  /** How one turn of the outer loop ends. `spent` is the time it takes apart from the final
      sleep: signing, connecting, receiving. */
  datatype Turn =
    | RateLimited(spent: nat, jitter: int)
    | EndOfStream(spent: nat, jitter: int)
    | FailedAndRecreated(spent: nat)
    | Failed(spent: nat)

  datatype Loop = Loop(now: int, backoff: int, lastConnect: Option<int>)

  function Start(now: int): Loop {
    Loop(now, BACKOFF_INITIAL, None)
  }

  /** The two ways a turn ends in a backoff sleep. */
  predicate IsClose(t: Turn) {
    t.RateLimited? || t.EndOfStream?
  }

  predicate Resets(s: Loop) {
    s.lastConnect.Some? && s.now - s.lastConnect.value >= RESET_AFTER
  }

  /** The backoff a turn starts with. */
  function Effective(s: Loop): int {
    if Resets(s) then BACKOFF_INITIAL else s.backoff
  }

  /** rand.Int63n(d / 4): any value from 0 up to but excluding a quarter of d. */
  predicate Jitter(d: int, jitter: int) {
    0 <= jitter < d / 4
  }

  predicate Possible(s: Loop, t: Turn) {
    IsClose(t) ==> Jitter(Effective(s), t.jitter)
  }

  function Sleep(s: Loop, t: Turn): int {
    if IsClose(t) then Effective(s) + t.jitter else if t.Failed? then RETRY_INTERVAL else 0
  }

  function Doubled(backoff: int): int {
    if backoff * 2 > BACKOFF_MAX then BACKOFF_MAX else backoff * 2
  }

  function Next(s: Loop, t: Turn): Loop {
    Loop(s.now + t.spent + Sleep(s, t), if IsClose(t) then Doubled(Effective(s)) else Effective(s), Some(s.now))
  }

  function After(s: Loop, turns: seq<Turn>): Loop {
    if turns == [] then s else Next(After(s, turns[..|turns| - 1]), turns[|turns| - 1])
  }

  /** Each jitter within its range when its turn comes. */
  predicate Runs(s: Loop, turns: seq<Turn>) {
    turns == [] || (Runs(s, turns[..|turns| - 1]) && Possible(After(s, turns[..|turns| - 1]), turns[|turns| - 1]))
  }

  // ---------------------------------------------------------------- the code

  /** StreamMessages, driven by how each turn ends. */
  method StreamLoop(start: int, turns: seq<Turn>) returns (now: int, eofBackoff: int, lastConnectTime: Option<int>)
    ensures Loop(now, eofBackoff, lastConnectTime) == After(Start(start), turns)
  {
    now, eofBackoff, lastConnectTime := start, BACKOFF_INITIAL, None;
    for i := 0 to |turns|
      invariant Loop(now, eofBackoff, lastConnectTime) == After(Start(start), turns[..i])
    {
      assert turns[..i + 1][..i] == turns[..i];
      if lastConnectTime.Some? && now - lastConnectTime.value >= RESET_AFTER {
        eofBackoff := BACKOFF_INITIAL;
      }
      lastConnectTime := Some(now);
      now := now + turns[i].spent;
      match turns[i] {
        case Failed(_) => now := now + RETRY_INTERVAL;
        case FailedAndRecreated(_) =>
        case RateLimited(_, jitter) =>
          now := now + (eofBackoff + jitter);
          eofBackoff := eofBackoff * 2;
          if eofBackoff > BACKOFF_MAX { eofBackoff := BACKOFF_MAX; }
        case EndOfStream(_, jitter) =>
          now := now + (eofBackoff + jitter);
          eofBackoff := eofBackoff * 2;
          if eofBackoff > BACKOFF_MAX { eofBackoff := BACKOFF_MAX; }
      }
    }
    assert turns[..|turns|] == turns;
  }

  // ---------------------------------------------------------------- the level

  /** min(2^k, 60) seconds. */
  function BackoffAt(k: nat): int {
    if Pow2(k) <= 60 then Pow2(k) * SECOND else BACKOFF_MAX
  }

  /** Backoff sleeps since the last reset. */
  function ClosesSinceReset(s: Loop, turns: seq<Turn>): nat {
    if turns == [] then 0
    else
      var before := turns[..|turns| - 1];
      var earlier := if Resets(After(s, before)) then 0 else ClosesSinceReset(s, before);
      earlier + if IsClose(turns[|turns| - 1]) then 1 else 0
  }

  lemma DoubledAt(k: nat)
    ensures Doubled(BackoffAt(k)) == BackoffAt(k + 1)
  {
  }

  lemma {:induction false} BackoffLevel(start: int, turns: seq<Turn>)
    ensures After(Start(start), turns).backoff == BackoffAt(ClosesSinceReset(Start(start), turns))
    decreases |turns|
  {
    if turns != [] {
      var before := turns[..|turns| - 1];
      BackoffLevel(start, before);
      var k := if Resets(After(Start(start), before)) then 0 else ClosesSinceReset(Start(start), before);
      assert Effective(After(Start(start), before)) == BackoffAt(k);
      DoubledAt(k);
    }
  }

  lemma LevelBounds(k: nat)
    ensures BACKOFF_INITIAL <= BackoffAt(k) <= BACKOFF_MAX
  {
  }

  /** At every turn of every run the jitter's range is not empty, and a backoff sleep takes
      at least d and less than 1.25 d: never as long as the reset needs. */
  lemma {:induction false} SleepBounds(start: int, turns: seq<Turn>, t: Turn)
    requires IsClose(t) && Possible(After(Start(start), turns), t)
    ensures var s := After(Start(start), turns);
            && Effective(s) / 4 > 0
            && Effective(s) <= Sleep(s, t) && 4 * Sleep(s, t) < 5 * Effective(s)
            && Sleep(s, t) < 75 * SECOND < RESET_AFTER
  {
    BackoffLevel(start, turns);
    LevelBounds(ClosesSinceReset(Start(start), turns));
  }

  // ---------------------------------------------------------------- the reset

  /** The reset before the next turn depends on the whole turn, its sleep included. */
  lemma ResetExactly(s: Loop, t: Turn)
    ensures Resets(Next(s, t)) <==> t.spent + Sleep(s, t) >= RESET_AFTER
  {
  }

  /** Two healthy minutes always reset; but at the longest backoff a stream that lasted one
      minute resets as well. */
  lemma ResetWithoutHealth(s: Loop, t: Turn)
    requires IsClose(t) && Possible(s, t) && Effective(s) > 0
    ensures t.spent >= RESET_AFTER ==> Resets(Next(s, t))
    ensures Effective(s) == BACKOFF_MAX && t.spent >= 60 * SECOND ==> Resets(Next(s, t))
  {
  }

  // ---------------------------------------------------------------- time over whole runs

  function Closes(turns: seq<Turn>): nat {
    if turns == [] then 0 else Closes(turns[..|turns| - 1]) + if IsClose(turns[|turns| - 1]) then 1 else 0
  }

  /** Turns that end in a sleep: all but the recreated ones. */
  function PacedTurns(turns: seq<Turn>): nat {
    if turns == [] then 0
    else PacedTurns(turns[..|turns| - 1]) + if turns[|turns| - 1].FailedAndRecreated? then 0 else 1
  }

  function SumBackoffs(n: nat): int {
    if n == 0 then 0 else SumBackoffs(n - 1) + BackoffAt(n - 1)
  }

  predicate NeverResets(s: Loop, turns: seq<Turn>) {
    turns == [] || (NeverResets(s, turns[..|turns| - 1]) && !Resets(After(s, turns[..|turns| - 1])))
  }

  /** n backoff sleeps without a reset take at least the first n backoffs. */
  lemma {:induction false} ClosesTakeTime(start: int, turns: seq<Turn>)
    requires Runs(Start(start), turns) && NeverResets(Start(start), turns)
    ensures ClosesSinceReset(Start(start), turns) == Closes(turns)
    ensures After(Start(start), turns).now - start >= SumBackoffs(Closes(turns))
    decreases |turns|
  {
    if turns != [] {
      ClosesTakeTime(start, turns[..|turns| - 1]);
      BackoffLevel(start, turns[..|turns| - 1]);
    }
  }

  /** How far, in sixths of a second, k sleeps since the last reset may be ahead of one
      sleep every 151/6 seconds. */
  function Deficit(k: nat): int {
    if k == 0 then 0 else if k == 1 then 145 else if k == 2 then 284 else if k == 3 then 411
    else if k == 4 then 514 else if k == 5 then 569 else 528
  }

  lemma DeficitStep(k: nat)
    ensures Deficit(k) * SECOND + 151 * SECOND - 6 * BackoffAt(k) <= Deficit(k + 1) * SECOND
    ensures 0 <= Deficit(k) <= 569
  {
    if k >= 6 {
      if k > 6 { Pow2Increases(6, k); }
      assert Pow2(6) == 64 && BackoffAt(k) == BACKOFF_MAX;
    } else {
      assert Pow2(1) == 2 && Pow2(2) == 4 && Pow2(3) == 8 && Pow2(4) == 16 && Pow2(5) == 32;
    }
  }

  lemma {:induction false} RateBoundAt(start: int, turns: seq<Turn>)
    requires Runs(Start(start), turns)
    ensures var s := After(Start(start), turns);
            var k := if Resets(s) then 0 else ClosesSinceReset(Start(start), turns);
            6 * (s.now - start) >= (151 * PacedTurns(turns) - Deficit(k)) * SECOND
    decreases |turns|
  {
    if turns != [] {
      var n := |turns| - 1;
      var before, t := turns[..n], turns[n];
      RateBoundAt(start, before);
      BackoffLevel(start, before);
      var s := After(Start(start), before);
      var k := if Resets(s) then 0 else ClosesSinceReset(Start(start), before);
      DeficitStep(k);
      ResetExactly(s, t);
    }
  }

  /** In every run, n turns that are not recreated ones, and so n backoff sleeps, take at
      least (151 n - 569) / 6 seconds. */
  lemma RateBound(start: int, turns: seq<Turn>)
    requires Runs(Start(start), turns)
    ensures 6 * (After(Start(start), turns).now - start) >= (151 * PacedTurns(turns) - 569) * SECOND
    ensures PacedTurns(turns) >= Closes(turns)
  {
    RateBoundAt(start, turns);
    var s := After(Start(start), turns);
    DeficitStep(if Resets(s) then 0 else ClosesSinceReset(Start(start), turns));
    ClosesArePaced(turns);
  }

  lemma {:induction false} ClosesArePaced(turns: seq<Turn>)
    ensures PacedTurns(turns) >= Closes(turns)
  {
    if turns != [] { ClosesArePaced(turns[..|turns| - 1]); }
  }

  // ---------------------------------------------------------------- the bound is met

  /** Six ends of stream, the last one after 88 seconds: 151 seconds and a reset. */
  function Cycle(): seq<Turn> {
    var eof := EndOfStream(0, 0);
    [eof, eof, eof, eof, eof, EndOfStream(88 * SECOND, 0)]
  }

  function Cycles(m: nat): seq<Turn> {
    if m == 0 then [] else Cycles(m - 1) + Cycle()
  }

  lemma {:induction false} AfterConcat(s: Loop, a: seq<Turn>, b: seq<Turn>)
    ensures After(s, a + b) == After(After(s, a), b)
    ensures Closes(a + b) == Closes(a) + Closes(b)
    ensures Runs(s, a + b) <==> Runs(s, a) && Runs(After(s, a), b)
    decreases |b|
  {
    if b == [] {
      assert a + b == a;
    } else {
      var n := |b| - 1;
      assert (a + b)[..|a + b| - 1] == a + b[..n];
      AfterConcat(s, a, b[..n]);
    }
  }

  /** One more turn after a run. */
  lemma OneMore(s: Loop, turns: seq<Turn>, t: Turn)
    requires Runs(s, turns) && Possible(After(s, turns), t)
    ensures Runs(s, turns + [t]) && After(s, turns + [t]) == Next(After(s, turns), t)
    ensures Closes(turns + [t]) == Closes(turns) + if IsClose(t) then 1 else 0
  {
  }

  /** One more end of stream when the backoff is d seconds. */
  lemma OneMoreEnd(s: Loop, turns: seq<Turn>, d: nat) returns (more: seq<Turn>)
    requires Runs(s, turns) && 1 <= d <= 16 && Effective(After(s, turns)) == d * SECOND
    ensures more == turns + [EndOfStream(0, 0)] && Runs(s, more) && Closes(more) == Closes(turns) + 1
    ensures After(s, more).now == After(s, turns).now + d * SECOND && Effective(After(s, more)) == 2 * d * SECOND
  {
    more := turns + [EndOfStream(0, 0)];
    OneMore(s, turns, EndOfStream(0, 0));
  }

  lemma CycleFrom(s: Loop)
    requires Effective(s) == BACKOFF_INITIAL
    ensures Runs(s, Cycle()) && Closes(Cycle()) == 6
    ensures After(s, Cycle()).now == s.now + 151 * SECOND && Effective(After(s, Cycle())) == BACKOFF_INITIAL
  {
    var one := OneMoreEnd(s, [], 1);
    var two := OneMoreEnd(s, one, 2);
    var three := OneMoreEnd(s, two, 4);
    var four := OneMoreEnd(s, three, 8);
    var five := OneMoreEnd(s, four, 16);
    OneMore(s, five, EndOfStream(88 * SECOND, 0));
    assert five + [EndOfStream(88 * SECOND, 0)] == Cycle();
  }

  /** No better rate can be promised: m cycles make 6 m sleeps in exactly 151 m seconds. */
  lemma {:induction false} RateBoundTight(start: int, m: nat)
    ensures var s := Start(start);
            && Runs(s, Cycles(m)) && Closes(Cycles(m)) == 6 * m
            && After(s, Cycles(m)).now - start == 151 * m * SECOND
            && Effective(After(s, Cycles(m))) == BACKOFF_INITIAL
  {
    if m > 0 {
      RateBoundTight(start, m - 1);
      CycleFrom(After(Start(start), Cycles(m - 1)));
      AfterConcat(Start(start), Cycles(m - 1), Cycle());
    }
  }

  // ---------------------------------------------------------------- the unpaced path

  function Repeat(t: Turn, n: nat): seq<Turn> {
    if n == 0 then [] else Repeat(t, n - 1) + [t]
  }

  /** A failed connect whose channel is recreated retries at once: from any state, any number
      of such turns need no time. */
  lemma {:induction false} RecreatedUnpaced(s: Loop, n: nat)
    ensures Runs(s, Repeat(FailedAndRecreated(0), n)) && |Repeat(FailedAndRecreated(0), n)| == n
    ensures After(s, Repeat(FailedAndRecreated(0), n)).now == s.now
  {
    if n > 0 {
      var t := FailedAndRecreated(0);
      RecreatedUnpaced(s, n - 1);
      OneMore(s, Repeat(t, n - 1), t);
    }
  }
}
