/** Error-log debouncing: one memory for stream errors, one for ping errors. Times are in
    seconds. */
module Debounce {
  import opened Strings

  const INTERVAL := 180

  /** The last logged error of a class; no time yet means nothing was logged. */
  datatype Memory = Memory(lastType: string, lastTime: Option<int>)

  datatype Call = Call(kind: string, now: int)

  predicate Logs(m: Memory, c: Call) {
    m.lastType != c.kind || m.lastTime == None || c.now - m.lastTime.value >= INTERVAL
  }

  function Remember(m: Memory, c: Call): Memory {
    if Logs(m, c) then Memory(c.kind, Some(c.now)) else m
  }

  const FORGOTTEN := Memory("", None)

  /** The memory after a sequence of calls of one class. */
  function After(calls: seq<Call>): Memory {
    if calls == [] then FORGOTTEN else Remember(After(calls[..|calls| - 1]), calls[|calls| - 1])
  }

  predicate Logged(calls: seq<Call>, i: nat)
    requires i < |calls|
  {
    Logs(After(calls[..i]), calls[i])
  }

  // ---------------------------------------------------------------- the code

  class Debouncer {
    var lastStreamErrorType: string
    var lastStreamErrorTime: Option<int>
    var lastPingErrorType: string
    var lastPingErrorTime: Option<int>

    constructor ()
      ensures Stream() == FORGOTTEN && Ping() == FORGOTTEN
    {
      lastStreamErrorType, lastStreamErrorTime := "", None;
      lastPingErrorType, lastPingErrorTime := "", None;
    }

    function Stream(): Memory
      reads this
    {
      Memory(lastStreamErrorType, lastStreamErrorTime)
    }

    function Ping(): Memory
      reads this
    {
      Memory(lastPingErrorType, lastPingErrorTime)
    }

    method ShouldLogError(kind: string, isStreamError: bool, now: int) returns (log: bool)
      modifies this
      ensures log == Logs(if isStreamError then old(Stream()) else old(Ping()), Call(kind, now))
      ensures Stream() == if isStreamError then Remember(old(Stream()), Call(kind, now)) else old(Stream())
      ensures Ping() == if isStreamError then old(Ping()) else Remember(old(Ping()), Call(kind, now))
    {
      if isStreamError {
        var isDifferentError := lastStreamErrorType != kind;
        var overdue := lastStreamErrorTime == None || now - lastStreamErrorTime.value >= INTERVAL;
        if isDifferentError || overdue {
          lastStreamErrorType, lastStreamErrorTime := kind, Some(now);
          return true;
        }
      } else {
        var isDifferentError := lastPingErrorType != kind;
        var overdue := lastPingErrorTime == None || now - lastPingErrorTime.value >= INTERVAL;
        if isDifferentError || overdue {
          lastPingErrorType, lastPingErrorTime := kind, Some(now);
          return true;
        }
      }
      return false;
    }

    /** Mixed calls from start-up: each class is decided by its own calls alone. */
    method Drive(calls: seq<(bool, Call)>) returns (logs: seq<bool>)
      requires Stream() == FORGOTTEN && Ping() == FORGOTTEN
      modifies this
      ensures MatchDecisions(logs, calls, |calls|)
      ensures Stream() == After(Only(calls, true)) && Ping() == After(Only(calls, false))
    {
      logs := [];
      for i := 0 to |calls|
        invariant MatchDecisions(logs, calls, i)
        invariant Stream() == After(Only(calls[..i], true)) && Ping() == After(Only(calls[..i], false))
      {
        OnlyNext(calls, i, true);
        OnlyNext(calls, i, false);
        var log := ShouldLogError(calls[i].1.kind, calls[i].0, calls[i].1.now);
        MatchNext(logs, calls, i);
        logs := logs + [log];
      }
      assert calls[..|calls|] == calls;
    }
  }

  /** The calls of one class, in order. */
  function Only(calls: seq<(bool, Call)>, isStream: bool): seq<Call> {
    if calls == [] then []
    else
      var n := |calls| - 1;
      Only(calls[..n], isStream) + if calls[n].0 == isStream then [calls[n].1] else []
  }

  /** The i-th call's decision, from the earlier calls of its class alone. */
  predicate Decided(calls: seq<(bool, Call)>, i: nat)
    requires i < |calls|
  {
    Logs(After(Only(calls[..i], calls[i].0)), calls[i].1)
  }

  /** The first n calls were decided that way. */
  predicate MatchDecisions(logs: seq<bool>, calls: seq<(bool, Call)>, n: nat)
    requires n <= |calls|
  {
    |logs| == n && forall i :: 0 <= i < n ==> logs[i] == Decided(calls, i)
  }

  lemma MatchNext(logs: seq<bool>, calls: seq<(bool, Call)>, n: nat)
    requires n < |calls| && MatchDecisions(logs, calls, n)
    ensures MatchDecisions(logs + [Decided(calls, n)], calls, n + 1)
  {
  }

  lemma OnlyNext(calls: seq<(bool, Call)>, i: nat, isStream: bool)
    requires i < |calls|
    ensures After(Only(calls[..i + 1], isStream)) ==
            var before := After(Only(calls[..i], isStream));
            if calls[i].0 == isStream then Remember(before, calls[i].1) else before
  {
    var earlier := Only(calls[..i], isStream);
    assert calls[..i + 1][..i] == calls[..i];
    assert (earlier + [calls[i].1])[..|earlier|] == earlier;
    assert earlier + [] == earlier;
  }

  // ---------------------------------------------------------------- over all call sequences

  ghost predicate Ordered(calls: seq<Call>) {
    forall i, j :: 0 <= i < j < |calls| ==> calls[i].now <= calls[j].now
  }

  /** Calls j to i all report the same type. */
  predicate SameType(calls: seq<Call>, j: nat, i: nat)
    requires i < |calls|
  {
    forall l :: j <= l <= i ==> calls[l].kind == calls[i].kind
  }

  /** The remembered type is the latest call's; the remembered time is that of the last
      logged call, and every call since repeats its type. */
  lemma {:induction false} Remembered(calls: seq<Call>) returns (j: nat)
    requires calls != []
    ensures After(calls).lastType == calls[|calls| - 1].kind
    ensures j < |calls| && Logged(calls, j) && After(calls).lastTime == Some(calls[j].now)
    ensures SameType(calls, j, |calls| - 1) && forall l :: j < l < |calls| ==> !Logged(calls, l)
    decreases |calls|
  {
    var n := |calls| - 1;
    if Logged(calls, n) {
      j := n;
    } else {
      var before := calls[..n];
      j := Remembered(before);
      assert forall l :: 0 <= l < n ==> before[..l] == calls[..l] && before[l] == calls[l];
      assert Logged(before, j) == Logged(calls, j);
      forall l | j < l < n ensures !Logged(calls, l) { assert Logged(before, l) == Logged(calls, l); }
    }
  }

  /** A call is suppressed exactly when it repeats, with nothing else in between, an error
      logged less than three minutes before. */
  lemma SuppressedExactly(calls: seq<Call>, i: nat)
    requires Ordered(calls) && i < |calls|
    ensures !Logged(calls, i) <==>
            exists j :: 0 <= j < i && Logged(calls, j) && SameType(calls, j, i) &&
              calls[i].now - calls[j].now < INTERVAL
  {
    if i > 0 {
      var before := calls[..i];
      var j := Remembered(before);
      assert forall l :: 0 <= l < i ==> before[..l] == calls[..l] && before[l] == calls[l];
      assert Logged(before, j) == Logged(calls, j);
      assert SameType(calls, j, i) <==> calls[i].kind == calls[i - 1].kind;
      forall l | j < l < i ensures !Logged(calls, l) { assert Logged(before, l) == Logged(calls, l); }
      if Logged(calls, i) {
        forall l | 0 <= l < i && Logged(calls, l) && SameType(calls, l, i)
          ensures calls[i].now - calls[l].now >= INTERVAL
        {
          assert calls[i - 1].kind == calls[i].kind;
        }
      }
    }
  }

  function LogCount(calls: seq<Call>): nat {
    if calls == [] then 0 else LogCount(calls[..|calls| - 1]) + if Logged(calls, |calls| - 1) then 1 else 0
  }

  /** Adjacent calls of different type. */
  function Changes(calls: seq<Call>): nat {
    if |calls| < 2 then 0
    else Changes(calls[..|calls| - 1]) + if calls[|calls| - 1].kind != calls[|calls| - 2].kind then 1 else 0
  }

  lemma {:induction false} LogBoundAt(calls: seq<Call>)
    requires Ordered(calls) && calls != []
    ensures After(calls).lastType == calls[|calls| - 1].kind
    ensures After(calls).lastTime.Some? && calls[0].now <= After(calls).lastTime.value <= calls[|calls| - 1].now
    ensures LogCount(calls) <= Changes(calls) + (After(calls).lastTime.value - calls[0].now) / INTERVAL + 1
    decreases |calls|
  {
    var n := |calls| - 1;
    if n == 0 {
      assert calls[..0] == [];
    } else {
      var before := calls[..n];
      assert before[n - 1] == calls[n - 1];
      LogBoundAt(before);
      assert Logged(calls, n) == Logs(After(before), calls[n]);
      var was, first := After(before).lastTime.value, calls[0].now;
      if Logged(calls, n) {
        if calls[n].kind != calls[n - 1].kind {
          DivGrows(was - first, calls[n].now - first);
        } else {
          DivStep(was - first, calls[n].now - first);
        }
      }
    }
  }

  lemma DivGrows(a: int, b: int)
    requires 0 <= a <= b
    ensures a / INTERVAL <= b / INTERVAL
  {
  }

  lemma DivStep(a: int, b: int)
    requires 0 <= a && a + INTERVAL <= b
    ensures a / INTERVAL + 1 <= b / INTERVAL
  {
  }

  /** Over any calls with a clock that does not go back: at most one log per type change, one
      per three minutes elapsed, and one more. */
  lemma LogBound(calls: seq<Call>)
    requires Ordered(calls) && calls != []
    ensures LogCount(calls) <= Changes(calls) + (calls[|calls| - 1].now - calls[0].now) / INTERVAL + 1
  {
    LogBoundAt(calls);
    DivGrows(After(calls).lastTime.value - calls[0].now, calls[|calls| - 1].now - calls[0].now);
  }
}
