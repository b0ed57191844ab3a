/** The per-block task lists behind the block-trigger summary log: a log line at 10, 20, 40,
    ... tasks, and a clean-up that keeps the ten newest blocks. */
module BlockAccounting {
  import opened Collections
  import opened Numbers

  const KEEP := 10
  const FIRST_LOG := 10

  ghost predicate IsLogPoint(count: nat) {
    exists k: nat :: count == FIRST_LOG * Pow2(k)
  }

  // ---------------------------------------------------------------- what clean-up keeps

  type Blocks = map<int, seq<string>>

  function Larger(s: set<int>, b: int): set<int> {
    set c | c in s && c > b
  }

  /** The blocks with fewer than ten larger ones, lists unchanged. */
  function Trimmed(m: Blocks): Blocks {
    map b | b in m && |Larger(m.Keys, b)| < KEEP :: m[b]
  }

  ghost predicate Increasing(s: seq<int>) {
    forall i, j :: 0 <= i < j < |s| ==> s[i] < s[j]
  }

  lemma ElementsCons(b: int, s: seq<int>)
    ensures Elements([b] + s) == {b} + Elements(s)
  {
  }

  lemma IncreasingSize(s: seq<int>)
    requires Increasing(s)
    ensures |Elements(s)| == |s|
  {
    DistinctCount(s);
  }

  /** In a sorted list of the keys, the rank of a key is its distance from the end. */
  lemma SortedRank(s: seq<int>, i: nat)
    requires Increasing(s) && i < |s|
    ensures |Larger(Elements(s), s[i])| == |s| - 1 - i
  {
    assert Larger(Elements(s), s[i]) == Elements(s[i + 1..]);
    IncreasingSize(s[i + 1..]);
  }

  // ---------------------------------------------------------------- the code

  method Minimum(s: set<int>) returns (m: int)
    requires s != {}
    ensures m in s && forall b :: b in s ==> m <= b
  {
    Inhabited(s);
    m :| m in s;
    var rest := s - {m};
    while rest != {}
      invariant rest <= s && m in s
      invariant forall b :: b in s ==> b in rest || m <= b
      decreases rest
    {
      Inhabited(rest);
      var b :| b in rest;
      if b < m { m := b; }
      rest := rest - {b};
    }
  }

  /** The keys in ascending order. */
  method SortedKeys(s: set<int>) returns (keys: seq<int>)
    ensures Increasing(keys) && Elements(keys) == s
  {
    keys := [];
    var rest := s;
    while rest != {}
      invariant rest <= s && Increasing(keys) && Elements(keys) == s - rest
      invariant forall i, b :: 0 <= i < |keys| && b in rest ==> keys[i] < b
      decreases rest
    {
      var m := Minimum(rest);
      assert Elements(keys + [m]) == Elements(keys) + {m};
      keys := keys + [m];
      rest := rest - {m};
    }
  }

  class Accounting {
    var blocks: Blocks

    constructor ()
      ensures blocks == map[]
    {
      blocks := map[];
    }

    /** A task fired at a block: appended to the block's list, logged at 10, 20, 40, ... */
    method Record(block: int, task: string) returns (logged: bool)
      modifies this
      ensures blocks == Recorded(old(blocks), block, task)
      ensures logged <==> IsLogPoint(|blocks[block]|)
    {
      blocks := blocks[block := (if block in blocks then blocks[block] else []) + [task]];
      var count, threshold := |blocks[block]|, FIRST_LOG;
      ghost var k := 0;
      while threshold <= count
        invariant threshold == FIRST_LOG * Pow2(k)
        invariant forall j: nat :: j < k ==> count != FIRST_LOG * Pow2(j)
        decreases count - threshold
      {
        if count == threshold { return true; }
        threshold := threshold * 2;
        k := k + 1;
      }
      logged := false;
      forall j: nat ensures count != FIRST_LOG * Pow2(j) {
        if k < j { Pow2Increases(k, j); }
      }
    }

    method DeleteFirst(keys: seq<int>, n: nat)
      requires n <= |keys|
      modifies this
      ensures blocks == old(blocks) - Elements(keys[..n])
    {
      for i := 0 to n
        invariant blocks == old(blocks) - Elements(keys[..i])
      {
        assert keys[..i + 1] == keys[..i] + [keys[i]];
        assert Elements(keys[..i + 1]) == Elements(keys[..i]) + {keys[i]};
        blocks := blocks - {keys[i]};
      }
    }

    /** The ten-minute job. */
    method CleanUp()
      modifies this
      ensures blocks == Trimmed(old(blocks))
    {
      var keys := SortedKeys(blocks.Keys);
      TrimmedPrefix(blocks, keys);
      if |keys| > KEEP { DeleteFirst(keys, |keys| - KEEP); }
    }
  }

  function Recorded(m: Blocks, block: int, task: string): Blocks {
    m[block := (if block in m then m[block] else []) + [task]]
  }

  lemma TrimmedPrefix(m: Blocks, keys: seq<int>)
    requires Increasing(keys) && Elements(keys) == m.Keys
    ensures |keys| > KEEP ==> Trimmed(m) == m - Elements(keys[..|keys| - KEEP])
    ensures |keys| <= KEEP ==> Trimmed(m) == m
  {
    forall b | b in m ensures exists i :: 0 <= i < |keys| && keys[i] == b { assert b in Elements(keys); }
    forall i | 0 <= i < |keys| ensures |Larger(m.Keys, keys[i])| == |keys| - 1 - i { SortedRank(keys, i); }
    if |keys| > KEEP {
      var gone := keys[..|keys| - KEEP];
      forall i | 0 <= i < |keys| ensures keys[i] in Elements(gone) <==> i < |keys| - KEEP {
        if i < |keys| - KEEP { assert gone[i] == keys[i]; }
      }
    }
  }

  lemma SortedSplit(keys: seq<int>, n: nat)
    requires Increasing(keys) && n <= |keys|
    ensures Elements(keys) - Elements(keys[..n]) == Elements(keys[n..])
    ensures |Elements(keys[n..])| == |keys| - n
    ensures forall b, c :: b in Elements(keys[n..]) && c in Elements(keys[..n]) ==> c < b
  {
    IncreasingSize(keys[n..]);
    SortedApart(keys, n);
    assert keys == keys[..n] + keys[n..];
    assert forall b :: b in keys <==> b in keys[..n] || b in keys[n..];
  }

  lemma SortedApart(keys: seq<int>, n: nat)
    requires Increasing(keys) && n <= |keys|
    ensures forall b, c :: b in keys[n..] && c in keys[..n] ==> c < b
  {
    forall b, c | b in keys[n..] && c in keys[..n] ensures c < b {
      var i :| 0 <= i < n && keys[..n][i] == c;
      var j :| 0 <= j < |keys| - n && keys[n..][j] == b;
    }
  }

  lemma PrefixGone(m: Blocks, kept: Blocks, keys: seq<int>, n: nat)
    requires Increasing(keys) && Elements(keys) == m.Keys && n <= |keys| && kept == m - Elements(keys[..n])
    ensures |m| == |keys| && |kept| == |keys| - n
    ensures forall b, c :: b in kept && c in m && c !in kept ==> c < b
  {
    IncreasingSize(keys);
    assert |m| == |m.Keys|;
    SortedSplit(keys, n);
    RestSize(m, Elements(keys[..n]), Elements(keys[n..]));
  }

  /** Clean-up leaves ten blocks at most, none of them below one it dropped. */
  lemma CleanUpKeepsNewest(m: Blocks)
    ensures |Trimmed(m)| == if |m| <= KEEP then |m| else KEEP
    ensures forall b, c :: b in Trimmed(m) && c in m && c !in Trimmed(m) ==> c < b
  {
    var keys := Sorted(m.Keys);
    TrimmedPrefix(m, keys);
    if |keys| > KEEP {
      PrefixGone(m, Trimmed(m), keys, |keys| - KEEP);
    } else {
      IncreasingSize(keys);
    }
  }

  lemma RestSize(m: Blocks, gone: set<int>, rest: set<int>)
    requires m.Keys - gone == rest
    ensures (m - gone).Keys == rest && |m - gone| == |rest|
  {
  }

  ghost predicate IsMinimum(m: int, s: set<int>) {
    m in s && forall b :: b in s ==> m <= b
  }

  ghost function Sorted(s: set<int>): (keys: seq<int>)
    ensures Increasing(keys) && Elements(keys) == s
    decreases s
  {
    if s == {} then []
    else
      MinimumExists(s);
      var m :| IsMinimum(m, s);
      SortedCons(s, m, Sorted(s - {m}));
      [m] + Sorted(s - {m})
  }

  lemma SortedCons(s: set<int>, m: int, rest: seq<int>)
    requires IsMinimum(m, s) && Increasing(rest) && Elements(rest) == s - {m}
    ensures Increasing([m] + rest) && Elements([m] + rest) == s
  {
    ElementsCons(m, rest);
    forall i | 0 <= i < |rest| ensures m < rest[i] { assert rest[i] in Elements(rest); }
  }

  lemma {:induction false} MinimumExists(s: set<int>)
    requires s != {}
    ensures exists m :: IsMinimum(m, s)
    decreases s
  {
    Inhabited(s);
    var b :| b in s;
    if s == {b} {
      assert IsMinimum(b, s);
    } else {
      MinimumExists(s - {b});
      var m :| IsMinimum(m, s - {b});
      forall c | c in s ensures c == b || m <= c { if c != b { assert c in s - {b}; } }
      if b < m { assert IsMinimum(b, s); } else { assert IsMinimum(m, s); }
    }
  }

  // ---------------------------------------------------------------- logs over a run

  /** Log points among 1..n. */
  ghost function LogPoints(n: nat): nat {
    if n == 0 then 0 else LogPoints(n - 1) + if IsLogPoint(n) then 1 else 0
  }

  lemma LogPointBetween(n: nat, k: nat)
    requires FIRST_LOG * Pow2(k) <= n < FIRST_LOG * Pow2(k + 1)
    ensures IsLogPoint(n) <==> n == FIRST_LOG * Pow2(k)
  {
    forall j: nat | n == FIRST_LOG * Pow2(j) ensures j == k {
      if j < k { Pow2Increases(j, k); } else if k + 1 < j { Pow2Increases(k + 1, j); }
    }
  }

  lemma {:induction false} NoLogPoints(n: nat)
    requires n < FIRST_LOG
    ensures LogPoints(n) == 0
  {
    if n > 0 { NoLogPoints(n - 1); }
  }

  lemma {:induction false} LogPointsBetween(n: nat, k: nat)
    requires FIRST_LOG * Pow2(k) <= n < FIRST_LOG * Pow2(k + 1)
    ensures LogPoints(n) == k + 1
    decreases n
  {
    LogPointBetween(n, k);
    if n > FIRST_LOG * Pow2(k) {
      LogPointsBetween(n - 1, k);
    } else if k > 0 {
      LogPointsBetween(n - 1, k - 1);
    } else {
      NoLogPoints(n - 1);
    }
  }

  /** floor(log2(n / 10)) + 1 from ten tasks on, none before. */
  lemma LogPointsClosed(n: nat)
    ensures LogPoints(n) == if n < FIRST_LOG then 0 else FloorLog2(n / FIRST_LOG) + 1
  {
    if n < FIRST_LOG { NoLogPoints(n); } else { LogPointsBetween(n, FloorLog2(n / FIRST_LOG)); }
  }

  datatype Event = Fired(block: int, task: string) | CleanedUp

  function Next(m: Blocks, e: Event): Blocks {
    match e
    case Fired(block, task) => Recorded(m, block, task)
    case CleanedUp => Trimmed(m)
  }

  function BlocksAfter(events: seq<Event>): Blocks {
    if events == [] then map[] else Next(BlocksAfter(events[..|events| - 1]), events[|events| - 1])
  }

  function TasksOf(m: Blocks, b: int): seq<string> {
    if b in m then m[b] else []
  }

  predicate FiresAt(e: Event, b: int) {
    e.Fired? && e.block == b
  }

  /** The log lines about block b that an event causes. */
  ghost function Lines(m: Blocks, e: Event, b: int): nat {
    if FiresAt(e, b) && IsLogPoint(|TasksOf(Next(m, e), b)|) then 1 else 0
  }

  /** The log lines about block b over a run. */
  ghost function LogLines(events: seq<Event>, b: int): nat {
    if events == [] then 0
    else
      var before := events[..|events| - 1];
      LogLines(before, b) + Lines(BlocksAfter(before), events[|events| - 1], b)
  }

  function Task(e: Event, b: int): seq<string> {
    if FiresAt(e, b) then [e.task] else []
  }

  /** The tasks fired at block b over a run, in order. */
  function FiredAt(events: seq<Event>, b: int): seq<string> {
    if events == [] then [] else FiredAt(events[..|events| - 1], b) + Task(events[|events| - 1], b)
  }

  /** A block's lives: how many tasks fired at it before each clean-up that dropped it, and
      since the last one. */
  datatype Lives = Lives(past: seq<nat>, current: nat)

  function Lived(l: Lives, m: Blocks, e: Event, b: int): Lives {
    if FiresAt(e, b) then l.(current := l.current + 1)
    else if b in m && b !in Next(m, e) then Lives(l.past + [l.current], 0)
    else l
  }

  function LivesOf(events: seq<Event>, b: int): Lives {
    if events == [] then Lives([], 0)
    else
      var before := events[..|events| - 1];
      Lived(LivesOf(before, b), BlocksAfter(before), events[|events| - 1], b)
  }

  ghost function LogPointsOver(lives: seq<nat>): nat {
    if lives == [] then 0 else LogPointsOver(lives[..|lives| - 1]) + LogPoints(lives[|lives| - 1])
  }

  /** How one event changes a block's list. */
  lemma TasksNext(m: Blocks, e: Event, b: int)
    ensures FiresAt(e, b) ==> TasksOf(Next(m, e), b) == TasksOf(m, b) + [e.task]
    ensures !FiresAt(e, b) && b in Next(m, e) ==> b in m && TasksOf(Next(m, e), b) == TasksOf(m, b)
    ensures !FiresAt(e, b) && b !in Next(m, e) ==> TasksOf(Next(m, e), b) == []
  {
  }

  /** A block's list is the latest part of what fired at it, as long as its current life, and
      its log lines are the log points of its lives. */
  ghost predicate Accounted(l: Lives, fired: seq<string>, tasks: seq<string>, lines: nat) {
    && l.current <= |fired| && tasks == fired[|fired| - l.current..]
    && lines == LogPointsOver(l.past) + LogPoints(l.current)
  }

  lemma AccountedFire(l: Lives, fired: seq<string>, tasks: seq<string>, lines: nat, task: string)
    requires Accounted(l, fired, tasks, lines)
    ensures Accounted(l.(current := l.current + 1), fired + [task], tasks + [task],
                      lines + if IsLogPoint(|tasks| + 1) then 1 else 0)
  {
    assert (fired + [task])[|fired| - l.current..] == tasks + [task];
  }

  lemma AccountedDrop(l: Lives, fired: seq<string>, tasks: seq<string>, lines: nat)
    requires Accounted(l, fired, tasks, lines)
    ensures Accounted(Lives(l.past + [l.current], 0), fired, [], lines)
  {
    assert (l.past + [l.current])[..|l.past|] == l.past;
  }

  /** What an event does to the lives, given what it does to the list. */
  lemma LivedCases(l: Lives, m: Blocks, e: Event, b: int)
    ensures FiresAt(e, b) ==>
              && Lived(l, m, e, b) == l.(current := l.current + 1) && TasksOf(Next(m, e), b) == TasksOf(m, b) + [e.task]
              && Lines(m, e, b) == if IsLogPoint(|TasksOf(m, b)| + 1) then 1 else 0
    ensures !FiresAt(e, b) ==> Lines(m, e, b) == 0
    ensures !FiresAt(e, b) && b in m && b !in Next(m, e) ==>
              Lived(l, m, e, b) == Lives(l.past + [l.current], 0) && TasksOf(Next(m, e), b) == []
    ensures !FiresAt(e, b) && !(b in m && b !in Next(m, e)) ==>
              Lived(l, m, e, b) == l && TasksOf(Next(m, e), b) == TasksOf(m, b)
  {
    TasksNext(m, e, b);
  }

  /** One more event. */
  lemma AccountedNext(l: Lives, m: Blocks, e: Event, b: int, fired: seq<string>, lines: nat)
    requires Accounted(l, fired, TasksOf(m, b), lines)
    ensures Accounted(Lived(l, m, e, b), fired + Task(e, b), TasksOf(Next(m, e), b), lines + Lines(m, e, b))
  {
    var tasks := TasksOf(m, b);
    LivedCases(l, m, e, b);
    if FiresAt(e, b) {
      AccountedFire(l, fired, tasks, lines, e.task);
    } else {
      assert fired + [] == fired;
      AccountedDrop(l, fired, tasks, lines);
    }
  }

  lemma EventsNext(events: seq<Event>, b: int)
    requires events != []
    ensures var before, e := events[..|events| - 1], events[|events| - 1];
            && LivesOf(events, b) == Lived(LivesOf(before, b), BlocksAfter(before), e, b)
            && FiredAt(events, b) == FiredAt(before, b) + Task(e, b)
            && BlocksAfter(events) == Next(BlocksAfter(before), e)
            && LogLines(events, b) == LogLines(before, b) + Lines(BlocksAfter(before), e, b)
  {
  }

  /** Over every run, clean-ups that drop the block included. */
  lemma {:induction false} LogsOverRun(events: seq<Event>, b: int)
    ensures Accounted(LivesOf(events, b), FiredAt(events, b), TasksOf(BlocksAfter(events), b), LogLines(events, b))
    decreases |events|
  {
    if events != [] {
      var before, e := events[..|events| - 1], events[|events| - 1];
      LogsOverRun(before, b);
      AccountedNext(LivesOf(before, b), BlocksAfter(before), e, b, FiredAt(before, b), LogLines(before, b));
      EventsNext(events, b);
    }
  }

  /** No clean-up of the run drops block b once it is there. */
  predicate NeverDropped(events: seq<Event>, b: int) {
    events == [] ||
    (&& NeverDropped(events[..|events| - 1], b)
     && (b in BlocksAfter(events[..|events| - 1]) ==> b in BlocksAfter(events)))
  }

  /** A run that does not drop the block is one life: its list is all that fired at it, and
      it was logged floor(log2(n/10)) + 1 times if n >= 10 tasks fired, and never else. */
  lemma {:induction false} OneLife(events: seq<Event>, b: int)
    requires NeverDropped(events, b)
    ensures LivesOf(events, b) == Lives([], |FiredAt(events, b)|)
    ensures TasksOf(BlocksAfter(events), b) == FiredAt(events, b)
    ensures var n := |FiredAt(events, b)|;
            LogLines(events, b) == if n < FIRST_LOG then 0 else FloorLog2(n / FIRST_LOG) + 1
    decreases |events|
  {
    LogsOverRun(events, b);
    LogPointsClosed(|FiredAt(events, b)|);
    if events != [] { OneLife(events[..|events| - 1], b); }
  }
}
