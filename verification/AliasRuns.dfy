/** All interleavings of concurrent alias lookups: the lock covers the cache read at the
    start and the cache write at the end, never the questions in between. */
module AliasRuns {
  import opened Strings
  import opened HexAddress
  import opened AliasCache

  /** One source's answer and when it came. */
  datatype Heard = Heard(answer: Answer, at: int)

  /** A pending lookup, with the entry it read when it began and the number of commits made
      by then. */
  datatype Lookup = Lookup(operator: Address, entry: Option<Entry>, seen: nat, began: int, heard: seq<Heard>)

  /** A lookup that wrote the cache. */
  datatype Commit = Commit(operator: Address, alias: Address, began: int, heard: seq<Heard>, at: int)

  datatype How = FromCache | LookedUp | Fallback

  /** An alias returned to a caller: what the cache held for its operator after the first
      `seen` commits. */
  datatype Served = Served(operator: Address, alias: Address, at: int, how: How, seen: nat)

  datatype State = State(
    now: int,
    sources: seq<bool>,
    cache: map<Address, Entry>,
    lookups: map<nat, Lookup>,
    commits: seq<Commit>,
    served: seq<Served>)

  datatype Step =
    | Tick(elapsed: nat)
    | Begin(id: nat, operator: Address)
    | Hear(id: nat, answer: Answer)
    | Finish(id: nat)

  function Answers(heard: seq<Heard>): seq<Answer> {
    seq(|heard|, i requires 0 <= i < |heard| => heard[i].answer)
  }

  /** A declared alias ends the source loop early. */
  predicate Settled(s: State, l: Lookup) {
    |l.heard| >= |s.sources| || (l.heard != [] && Decisive(l.heard[|l.heard| - 1].answer))
  }

  /** Sources are asked in order; one that is not bound is passed over, and past the
      deadline a question can only fail. */
  predicate CanHear(s: State, l: Lookup, answer: Answer) {
    && !Settled(s, l)
    && (answer.Unbound? <==> !s.sources[|l.heard|])
    && (answer.Answered? ==> s.now - l.began <= LOOKUP_TIMEOUT)
  }

  predicate Enabled(s: State, a: Step) {
    match a
    case Tick(_) => true
    case Begin(id, _) => id !in s.lookups
    case Hear(id, answer) => id in s.lookups && CanHear(s, s.lookups[id], answer)
    case Finish(id) => id in s.lookups && Settled(s, s.lookups[id])
  }

  function Serve(s: State, operator: Address, r: Result, how: How, seen: nat): State {
    if r.Alias? then s.(served := s.served + [Served(operator, r.alias, s.now, how, seen)]) else s
  }

  function Start(s: State, id: nat, operator: Address): State {
    var entry := Cached(s.cache, operator);
    if entry.Some? && Fresh(entry.value, s.now) then
      Serve(s, operator, Alias(entry.value.alias), FromCache, |s.commits|)
    else if s.sources == [] then
      Serve(s, operator, StaleOr(entry), Fallback, |s.commits|)
    else
      s.(lookups := s.lookups[id := Lookup(operator, entry, |s.commits|, s.now, [])])
  }

  function CommitOf(l: Lookup, alias: Address, now: int): Commit {
    Commit(l.operator, alias, l.began, l.heard, now)
  }

  /** The cache and the history after a lookup committed. */
  function Committed(s: State, l: Lookup, alias: Address): State {
    s.(cache := s.cache[l.operator := Entry(alias, s.now)], commits := s.commits + [CommitOf(l, alias, s.now)])
  }

  /** How lookup l ends: an incomplete view falls back to the entry it began with. */
  function Ended(s: State, l: Lookup, outcome: Option<Address>): State {
    match outcome
    case None => Serve(s, l.operator, StaleOr(l.entry), Fallback, l.seen)
    case Some(alias) => Serve(Committed(s, l, alias), l.operator, Alias(alias), LookedUp, |s.commits| + 1)
  }

  function Outcome(l: Lookup): Option<Address> {
    Conclusion(Answers(l.heard))
  }

  function Conclude(s: State, id: nat): State
    requires id in s.lookups
  {
    Ended(s.(lookups := s.lookups - {id}), s.lookups[id], Outcome(s.lookups[id]))
  }

  function Fire(s: State, a: Step): State
    requires Enabled(s, a)
  {
    match a
    case Tick(d) => s.(now := s.now + d)
    case Begin(id, operator) => Start(s, id, operator)
    case Hear(id, answer) =>
      var l := s.lookups[id];
      s.(lookups := s.lookups[id := l.(heard := l.heard + [Heard(answer, s.now)])])
    case Finish(id) => Conclude(s, id)
  }

  predicate Runs(s: State, steps: seq<Step>)
    decreases |steps|
  {
    steps == [] || (Enabled(s, steps[0]) && Runs(Fire(s, steps[0]), steps[1..]))
  }

  function After(s: State, steps: seq<Step>): State
    requires Runs(s, steps)
    decreases |steps|
  {
    if steps == [] then s else After(Fire(s, steps[0]), steps[1..])
  }

  function Init(now: int, sources: seq<bool>): State {
    State(now, sources, map[], map[], [], [])
  }

  // ---------------------------------------------------------------- what every run keeps

  /** Everything heard was heard after the lookup began, by the given time, one source after
      the other, and answers came before the lookup's deadline. */
  ghost predicate HeardWithin(sources: seq<bool>, heard: seq<Heard>, began: int, until: int) {
    && |heard| <= |sources|
    && (forall i :: 0 <= i < |heard| ==> began <= heard[i].at <= until)
    && (forall i :: 0 <= i < |heard| && heard[i].answer.Answered? ==> heard[i].at - began <= LOOKUP_TIMEOUT)
    && (forall i :: 0 <= i < |heard| ==> (heard[i].answer.Unbound? <==> !sources[i]))
  }

  /** Zero was committed only after every bound source answered zero; an alias only after
      some source declared it. */
  ghost predicate Justified(sources: seq<bool>, c: Commit) {
    && c.began <= c.at && HeardWithin(sources, c.heard, c.began, c.at)
    && (exists i :: 0 <= i < |c.heard| && c.heard[i].answer.Answered?)
    && (c.alias == NO_ALIAS ==>
          && |c.heard| == |sources|
          && forall i :: 0 <= i < |sources| && sources[i] ==> c.heard[i].answer == Answered(NO_ALIAS))
    && (c.alias != NO_ALIAS ==> exists i :: 0 <= i < |c.heard| && c.heard[i].answer == Answered(c.alias))
  }

  /** The latest commit for an operator. */
  function Last(commits: seq<Commit>, operator: Address): Option<Commit> {
    if commits == [] then None
    else if commits[|commits| - 1].operator == operator then Some(commits[|commits| - 1])
    else Last(commits[..|commits| - 1], operator)
  }

  function AsEntry(c: Option<Commit>): Option<Entry> {
    if c.Some? then Some(Entry(c.value.alias, c.value.at)) else None
  }

  lemma LastNext(commits: seq<Commit>, c: Commit, operator: Address)
    ensures Last(commits + [c], operator) == if c.operator == operator then Some(c) else Last(commits, operator)
  {
    assert (commits + [c])[..|commits|] == commits;
  }

  lemma {:induction false} LastIn(commits: seq<Commit>, operator: Address)
    ensures Last(commits, operator).Some? ==>
              exists i :: 0 <= i < |commits| && commits[i] == Last(commits, operator).value &&
                commits[i].operator == operator
  {
    if commits != [] && commits[|commits| - 1].operator != operator { LastIn(commits[..|commits| - 1], operator); }
  }

  ghost predicate LookupOk(s: State, l: Lookup) {
    && l.began <= s.now && HeardWithin(s.sources, l.heard, l.began, s.now)
    && l.seen <= |s.commits| && l.entry == AsEntry(Last(s.commits[..l.seen], l.operator))
  }

  /** The served alias is what the cache held after the first `seen` commits: within the time
      to live if it was served as fresh, and just committed if it was looked up. */
  ghost predicate ServedOk(commits: seq<Commit>, v: Served) {
    && v.seen <= |commits|
    && var c := Last(commits[..v.seen], v.operator);
    && c.Some? && c.value.alias == v.alias
    && (v.how.FromCache? ==> v.at - c.value.at < CACHE_TTL)
    && (v.how.LookedUp? ==> c.value.at == v.at && v.seen >= 1 && commits[v.seen - 1] == c.value)
  }

  ghost predicate Good(s: State) {
    && (forall i :: 0 <= i < |s.commits| ==> Justified(s.sources, s.commits[i]) && s.commits[i].at <= s.now)
    && (forall op :: Cached(s.cache, op) == AsEntry(Last(s.commits, op)))
    && (forall id :: id in s.lookups ==> LookupOk(s, s.lookups[id]))
    && (forall i :: 0 <= i < |s.served| ==> ServedOk(s.commits, s.served[i]))
  }

  lemma ServeGood(s: State, operator: Address, r: Result, how: How, seen: nat)
    requires Good(s) && (r.Alias? ==> ServedOk(s.commits, Served(operator, r.alias, s.now, how, seen)))
    ensures Good(Serve(s, operator, r, how, seen))
  {
  }

  lemma StartGood(s: State, id: nat, operator: Address)
    requires Good(s) && id !in s.lookups
    ensures Good(Start(s, id, operator))
  {
    var entry := Cached(s.cache, operator);
    assert s.commits[..|s.commits|] == s.commits;
    if entry.Some? && Fresh(entry.value, s.now) {
      ServeGood(s, operator, Alias(entry.value.alias), FromCache, |s.commits|);
    } else if s.sources == [] {
      ServeGood(s, operator, StaleOr(entry), Fallback, |s.commits|);
    }
  }

  lemma AnswersAt(heard: seq<Heard>, i: nat)
    requires i < |heard|
    ensures Answers(heard)[i] == heard[i].answer
  {
  }

  /** A settled lookup that concludes something commits it with justification. */
  lemma CommitJustified(s: State, l: Lookup)
    requires LookupOk(s, l) && Settled(s, l) && Outcome(l).Some?
    ensures Justified(s.sources, CommitOf(l, Outcome(l).value, s.now))
  {
    var answers := Answers(l.heard);
    ConcludesZero(answers);
    ConcludesAlias(answers);
    forall i | 0 <= i < |l.heard| ensures answers[i] == l.heard[i].answer { AnswersAt(l.heard, i); }
    if Conclusion(answers).value != NO_ALIAS {
      var i :| 0 <= i < |answers| && answers[i] == Answered(Conclusion(answers).value);
      assert l.heard[i].answer == Answered(Conclusion(answers).value);
    } else {
      assert forall i :: 0 <= i < |answers| ==> !Decisive(answers[i]);
      var i :| 0 <= i < |answers| && answers[i].Answered?;
      assert l.heard[i].answer.Answered?;
    }
  }

  /** What is known of earlier commits does not change when one is added. */
  lemma PrefixStays(commits: seq<Commit>, c: Commit, n: nat)
    requires n <= |commits|
    ensures (commits + [c])[..n] == commits[..n]
  {
  }

  lemma CommitGood(s: State, l: Lookup, alias: Address)
    requires Good(s) && Justified(s.sources, CommitOf(l, alias, s.now))
    ensures Good(Committed(s, l, alias))
  {
    var c := CommitOf(l, alias, s.now);
    var t := Committed(s, l, alias);
    forall op ensures Cached(t.cache, op) == AsEntry(Last(t.commits, op)) { LastNext(s.commits, c, op); }
    forall id | id in t.lookups ensures LookupOk(t, t.lookups[id]) { PrefixStays(s.commits, c, s.lookups[id].seen); }
    forall i | 0 <= i < |t.served| ensures ServedOk(t.commits, t.served[i]) {
      PrefixStays(s.commits, c, s.served[i].seen);
    }
  }

  lemma FallbackGood(s: State, l: Lookup)
    requires Good(s) && LookupOk(s, l)
    ensures Good(Serve(s, l.operator, StaleOr(l.entry), Fallback, l.seen))
  {
    ServeGood(s, l.operator, StaleOr(l.entry), Fallback, l.seen);
  }

  lemma LookedUpGood(s: State, l: Lookup, alias: Address)
    requires Good(s) && Justified(s.sources, CommitOf(l, alias, s.now))
    ensures Good(Serve(Committed(s, l, alias), l.operator, Alias(alias), LookedUp, |s.commits| + 1))
  {
    CommitGood(s, l, alias);
    LookedUpOk(s, l, alias);
    ServeGood(Committed(s, l, alias), l.operator, Alias(alias), LookedUp, |s.commits| + 1);
  }

  lemma EndedGood(s: State, l: Lookup, outcome: Option<Address>)
    requires Good(s) && LookupOk(s, l) && (outcome.Some? ==> Justified(s.sources, CommitOf(l, outcome.value, s.now)))
    ensures Good(Ended(s, l, outcome))
  {
    if outcome.Some? { LookedUpGood(s, l, outcome.value); } else { FallbackGood(s, l); }
  }

  lemma ConcludeGood(s: State, id: nat)
    requires Good(s) && id in s.lookups && Settled(s, s.lookups[id])
    ensures Good(Conclude(s, id))
  {
    var l := s.lookups[id];
    assert LookupOk(s, l);
    LookupGone(s, id);
    if Outcome(l).Some? { CommitJustified(s, l); }
    EndedGood(s.(lookups := s.lookups - {id}), l, Outcome(l));
  }

  lemma LookedUpOk(s: State, l: Lookup, alias: Address)
    ensures ServedOk(Committed(s, l, alias).commits, Served(l.operator, alias, s.now, LookedUp, |s.commits| + 1))
  {
    var commits := Committed(s, l, alias).commits;
    assert commits[..|s.commits| + 1] == commits;
    LastNext(s.commits, CommitOf(l, alias, s.now), l.operator);
  }

  lemma HeardMore(s: State, l: Lookup, answer: Answer)
    requires LookupOk(s, l) && CanHear(s, l, answer)
    ensures LookupOk(s, l.(heard := l.heard + [Heard(answer, s.now)]))
  {
  }

  lemma LookupChanged(s: State, id: nat, l: Lookup)
    requires Good(s) && LookupOk(s, l)
    ensures Good(s.(lookups := s.lookups[id := l]))
  {
    var t := s.(lookups := s.lookups[id := l]);
    forall i | i in t.lookups ensures LookupOk(t, t.lookups[i]) {
      if i != id { assert LookupOk(s, s.lookups[i]); }
    }
  }

  lemma LookupGone(s: State, id: nat)
    requires Good(s)
    ensures Good(s.(lookups := s.lookups - {id}))
  {
    var t := s.(lookups := s.lookups - {id});
    forall i | i in t.lookups ensures LookupOk(t, t.lookups[i]) { assert LookupOk(s, s.lookups[i]); }
  }

  lemma HearGood(s: State, id: nat, answer: Answer)
    requires Good(s) && Enabled(s, Hear(id, answer))
    ensures Good(Fire(s, Hear(id, answer)))
  {
    var l := s.lookups[id];
    HeardMore(s, l, answer);
    LookupChanged(s, id, l.(heard := l.heard + [Heard(answer, s.now)]));
  }

  lemma StepGood(s: State, a: Step)
    requires Good(s) && Enabled(s, a)
    ensures Good(Fire(s, a))
  {
    match a
    case Tick(d) =>
    case Begin(id, operator) => StartGood(s, id, operator);
    case Hear(id, answer) => HearGood(s, id, answer);
    case Finish(id) => ConcludeGood(s, id);
  }

  lemma {:induction false} RunGood(s: State, steps: seq<Step>)
    requires Good(s) && Runs(s, steps)
    ensures Good(After(s, steps)) && After(s, steps).sources == s.sources
    decreases |steps|
  {
    if steps != [] {
      StepGood(s, steps[0]);
      RunGood(Fire(s, steps[0]), steps[1..]);
    }
  }

  // ---------------------------------------------------------------- where a lookup began

  lemma {:induction false} RunsConcat(s: State, a: seq<Step>, b: seq<Step>)
    requires Runs(s, a) && Runs(After(s, a), b)
    ensures Runs(s, a + b) && After(s, a + b) == After(After(s, a), b)
    decreases |a|
  {
    if a == [] {
      assert a + b == b;
    } else {
      assert (a + b)[1..] == a[1..] + b;
      RunsConcat(Fire(s, a[0]), a[1..], b);
    }
  }

  lemma OneStep(s: State, a: Step)
    requires Enabled(s, a)
    ensures Runs(s, [a]) && After(s, [a]) == Fire(s, a)
  {
  }

  lemma {:induction false} RunsLast(s: State, steps: seq<Step>)
    requires steps != [] && Runs(s, steps)
    ensures var n := |steps| - 1;
            && Runs(s, steps[..n]) && Enabled(After(s, steps[..n]), steps[n])
            && After(s, steps) == Fire(After(s, steps[..n]), steps[n])
    decreases |steps|
  {
    if |steps| > 1 {
      RunsLast(Fire(s, steps[0]), steps[1..]);
      assert steps[1..][..|steps| - 2] == steps[..|steps| - 1][1..];
    } else {
      assert steps[..0] == [];
    }
  }

  /** What a step adds to the history. */
  lemma StepCommits(s: State, a: Step)
    requires Enabled(s, a)
    ensures Fire(s, a).commits == s.commits ||
            (&& a.Finish? && Outcome(s.lookups[a.id]).Some?
             && Fire(s, a).commits == s.commits + [CommitOf(s.lookups[a.id], Outcome(s.lookups[a.id]).value, s.now)])
  {
  }

  /** Step n of the run begins a lookup for the operator, when `history` had been committed. */
  ghost predicate BeganAt(s: State, steps: seq<Step>, n: nat, operator: Address, history: seq<Commit>) {
    && n < |steps| && Runs(s, steps[..n]) && steps[n].Begin? && steps[n].operator == operator
    && After(s, steps[..n]).commits == history
  }

  ghost predicate Began(s: State, steps: seq<Step>, operator: Address, history: seq<Commit>) {
    exists n :: BeganAt(s, steps, n, operator, history)
  }

  lemma BeganEarlier(s: State, steps: seq<Step>, operator: Address, history: seq<Commit>)
    requires steps != [] && Began(s, steps[..|steps| - 1], operator, history)
    ensures Began(s, steps, operator, history)
  {
    var before := steps[..|steps| - 1];
    var n: nat :| BeganAt(s, before, n, operator, history);
    assert before[..n] == steps[..n];
    assert BeganAt(s, steps, n, operator, history);
  }

  ghost predicate LookupTraced(s: State, steps: seq<Step>, t: State, l: Lookup) {
    l.seen <= |t.commits| && Began(s, steps, l.operator, t.commits[..l.seen])
  }

  ghost predicate ServedTraced(s: State, steps: seq<Step>, t: State, v: Served) {
    v.how.LookedUp? || (v.seen <= |t.commits| && Began(s, steps, v.operator, t.commits[..v.seen]))
  }

  /** Every pending lookup, and every alias served from the cache or as a fallback, goes back
      to the step that began its lookup. */
  ghost predicate Traced(s: State, steps: seq<Step>, t: State) {
    && (forall id :: id in t.lookups ==> LookupTraced(s, steps, t, t.lookups[id]))
    && (forall k :: 0 <= k < |t.served| ==> ServedTraced(s, steps, t, t.served[k]))
  }

  lemma HistoryStays(u: State, a: Step, n: nat)
    requires Enabled(u, a) && n <= |u.commits|
    ensures n <= |Fire(u, a).commits| && Fire(u, a).commits[..n] == u.commits[..n]
  {
    StepCommits(u, a);
  }

  /** The last step of a run: what is new after it began with it. */
  lemma BeganNow(s: State, steps: seq<Step>, operator: Address)
    requires steps != [] && Runs(s, steps[..|steps| - 1])
    requires steps[|steps| - 1].Begin? && steps[|steps| - 1].operator == operator
    ensures var u := After(s, steps[..|steps| - 1]); Began(s, steps, operator, u.commits[..|u.commits|])
  {
    var u := After(s, steps[..|steps| - 1]);
    assert u.commits[..|u.commits|] == u.commits;
    assert BeganAt(s, steps, |steps| - 1, operator, u.commits);
  }

  /** Every lookup after a step was there before it, or has just begun. */
  lemma LookupOrigin(u: State, a: Step, id: nat)
    requires Enabled(u, a) && id in Fire(u, a).lookups
    ensures var l := Fire(u, a).lookups[id];
            || (id in u.lookups && l.operator == u.lookups[id].operator && l.seen == u.lookups[id].seen)
            || (a.Begin? && a.operator == l.operator && l.seen == |u.commits|)
  {
  }

  /** An alias served by a step, other than by a commit, comes from a pending lookup that ends
      or from one that has just begun. */
  lemma ServedOrigin(u: State, a: Step, k: nat)
    requires Enabled(u, a) && k < |Fire(u, a).served|
    ensures var v := Fire(u, a).served[k];
            || (k < |u.served| && v == u.served[k]) || v.how.LookedUp?
            || (a.Finish? && v.operator == u.lookups[a.id].operator && v.seen == u.lookups[a.id].seen)
            || (a.Begin? && a.operator == v.operator && v.seen == |u.commits|)
  {
  }

  lemma TracedNext(s: State, steps: seq<Step>, u: State)
    requires steps != [] && Runs(s, steps[..|steps| - 1]) && u == After(s, steps[..|steps| - 1])
    requires Enabled(u, steps[|steps| - 1]) && Traced(s, steps[..|steps| - 1], u)
    ensures Traced(s, steps, Fire(u, steps[|steps| - 1]))
  {
    var a := steps[|steps| - 1];
    var t := Fire(u, a);
    forall id | id in t.lookups ensures LookupTraced(s, steps, t, t.lookups[id]) {
      var l := t.lookups[id];
      LookupOrigin(u, a, id);
      if id in u.lookups && l.operator == u.lookups[id].operator && l.seen == u.lookups[id].seen {
        LookupStays(s, steps, u, id);
      } else {
        HistoryStays(u, a, l.seen);
        BeganNow(s, steps, l.operator);
      }
    }
    forall k | 0 <= k < |t.served| ensures ServedTraced(s, steps, t, t.served[k]) {
      var v := t.served[k];
      ServedOrigin(u, a, k);
      if k < |u.served| && v == u.served[k] && !v.how.LookedUp? {
        assert ServedTraced(s, steps[..|steps| - 1], u, u.served[k]);
        HistoryStays(u, a, v.seen);
        BeganEarlier(s, steps, v.operator, u.commits[..v.seen]);
      } else if !v.how.LookedUp? && a.Finish? {
        LookupStays(s, steps, u, a.id);
      } else if !v.how.LookedUp? {
        HistoryStays(u, a, v.seen);
        BeganNow(s, steps, v.operator);
      }
    }
  }

  lemma LookupStays(s: State, steps: seq<Step>, u: State, id: nat)
    requires steps != [] && Traced(s, steps[..|steps| - 1], u) && id in u.lookups && Enabled(u, steps[|steps| - 1])
    ensures LookupTraced(s, steps, Fire(u, steps[|steps| - 1]), u.lookups[id])
  {
    var l := u.lookups[id];
    assert LookupTraced(s, steps[..|steps| - 1], u, l);
    HistoryStays(u, steps[|steps| - 1], l.seen);
    BeganEarlier(s, steps, l.operator, u.commits[..l.seen]);
  }

  lemma {:induction false} RunTraced(now: int, sources: seq<bool>, steps: seq<Step>)
    requires Runs(Init(now, sources), steps)
    ensures Traced(Init(now, sources), steps, After(Init(now, sources), steps))
    decreases |steps|
  {
    if steps != [] {
      var s, before := Init(now, sources), steps[..|steps| - 1];
      RunsLast(s, steps);
      RunTraced(now, sources, before);
      TracedNext(s, steps, After(s, before));
    }
  }

  // ---------------------------------------------------------------- the promises

  lemma InitGood(now: int, sources: seq<bool>)
    ensures Good(Init(now, sources))
  {
  }

  /** Over every interleaving: what the cache holds for an operator is its latest commit, made
      by one lookup that was entitled to it. */
  lemma CachedIsJustified(now: int, sources: seq<bool>, steps: seq<Step>, operator: Address)
    requires Runs(Init(now, sources), steps) && operator in After(Init(now, sources), steps).cache
    ensures var t := After(Init(now, sources), steps);
            var c := Last(t.commits, operator);
            && c.Some? && c.value in t.commits && c.value.operator == operator && Justified(sources, c.value)
            && t.cache[operator] == Entry(c.value.alias, c.value.at)
  {
    var t := After(Init(now, sources), steps);
    InitGood(now, sources);
    RunGood(Init(now, sources), steps);
    LastIn(t.commits, operator);
    assert Cached(t.cache, operator) == AsEntry(Last(t.commits, operator));
  }

  /** Every alias ever returned is such a commit: "no alias" is never made up from an
      incomplete view, not even by a fallback. One served as fresh was heard less than the
      time to live plus that lookup's duration before; one that was looked up is the commit
      its own lookup made at that moment; any other is the last one made before the step that
      began its lookup, so a fallback is the entry cached then. */
  lemma ServedIsJustified(now: int, sources: seq<bool>, steps: seq<Step>, k: nat)
    requires Runs(Init(now, sources), steps) && k < |After(Init(now, sources), steps).served|
    ensures var t := After(Init(now, sources), steps);
            var v := t.served[k];
            && v.seen <= |t.commits|
            && var c := Last(t.commits[..v.seen], v.operator);
            && c.Some? && c.value in t.commits && Justified(sources, c.value)
            && c.value.operator == v.operator && c.value.alias == v.alias
            && (v.how.FromCache? ==>
                  forall i :: 0 <= i < |c.value.heard| ==>
                    v.at - c.value.heard[i].at < CACHE_TTL + (c.value.at - c.value.began))
            && (v.how.LookedUp? ==> v.seen >= 1 && c.value == t.commits[v.seen - 1] && c.value.at == v.at)
            && (!v.how.LookedUp? ==> Began(Init(now, sources), steps, v.operator, t.commits[..v.seen]))
  {
    var t := After(Init(now, sources), steps);
    InitGood(now, sources);
    RunGood(Init(now, sources), steps);
    RunTraced(now, sources, steps);
    assert ServedOk(t.commits, t.served[k]) && ServedTraced(Init(now, sources), steps, t, t.served[k]);
    LastIn(t.commits[..t.served[k].seen], t.served[k].operator);
  }

  /** Only a finished lookup with a complete view writes the cache, and only its operator. */
  lemma CacheWrites(s: State, a: Step)
    requires Enabled(s, a)
    ensures a.Finish? && Outcome(s.lookups[a.id]).Some? ==>
              Fire(s, a).cache == s.cache[s.lookups[a.id].operator := Entry(Outcome(s.lookups[a.id]).value, s.now)]
    ensures !(a.Finish? && Outcome(s.lookups[a.id]).Some?) ==> Fire(s, a).cache == s.cache
  {
  }

  // ---------------------------------------------------------------- does the cache go back?

  /** When the answer that settled a committed lookup was heard. */
  function Decided(c: Commit): int {
    if c.heard == [] then c.began else c.heard[|c.heard| - 1].at
  }

  lemma DecidedWithin(sources: seq<bool>, c: Commit)
    requires Justified(sources, c)
    ensures c.began <= Decided(c) <= c.at
  {
  }

  /** When the answer that the cache holds for an operator was heard. */
  function AnswerTime(s: State, operator: Address): Option<int> {
    var c := Last(s.commits, operator);
    if c.Some? then Some(Decided(c.value)) else None
  }

  predicate NotOlder(before: Option<int>, after: Option<int>) {
    before.Some? ==> after.Some? && before.value <= after.value
  }

  /** At no step of the run the operator's cached answer is replaced by an older one. */
  predicate NeverBack(s: State, steps: seq<Step>, operator: Address)
    requires Runs(s, steps)
    decreases |steps|
  {
    steps == [] ||
    (&& NotOlder(AnswerTime(s, operator), AnswerTime(Fire(s, steps[0]), operator))
     && NeverBack(Fire(s, steps[0]), steps[1..], operator))
  }

  /** Commit i of the operator was made before commit j, by a lookup that heard its answer
      later. */
  predicate Overtakes(commits: seq<Commit>, operator: Address, i: nat, j: nat)
    requires i < j < |commits|
  {
    commits[i].operator == operator && commits[j].operator == operator && Decided(commits[i]) > Decided(commits[j])
  }

  ghost predicate NoneOvertakes(commits: seq<Commit>, operator: Address) {
    forall i, j :: 0 <= i < j < |commits| ==> !Overtakes(commits, operator, i, j)
  }

  lemma {:induction false} LastIsNewest(commits: seq<Commit>, operator: Address)
    requires NoneOvertakes(commits, operator)
    ensures forall i :: 0 <= i < |commits| && commits[i].operator == operator ==>
              Last(commits, operator).Some? && Decided(commits[i]) <= Decided(Last(commits, operator).value)
  {
    if commits != [] {
      var n := |commits| - 1;
      if commits[n].operator == operator {
        forall i | 0 <= i < n && commits[i].operator == operator ensures Decided(commits[i]) <= Decided(commits[n]) {
          assert !Overtakes(commits, operator, i, n);
        }
      } else {
        EarlierOvertakes(commits, operator);
        LastIsNewest(commits[..n], operator);
      }
    }
  }

  lemma EarlierOvertakes(commits: seq<Commit>, operator: Address)
    requires commits != []
    ensures NoneOvertakes(commits, operator) ==> NoneOvertakes(commits[..|commits| - 1], operator)
  {
    var before := commits[..|commits| - 1];
    forall i, j | 0 <= i < j < |before|
      ensures Overtakes(before, operator, i, j) == Overtakes(commits, operator, i, j)
    {
    }
  }

  /** One more commit is overtaken exactly when it replaces a cached answer heard later. */
  lemma CommitOvertakes(commits: seq<Commit>, c: Commit, operator: Address)
    ensures NoneOvertakes(commits + [c], operator) <==>
            && NoneOvertakes(commits, operator)
            && (c.operator == operator && Last(commits, operator).Some? ==>
                  Decided(Last(commits, operator).value) <= Decided(c))
  {
    var all, n := commits + [c], |commits|;
    assert all[..n] == commits;
    EarlierOvertakes(all, operator);
    LastIn(commits, operator);
    forall i, j | 0 <= i < j < n ensures Overtakes(all, operator, i, j) == Overtakes(commits, operator, i, j) {}
    if NoneOvertakes(commits, operator) { LastIsNewest(commits, operator); }
    forall i | 0 <= i < n
      ensures Overtakes(all, operator, i, n) <==>
              commits[i].operator == operator && c.operator == operator && Decided(commits[i]) > Decided(c)
    {
    }
  }

  /** At any step the cached answer goes back exactly when the step commits an answer that
      was heard before the cached one. */
  lemma StepOvertakes(s: State, a: Step, operator: Address)
    requires Enabled(s, a)
    ensures NoneOvertakes(Fire(s, a).commits, operator) <==>
            NoneOvertakes(s.commits, operator) && NotOlder(AnswerTime(s, operator), AnswerTime(Fire(s, a), operator))
  {
    StepCommits(s, a);
    if Fire(s, a).commits != s.commits {
      var c := CommitOf(s.lookups[a.id], Outcome(s.lookups[a.id]).value, s.now);
      CommitOvertakes(s.commits, c, operator);
      LastNext(s.commits, c, operator);
    }
  }

  lemma {:induction false} RunOvertakes(s: State, steps: seq<Step>, operator: Address)
    requires Runs(s, steps)
    ensures NoneOvertakes(After(s, steps).commits, operator) <==>
            NoneOvertakes(s.commits, operator) && NeverBack(s, steps, operator)
    decreases |steps|
  {
    if steps != [] {
      StepOvertakes(s, steps[0], operator);
      RunOvertakes(Fire(s, steps[0]), steps[1..], operator);
    }
  }

  /** Over every run the cached answer of an operator never goes back if and only if no commit
      for it was made by a lookup heard later and finished earlier than another one's. */
  lemma NeverBackExactly(now: int, sources: seq<bool>, steps: seq<Step>, operator: Address)
    requires Runs(Init(now, sources), steps)
    ensures NeverBack(Init(now, sources), steps, operator) <==>
            NoneOvertakes(After(Init(now, sources), steps).commits, operator)
  {
    RunOvertakes(Init(now, sources), steps, operator);
  }

  // ---------------------------------------------------------------- one lookup at a time

  predicate Idle(s: State, operator: Address) {
    forall id :: id in s.lookups ==> s.lookups[id].operator != operator
  }

  /** No lookup of the operator begins while another one for it is pending. */
  predicate OneAtATime(s: State, steps: seq<Step>, operator: Address)
    requires Runs(s, steps)
    decreases |steps|
  {
    steps == [] ||
    (&& (steps[0].Begin? && steps[0].operator == operator ==> Idle(s, operator))
     && OneAtATime(Fire(s, steps[0]), steps[1..], operator))
  }

  /** At most one lookup of the operator is pending, and it began after every commit for it. */
  ghost predicate AloneIn(lookups: map<nat, Lookup>, commits: seq<Commit>, operator: Address) {
    && (forall a, b ::
          a in lookups && b in lookups && lookups[a].operator == lookups[b].operator == operator ==> a == b)
    && (forall id :: id in lookups && lookups[id].operator == operator ==>
          Follows(commits, operator, lookups[id].began))
  }

  ghost predicate Follows(commits: seq<Commit>, operator: Address, began: int) {
    forall i :: 0 <= i < |commits| && commits[i].operator == operator ==> commits[i].at <= began
  }

  ghost predicate Alone(s: State, operator: Address) {
    AloneIn(s.lookups, s.commits, operator)
  }

  lemma AloneBegun(lookups: map<nat, Lookup>, commits: seq<Commit>, operator: Address, id: nat, l: Lookup)
    requires AloneIn(lookups, commits, operator) && id !in lookups
    requires l.operator == operator ==>
               Follows(commits, operator, l.began) && forall i :: i in lookups ==> lookups[i].operator != operator
    ensures AloneIn(lookups[id := l], commits, operator)
  {
  }

  lemma AloneHeard(lookups: map<nat, Lookup>, commits: seq<Commit>, operator: Address, id: nat, l: Lookup)
    requires AloneIn(lookups, commits, operator) && id in lookups
    requires l.operator == lookups[id].operator && l.began == lookups[id].began
    ensures AloneIn(lookups[id := l], commits, operator)
  {
  }

  lemma AloneEnded(lookups: map<nat, Lookup>, commits: seq<Commit>, operator: Address, id: nat, c: Commit)
    requires AloneIn(lookups, commits, operator) && id in lookups && c.operator == lookups[id].operator
    ensures AloneIn(lookups - {id}, commits, operator) && AloneIn(lookups - {id}, commits + [c], operator)
  {
  }

  lemma CommitsBefore(s: State, operator: Address)
    requires Good(s)
    ensures Follows(s.commits, operator, s.now)
  {
  }

  lemma StepAlone(s: State, a: Step, operator: Address)
    requires Good(s) && Enabled(s, a) && Alone(s, operator)
    requires a.Begin? && a.operator == operator ==> Idle(s, operator)
    ensures Alone(Fire(s, a), operator)
  {
    match a
    case Tick(_) =>
    case Begin(id, op) =>
      CommitsBefore(s, operator);
      AloneBegun(s.lookups, s.commits, operator, id, Lookup(op, Cached(s.cache, op), |s.commits|, s.now, []));
    case Hear(id, answer) =>
      var l := s.lookups[id];
      AloneHeard(s.lookups, s.commits, operator, id, l.(heard := l.heard + [Heard(answer, s.now)]));
    case Finish(id) =>
      var l := s.lookups[id];
      AloneEnded(s.lookups, s.commits, operator, id,
        CommitOf(l, if Outcome(l).Some? then Outcome(l).value else NO_ALIAS, s.now));
  }

  lemma AloneNotOlder(s: State, a: Step, operator: Address)
    requires Good(s) && Enabled(s, a) && Alone(s, operator)
    ensures NotOlder(AnswerTime(s, operator), AnswerTime(Fire(s, a), operator))
  {
    StepCommits(s, a);
    if Fire(s, a).commits != s.commits {
      var l := s.lookups[a.id];
      var c := CommitOf(l, Outcome(l).value, s.now);
      assert LookupOk(s, l);
      CommitJustified(s, l);
      DecidedWithin(s.sources, c);
      LastNext(s.commits, c, operator);
      LastIn(s.commits, operator);
      if l.operator == operator && Last(s.commits, operator).Some? {
        var i :| 0 <= i < |s.commits| && s.commits[i] == Last(s.commits, operator).value &&
            s.commits[i].operator == operator;
        DecidedWithin(s.sources, s.commits[i]);
      }
    }
  }

  lemma {:induction false} AloneNeverBack(s: State, steps: seq<Step>, operator: Address)
    requires Good(s) && Runs(s, steps) && Alone(s, operator) && OneAtATime(s, steps, operator)
    ensures NeverBack(s, steps, operator)
    decreases |steps|
  {
    if steps != [] {
      StepGood(s, steps[0]);
      StepAlone(s, steps[0], operator);
      AloneNotOlder(s, steps[0], operator);
      AloneNeverBack(Fire(s, steps[0]), steps[1..], operator);
    }
  }

  /** If an operator's lookups never overlap, its cached answer never goes back. */
  lemma SequentialNeverBack(now: int, sources: seq<bool>, steps: seq<Step>, operator: Address)
    requires Runs(Init(now, sources), steps) && OneAtATime(Init(now, sources), steps, operator)
    ensures NeverBack(Init(now, sources), steps, operator)
  {
    InitGood(now, sources);
    AloneNeverBack(Init(now, sources), steps, operator);
  }

  // ---------------------------------------------------------------- it can, with any bound source

  /** The first bound source is at p. */
  predicate FirstBound(sources: seq<bool>, p: nat) {
    p < |sources| && sources[p] && forall i :: 0 <= i < p ==> !sources[i]
  }

  /** A lookup that has so far passed over unbound sources only. */
  predicate Unanswered(l: Lookup) {
    forall i :: 0 <= i < |l.heard| ==> l.heard[i].answer == Unbound
  }

  lemma OutcomeOf(l: Lookup, x: Address, at: int)
    requires Unanswered(l) && x != NO_ALIAS
    ensures Outcome(l.(heard := l.heard + [Heard(Answered(x), at)])) == Some(x)
  {
    var heard := l.heard + [Heard(Answered(x), at)];
    var answers := Answers(heard);
    forall i | 0 <= i < |heard| ensures answers[i] == heard[i].answer { AnswersAt(heard, i); }
    assert Decisive(answers[|l.heard|]);
    ConcludesAlias(answers);
    assert forall i :: 0 <= i < |answers| && answers[i].Answered? ==> answers[i] == Answered(x);
  }

  /** Lookup l once the first bound source has answered x. */
  ghost predicate Asked(l: Lookup, l': Lookup, x: Address, at: int) {
    && l'.operator == l.operator && l'.began == l.began && l'.entry == l.entry && l'.heard != []
    && l'.heard[|l'.heard| - 1] == Heard(Answered(x), at) && Outcome(l') == Some(x)
  }

  lemma {:induction false} Ask(s: State, id: nat, p: nat, x: Address) returns (steps: seq<Step>, l: Lookup)
    requires id in s.lookups && Unanswered(s.lookups[id]) && |s.lookups[id].heard| <= p && FirstBound(s.sources, p)
    requires 0 <= s.now - s.lookups[id].began <= LOOKUP_TIMEOUT && x != NO_ALIAS
    ensures Runs(s, steps) && After(s, steps) == s.(lookups := s.lookups[id := l])
    ensures Asked(s.lookups[id], l, x, s.now) && Settled(s, l)
    decreases p - |s.lookups[id].heard|
  {
    var was := s.lookups[id];
    if |was.heard| == p {
      l := was.(heard := was.heard + [Heard(Answered(x), s.now)]);
      steps := [Hear(id, Answered(x))];
      OutcomeOf(was, x, s.now);
      OneStep(s, steps[0]);
    } else {
      OneStep(s, Hear(id, Unbound));
      var t := Fire(s, Hear(id, Unbound));
      var rest;
      rest, l := Ask(t, id, p, x);
      steps := [Hear(id, Unbound)] + rest;
      RunsConcat(s, [Hear(id, Unbound)], rest);
      assert t.(lookups := t.lookups[id := l]) == s.(lookups := s.lookups[id := l]);
    }
  }

  /** A lookup begun, asked and left unfinished. */
  lemma BeginAndAsk(s: State, id: nat, operator: Address, p: nat, x: Address) returns (steps: seq<Step>, t: State)
    requires id !in s.lookups && operator !in s.cache && FirstBound(s.sources, p) && x != NO_ALIAS
    ensures Runs(s, steps) && After(s, steps) == t
    ensures id in t.lookups && t == s.(lookups := s.lookups[id := t.lookups[id]])
    ensures var l := t.lookups[id];
            && l.operator == operator && l.heard != [] && l.heard[|l.heard| - 1] == Heard(Answered(x), s.now)
            && Outcome(l) == Some(x) && Settled(t, l)
  {
    OneStep(s, Begin(id, operator));
    var s1 := Fire(s, Begin(id, operator));
    var rest, l := Ask(s1, id, p, x);
    steps := [Begin(id, operator)] + rest;
    RunsConcat(s, [Begin(id, operator)], rest);
    t := s1.(lookups := s1.lookups[id := l]);
    assert t == s.(lookups := s.lookups[id := l]);
  }

  /** Finishing a lookup commits what it heard, when it heard it. */
  lemma FinishCommits(s: State, id: nat, x: Address)
    requires id in s.lookups && Settled(s, s.lookups[id]) && Outcome(s.lookups[id]) == Some(x)
    ensures Enabled(s, Finish(id))
    ensures var l, t := s.lookups[id], Fire(s, Finish(id));
            && t.lookups == s.lookups - {id} && t.sources == s.sources && t.now == s.now
            && t.cache == s.cache[l.operator := Entry(x, s.now)]
            && Last(t.commits, l.operator) == Some(CommitOf(l, x, s.now))
  {
    LastNext(s.commits, CommitOf(s.lookups[id], x, s.now), s.lookups[id].operator);
  }

  /** Two lookups for the operator, begun and asked one tick apart and both unfinished. */
  lemma TwoAsked(now: int, sources: seq<bool>, operator: Address, p: nat, x: Address, y: Address)
    returns (steps: seq<Step>, s: State)
    requires FirstBound(sources, p) && x != NO_ALIAS && y != NO_ALIAS
    ensures Runs(Init(now, sources), steps) && After(Init(now, sources), steps) == s && s.now == now + 1
    ensures AskedBy(s, 0, operator, x, now) && AskedBy(s, 1, operator, y, now + 1)
  {
    var s0 := Init(now, sources);
    var first, s1 := BeginAndAsk(s0, 0, operator, p, x);
    OneStep(s1, Tick(1));
    RunsConcat(s0, first, [Tick(1)]);
    var s2 := Fire(s1, Tick(1));
    var second;
    second, s := BeginAndAsk(s2, 1, operator, p, y);
    RunsConcat(s0, first + [Tick(1)], second);
    steps := first + [Tick(1)] + second;
  }

  /** Lookup id is pending, and the operator's first bound source has told it x at the time. */
  ghost predicate AskedBy(s: State, id: nat, operator: Address, x: Address, at: int) {
    && id in s.lookups && s.lookups[id].operator == operator && s.lookups[id].heard != []
    && s.lookups[id].heard[|s.lookups[id].heard| - 1] == Heard(Answered(x), at)
    && Outcome(s.lookups[id]) == Some(x) && Settled(s, s.lookups[id])
  }

  /** Finishing such a lookup caches what it heard. */
  lemma FinishAsked(s: State, id: nat, operator: Address, x: Address, at: int)
    requires AskedBy(s, id, operator, x, at)
    ensures Enabled(s, Finish(id))
    ensures var t := Fire(s, Finish(id));
            && Cached(t.cache, operator) == Some(Entry(x, s.now)) && AnswerTime(t, operator) == Some(at)
            && t.now == s.now
            && forall j, z, h :: j != id && AskedBy(s, j, operator, z, h) ==> AskedBy(t, j, operator, z, h)
  {
    FinishCommits(s, id, x);
  }

  /** A lookup that began earlier may commit later: the cache then holds the older answer,
      stamped with the later time. */
  lemma OlderOverwritesNewer(now: int, sources: seq<bool>, operator: Address, p: nat, x: Address, y: Address)
    returns (steps: seq<Step>, s: State)
    requires FirstBound(sources, p) && x != NO_ALIAS && y != NO_ALIAS
    ensures Runs(Init(now, sources), steps) && After(Init(now, sources), steps) == s
    ensures Cached(s.cache, operator) == Some(Entry(y, now + 1)) && AnswerTime(s, operator) == Some(now + 1)
    ensures Enabled(s, Finish(0))
    ensures var t := Fire(s, Finish(0));
            Cached(t.cache, operator) == Some(Entry(x, now + 1)) && AnswerTime(t, operator) == Some(now)
  {
    var asked, u := TwoAsked(now, sources, operator, p, x, y);
    FinishAsked(u, 1, operator, y, now + 1);
    OneStep(u, Finish(1));
    RunsConcat(Init(now, sources), asked, [Finish(1)]);
    steps, s := asked + [Finish(1)], Fire(u, Finish(1));
    FinishAsked(s, 0, operator, x, now);
  }

  lemma {:induction false} NeverBackSplit(s: State, a: seq<Step>, b: seq<Step>, operator: Address)
    requires Runs(s, a) && Runs(After(s, a), b) && Runs(s, a + b) && NeverBack(s, a + b, operator)
    ensures NeverBack(After(s, a), b, operator)
    decreases |a|
  {
    if a == [] {
      assert a + b == b;
    } else {
      assert (a + b)[1..] == a[1..] + b;
      NeverBackSplit(Fire(s, a[0]), a[1..], b, operator);
    }
  }

  ghost predicate CanGoBack(now: int, sources: seq<bool>, operator: Address) {
    exists steps :: Runs(Init(now, sources), steps) && !NeverBack(Init(now, sources), steps, operator)
  }

  lemma JustifiedBound(sources: seq<bool>, c: Commit)
    requires Justified(sources, c)
    ensures exists i :: 0 <= i < |sources| && sources[i]
  {
    var i :| 0 <= i < |c.heard| && c.heard[i].answer.Answered?;
    assert sources[i];
  }

  /** Without a bound source nothing is ever committed. */
  lemma UnboundNeverCommits(now: int, sources: seq<bool>, steps: seq<Step>, operator: Address)
    requires Runs(Init(now, sources), steps) && forall i :: 0 <= i < |sources| ==> !sources[i]
    ensures NeverBack(Init(now, sources), steps, operator)
  {
    var t := After(Init(now, sources), steps);
    InitGood(now, sources);
    RunGood(Init(now, sources), steps);
    NeverBackExactly(now, sources, steps, operator);
    if t.commits != [] { JustifiedBound(sources, t.commits[0]); }
  }

  lemma {:induction false} FirstBoundExists(sources: seq<bool>, n: nat) returns (p: nat)
    requires n < |sources| && sources[n]
    ensures FirstBound(sources, p)
    decreases n
  {
    if i: int :| 0 <= i < n && sources[i] { p := FirstBoundExists(sources, i); } else { p := n; }
  }

  /** So overlapping lookups can put an older answer back if and only if some source is
      bound. */
  lemma GoesBackExactly(now: int, sources: seq<bool>, operator: Address)
    ensures CanGoBack(now, sources, operator) <==> exists i :: 0 <= i < |sources| && sources[i]
  {
    if i :| 0 <= i < |sources| && sources[i] {
      var p := FirstBoundExists(sources, i);
      var steps, s := OlderOverwritesNewer(now, sources, operator, p, 1, 2);
      OneStep(s, Finish(0));
      RunsConcat(Init(now, sources), steps, [Finish(0)]);
      if NeverBack(Init(now, sources), steps + [Finish(0)], operator) {
        NeverBackSplit(Init(now, sources), steps, [Finish(0)], operator);
      }
      assert !NeverBack(Init(now, sources), steps + [Finish(0)], operator);
    } else {
      forall steps | Runs(Init(now, sources), steps) ensures NeverBack(Init(now, sources), steps, operator) {
        UnboundNeverCommits(now, sources, steps, operator);
      }
    }
  }
}
