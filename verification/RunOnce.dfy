/** A list of jobs of which some are skipped, over any kind of rows. */
module RunOnce {

  /** The rows after the first n jobs, each done unless it is skipped. */
  ghost function Outcome<R>(skipped: set<nat>, rows: R, jobs: seq<R -> R>, n: nat): R
    requires n <= |jobs|
  {
    if n == 0 then rows
    else
      var before := Outcome(skipped, rows, jobs, n - 1);
      if n - 1 in skipped then before else jobs[n - 1](before)
  }

  ghost predicate UpTo(skipped: set<nat>, n: nat) {
    forall j: nat :: j < n ==> j in skipped
  }

  lemma {:induction false} OutcomeSkips<R>(skipped: set<nat>, rows: R, jobs: seq<R -> R>, n: nat)
    requires n <= |jobs| && UpTo(skipped, n)
    ensures Outcome(skipped, rows, jobs, n) == rows
  {
    if n > 0 { OutcomeSkips(skipped, rows, jobs, n - 1); }
  }

  /** Equal rows after i jobs and equal skips from there on: equal rows later. */
  lemma {:induction false} OutcomeAgrees<R>(a: set<nat>, b: set<nat>, x: R, y: R, jobs: seq<R -> R>, i: nat, n: nat)
    requires i <= n <= |jobs| && Outcome(a, x, jobs, i) == Outcome(b, y, jobs, i)
    requires forall j: nat :: i <= j < n ==> (j in a <==> j in b)
    ensures Outcome(a, x, jobs, n) == Outcome(b, y, jobs, n)
    decreases n
  {
    if i < n { OutcomeAgrees(a, b, x, y, jobs, i, n - 1); }
  }

  /** The first job that is not skipped. */
  lemma OutcomeFirst<R>(skipped: set<nat>, rows: R, jobs: seq<R -> R>, i: nat)
    requires i < |jobs| && UpTo(skipped, i) && i !in skipped
    ensures Outcome(skipped, rows, jobs, i + 1) == jobs[i](rows)
  {
    OutcomeSkips(skipped, rows, jobs, i);
  }

  /** Rows that leave that job the same work lead to the same outcome. */
  lemma OutcomeWork<R>(skipped: set<nat>, x: R, y: R, jobs: seq<R -> R>, i: nat)
    requires i < |jobs| && UpTo(skipped, i) && i !in skipped && jobs[i](x) == jobs[i](y)
    ensures Outcome(skipped, x, jobs, |jobs|) == Outcome(skipped, y, jobs, |jobs|)
  {
    OutcomeFirst(skipped, x, jobs, i);
    OutcomeFirst(skipped, y, jobs, i);
    OutcomeAgrees(skipped, skipped, x, y, jobs, i + 1, |jobs|);
  }

  /** Skipping a job that is done already changes nothing. */
  lemma OutcomeMark<R>(skipped: set<nat>, rows: R, jobs: seq<R -> R>, i: nat)
    requires i < |jobs| && UpTo(skipped, i) && Outcome(skipped, rows, jobs, i + 1) == rows
    ensures Outcome(skipped + {i}, rows, jobs, |jobs|) == Outcome(skipped, rows, jobs, |jobs|)
  {
    OutcomeSkips(skipped + {i}, rows, jobs, i + 1);
    OutcomeAgrees(skipped + {i}, skipped, rows, rows, jobs, i + 1, |jobs|);
  }

  /** Doing a skipped job again, at the point reached. */
  lemma OutcomeRedo<R>(skipped: set<nat>, again: set<nat>, rows: R, jobs: seq<R -> R>, i: nat)
    requires i < |jobs| && forall j: nat :: j < i ==> (j in skipped <==> j in again)
    ensures Outcome(again, rows, jobs, i + 1) ==
            var before := Outcome(skipped, rows, jobs, i);
            if i in again then before else jobs[i](before)
  {
    OutcomeAgrees(skipped, again, rows, rows, jobs, 0, i);
  }

  ghost predicate SameFrom(a: set<nat>, b: set<nat>, i: nat) {
    forall j: nat :: j >= i ==> (j in a <==> j in b)
  }

  /** Jobs 0 to i were looked at, starting from the marks and rows given first: they are all
      marked now, the other marks are as before, and the rows are those of doing what was not
      marked or is done again. */
  ghost predicate Advanced<R>(marked0: set<nat>, rows0: R, marked: set<nat>, rows: R, jobs: seq<R -> R>, i: nat,
                              again: set<nat>)
    requires i <= |jobs|
  {
    && again <= marked0 && (forall j :: j in again ==> j < i)
    && UpTo(marked, i) && SameFrom(marked, marked0, i)
    && rows == Outcome(marked0 - again, rows0, jobs, i)
  }

  lemma AdvancedStart<R>(marked: set<nat>, rows: R, jobs: seq<R -> R>)
    ensures Advanced(marked, rows, marked, rows, jobs, 0, {})
  {
  }

  /** The jobs done again when job i is done although it is marked. */
  function Redone(marked: set<nat>, i: nat, ran: bool): set<nat> {
    if ran && i in marked then {i} else {}
  }

  lemma AdvancedNext<R>(marked0: set<nat>, rows0: R, marked: set<nat>, rows: R, jobs: seq<R -> R>, i: nat,
                        again: set<nat>, ran: bool)
    requires i < |jobs| && Advanced(marked0, rows0, marked, rows, jobs, i, again) && (i !in marked ==> ran)
    ensures Advanced(marked0, rows0, marked + {i}, if ran then jobs[i](rows) else rows, jobs, i + 1,
                     again + Redone(marked, i, ran))
  {
    assert i in marked <==> i in marked0;
    OutcomeRedo(marked0 - again, marked0 - (again + Redone(marked, i, ran)), rows0, jobs, i);
  }

  lemma AdvancedStops<R>(marked0: set<nat>, rows0: R, marked: set<nat>, rows: R, jobs: seq<R -> R>, i: nat,
                         again: set<nat>, ran: bool)
    requires i < |jobs| && Advanced(marked0, rows0, marked, rows, jobs, i, again)
    ensures again + Redone(marked, i, ran) <= marked0
  {
    assert i in marked <==> i in marked0;
  }

  // ---------------------------------------------------------------- resuming

  function Total(counts: seq<nat>): nat {
    if counts == [] then 0 else counts[0] + Total(counts[1..])
  }

  /** effect(a, b, n, done): a run took a to b, reported n, and was complete when done. A run
      cut short and then completed is one complete run, and the reports add up. */
  ghost predicate Resumes<K(!new)>(effect: (K, K, nat, bool) -> bool) {
    forall a, b, c, m: nat, n: nat, done :: effect(a, b, m, done) && effect(b, c, n, true) ==> effect(a, c, m + n, true)
  }

  lemma ResumeOnce<K(!new)>(effect: (K, K, nat, bool) -> bool, a: K, b: K, c: K, m: nat, n: nat, done: bool)
    requires Resumes(effect) && effect(a, b, m, done) && effect(b, c, n, true)
    ensures effect(a, c, m + n, true)
  {
  }

  ghost predicate Chained<K>(effect: (K, K, nat, bool) -> bool, states: seq<K>, counts: seq<nat>, done: seq<bool>) {
    && |counts| == |done| >= 1 && |states| == |counts| + 1 && done[|done| - 1]
    && forall i :: 0 <= i < |counts| ==> effect(states[i], states[i + 1], counts[i], done[i])
  }

  /** Then so are any number of runs cut short, followed by a complete one. */
  lemma {:induction false} Series<K(!new)>(effect: (K, K, nat, bool) -> bool, states: seq<K>, counts: seq<nat>,
                                           done: seq<bool>)
    requires Resumes(effect) && Chained(effect, states, counts, done)
    ensures effect(states[0], states[|states| - 1], Total(counts), true)
    decreases |counts|
  {
    if |counts| == 1 {
      assert Total(counts) == counts[0] + 0;
    } else {
      var rest, m, d := states[1..], counts[1..], done[1..];
      forall i | 0 <= i < |m| ensures effect(rest[i], rest[i + 1], m[i], d[i]) {
        assert effect(states[i + 1], states[i + 2], counts[i + 1], done[i + 1]);
      }
      Series(effect, rest, m, d);
      var a, b, c := states[0], states[1], states[|states| - 1];
      assert effect(a, b, counts[0], done[0]);
      ResumeOnce(effect, a, b, c, counts[0], Total(m), done[0]);
    }
  }
}
