/** What a loop of "read the mark; if it is missing or unreadable, do the job and mark it" does
    as a function of its fault script. */
module MarkerReads {
  import opened KeyStore

  /** The marked jobs; for every job, the operations that doing and marking it takes and
      whether it can be done at all. */
  datatype Plan = Plan(marked: set<nat>, ops: seq<nat>, can: seq<bool>)

  ghost predicate Valid(p: Plan) {
    |p.ops| == |p.can|
  }

  /** The job is done and marked if and only if it can be and none of its operations fails. */
  ghost predicate Performed(ops: nat, can: bool, faults: Faults, faults': Faults, ok: bool) {
    && (ok <==> can && !FailsWithin(faults, ops))
    && (ok ==> faults' == Dropped(faults, ops))
    && (Unfailing(faults) ==> Unfailing(faults'))
  }

  /** Doing it takes n operations, and marking it one more. */
  lemma PerformedNext(faults: Faults, n: nat, can: bool)
    ensures !(can && !FailsWithin(faults, n)) ==> !(can && !FailsWithin(faults, n + 1))
    ensures var left := Dropped(faults, n);
            can && !FailsWithin(faults, n) ==> Performed(n + 1, can, faults, After(left), !Failing(left))
  {
    DroppedNext(faults, n);
    if Unfailing(faults) { UnfailingLater(faults, n + 1); }
  }

  /** One turn: the job is done if and only if its mark is missing or the read of it fails, and
      it succeeds if and only if it can be done and none of its operations fails. */
  ghost predicate Scripted(marked: bool, ops: nat, can: bool, faults: Faults, faults': Faults, ok: bool, ran: bool) {
    && (ran <==> Failing(faults) || !marked)
    && (!ran ==> ok && faults' == After(faults))
    && (ran ==> Performed(ops, can, After(faults), faults', ok))
  }

  /** The operations before turn i, if no turn before was cut short or misread its mark. */
  function ReadAt(p: Plan, i: nat): nat
    requires i <= |p.ops|
  {
    if i == 0 then 0 else ReadAt(p, i - 1) + 1 + if i - 1 in p.marked then 0 else p.ops[i - 1]
  }

  /** Turn i does what it should: a mark that is there is read, another job is done and marked.
      The failed read of a missing mark makes no difference. */
  ghost predicate GoesThrough(p: Plan, faults: Faults, i: nat)
    requires Valid(p) && i < |p.ops|
  {
    if i in p.marked then !FailsAt(faults, ReadAt(p, i))
    else p.can[i] && !FailsWithin(Dropped(faults, ReadAt(p, i) + 1), p.ops[i])
  }

  ghost predicate Reaches(p: Plan, faults: Faults, i: nat)
    requires Valid(p) && i <= |p.ops|
  {
    forall j: nat :: j < i ==> GoesThrough(p, faults, j)
  }

  /** Turn i is reached, and the read of a mark that is there fails. */
  ghost predicate MisreadAt(p: Plan, faults: Faults, i: nat)
    requires Valid(p)
  {
    i < |p.ops| && i in p.marked && Reaches(p, faults, i) && FailsAt(faults, ReadAt(p, i))
  }

  /** A mark is misread if and only if the script makes a read fail that is reached and whose
      mark is there; otherwise the loop succeeds if and only if every turn goes through. */
  ghost predicate Decided(p: Plan, faults: Faults, ok: bool, misread: set<nat>)
    requires Valid(p)
  {
    && (misread != {} <==> exists i :: MisreadAt(p, faults, i))
    && (misread == {} ==> (ok <==> Reaches(p, faults, |p.ops|)))
  }

  lemma MisreadOnce(p: Plan, faults: Faults, i: nat, j: nat)
    requires Valid(p) && i <= |p.ops| && Reaches(p, faults, i) && MisreadAt(p, faults, j)
    ensures i <= j && (i < j ==> GoesThrough(p, faults, i))
  {
    assert !GoesThrough(p, faults, j);
  }

  /** Turns 0 to i: nothing was misread and the script is used up to the next read, or some
      mark was misread. */
  ghost predicate Tracked(p: Plan, faults0: Faults, i: nat, faults: Faults, misread: set<nat>)
    requires Valid(p) && i <= |p.ops|
  {
    if misread == {} then Reaches(p, faults0, i) && faults == Dropped(faults0, ReadAt(p, i))
    else exists j :: MisreadAt(p, faults0, j)
  }

  /** A turn that is as planned, unless something was misread before. */
  ghost predicate Planned(p: Plan, i: nat, marked: bool, ops: nat, can: bool, misread: set<nat>)
    requires Valid(p) && i < |p.ops|
  {
    misread == {} ==> (marked <==> i in p.marked) && ops == p.ops[i] && can == p.can[i]
  }

  lemma TrackedNext(p: Plan, faults0: Faults, i: nat, faults: Faults, misread: set<nat>, again: set<nat>, marked: bool,
                    ops: nat, can: bool, faults': Faults, ran: bool)
    requires Valid(p) && i < |p.ops| && Tracked(p, faults0, i, faults, misread)
    requires Planned(p, i, marked, ops, can, misread) && Scripted(marked, ops, can, faults, faults', true, ran)
    requires misread == {} ==> (again == {} <==> !(ran && marked))
    requires misread <= again
    ensures Tracked(p, faults0, i + 1, faults', again)
  {
    if misread == {} {
      DroppedNext(faults0, ReadAt(p, i));
      if again == {} {
        if ran { DroppedTwice(faults0, ReadAt(p, i) + 1, ops); }
        assert GoesThrough(p, faults0, i);
      } else {
        assert MisreadAt(p, faults0, i);
      }
    }
  }

  lemma TrackedStops(p: Plan, faults0: Faults, i: nat, faults: Faults, misread: set<nat>, again: set<nat>, marked: bool,
                     ops: nat, can: bool, faults': Faults, ran: bool)
    requires Valid(p) && i < |p.ops| && Tracked(p, faults0, i, faults, misread)
    requires Planned(p, i, marked, ops, can, misread) && Scripted(marked, ops, can, faults, faults', false, ran)
    requires misread == {} ==> (again == {} <==> !(ran && marked))
    requires misread <= again
    ensures Decided(p, faults0, false, again)
  {
    if misread == {} {
      DroppedNext(faults0, ReadAt(p, i));
      if again == {} {
        assert !GoesThrough(p, faults0, i);
        forall j | MisreadAt(p, faults0, j) ensures false { MisreadOnce(p, faults0, i, j); }
      } else {
        assert MisreadAt(p, faults0, i);
      }
    }
  }

  lemma TrackedEnds(p: Plan, faults0: Faults, faults: Faults, misread: set<nat>)
    requires Valid(p) && Tracked(p, faults0, |p.ops|, faults, misread)
    ensures Decided(p, faults0, true, misread)
  {
    if misread == {} {
      forall i | MisreadAt(p, faults0, i) ensures false { MisreadOnce(p, faults0, |p.ops|, i); }
    }
  }
}
