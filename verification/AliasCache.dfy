/** The operator alias resolver: a cache with a time to live over several fallible sources,
    looked up without holding the lock. Times are in milliseconds. */
module AliasCache {
  import opened Strings
  import opened HexAddress

  /** The zero address: the operator declared no alias. */
  const NO_ALIAS: Address := 0

  const CACHE_TTL := 300_000
  const LOOKUP_TIMEOUT := 10_000

  datatype Entry = Entry(alias: Address, fetchedAt: int)

  /** What one source says about an operator; a source without a contract is not asked. */
  datatype Answer = Unbound | Failed | Answered(alias: Address)

  datatype Result = Alias(alias: Address) | LookupError

  // ---------------------------------------------------------------- one lookup

  predicate Decisive(a: Answer) {
    a.Answered? && a.alias != NO_ALIAS
  }

  predicate AnyAnswered(answers: seq<Answer>) {
    exists i :: 0 <= i < |answers| && answers[i].Answered?
  }

  /** The first non-zero alias, or none. */
  function Found(answers: seq<Answer>): Address {
    if answers == [] then NO_ALIAS
    else if Decisive(answers[0]) then answers[0].alias
    else Found(answers[1..])
  }

  /** What a lookup lets the cache learn: nothing when the view is incomplete. */
  function Conclusion(answers: seq<Answer>): Option<Address> {
    if Found(answers) != NO_ALIAS then Some(Found(answers))
    else if Failed in answers || !AnyAnswered(answers) then None
    else Some(NO_ALIAS)
  }

  lemma {:induction false} FoundMeaning(answers: seq<Answer>)
    ensures Found(answers) == NO_ALIAS <==> forall i :: 0 <= i < |answers| ==> !Decisive(answers[i])
    ensures Found(answers) != NO_ALIAS ==> Answered(Found(answers)) in answers
  {
    if answers != [] {
      FoundMeaning(answers[1..]);
      assert answers == [answers[0]] + answers[1..];
      assert forall i :: 0 < i < |answers| ==> answers[1..][i - 1] == answers[i];
    }
  }

  /** No alias is concluded exactly when every source that is bound answered zero, and one
      did. */
  lemma ConcludesZero(answers: seq<Answer>)
    ensures Conclusion(answers) == Some(NO_ALIAS) <==>
            AnyAnswered(answers) && forall i :: 0 <= i < |answers| && !answers[i].Unbound? ==>
              answers[i] == Answered(NO_ALIAS)
  {
    FoundMeaning(answers);
  }

  /** An alias is concluded exactly when some source declared one. */
  lemma ConcludesAlias(answers: seq<Answer>)
    ensures Conclusion(answers).Some? && Conclusion(answers).value != NO_ALIAS <==>
            exists i :: 0 <= i < |answers| && Decisive(answers[i])
    ensures Conclusion(answers).Some? && Conclusion(answers).value != NO_ALIAS ==>
            Answered(Conclusion(answers).value) in answers
  {
    FoundMeaning(answers);
  }

  // ---------------------------------------------------------------- the code

  /** The source loop: it stops at the first declared alias. */
  method Consult(answers: seq<Answer>) returns (found: Address, anyOK: bool, anyErr: bool)
    ensures found == Found(answers)
    ensures found == NO_ALIAS ==> anyOK == AnyAnswered(answers) && anyErr == (Failed in answers)
    ensures found != NO_ALIAS ==> anyOK
  {
    found, anyOK, anyErr := NO_ALIAS, false, false;
    assert answers[0..] == answers;
    for i := 0 to |answers|
      invariant found == NO_ALIAS && Found(answers[i..]) == Found(answers)
      invariant anyOK == AnyAnswered(answers[..i]) && anyErr == (Failed in answers[..i])
    {
      assert answers[..i + 1] == answers[..i] + [answers[i]];
      assert answers[i..][1..] == answers[i + 1..];
      AnsweredNext(answers[..i], answers[i]);
      match answers[i] {
        case Unbound =>
        case Failed => anyErr := true;
        case Answered(alias) =>
          anyOK := true;
          if alias != NO_ALIAS { found := alias; return; }
      }
    }
    assert answers[..|answers|] == answers;
  }

  lemma AnsweredNext(answers: seq<Answer>, a: Answer)
    ensures AnyAnswered(answers + [a]) <==> AnyAnswered(answers) || a.Answered?
    ensures Failed in answers + [a] <==> Failed in answers || a == Failed
  {
    var all := answers + [a];
    assert all[|answers|] == a && forall i :: 0 <= i < |answers| ==> all[i] == answers[i];
  }

  predicate Fresh(e: Entry, now: int) {
    now - e.fetchedAt < CACHE_TTL
  }

  function Cached(cache: map<Address, Entry>, operator: Address): Option<Entry> {
    if operator in cache then Some(cache[operator]) else None
  }

  function StaleOr(entry: Option<Entry>): Result {
    if entry.Some? then Alias(entry.value.alias) else LookupError
  }

  class AliasResolver {
    var cache: map<Address, Entry>

    constructor ()
      ensures cache == map[]
    {
      cache := map[];
    }

    /** One call with nothing else running: a fresh entry is served; otherwise a complete
        lookup is served and cached, and an incomplete one falls back to the old entry. */
    method AliasFor(operator: Address, now: int, answers: seq<Answer>, finished: int) returns (r: Result)
      modifies this
      ensures var entry := Cached(old(cache), operator);
              if entry.Some? && Fresh(entry.value, now) then r == Alias(entry.value.alias) && cache == old(cache)
              else if Conclusion(answers).Some? then
                && r == Alias(Conclusion(answers).value)
                && cache == old(cache)[operator := Entry(Conclusion(answers).value, finished)]
              else r == StaleOr(entry) && cache == old(cache)
    {
      var entry := Cached(cache, operator);
      if entry.Some? && now - entry.value.fetchedAt < CACHE_TTL { return Alias(entry.value.alias); }
      if |answers| == 0 {
        if entry.Some? { return Alias(entry.value.alias); }
        return LookupError;
      }
      var found, anyOK, anyErr := Consult(answers);
      if found == NO_ALIAS && anyErr {
        if entry.Some? { return Alias(entry.value.alias); }
        return LookupError;
      }
      if !anyOK {
        if entry.Some? { return Alias(entry.value.alias); }
        return LookupError;
      }
      cache := cache[operator := Entry(found, finished)];
      r := Alias(found);
    }
  }

  // ---------------------------------------------------------------- start-up

  /** One attempt to bind an alias source. */
  datatype Attempt<S> = Attempt(name: string, source: S, ok: bool)

  function Bound<S>(attempts: seq<Attempt<S>>): seq<S> {
    if attempts == [] then []
    else
      var n := |attempts| - 1;
      Bound(attempts[..n]) + if attempts[n].ok then [attempts[n].source] else []
  }

  function Skipped<S>(attempts: seq<Attempt<S>>): seq<string> {
    if attempts == [] then []
    else
      var n := |attempts| - 1;
      Skipped(attempts[..n]) + if attempts[n].ok then [] else [attempts[n].name]
  }

  /** Start-up fails exactly when no attempt bound; otherwise every success is a source and
      every failure is reported as skipped. */
  method MergeAliasSources<S>(attempts: seq<Attempt<S>>) returns (sources: Option<seq<S>>, skipped: seq<string>)
    ensures sources.Some? <==> exists i :: 0 <= i < |attempts| && attempts[i].ok
    ensures sources.Some? ==> sources.value == Bound(attempts)
    ensures skipped == Skipped(attempts)
  {
    var found: seq<S> := [];
    skipped := [];
    for i := 0 to |attempts|
      invariant found == Bound(attempts[..i]) && skipped == Skipped(attempts[..i])
      invariant found != [] <==> exists j :: 0 <= j < i && attempts[j].ok
    {
      assert attempts[..i + 1][..i] == attempts[..i];
      if attempts[i].ok {
        found := found + [attempts[i].source];
      } else {
        skipped := skipped + [attempts[i].name];
      }
    }
    assert attempts[..|attempts|] == attempts;
    sources := if |found| == 0 then None else Some(found);
  }
}
