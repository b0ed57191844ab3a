/** Rewriting the values of some keys of a map in place, in any number of steps. */
module Rewrites {
  import opened Collections

  /** Which rows are to be rewritten, and into what. */
  datatype Rule<!V> = Rule(due: (string, V) -> bool, fix: V -> V)

  /** A rewritten row is not due again. */
  ghost predicate Settles<V(!new)>(rule: Rule<V>) {
    forall k, v :: rule.due(k, v) ==> !rule.due(k, rule.fix(v))
  }

  function DueKeys<V>(kv: map<string, V>, rule: Rule<V>): set<string> {
    set k | k in kv && rule.due(k, kv[k])
  }

  function Rewritten<V>(kv: map<string, V>, rule: Rule<V>, changed: set<string>): (r: map<string, V>)
    ensures r.Keys == kv.Keys
  {
    map k | k in kv :: if k in changed then rule.fix(kv[k]) else kv[k]
  }

  lemma RewrittenNothing<V>(kv: map<string, V>, rule: Rule<V>)
    ensures Rewritten(kv, rule, {}) == kv
  {
  }

  lemma RewrittenTwice<V>(kv: map<string, V>, rule: Rule<V>, a: set<string>, b: set<string>)
    requires a !! b
    ensures Rewritten(Rewritten(kv, rule, a), rule, b) == Rewritten(kv, rule, a + b)
  {
  }

  /** Rewriting due rows takes exactly those rows off the due list. */
  lemma DueAfter<V(!new)>(kv: map<string, V>, rule: Rule<V>, changed: set<string>)
    requires Settles(rule) && changed <= DueKeys(kv, rule)
    ensures DueKeys(Rewritten(kv, rule, changed), rule) == DueKeys(kv, rule) - changed
  {
  }

  /** kv' is kv with the rows `changed` rewritten: `count` due rows, all of them when done. */
  ghost predicate Applied<V>(kv: map<string, V>, kv': map<string, V>, rule: Rule<V>, changed: set<string>, count: nat,
                             done: bool) {
    && changed <= DueKeys(kv, rule)
    && kv' == Rewritten(kv, rule, changed)
    && count == |changed|
    && (done ==> changed == DueKeys(kv, rule))
  }

  /** Cut short anywhere and applied again: one application's result, and the counts add up. */
  lemma AppliedResumes<V(!new)>(kv: map<string, V>, mid: map<string, V>, end: map<string, V>, rule: Rule<V>,
      a: set<string>, b: set<string>, first: nat, second: nat, done: bool)
    requires Settles(rule) && Applied(kv, mid, rule, a, first, done) && Applied(mid, end, rule, b, second, true)
    ensures Applied(kv, end, rule, a + b, first + second, true)
    ensures done ==> end == mid && second == 0
  {
    DueAfter(kv, rule, a);
    RewrittenTwice(kv, rule, a, b);
    assert |a + b| == |a| + |b|;
    assert a + b == DueKeys(kv, rule);
    if done { assert b == {}; RewrittenNothing(mid, rule); }
  }

  /** A walk over a snapshot of the rows `keys`, with the first i of them dealt with. */
  ghost predicate Walked<V>(kv0: map<string, V>, kv: map<string, V>, rule: Rule<V>, keys: seq<string>, i: nat,
                            changed: set<string>, count: nat) {
    && i <= |keys|
    && Applied(kv0, kv, rule, changed, count, false)
    && Distinct(keys)
    && (forall j :: 0 <= j < |keys| ==> keys[j] in kv0)
    && (forall j :: i <= j < |keys| ==> kv[keys[j]] == kv0[keys[j]])
    && (forall j :: 0 <= j < i ==> !rule.due(keys[j], kv[keys[j]]))
  }

  lemma WalkStep<V(!new)>(kv0: map<string, V>, kv: map<string, V>, rule: Rule<V>, keys: seq<string>, i: nat,
    changed: set<string>, count: nat)
    requires Settles(rule) && Walked(kv0, kv, rule, keys, i, changed, count) && i < |keys|
    ensures !rule.due(keys[i], kv0[keys[i]]) ==> Walked(kv0, kv, rule, keys, i + 1, changed, count)
    ensures rule.due(keys[i], kv0[keys[i]]) ==>
              Walked(kv0, kv[keys[i] := rule.fix(kv0[keys[i]])], rule, keys, i + 1, changed + {keys[i]}, count + 1)
  {
  }

  /** A finished walk over all rows that can be due at all is a complete application. */
  lemma WalkDone<V(!new)>(kv0: map<string, V>, kv: map<string, V>, rule: Rule<V>, keys: seq<string>,
    changed: set<string>, count: nat)
    requires Settles(rule) && Walked(kv0, kv, rule, keys, |keys|, changed, count)
    requires forall k :: k in DueKeys(kv0, rule) ==> k in keys
    ensures Applied(kv0, kv, rule, changed, count, true)
  {
  }
}
