/** Moving a set of keys of one map to new names, in any number of steps. */
module KeyMoves {
  import opened KeyStore

  /** From each moved key to its destination. */
  type Moves = map<string, string>

  /** No two keys share a destination, and no destination is itself moved. */
  ghost predicate Clean(moves: Moves) {
    && (forall j, k :: j in moves && k in moves && moves[j] == moves[k] ==> j == k)
    && moves.Keys !! moves.Values
  }

  ghost function Origin(moves: Moves, d: string): (k: string)
    requires d in moves.Values
    ensures k in moves && moves[k] == d
  {
    var k :| k in moves && moves[k] == d; k
  }

  /** The store after every key of `moves` went to its destination. */
  ghost function Renamed<V>(kv: map<string, V>, moves: Moves): (r: map<string, V>)
    requires moves.Keys <= kv.Keys
    ensures r.Keys == kv.Keys - moves.Keys + moves.Values
  {
    map d | d in kv.Keys - moves.Keys + moves.Values ::
      if d in moves.Values then kv[Origin(moves, d)] else kv[d]
  }

  /** Key by key: a moved key is found, with its value, at its destination; every key that
      is neither moved nor a destination is as before. */
  lemma RenamedPointwise<V>(kv: map<string, V>, moves: Moves)
    requires moves.Keys <= kv.Keys && Clean(moves)
    ensures forall k :: k in moves ==>
              k !in Renamed(kv, moves) && moves[k] in Renamed(kv, moves) && Renamed(kv, moves)[moves[k]] == kv[k]
    ensures forall k :: k !in moves && k !in moves.Values ==>
              (k in Renamed(kv, moves) <==> k in kv) && (k in kv ==> Renamed(kv, moves)[k] == kv[k])
  {
  }

  lemma RenamedNothing<V>(kv: map<string, V>)
    ensures Renamed(kv, map[]) == kv
  {
  }

  lemma RenamedOne<V>(kv: map<string, V>, k: string, d: string)
    requires k in kv && k != d
    ensures Renamed(kv, map[k := d]) == Moved(kv, k, d)
  {
    var one := map[k := d];
    assert one[k] == d;
    assert one.Values == {d};
  }

  lemma BothValues(a: Moves, b: Moves)
    requires a.Keys !! b.Keys
    ensures (a + b).Values == a.Values + b.Values
  {
  }

  lemma CleanParts(a: Moves, b: Moves)
    requires a.Keys !! b.Keys && Clean(a + b)
    ensures Clean(a) && Clean(b) && a.Values !! b.Keys && b.Values !! a.Keys && a.Values !! b.Values
  {
  }

  lemma RenamedAt<V>(kv: map<string, V>, moves: Moves, k: string)
    requires moves.Keys <= kv.Keys && Clean(moves) && k in moves
    ensures moves[k] in Renamed(kv, moves) && Renamed(kv, moves)[moves[k]] == kv[k]
  {
  }

  /** Moving in two goes is moving in one. */
  lemma RenamedTwice<V>(kv: map<string, V>, a: Moves, b: Moves)
    requires a.Keys !! b.Keys && a.Keys + b.Keys <= kv.Keys && Clean(a + b)
    ensures b.Keys <= Renamed(kv, a).Keys
    ensures Renamed(Renamed(kv, a), b) == Renamed(kv, a + b)
  {
    BothValues(a, b);
    CleanParts(a, b);
    var mid, all := Renamed(kv, a), a + b;
    var two, one := Renamed(mid, b), Renamed(kv, all);
    forall d ensures d in two <==> d in one {}
    forall d | d in one ensures two[d] == one[d] {
      if d in b.Values {
        var k := Origin(b, d);
        assert all[k] == d;
        RenamedAt(kv, all, k);
      } else if d in a.Values {
        var k := Origin(a, d);
        assert all[k] == d;
        RenamedAt(kv, all, k);
      }
    }
  }

  /** Nothing is lost exactly when no destination was taken; otherwise each taken
      destination costs the row that was there. */
  lemma RenamedSize<V>(kv: map<string, V>, moves: Moves)
    requires moves.Keys <= kv.Keys && Clean(moves)
    ensures |Renamed(kv, moves)| == |kv| - |moves.Values * kv.Keys|
    ensures |Renamed(kv, moves)| == |kv| <==> moves.Values !! kv.Keys
  {
    ValuesCount(moves);
    assert |moves| == |moves.Keys| && |kv| == |kv.Keys|;
    assert |Renamed(kv, moves)| == |Renamed(kv, moves).Keys|;
    ExchangeCount(kv.Keys, moves.Keys, moves.Values);
  }

  /** Taking `out` from a set and putting an equally large `into` in costs what was there. */
  lemma ExchangeCount(all: set<string>, out: set<string>, into: set<string>)
    requires out <= all && out !! into && |out| == |into|
    ensures |all - out + into| == |all| - |into * all|
    ensures |into * all| == 0 <==> into !! all
  {
    var kept, added := all - out, into - all;
    assert all - out + into == kept + added;
    assert kept !! added;
    assert into == added + into * all;
    assert |into| == |added| + |into * all|;
    assert |kept| == |all| - |out|;
  }

  lemma {:induction false} ValuesCount(moves: Moves)
    requires Clean(moves)
    ensures |moves.Values| == |moves|
    decreases moves.Keys
  {
    if moves.Keys != {} {
      var k :| k in moves;
      var rest := moves - {k};
      ValuesCount(rest);
      forall d | d in moves.Values && d != moves[k] ensures d in rest.Values {
        assert rest[Origin(moves, d)] == d;
      }
      assert rest.Values == moves.Values - {moves[k]};
    } else {
      assert moves == map[];
    }
  }
}
