/** The derived `isGameover` flag that the store keeps in match metadata so
    that it can be queried, and its removal before metadata is handed back. */
module MatchData {
  import opened Values

  const IsGameoverKey := "isGameover"
  const GameoverKey := "gameover"

  /** `matchData.gameover !== undefined` */
  predicate HasGameover(m: Record)
  {
    Field(m, GameoverKey) != Undefined
  }

  /** `{ ...matchData, isGameover: matchData.gameover !== undefined }` */
  function Extend(m: Record): (r: Record)
    ensures IsGameoverKey in r && r[IsGameoverKey] == Bool(HasGameover(m))
    ensures r.Keys == m.Keys + {IsGameoverKey}
    ensures forall k :: k in m && k != IsGameoverKey ==> r[k] == m[k]
  {
    m[IsGameoverKey := Bool(HasGameover(m))]
  }

  /** `const { isGameover, ...matchData } = extendedMatchData` */
  function Standardise(m: Record): (r: Record)
    ensures r.Keys == m.Keys - {IsGameoverKey}
    ensures forall k :: k in r ==> r[k] == m[k]
  {
    m - {IsGameoverKey}
  }

  /** A pre-existing `isGameover` field has no influence on the result:
      the spread comes before the assignment, so the flag is always derived. */
  lemma ExtendOverridesFlag(m: Record, v: Value)
    ensures Extend(m[IsGameoverKey := v]) == Extend(m)
  {
    var a, b := Extend(m[IsGameoverKey := v]), Extend(m);
    assert HasGameover(m[IsGameoverKey := v]) == HasGameover(m);
    assert a.Keys == b.Keys;
  }

  /** Extending and then standardising gives back exactly the input less any
      `isGameover` field it carried. */
  lemma StandardiseUndoesExtend(m: Record)
    ensures Standardise(Extend(m)) == Standardise(m)
    ensures IsGameoverKey !in m ==> Standardise(Extend(m)) == m
  {
    assert Standardise(Extend(m)).Keys == Standardise(m).Keys;
    if IsGameoverKey !in m {
      assert Standardise(m).Keys == m.Keys;
    }
  }
}
