/**
 * The type registry as a map from commit-type name to description, and the
 * effect of inserting (name, description) pairs into it one after another
 * (`HashMap::insert`: a later pair with the same name replaces the earlier value).
 */
module TypeMap {

  type TypeTable = map<string, string>

  /** The names the pairs carry. */
  function Names(pairs: seq<(string, string)>): set<string>
  {
    set i | 0 <= i < |pairs| :: pairs[i].0
  }

  /** `pairs[i]` is the last pair that carries its name. */
  ghost predicate LastWithName(pairs: seq<(string, string)>, i: int)
    requires 0 <= i < |pairs|
  {
    forall j :: i < j < |pairs| ==> pairs[j].0 != pairs[i].0
  }

  /** The names of a sequence of pairs are those of its prefix plus the last one. */
  lemma NamesSnoc(pairs: seq<(string, string)>)
    requires pairs != []
    ensures Names(pairs) == Names(pairs[..|pairs| - 1]) + {pairs[|pairs| - 1].0}
  {
    var n := |pairs| - 1;
    assert forall i :: 0 <= i < n ==> pairs[..n][i] == pairs[i];
    assert pairs[n].0 in Names(pairs);
  }

  /** A pair that is last with its name stays so in every prefix that holds it. */
  lemma LastWithNamePrefix(pairs: seq<(string, string)>, i: int)
    requires 0 <= i < |pairs| - 1 && LastWithName(pairs, i)
    ensures LastWithName(pairs[..|pairs| - 1], i)
  {
  }

  /** The table `m` after inserting every pair of `pairs`, in order: the keys are the old ones and the pairs' names. */
  function InsertAll(m: TypeTable, pairs: seq<(string, string)>): (r: TypeTable)
    ensures r.Keys == m.Keys + Names(pairs)
  {
    if pairs == [] then m
    else
      var n := |pairs| - 1;
      NamesSnoc(pairs);
      InsertAll(m, pairs[..n])[pairs[n].0 := pairs[n].1]
  }

  /** Each name ends up with the value of the last pair that carries it. */
  lemma {:induction false} InsertAllLastWins(m: TypeTable, pairs: seq<(string, string)>, i: int)
    requires 0 <= i < |pairs| && LastWithName(pairs, i)
    ensures pairs[i].0 in InsertAll(m, pairs) && InsertAll(m, pairs)[pairs[i].0] == pairs[i].1
  {
    var n := |pairs| - 1;
    if i < n {
      LastWithNamePrefix(pairs, i);
      InsertAllLastWins(m, pairs[..n], i);
      assert pairs[..n][i] == pairs[i];
    }
  }

  /** A key that no pair names keeps its value. */
  lemma {:induction false} InsertAllKeepsOthers(m: TypeTable, pairs: seq<(string, string)>, k: string)
    requires k in m && k !in Names(pairs)
    ensures InsertAll(m, pairs)[k] == m[k]
  {
    if pairs != [] {
      var n := |pairs| - 1;
      NamesSnoc(pairs);
      InsertAllKeepsOthers(m, pairs[..n], k);
    }
  }
}
