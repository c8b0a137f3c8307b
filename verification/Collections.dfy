/** What several modules need of values. */
module Collections {

  datatype Option<T> = None | Some(value: T)

  /** Characters stand for bytes. */
  type Bytes = seq<char>

  ghost predicate Distinct<T>(s: seq<T>) {
    forall i, j :: 0 <= i < j < |s| ==> s[i] != s[j]
  }

  lemma SubsetCard<T>(a: set<T>, b: set<T>)
    requires a <= b
    ensures |a| <= |b|
  {
    assert b == a + (b - a);
  }

  lemma Assoc<T>(a: seq<T>, b: seq<T>, c: seq<T>)
    ensures (a + b) + c == a + (b + c)
  {
  }

  /** The first element of `v` moved behind `before`. */
  lemma Regroup<T>(before: seq<T>, v: seq<T>)
    requires v != []
    ensures before + [v[0]] + v[1..] == before + v
  {
  }
}
