/** The JavaScript array and object built-ins the stores are written with,
    as functions on values. */
module JsBuiltins {
  import opened Outcomes

  /** `Array.prototype.findIndex`: the index of the first element satisfying `p`;
      `None` stands for the -1 it returns when there is none. */
  function FindIndex<T>(s: seq<T>, p: T -> bool): (r: Option<nat>)
    ensures r.Some? ==> r.value < |s| && p(s[r.value])
    ensures r.Some? ==> forall j :: 0 <= j < r.value ==> !p(s[j])
    ensures r.None? ==> forall j :: 0 <= j < |s| ==> !p(s[j])
  {
    if |s| == 0 then None
    else if p(s[0]) then Some(0)
    else match FindIndex(s[1..], p)
      case None => None
      case Some(i) => Some(i + 1)
  }

  /** `Array.prototype.indexOf` with strict equality: the first position of `x`. */
  function IndexOf<T(==)>(s: seq<T>, x: T): (r: Option<nat>)
    ensures r.Some? <==> x in s
    ensures r.Some? ==> r.value < |s| && s[r.value] == x && x !in s[..r.value]
  {
    FindIndex(s, y => y == x)
  }

  /** `s.splice(i, 1)`: the array without its element at `i`; the others keep their order. */
  function RemoveAt<T>(s: seq<T>, i: nat): (r: seq<T>)
    requires i < |s|
    ensures |r| == |s| - 1
    ensures forall j :: 0 <= j < i ==> r[j] == s[j]
    ensures forall j :: i <= j < |r| ==> r[j] == s[j + 1]
    ensures multiset(r) + multiset{s[i]} == multiset(s)
  {
    assert s == s[..i] + [s[i]] + s[i + 1..];
    s[..i] + s[i + 1..]
  }

  /** No value occurs twice. */
  predicate Distinct<T(==)>(s: seq<T>) {
    forall i, j :: 0 <= i < j < |s| ==> s[i] != s[j]
  }

  /** Pushing a value that is not yet present and then splicing out its first
      occurrence gives back the original array. */
  lemma RemoveAppended<T>(s: seq<T>, x: T)
    requires x !in s
    ensures IndexOf(s + [x], x) == Some(|s|)
    ensures RemoveAt(s + [x], |s|) == s
  {
    assert (s + [x])[|s|] == x;
    assert forall j :: 0 <= j < |s| ==> (s + [x])[j] == s[j];
    assert (s + [x])[..|s|] == s;
  }

  /** Splicing out the first occurrence of `x` removes exactly one copy of it, so
      from an array without duplicates it removes `x` altogether, and the
      result still has no duplicates. */
  lemma RemoveFirstOccurrence<T>(s: seq<T>, x: T)
    requires x in s
    ensures multiset(RemoveAt(s, IndexOf(s, x).value))[x] == multiset(s)[x] - 1
    ensures Distinct(s) ==> x !in RemoveAt(s, IndexOf(s, x).value)
    ensures Distinct(s) ==> Distinct(RemoveAt(s, IndexOf(s, x).value))
  {
    var i := IndexOf(s, x).value;
    var r := RemoveAt(s, i);
    if Distinct(s) {
      forall k | 0 <= k < |r| ensures r[k] != x {
        if k < i { assert r[k] == s[k]; } else { assert r[k] == s[k + 1]; }
      }
      forall a, b | 0 <= a < b < |r| ensures r[a] != r[b] {
        var a' := if a < i then a else a + 1;
        var b' := if b < i then b else b + 1;
        assert r[a] == s[a'] && r[b] == s[b'] && a' < b';
      }
    }
  }

  /** The keys of `m` that lie in `[lo, hi)`. */
  ghost function KeysBetween<T>(m: map<int, T>, lo: int, hi: int): set<int> {
    set k | k in m && lo <= k < hi
  }

  /** `Object.values` on an object whose keys are integers in `[lo, hi)`:
      JavaScript lists integer keys in ascending order, so the values come out
      in key order, one per stored key. */
  function ValuesInKeyOrder<T>(m: map<int, T>, lo: int, hi: int): (r: seq<T>)
    ensures forall k :: lo <= k < hi && k in m ==> m[k] in r
    ensures forall i :: 0 <= i < |r| ==> exists k :: lo <= k < hi && k in m && m[k] == r[i]
    ensures |r| == |KeysBetween(m, lo, hi)|
    decreases hi - lo
  {
    if lo >= hi then
      assert KeysBetween(m, lo, hi) == {};
      []
    else
      var rest := ValuesInKeyOrder(m, lo + 1, hi);
      KeysBetweenStep(m, lo, hi);
      if lo in m then [m[lo]] + rest else rest
  }

  /** Where each key's value sits in the listing: after the values of all
      smaller keys in the range. So equal values under two keys are listed twice,
      each at its own key's place. */
  lemma {:induction false} ValuesAt<T>(m: map<int, T>, lo: int, hi: int, k: int)
    requires lo <= k < hi && k in m
    ensures |KeysBetween(m, lo, k)| < |ValuesInKeyOrder(m, lo, hi)|
    ensures ValuesInKeyOrder(m, lo, hi)[|KeysBetween(m, lo, k)|] == m[k]
    decreases hi - lo
  {
    if k == lo {
      assert KeysBetween(m, lo, k) == {};
    } else {
      ValuesAt(m, lo + 1, hi, k);
      KeysBetweenStep(m, lo, k);
    }
  }

  /** `ValuesAt` for every key of the range at once. */
  lemma ValuesInKeyOrderPositions<T>(m: map<int, T>, lo: int, hi: int)
    ensures forall k :: lo <= k < hi && k in m ==>
      |KeysBetween(m, lo, k)| < |ValuesInKeyOrder(m, lo, hi)| &&
      ValuesInKeyOrder(m, lo, hi)[|KeysBetween(m, lo, k)|] == m[k]
  {
    forall k | lo <= k < hi && k in m
      ensures |KeysBetween(m, lo, k)| < |ValuesInKeyOrder(m, lo, hi)|
      ensures ValuesInKeyOrder(m, lo, hi)[|KeysBetween(m, lo, k)|] == m[k]
    {
      ValuesAt(m, lo, hi, k);
    }
  }

  /** Splitting off the lowest key of the range. */
  lemma KeysBetweenStep<T>(m: map<int, T>, lo: int, hi: int)
    requires lo < hi
    ensures |KeysBetween(m, lo, hi)| == |KeysBetween(m, lo + 1, hi)| + (if lo in m then 1 else 0)
  {
    var upper := KeysBetween(m, lo + 1, hi);
    if lo in m {
      assert KeysBetween(m, lo, hi) == upper + {lo};
      assert lo !in upper;
    } else {
      assert KeysBetween(m, lo, hi) == upper;
    }
  }
}
