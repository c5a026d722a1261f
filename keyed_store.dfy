/** What the two keyed-map repositories share: `seed` is `create` applied to each
    payload in turn, storing each record under the next counter value. */
module KeyedStore {

  /** The map after `create` has stored `make(k, xs[k - next])` under each key
      `k` from `next` on, one payload at a time, in order. The keys are the old
      ones plus `next .. next + |xs| - 1`, and every record stored below `next`
      stays as it was. */
  function CreateAll<D, R>(m: map<int, R>, next: int, xs: seq<D>, make: (int, D) -> R): (r: map<int, R>)
    ensures forall k :: k in r <==> k in m || next <= k < next + |xs|
    ensures forall k :: k in m && k < next ==> r[k] == m[k]
    decreases |xs|
  {
    if xs == [] then m
    else CreateAll(m[next := make(next, xs[0])], next + 1, xs[1..], make)
  }

  /** Seeding one payload more stores it under the next key after the others. */
  lemma {:induction false} CreateAllSnoc<D, R>(m: map<int, R>, next: int, xs: seq<D>, x: D, make: (int, D) -> R)
    ensures CreateAll(m, next, xs + [x], make) == CreateAll(m, next, xs, make)[next + |xs| := make(next + |xs|, x)]
    decreases |xs|
  {
    if xs == [] {
      assert [x][1..] == [];
    } else {
      assert (xs + [x])[0] == xs[0] && (xs + [x])[1..] == xs[1..] + [x];
      CreateAllSnoc(m[next := make(next, xs[0])], next + 1, xs[1..], x, make);
    }
  }

  /** When every stored key is below the counter, seeding adds `|xs|` new keys,
      so the store grows by `|xs|`. */
  lemma {:induction false} CreateAllSize<D, R>(m: map<int, R>, next: int, xs: seq<D>, make: (int, D) -> R)
    requires forall k :: k in m ==> k < next
    ensures |CreateAll(m, next, xs, make)| == |m| + |xs|
    decreases |xs|
  {
    if xs != [] {
      assert next !in m;
      CreateAllSize(m[next := make(next, xs[0])], next + 1, xs[1..], make);
    }
  }

  /** The `i`-th payload is stored, built by `make`, under `next + i`. */
  lemma {:induction false} CreateAllAt<D, R>(m: map<int, R>, next: int, xs: seq<D>, make: (int, D) -> R, i: nat)
    requires i < |xs|
    ensures next + i in CreateAll(m, next, xs, make)
    ensures CreateAll(m, next, xs, make)[next + i] == make(next + i, xs[i])
    decreases i
  {
    var m' := m[next := make(next, xs[0])];
    if i == 0 {
      assert next in m' && next < next + 1;
    } else {
      CreateAllAt(m', next + 1, xs[1..], make, i - 1);
      assert xs[1..][i - 1] == xs[i];
    }
  }
}
