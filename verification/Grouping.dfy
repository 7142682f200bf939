/** Adding up by key: groups hold every row exactly once. */
module Grouping {
  import opened Totals
  import opened References

  function InGroup<R, K(==)>(key: R -> K, v: R -> real, k: K): R -> real {
    r => if key(r) == k then v(r) else 0.0
  }

  function GroupTotal<R, K(==)>(rows: seq<R>, key: R -> K, v: R -> real): K -> real {
    k => Total(rows, InGroup(key, v, k))
  }

  lemma {:induction false} PickedOnce<T>(xs: seq<T>, x: T, amount: real, f: T -> real)
    requires Distinct(xs) && (x in xs || amount == 0.0)
    requires forall y :: f(y) == if y == x then amount else 0.0
    ensures Total(xs, f) == amount
  {
    if x !in xs || amount == 0.0 {
      TotalConstant(xs, f, 0.0);
    } else {
      var front, last := xs[..|xs| - 1], xs[|xs| - 1];
      assert xs == front + [last];
      TotalSnoc(front, last, f);
      DistinctSnoc(front, last);
      if last == x {
        TotalConstant(front, f, 0.0);
      } else {
        PickedOnce(front, x, amount, f);
      }
    }
  }

  lemma GroupTotalStep<R, K>(rows: seq<R>, r: R, key: R -> K, v: R -> real, added: K -> real, k: K)
    requires forall j :: added(j) == if j == key(r) then v(r) else 0.0
    ensures GroupTotal(rows + [r], key, v)(k) == 1.0 * GroupTotal(rows, key, v)(k) + 1.0 * added(k)
  {
    TotalSnoc(rows, r, InGroup(key, v, k));
    hide Total;
  }

  lemma {:induction false} NoRowsInGroups<R, K>(keys: seq<K>, key: R -> K, v: R -> real)
    ensures Total(keys, GroupTotal([], key, v)) == 0.0 == Total([], v)
  {
    TotalConstant(keys, GroupTotal([], key, v), 0.0);
  }

  /** The totals of the groups add up to the total of the rows, if no row that counts lacks its group. */
  lemma {:induction false} GroupedTotals<R, K>(rows: seq<R>, keys: seq<K>, key: R -> K, v: R -> real)
    requires Distinct(keys) && forall r | r in rows :: key(r) in keys || v(r) == 0.0
    ensures Total(keys, GroupTotal(rows, key, v)) == Total(rows, v)
  {
    hide Distinct, GroupTotal, Total;
    if rows == [] {
      NoRowsInGroups(keys, key, v);
    } else {
      var front, r := rows[..|rows| - 1], rows[|rows| - 1];
      assert rows == front + [r];
      var added := k => if k == key(r) then v(r) else 0.0;
      GroupedTotals(front, keys, key, v);
      TotalSnoc(front, r, v);
      PickedOnce(keys, key(r), v(r), added);
      forall i | 0 <= i < |keys|
        ensures GroupTotal(rows, key, v)(keys[i]) == 1.0 * GroupTotal(front, key, v)(keys[i]) + 1.0 * added(keys[i])
      {
        GroupTotalStep(front, r, key, v, added, keys[i]);
      }
      TotalLinear(keys, GroupTotal(front, key, v), added, GroupTotal(rows, key, v), 1.0, 1.0);
    }
  }
}
