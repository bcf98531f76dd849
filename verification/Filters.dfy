/** A list that keeps some elements of another one, in order. */
module Filters {
  /** `list` holds, in order, exactly the elements from `n` on that are kept, and `at` their places. */
  ghost predicate Picks<T(!new)>(all: seq<T>, keep: T -> bool, n: nat, list: seq<T>, at: seq<nat>) {
    && |at| == |list| && (forall j, k | 0 <= j < k < |at| :: at[j] < at[k])
    && (forall k | 0 <= k < |at| :: n <= at[k] < |all| && list[k] == all[at[k]] && keep(list[k]))
    && forall i | n <= i < |all| && i !in at :: !keep(all[i])
  }

  lemma PicksOneMore<T(!new)>(all: seq<T>, keep: T -> bool, n: nat, list: seq<T>, at: seq<nat>)
    requires n < |all| && Picks(all, keep, n + 1, list, at)
    ensures !keep(all[n]) ==> Picks(all, keep, n, list, at)
    ensures keep(all[n]) ==> Picks(all, keep, n, [all[n]] + list, [n] + at)
  {
    var more := [n] + at;
    assert forall k | 0 < k < |more| :: more[k] == at[k - 1];
    assert forall i | i in at :: i in more;
    assert more[0] == n;
  }
}
