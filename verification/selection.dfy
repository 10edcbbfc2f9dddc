/**
 * Index filtering, the `map((x, i) => keep ? i : -1).filter(i => i !== -1)`
 * and `filter((_, i) => ...)` idioms of the source, and picking elements by
 * index (`indices.map(i => s[i])`).
 */
module Selection {

  /** The indices below `n` that satisfy `keep`, in ascending order. */
  function Where(n: nat, keep: nat -> bool): (r: seq<nat>)
    ensures forall j :: 0 <= j < |r| ==> r[j] < n && keep(r[j])
    ensures forall i :: 0 <= i < n && keep(i) ==> i in r
    ensures Ascending(r)
    ensures |r| <= n
    decreases n
  {
    if n == 0 then []
    else
      var rest := Where(n - 1, keep);
      if keep(n - 1) then rest + [n - 1] else rest
  }

  /** Strictly increasing, hence duplicate-free and order-preserving. */
  ghost predicate Ascending(s: seq<nat>)
  {
    forall j, k :: 0 <= j < k < |s| ==> s[j] < s[k]
  }

  /** The elements of `s` at the positions `idx`, in that order. */
  function Pick<T>(s: seq<T>, idx: seq<nat>): (r: seq<T>)
    requires forall j :: 0 <= j < |idx| ==> idx[j] < |s|
    ensures |r| == |idx|
    ensures forall j :: 0 <= j < |idx| ==> r[j] == s[idx[j]]
  {
    seq(|idx|, j requires 0 <= j < |idx| => s[idx[j]])
  }

  /** Picking one more index appends the element it points at. */
  lemma PickSnoc<T>(s: seq<T>, idx: seq<nat>, k: nat)
    requires k < |s| && forall j :: 0 <= j < |idx| ==> idx[j] < |s|
    ensures Pick(s, idx + [k]) == Pick(s, idx) + [s[k]]
  {
  }

  /** Every index picked brings its element along. */
  lemma PickHas<T>(s: seq<T>, idx: seq<nat>)
    requires forall j :: 0 <= j < |idx| ==> idx[j] < |s|
    ensures forall i: nat :: i in idx ==> s[i] in Pick(s, idx)
  {
    forall i: nat | i in idx
      ensures s[i] in Pick(s, idx)
    {
      var j :| 0 <= j < |idx| && idx[j] == i;
      assert Pick(s, idx)[j] == s[i];
    }
  }

  /** A narrower condition keeps no more indices than a wider one. */
  lemma {:induction false} WhereNarrower(n: nat, keep: nat -> bool, wider: nat -> bool)
    requires forall i :: 0 <= i < n && keep(i) ==> wider(i)
    ensures |Where(n, keep)| <= |Where(n, wider)|
  {
    if n > 0 {
      WhereNarrower(n - 1, keep, wider);
    }
  }

  /** Indices kept by `keep` and by its complement `drop` together number `n`. */
  lemma {:induction false} WhereSizes(n: nat, keep: nat -> bool, drop: nat -> bool)
    requires forall i :: 0 <= i < n ==> drop(i) == !keep(i)
    ensures |Where(n, keep)| + |Where(n, drop)| == n
  {
    if n > 0 {
      WhereSizes(n - 1, keep, drop);
    }
  }

  /** Filtering with a condition that holds everywhere keeps every index. */
  lemma {:induction false} WhereAll(n: nat, keep: nat -> bool)
    requires forall i :: 0 <= i < n ==> keep(i)
    ensures Where(n, keep) == seq(n, i => i)
  {
    if n > 0 {
      WhereAll(n - 1, keep);
      assert seq(n, i => i) == seq(n - 1, i => i) + [n - 1];
    }
  }
}
