/** Positional selection along one axis of a table.

    Every selection the transformers make, whether by label list, by boolean mask or by
    dtype, comes down to a sequence of positions into the axis, which is then gathered.
    This module computes those positions and states what they mean. */
module Positions {
  import opened Outcomes

  /** No value occurs twice in `s`. */
  predicate Distinct<K(==)>(s: seq<K>) {
    forall i, j :: 0 <= i < j < |s| ==> s[i] != s[j]
  }

  /** In a sequence without repeats, equal elements sit at the same position. */
  lemma DistinctPositions<K>(s: seq<K>, a: nat, b: nat)
    requires Distinct(s)
    requires a < |s| && b < |s| && s[a] == s[b]
    ensures a == b
  {
  }

  /** The positions are strictly ascending, so gathering them keeps the original order. */
  predicate Increasing(ps: seq<nat>) {
    forall i, j :: 0 <= i < j < |ps| ==> ps[i] < ps[j]
  }

  /** Every position addresses an element of an axis of length `n`. */
  predicate Within(ps: seq<nat>, n: nat) {
    forall i :: 0 <= i < |ps| ==> ps[i] < n
  }

  /** The elements of `s` at the positions `ps`, in the order of `ps`. */
  function Gather<T>(s: seq<T>, ps: seq<nat>): (r: seq<T>)
    requires Within(ps, |s|)
    ensures |r| == |ps|
    ensures forall i :: 0 <= i < |ps| ==> r[i] == s[ps[i]]
  {
    seq(|ps|, i requires 0 <= i < |ps| => s[ps[i]])
  }

  /** An element at a gathered position is among the gathered elements. */
  lemma MatchGathered<T>(s: seq<T>, ps: seq<nat>, j: nat)
    requires Within(ps, |s|)
    requires j in ps
    ensures s[j] in Gather(s, ps)
  {
    var k :| 0 <= k < |ps| && ps[k] == j;
    assert Gather(s, ps)[k] == s[j];
  }

  /** The positions whose mask bit is set, in ascending order. */
  function Chosen(mask: seq<bool>): (ps: seq<nat>)
    ensures Within(ps, |mask|)
    ensures Increasing(ps)
    ensures forall j :: 0 <= j < |mask| ==> (mask[j] <==> j in ps)
  {
    if mask == [] then []
    else
      var n := |mask| - 1;
      var front := Chosen(mask[..n]);
      assert forall j :: 0 <= j < n ==> mask[..n][j] == mask[j];
      front + (if mask[n] then [n] else [])
  }

  /** Reference definition of mask selection: keep the elements whose bit is set. */
  function Compress<T>(s: seq<T>, mask: seq<bool>): (r: seq<T>)
    requires |mask| == |s|
    ensures |r| <= |s|
  {
    if s == [] then []
    else
      var n := |s| - 1;
      Compress(s[..n], mask[..n]) + (if mask[n] then [s[n]] else [])
  }

  /** An element is kept by the reference filter exactly when some position holding it has
      its bit set. */
  lemma {:induction false} CompressMembers<T>(s: seq<T>, mask: seq<bool>)
    requires |mask| == |s|
    ensures forall i :: 0 <= i < |s| && mask[i] ==> s[i] in Compress(s, mask)
    ensures forall x :: x in Compress(s, mask) ==> exists i :: 0 <= i < |s| && mask[i] && s[i] == x
  {
    if s != [] {
      var n := |s| - 1;
      CompressMembers(s[..n], mask[..n]);
      assert forall i :: 0 <= i < n ==> s[..n][i] == s[i] && mask[..n][i] == mask[i];
    }
  }

  /** A mask with every bit set keeps everything. */
  lemma {:induction false} CompressAll<T>(s: seq<T>, mask: seq<bool>)
    requires |mask| == |s|
    requires forall i :: 0 <= i < |mask| ==> mask[i]
    ensures Compress(s, mask) == s
  {
    if s != [] {
      var n := |s| - 1;
      CompressAll(s[..n], mask[..n]);
      assert s[..n] + [s[n]] == s;
    }
  }

  /** Gathering the chosen positions is exactly the reference mask selection. */
  lemma {:induction false} GatherChosen<T>(s: seq<T>, mask: seq<bool>)
    requires |mask| == |s|
    ensures Gather(s, Chosen(mask)) == Compress(s, mask)
  {
    if s != [] {
      var n := |s| - 1;
      var front := Chosen(mask[..n]);
      assert forall j :: 0 <= j < n ==> mask[..n][j] == mask[j];
      GatherChosen(s[..n], mask[..n]);
      assert Gather(s, front) == Gather(s[..n], front);
      if mask[n] {
        assert Chosen(mask) == front + [n];
        assert Gather(s, front + [n]) == Gather(s, front) + [s[n]];
      } else {
        assert Chosen(mask) == front;
      }
    }
  }

  /** The positions at which `k` occurs in `keys`, in ascending order. */
  function Occurrences<K(==)>(keys: seq<K>, k: K): (ps: seq<nat>)
    ensures Within(ps, |keys|)
    ensures Increasing(ps)
    ensures forall i :: 0 <= i < |ps| ==> keys[ps[i]] == k
    ensures forall j :: 0 <= j < |keys| ==> (keys[j] == k <==> j in ps)
  {
    var mask := seq(|keys|, i requires 0 <= i < |keys| => keys[i] == k);
    var ps := Chosen(mask);
    assert forall i :: 0 <= i < |ps| ==> mask[ps[i]];
    ps
  }

  /** A mask with no bit set chooses nothing. */
  lemma {:induction false} ChosenNone(mask: seq<bool>)
    requires forall i :: 0 <= i < |mask| ==> !mask[i]
    ensures Chosen(mask) == []
  {
    if mask != [] {
      ChosenNone(mask[..|mask| - 1]);
    }
  }

  /** A mask with exactly one bit set chooses exactly that position. */
  lemma {:induction false} ChosenSingle(mask: seq<bool>, j: nat)
    requires j < |mask|
    requires forall i :: 0 <= i < |mask| ==> (mask[i] <==> i == j)
    ensures Chosen(mask) == [j]
  {
    var n := |mask| - 1;
    if j == n {
      ChosenNone(mask[..n]);
    } else {
      ChosenSingle(mask[..n], j);
    }
  }

  /** In a sequence without repeats a present key occurs exactly once. */
  lemma OccursOnce<K>(keys: seq<K>, k: K)
    requires Distinct(keys)
    requires k in keys
    ensures |Occurrences(keys, k)| == 1
  {
    var j :| 0 <= j < |keys| && keys[j] == k;
    ChosenSingle(seq(|keys|, i requires 0 <= i < |keys| => keys[i] == k), j);
  }

  /** A key found at `n` and nowhere else occurs exactly there. */
  lemma OccursOnlyAt<K>(keys: seq<K>, k: K, n: nat)
    requires n < |keys| && keys[n] == k
    requires forall j :: 0 <= j < |keys| && j != n ==> keys[j] != k
    ensures Occurrences(keys, k) == [n]
  {
    ChosenSingle(seq(|keys|, i requires 0 <= i < |keys| => keys[i] == k), n);
  }

  /** The position of the first occurrence of `k` in `keys`. */
  function FirstAt<K(==)>(keys: seq<K>, k: K): (p: nat)
    requires k in keys
    ensures p < |keys| && keys[p] == k
    ensures forall i :: 0 <= i < p ==> keys[i] != k
  {
    if keys[0] == k then 0 else 1 + FirstAt(keys[1..], k)
  }

  /** A key that occurs at one position only first occurs there. */
  lemma FirstOfSingle<K>(keys: seq<K>, k: K, n: nat)
    requires Occurrences(keys, k) == [n]
    ensures k in keys && FirstAt(keys, k) == n
  {
    var occ := Occurrences(keys, k);
    assert occ[0] == n;
    assert FirstAt(keys, k) in occ;
  }

  /** The positions of the requested keys, every occurrence of each in turn; `None` when a
      requested key is absent. This is `.loc` with a list of labels. */
  function Locate<K(==)>(keys: seq<K>, request: seq<K>): (r: Option<seq<nat>>)
    ensures r.Some? <==> forall i :: 0 <= i < |request| ==> request[i] in keys
    ensures r.Some? ==> Within(r.value, |keys|)
    ensures r.Some? ==> forall i :: 0 <= i < |r.value| ==> keys[r.value[i]] in request
    ensures r.Some? ==>
              forall i, j :: 0 <= i < |request| && 0 <= j < |keys| && keys[j] == request[i] ==> j in r.value
  {
    if request == [] then Some([])
    else if request[0] !in keys then None
    else
      match Locate(keys, request[1..])
      case None => None
      case Some(rest) => Some(Occurrences(keys, request[0]) + rest)
  }

  /** Over keys without repeats, `Locate` finds each requested key exactly once, in request
      order. */
  lemma {:induction false} LocateDistinct<K>(keys: seq<K>, request: seq<K>)
    requires Distinct(keys)
    requires Locate(keys, request).Some?
    ensures var ps := Locate(keys, request).value;
            |ps| == |request| && forall i :: 0 <= i < |request| ==> keys[ps[i]] == request[i]
  {
    if request != [] {
      LocateDistinct(keys, request[1..]);
      OccursOnce(keys, request[0]);
    }
  }

  /** One step of `Locate`: a first key found only at `p`, in front of the rest. */
  lemma LocateCons<K>(keys: seq<K>, request: seq<K>, p: nat, rest: seq<nat>)
    requires request != []
    requires Occurrences(keys, request[0]) == [p]
    requires Locate(keys, request[1..]) == Some(rest)
    ensures Locate(keys, request) == Some([p] + rest)
  {
    var occ := Occurrences(keys, request[0]);
    assert occ[0] < |keys| && keys[occ[0]] == request[0];
  }

  /** When every requested key occurs exactly once, `Locate` finds those positions, in
      request order. */
  lemma {:induction false} LocateEachOnce<K>(keys: seq<K>, request: seq<K>, ps: seq<nat>)
    requires |ps| == |request|
    requires forall i :: 0 <= i < |request| ==> Occurrences(keys, request[i]) == [ps[i]]
    ensures Locate(keys, request) == Some(ps)
  {
    if request != [] {
      var rest := request[1..];
      forall i | 0 <= i < |rest|
        ensures Occurrences(keys, rest[i]) == [ps[1..][i]]
      {
        assert rest[i] == request[i + 1];
      }
      LocateEachOnce(keys, rest, ps[1..]);
      LocateCons(keys, request, ps[0], ps[1..]);
      assert [ps[0]] + ps[1..] == ps;
    }
  }

  /** A single requested key yields all of its positions, in ascending order. */
  lemma LocateSingle<K>(keys: seq<K>, k: K)
    ensures k !in keys ==> Locate(keys, [k]) == None
    ensures k in keys ==> Locate(keys, [k]) == Some(Occurrences(keys, k))
  {
    assert [k][1..] == [];
    assert Locate(keys, [k][1..]) == Some([]);
    assert Occurrences(keys, k) + [] == Occurrences(keys, k);
  }

  /** Requesting `a` then `b` gives the positions for `a` followed by those for `b`: with
      `LocateSingle`, the result over repeated keys is determined, order and multiplicity. */
  lemma {:induction false} LocateAppend<K>(keys: seq<K>, a: seq<K>, b: seq<K>)
    ensures Locate(keys, a + b).Some? <==> Locate(keys, a).Some? && Locate(keys, b).Some?
    ensures Locate(keys, a).Some? && Locate(keys, b).Some? ==>
              Locate(keys, a + b).value == Locate(keys, a).value + Locate(keys, b).value
  {
    if a == [] {
      assert a + b == b;
    } else {
      assert (a + b)[0] == a[0];
      assert (a + b)[1..] == a[1..] + b;
      LocateAppend(keys, a[1..], b);
    }
  }
}
