/** Order-preserving subsequences, used to state what survives a lossy pipeline. */
module Sequences {

  /** `xs` arises from `ys` by deleting elements. */
  predicate Subsequence<T(==)>(xs: seq<T>, ys: seq<T>)
    decreases |ys|
  {
    if xs == [] then true
    else if ys == [] then false
    else if xs[|xs| - 1] == ys[|ys| - 1] then Subsequence(xs[..|xs| - 1], ys[..|ys| - 1])
    else Subsequence(xs, ys[..|ys| - 1])
  }

  /** Matching greedily from the end loses nothing: dropping the last element of `xs` is harmless. */
  lemma {:induction false} SubsequenceShorter<T>(xs: seq<T>, ys: seq<T>)
    requires xs != [] && Subsequence(xs, ys)
    ensures Subsequence(xs[..|xs| - 1], ys)
    decreases |ys|
  {
    var xs', ys' := xs[..|xs| - 1], ys[..|ys| - 1];
    if xs' == [] {
    } else if xs[|xs| - 1] == ys[|ys| - 1] {
      if xs'[|xs'| - 1] == ys[|ys| - 1] {
        SubsequenceShorter(xs', ys');
      }
    } else {
      SubsequenceShorter(xs, ys');
      if xs'[|xs'| - 1] == ys[|ys| - 1] {
        SubsequenceShorter(xs', ys');
      }
    }
  }

  lemma {:induction false} SubsequenceReflexive<T>(xs: seq<T>)
    ensures Subsequence(xs, xs)
    decreases |xs|
  {
    if xs == [] {
    } else {
      SubsequenceReflexive(xs[..|xs| - 1]);
    }
  }

  lemma {:induction false} SubsequenceTransitive<T>(xs: seq<T>, ys: seq<T>, zs: seq<T>)
    requires Subsequence(xs, ys) && Subsequence(ys, zs)
    ensures Subsequence(xs, zs)
    decreases |zs|
  {
    if xs == [] {
    } else {
      var zs' := zs[..|zs| - 1];
      if ys[|ys| - 1] == zs[|zs| - 1] {
        if xs[|xs| - 1] == ys[|ys| - 1] {
          SubsequenceTransitive(xs[..|xs| - 1], ys[..|ys| - 1], zs');
        } else {
          SubsequenceTransitive(xs, ys[..|ys| - 1], zs');
        }
      } else {
        SubsequenceTransitive(xs, ys, zs');
        if xs[|xs| - 1] == zs[|zs| - 1] {
          SubsequenceShorter(xs, zs');
        }
      }
    }
  }

  /** Appending the same tail on both sides keeps the relation. */
  lemma {:induction false} SubsequenceAppend<T>(xs: seq<T>, ys: seq<T>, tail: seq<T>)
    requires Subsequence(xs, ys)
    ensures Subsequence(xs + tail, ys + tail)
    decreases |tail|
  {
    if tail == [] {
      assert xs + tail == xs && ys + tail == ys;
    } else {
      var tail' := tail[..|tail| - 1];
      SubsequenceAppend(xs, ys, tail');
      assert (xs + tail)[..|xs + tail| - 1] == xs + tail';
      assert (ys + tail)[..|ys + tail| - 1] == ys + tail';
    }
  }

  /** Growing only the longer sequence keeps the relation. */
  lemma SubsequenceExtend<T>(xs: seq<T>, ys: seq<T>, y: T)
    requires Subsequence(xs, ys)
    ensures Subsequence(xs, ys + [y])
  {
    assert (ys + [y])[..|ys + [y]| - 1] == ys;
    if xs != [] && xs[|xs| - 1] == y {
      SubsequenceShorter(xs, ys);
    }
  }

  /** Deleting one element anywhere in the middle keeps the relation. */
  lemma SubsequenceDelete<T>(left: seq<T>, x: T, right: seq<T>, ys: seq<T>)
    requires Subsequence(left + [x] + right, ys)
    ensures Subsequence(left + right, ys)
  {
    SubsequenceReflexive(left);
    SubsequenceExtend(left, left, x);
    SubsequenceAppend(left, left + [x], right);
    SubsequenceTransitive(left + right, left + [x] + right, ys);
  }

  /** Index view of one step: positions of the shorter sequence map to increasing positions of the longer. */
  lemma {:induction false} SubsequencePair<T>(xs: seq<T>, ys: seq<T>, i: nat, j: nat) returns (a: nat, b: nat)
    requires Subsequence(xs, ys) && i < j < |xs|
    ensures a < b < |ys| && ys[a] == xs[i] && ys[b] == xs[j]
    decreases |ys|
  {
    var ys' := ys[..|ys| - 1];
    if xs[|xs| - 1] == ys[|ys| - 1] {
      var xs' := xs[..|xs| - 1];
      if j < |xs'| {
        a, b := SubsequencePair(xs', ys', i, j);
      } else {
        a := SubsequenceMember(xs', ys', i);
        b := |ys| - 1;
      }
    } else {
      a, b := SubsequencePair(xs, ys', i, j);
    }
  }

  lemma {:induction false} SubsequenceMember<T>(xs: seq<T>, ys: seq<T>, i: nat) returns (a: nat)
    requires Subsequence(xs, ys) && i < |xs|
    ensures a < |ys| && ys[a] == xs[i]
    decreases |ys|
  {
    var ys' := ys[..|ys| - 1];
    if xs[|xs| - 1] == ys[|ys| - 1] {
      if i == |xs| - 1 {
        a := |ys| - 1;
      } else {
        a := SubsequenceMember(xs[..|xs| - 1], ys', i);
      }
    } else {
      a := SubsequenceMember(xs, ys', i);
    }
  }
}
