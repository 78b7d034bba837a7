/** A fixed-capacity ring in an array, with the overwriting `push_back` of `boost::circular_buffer`. */
module CircularBuffers {
  import opened Headers

  /** Appending to a full buffer overwrites its front. */
  function PushedBack<T>(s: seq<T>, capacity: int, x: T): seq<T>
    requires |s| <= capacity && capacity > 0
  {
    (if |s| < capacity then s else s[1..]) + [x]
  }

  /** Inserts after every element that starts no later. */
  function Insert(s: seq<Header>, h: Header): (r: seq<Header>)
    ensures |r| == |s| + 1
  {
    if s == [] || s[|s| - 1].startTime <= h.startTime then s + [h]
    else Insert(s[..|s| - 1], h) + [s[|s| - 1]]
  }

  /** Insertion sort by start time. */
  function SortByStart(s: seq<Header>): (r: seq<Header>)
    ensures |r| == |s|
  {
    if s == [] then [] else Insert(SortByStart(s[..|s| - 1]), s[|s| - 1])
  }

  ghost predicate Sorted(s: seq<Header>) {
    forall i, j :: 0 <= i < j < |s| ==> s[i].startTime <= s[j].startTime
  }

  ghost predicate StrictlySorted(s: seq<Header>) {
    forall i, j :: 0 <= i < j < |s| ==> s[i].startTime < s[j].startTime
  }

  lemma {:induction false} InsertMembers(s: seq<Header>, h: Header)
    ensures forall x :: x in Insert(s, h) <==> x in s || x == h
  {
    if s == [] {
    } else if s[|s| - 1].startTime > h.startTime {
      InsertMembers(s[..|s| - 1], h);
      assert s == s[..|s| - 1] + [s[|s| - 1]];
    }
  }

  lemma {:induction false} InsertSorts(s: seq<Header>, h: Header)
    requires Sorted(s)
    ensures Sorted(Insert(s, h))
  {
    if s == [] {
    } else if s[|s| - 1].startTime > h.startTime {
      var s', last := s[..|s| - 1], s[|s| - 1];
      InsertSorts(s', h);
      InsertMembers(s', h);
      var r := Insert(s', h);
      forall i | 0 <= i < |r|
        ensures r[i].startTime <= last.startTime
      {
        assert r[i] in r;
      }
    }
  }

  lemma {:induction false} InsertPermutes(s: seq<Header>, h: Header)
    ensures multiset(Insert(s, h)) == multiset(s) + multiset{h}
  {
    if s == [] {
    } else if s[|s| - 1].startTime > h.startTime {
      InsertPermutes(s[..|s| - 1], h);
      assert s == s[..|s| - 1] + [s[|s| - 1]];
    }
  }

  /** The sort meets the contract of `std::sort`: an ordered permutation. */
  lemma {:induction false} SortByStartSorts(s: seq<Header>)
    ensures Sorted(SortByStart(s))
    ensures multiset(SortByStart(s)) == multiset(s)
  {
    if s == [] {
    } else {
      SortByStartSorts(s[..|s| - 1]);
      InsertSorts(SortByStart(s[..|s| - 1]), s[|s| - 1]);
      InsertPermutes(SortByStart(s[..|s| - 1]), s[|s| - 1]);
      assert s == s[..|s| - 1] + [s[|s| - 1]];
    }
  }

  lemma LastAgrees(s: seq<Header>, t: seq<Header>)
    requires StrictlySorted(s) && Sorted(t) && multiset(s) == multiset(t) && |s| == |t| > 0
    ensures s[|s| - 1] == t[|t| - 1]
  {
    var n := |s| - 1;
    assert s[n] in multiset(t) && t[n] in multiset(s);
    var i :| 0 <= i < |s| && s[i] == t[n];
    var j :| 0 <= j < |t| && t[j] == s[n];
    assert t[j].startTime <= t[n].startTime;
  }

  lemma MultisetWithoutLast<T>(s: seq<T>)
    requires s != []
    ensures multiset(s[..|s| - 1]) == multiset(s) - multiset{s[|s| - 1]}
  {
    assert s == s[..|s| - 1] + [s[|s| - 1]];
  }

  lemma SameLength<T>(s: seq<T>, t: seq<T>)
    requires multiset(s) == multiset(t)
    ensures |s| == |t|
  {
    assert |s| == |multiset(s)|;
    assert |t| == |multiset(t)|;
  }

  lemma SameInitAndLast<T>(s: seq<T>, t: seq<T>)
    requires |s| == |t| > 0 && s[..|s| - 1] == t[..|t| - 1] && s[|s| - 1] == t[|t| - 1]
    ensures s == t
  {
    assert s == s[..|s| - 1] + [s[|s| - 1]];
    assert t == t[..|t| - 1] + [t[|t| - 1]];
  }

  /** With distinct start times that contract has one solution, so any sorting algorithm gives this result. */
  lemma {:induction false} SortedPermutationUnique(s: seq<Header>, t: seq<Header>)
    requires StrictlySorted(s) && Sorted(t) && multiset(s) == multiset(t)
    ensures s == t
    decreases |s|
  {
    SameLength(s, t);
    if s == [] {
    } else {
      LastAgrees(s, t);
      MultisetWithoutLast(s);
      MultisetWithoutLast(t);
      SortedPermutationUnique(s[..|s| - 1], t[..|t| - 1]);
      SameInitAndLast(s, t);
    }
  }

  lemma {:induction false} SortOfSorted(s: seq<Header>)
    requires Sorted(s)
    ensures SortByStart(s) == s
  {
    if s == [] {
    } else {
      var s' := s[..|s| - 1];
      SortOfSorted(s');
      assert s == s' + [s[|s| - 1]];
    }
  }

  class CircularBuffer<T(0)> {
    const data: array<T>
    var first: nat
    var size: nat

    /** What the buffer holds, front first. */
    ghost var contents: seq<T>

    ghost predicate Valid()
      reads this, data
    {
      && 0 < data.Length && first < data.Length && size <= data.Length
      && |contents| == size
      && forall i :: 0 <= i < size ==> data[Slot(i)] == contents[i]
    }

    /** The array slot of logical position `i`. */
    function Slot(i: nat): nat
      reads this`first
    {
      if first + i < data.Length then first + i else first + i - data.Length
    }

    constructor (capacity: int)
      requires capacity > 0
      ensures Valid() && fresh(data) && data.Length == capacity && contents == []
    {
      data := new T[capacity];
      first, size, contents := 0, 0, [];
    }

    predicate Full()
      reads this
    {
      size == data.Length
    }

    method At(i: nat) returns (x: T)
      requires Valid() && i < size
      ensures x == contents[i]
    {
      x := data[Slot(i)];
    }

    method PushBack(x: T)
      requires Valid()
      modifies this, data
      ensures Valid() && contents == PushedBack(old(contents), data.Length, x)
    {
      contents := PushedBack(contents, data.Length, x);
      if Full() {
        data[first] := x;
        first := if first + 1 < data.Length then first + 1 else 0;
      } else {
        data[Slot(size)] := x;
        size := size + 1;
      }
    }

    method PushFront(x: T)
      requires Valid() && !Full()
      modifies this, data
      ensures Valid() && contents == [x] + old(contents)
    {
      contents := [x] + contents;
      first := if first == 0 then data.Length - 1 else first - 1;
      data[first] := x;
      size := size + 1;
    }

    method Swap(i: nat, j: nat)
      requires Valid() && i < j < size
      modifies this`contents, data
      ensures Valid() && contents == old(contents)[i := old(contents)[j]][j := old(contents)[i]]
    {
      contents := contents[i := contents[j]][j := contents[i]];
      data[Slot(i)], data[Slot(j)] := data[Slot(j)], data[Slot(i)];
    }
  }

  /** `was` with the element at `i` moved down to `j`. */
  ghost function Sunk(was: seq<Header>, i: nat, j: nat): seq<Header>
    requires j <= i < |was|
  {
    was[..j] + [was[i]] + was[j..i] + was[i + 1..]
  }

  lemma SwapSinks(was: seq<Header>, i: nat, j: nat)
    requires 0 < j <= i < |was|
    ensures var c := Sunk(was, i, j);
      c[j - 1] == was[j - 1] && c[j] == was[i] && c[j - 1 := c[j]][j := c[j - 1]] == Sunk(was, i, j - 1)
  {
  }

  /** Inserting before position `j` and keeping the rest is still the insertion into the whole prefix. */
  ghost predicate StillOpen(was: seq<Header>, i: nat, j: nat)
    requires j <= i < |was|
  {
    Insert(was[..j], was[i]) + was[j..i] == Insert(was[..i], was[i])
  }

  lemma SinkStep(was: seq<Header>, i: nat, j: nat)
    requires 0 < j <= i < |was| && StillOpen(was, i, j)
    requires was[j - 1].startTime > was[i].startTime
    ensures StillOpen(was, i, j - 1)
  {
    assert was[..j][..j - 1] == was[..j - 1];
    assert [was[j - 1]] + was[j..i] == was[j - 1..i];
  }

  /** Where the walk stops, the element is in place. */
  lemma SinkDone(was: seq<Header>, i: nat, j: nat)
    requires j <= i < |was| && StillOpen(was, i, j)
    requires j == 0 || was[j - 1].startTime <= was[i].startTime
    ensures Sunk(was, i, j) == Insert(was[..i], was[i]) + was[i + 1..]
  {
    assert Insert(was[..j], was[i]) == was[..j] + [was[i]];
  }

  lemma SinkStart(was: seq<Header>, i: nat)
    requires i < |was|
    ensures Sunk(was, i, i) == was && StillOpen(was, i, i)
  {
  }

  /** Sinks the element at `i` into the sorted part before it. */
  method SinkInto(b: CircularBuffer<Header>, i: nat)
    requires b.Valid() && i < b.size
    modifies b`contents, b.data
    ensures b.Valid()
    ensures b.contents == Insert(old(b.contents)[..i], old(b.contents)[i]) + old(b.contents)[i + 1..]
  {
    ghost var was := b.contents;
    var j := i;
    SinkStart(was, i);
    while j > 0
      invariant 0 <= j <= i && b.Valid()
      invariant b.contents == Sunk(was, i, j)
      invariant StillOpen(was, i, j)
    {
      var left := b.At(j - 1);
      var moving := b.At(j);
      SwapSinks(was, i, j);
      if left.startTime <= moving.startTime { break; }
      SinkStep(was, i, j);
      b.Swap(j - 1, j);
      j := j - 1;
    }
    SinkDone(was, i, j);
  }

  lemma SortStep(was: seq<Header>, now: seq<Header>, next: seq<Header>, i: nat)
    requires i < |was| && now == SortByStart(was[..i]) + was[i..]
    requires next == Insert(now[..i], now[i]) + now[i + 1..]
    ensures next == SortByStart(was[..i + 1]) + was[i + 1..]
  {
    assert now[..i] == SortByStart(was[..i]) && now[i] == was[i];
    assert now[i + 1..] == was[i + 1..];
    assert was[..i + 1][..i] == was[..i];
  }

  /** `std::sort` of the buffer by start time, here by insertion. */
  method SortBuffer(b: CircularBuffer<Header>)
    requires b.Valid()
    modifies b`contents, b.data
    ensures b.Valid() && b.contents == SortByStart(old(b.contents))
  {
    ghost var was := b.contents;
    var i := 0;
    while i < b.size
      invariant 0 <= i <= b.size && b.Valid() && b.size == |was|
      invariant b.contents == SortByStart(was[..i]) + was[i..]
    {
      ghost var now := b.contents;
      SinkInto(b, i);
      SortStep(was, now, b.contents, i);
      i := i + 1;
    }
    assert was[..i] == was;
  }
}
