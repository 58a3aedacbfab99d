/** Sequence operations the board is built from: JavaScript's `filter` and
    `findIndex`, and dnd-kit's `arrayMove`, stated as functions on `seq`. */
module Sequences {

  /** `r` is `s` with some elements left out, the rest in their original
      order (greedy leftmost matching, which is complete for subsequences). */
  ghost predicate IsSubsequence<T>(r: seq<T>, s: seq<T>)
    decreases |s|
  {
    r == [] || (s != [] && if r[0] == s[0] then IsSubsequence(r[1..], s[1..]) else IsSubsequence(r, s[1..]))
  }

  /** No two elements of `s` share a key. */
  ghost predicate UniqueBy<T, K>(s: seq<T>, key: T -> K) {
    forall i, j :: 0 <= i < j < |s| ==> key(s[i]) != key(s[j])
  }

  /** `Array.prototype.filter`: the elements of `s` that `keep` accepts, in order. */
  function Filter<T(==,!new)>(s: seq<T>, keep: T -> bool): (r: seq<T>)
    ensures |r| <= |s|
    ensures forall x :: x in r <==> x in s && keep(x)
    ensures IsSubsequence(r, s)
  {
    if s == [] then []
    else
      var rest := Filter(s[1..], keep);
      if keep(s[0]) then
        [s[0]] + rest
      else
        assert rest != [] ==> rest[0] in rest;
        rest
  }

  /** Filtering keeps every copy of an accepted element and no copy of a
      rejected one. */
  lemma {:induction false} FilterCounts<T(!new)>(s: seq<T>, keep: T -> bool)
    ensures forall x :: multiset(Filter(s, keep))[x] == if keep(x) then multiset(s)[x] else 0
  {
    if s != [] {
      FilterCounts(s[1..], keep);
      assert s == [s[0]] + s[1..];
    }
  }

  /** Filtering with a predicate that accepts everything changes nothing. */
  lemma {:induction false} FilterKeepsAll<T(!new)>(s: seq<T>, keep: T -> bool)
    requires forall x :: x in s ==> keep(x)
    ensures Filter(s, keep) == s
  {
    if s != [] {
      assert forall x :: x in s[1..] ==> x in s;
      FilterKeepsAll(s[1..], keep);
    }
  }

  /** Filtering twice, where the second filter is the stricter one, is the same
      as filtering once with the second. */
  lemma {:induction false} FilterOfFilter<T(!new)>(s: seq<T>, weak: T -> bool, strict: T -> bool)
    requires forall x :: strict(x) ==> weak(x)
    ensures Filter(Filter(s, weak), strict) == Filter(s, strict)
  {
    if s != [] {
      FilterOfFilter(s[1..], weak, strict);
    }
  }

  /** Filtering keeps keys unique. */
  lemma {:induction false} FilterKeepsUnique<T(!new), K>(s: seq<T>, keep: T -> bool, key: T -> K)
    requires UniqueBy(s, key)
    ensures UniqueBy(Filter(s, keep), key)
  {
    if s != [] {
      var tail := s[1..];
      assert UniqueBy(tail, key) by {
        forall i, j | 0 <= i < j < |tail| ensures key(tail[i]) != key(tail[j]) {
          assert tail[i] == s[i + 1] && tail[j] == s[j + 1];
        }
      }
      FilterKeepsUnique(tail, keep, key);
      var rest := Filter(tail, keep);
      if keep(s[0]) {
        var r := [s[0]] + rest;
        forall i, j | 0 <= i < j < |r| ensures key(r[i]) != key(r[j]) {
          if i == 0 {
            assert r[j] == rest[j - 1] && rest[j - 1] in tail;
            var k :| 0 <= k < |tail| && tail[k] == rest[j - 1];
            assert tail[k] == s[k + 1];
          } else {
            assert r[i] == rest[i - 1] && r[j] == rest[j - 1];
          }
        }
      }
    }
  }

  /** `Array.prototype.findIndex`: the first index whose element satisfies
      `p`, or -1 when there is none. */
  function FindIndex<T>(s: seq<T>, p: T -> bool): (i: int)
    ensures -1 <= i < |s|
    ensures i == -1 <==> forall k :: 0 <= k < |s| ==> !p(s[k])
    ensures 0 <= i ==> p(s[i]) && forall k :: 0 <= k < i ==> !p(s[k])
  {
    if s == [] then -1
    else if p(s[0]) then 0
    else
      var i := FindIndex(s[1..], p);
      assert forall k :: 1 <= k < |s| ==> s[k] == s[1..][k - 1];
      if i == -1 then -1 else i + 1
  }

  /** `s` with the element at index `i` taken out. */
  function RemoveAt<T>(s: seq<T>, i: nat): (r: seq<T>)
    requires i < |s|
    ensures |r| == |s| - 1
  {
    s[..i] + s[i + 1..]
  }

  /** dnd-kit's `arrayMove(s, from, to)`: take the element at `from` out and
      insert it again so that it sits at index `to`; the elements between the
      two indices shift by one slot toward the vacated one. */
  function Move<T>(s: seq<T>, from: nat, to: nat): (r: seq<T>)
    requires from < |s| && to < |s|
    ensures |r| == |s|
  {
    var rest := RemoveAt(s, from);
    rest[..to] + [s[from]] + rest[to..]
  }

  /** The index of `s` whose element ends up at index `i` of `Move(s, from, to)`. */
  function MoveSource(from: nat, to: nat, i: nat): nat {
    if i == to then from
    else if from < to && from <= i < to then i + 1
    else if to < from && to < i <= from then i - 1
    else i
  }

  /** Where every element of a move comes from: the moved element lands at
      `to`, the ones strictly between shift by one, all others stay put. */
  lemma MoveAt<T>(s: seq<T>, from: nat, to: nat, i: nat)
    requires from < |s| && to < |s| && i < |s|
    ensures MoveSource(from, to, i) < |s|
    ensures Move(s, from, to)[i] == s[MoveSource(from, to, i)]
  {
    var rest := RemoveAt(s, from);
    assert forall k :: 0 <= k < |rest| ==> rest[k] == if k < from then s[k] else s[k + 1];
    var r := Move(s, from, to);
    if i < to {
      assert r[i] == rest[i];
    } else if i > to {
      assert r[i] == rest[i - 1];
    }
  }

  /** Distinct indices of the result come from distinct indices of the input. */
  lemma MoveSourceInjective(from: nat, to: nat, i: nat, j: nat, n: nat)
    requires from < n && to < n && i < n && j < n && i != j
    ensures MoveSource(from, to, i) != MoveSource(from, to, j)
  {
  }

  /** The moved element lands at `to`. */
  lemma MoveLands<T>(s: seq<T>, from: nat, to: nat)
    requires from < |s| && to < |s|
    ensures Move(s, from, to)[to] == s[from]
  {
    MoveAt(s, from, to, to);
  }

  /** Taking the moved element back out of the result leaves exactly the
      other elements, in their original order. */
  lemma MoveKeepsOthersInOrder<T>(s: seq<T>, from: nat, to: nat)
    requires from < |s| && to < |s|
    ensures RemoveAt(Move(s, from, to), to) == RemoveAt(s, from)
  {
    var rest := RemoveAt(s, from);
    var r := Move(s, from, to);
    assert r[..to] == rest[..to];
    assert r[to + 1..] == rest[to..];
    assert rest == rest[..to] + rest[to..];
  }

  /** A move is a permutation. */
  lemma MovePermutes<T>(s: seq<T>, from: nat, to: nat)
    requires from < |s| && to < |s|
    ensures multiset(Move(s, from, to)) == multiset(s)
  {
    var rest := RemoveAt(s, from);
    assert s == s[..from] + [s[from]] + s[from + 1..];
    assert multiset(s) == multiset(rest) + multiset{s[from]};
    assert rest == rest[..to] + rest[to..];
    assert multiset(Move(s, from, to)) == multiset(rest[..to]) + multiset{s[from]} + multiset(rest[to..]);
  }

  /** Moving an element onto its own index is the identity (the source calls
      `arrayMove(tasks, i, i)` for a task dropped on a column). */
  lemma MoveToSelf<T>(s: seq<T>, i: nat)
    requires i < |s|
    ensures Move(s, i, i) == s
  {
    forall k | 0 <= k < |s| ensures Move(s, i, i)[k] == s[k] {
      MoveAt(s, i, i, k);
    }
  }

  /** A move keeps keys unique. */
  lemma MoveKeepsUnique<T, K>(s: seq<T>, from: nat, to: nat, key: T -> K)
    requires from < |s| && to < |s|
    requires UniqueBy(s, key)
    ensures UniqueBy(Move(s, from, to), key)
  {
    var r := Move(s, from, to);
    forall i, j | 0 <= i < j < |r| ensures key(r[i]) != key(r[j]) {
      MoveAt(s, from, to, i);
      MoveAt(s, from, to, j);
      MoveSourceInjective(from, to, i, j, |s|);
      var si, sj := MoveSource(from, to, i), MoveSource(from, to, j);
      if si < sj { assert key(s[si]) != key(s[sj]); } else { assert key(s[sj]) != key(s[si]); }
    }
  }

  /** A move is not a swap: the last of three elements moved to the front
      gives it first and the other two shifted right, in their order. */
  lemma MoveLastToFront<T>(a: T, b: T, c: T)
    ensures Move([a, b, c], 2, 0) == [c, a, b]
  {
    MoveAt([a, b, c], 2, 0, 0);
    MoveAt([a, b, c], 2, 0, 1);
    MoveAt([a, b, c], 2, 0, 2);
  }
}
