/**
 * `sorted(xs, key=score, reverse=True)[:10]`, the selection behind every
 * "top 10" of the report (main.py:192, 203, 257-260). Python's sort is
 * stable also when `reverse=True`: elements with equal scores keep their
 * order. `SortDesc` is the sort, defined by insertion; its three lemmas say
 * it is descending, a permutation and stable.
 */
module Ranking {

  /** Highest score first. */
  ghost predicate Descending<T>(s: seq<T>, score: T -> int) {
    forall i, j :: 0 <= i < j < |s| ==> score(s[i]) >= score(s[j])
  }

  /** The elements of `s` whose score is `v`, in their order in `s`. */
  function WithScore<T>(s: seq<T>, score: T -> int, v: int): (r: seq<T>)
    ensures |r| <= |s|
  {
    if s == [] then []
    else (if score(s[0]) == v then [s[0]] else []) + WithScore(s[1..], score, v)
  }

  /** Put `x` in front of the first element of `t` that does not score more. */
  function Insert<T>(x: T, t: seq<T>, score: T -> int): (r: seq<T>)
    ensures |r| == |t| + 1
  {
    if t == [] then [x]
    else if score(t[0]) <= score(x) then [x] + t
    else [t[0]] + Insert(x, t[1..], score)
  }

  function SortDesc<T>(s: seq<T>, score: T -> int): (r: seq<T>)
    ensures |r| == |s|
  {
    if s == [] then [] else Insert(s[0], SortDesc(s[1..], score), score)
  }

  /** The first `n` elements, or all of them when there are fewer (`s[:n]`). */
  function Take<T>(s: seq<T>, n: nat): (r: seq<T>)
    ensures |r| == if |s| <= n then |s| else n
    ensures forall k :: 0 <= k < |r| ==> r[k] == s[k]
  {
    if |s| <= n then s else s[..n]
  }

  /** The ten highest-scoring elements, best first. */
  function Top10<T>(s: seq<T>, score: T -> int): seq<T> {
    Take(SortDesc(s, score), 10)
  }

  lemma {:induction false} InsertDescending<T>(x: T, t: seq<T>, score: T -> int)
    requires Descending(t, score)
    ensures Descending(Insert(x, t, score), score)
  {
    if t != [] && score(t[0]) > score(x) {
      var rest := Insert(x, t[1..], score);
      InsertDescending(x, t[1..], score);
      InsertBounded(x, t[1..], score, score(t[0]));
      assert Insert(x, t, score) == [t[0]] + rest;
    }
  }

  /** Inserting keeps every score at most `b`. */
  lemma {:induction false} InsertBounded<T>(x: T, t: seq<T>, score: T -> int, b: int)
    requires score(x) <= b
    requires forall k :: 0 <= k < |t| ==> score(t[k]) <= b
    ensures forall k :: 0 <= k < |Insert(x, t, score)| ==> score(Insert(x, t, score)[k]) <= b
  {
    if t != [] && score(t[0]) > score(x) {
      InsertBounded(x, t[1..], score, b);
    }
  }

  lemma {:induction false} InsertMultiset<T>(x: T, t: seq<T>, score: T -> int)
    ensures multiset(Insert(x, t, score)) == multiset(t) + multiset{x}
  {
    if t != [] && score(t[0]) > score(x) {
      InsertMultiset(x, t[1..], score);
      assert t == [t[0]] + t[1..];
    }
  }

  lemma {:induction false} InsertWithScore<T>(x: T, t: seq<T>, score: T -> int, v: int)
    ensures WithScore(Insert(x, t, score), score, v) ==
      (if score(x) == v then [x] else []) + WithScore(t, score, v)
  {
    var own := if score(x) == v then [x] else [];
    if t == [] {
      assert Insert(x, t, score) == [x];
      assert [x][1..] == [];
    } else if score(t[0]) <= score(x) {
      assert Insert(x, t, score) == [x] + t;
      assert ([x] + t)[1..] == t;
    } else {
      var rest := Insert(x, t[1..], score);
      var head := if score(t[0]) == v then [t[0]] else [];
      InsertWithScore(x, t[1..], score, v);
      assert Insert(x, t, score) == [t[0]] + rest;
      assert ([t[0]] + rest)[1..] == rest;
      assert WithScore([t[0]] + rest, score, v) == head + (own + WithScore(t[1..], score, v));
      assert WithScore(t, score, v) == head + WithScore(t[1..], score, v);
      assert own == [] || head == [];
    }
  }

  /** The sort puts the highest score first. */
  lemma {:induction false} SortDescending<T>(s: seq<T>, score: T -> int)
    ensures Descending(SortDesc(s, score), score)
  {
    if s != [] {
      SortDescending(s[1..], score);
      InsertDescending(s[0], SortDesc(s[1..], score), score);
    }
  }

  /** The sort neither loses nor invents elements. */
  lemma {:induction false} SortPermutes<T>(s: seq<T>, score: T -> int)
    ensures multiset(SortDesc(s, score)) == multiset(s)
  {
    if s != [] {
      SortPermutes(s[1..], score);
      InsertMultiset(s[0], SortDesc(s[1..], score), score);
      assert s == [s[0]] + s[1..];
    }
  }

  /** The sort is stable: elements with equal scores stay in their original order. */
  lemma {:induction false} SortStable<T>(s: seq<T>, score: T -> int, v: int)
    ensures WithScore(SortDesc(s, score), score, v) == WithScore(s, score, v)
  {
    if s != [] {
      SortStable(s[1..], score, v);
      InsertWithScore(s[0], SortDesc(s[1..], score), score, v);
    }
  }

  /**
   * What `sorted(...)[:10]` selects: at most ten elements of `s`, best first,
   * and nothing left out scores more than anything selected.
   */
  lemma TopSelects<T>(s: seq<T>, score: T -> int)
    ensures |Top10(s, score)| == if |s| <= 10 then |s| else 10
    ensures Descending(Top10(s, score), score)
    ensures multiset(Top10(s, score)) <= multiset(s)
    ensures forall k :: 0 <= k < |Top10(s, score)| ==> Top10(s, score)[k] in s
    ensures forall x, y :: x in Top10(s, score) && y in multiset(s) - multiset(Top10(s, score)) ==> score(x) >= score(y)
    ensures forall x, y :: x in Top10(s, score) && y in s && y !in Top10(s, score) ==> score(x) >= score(y)
  {
    var sorted := SortDesc(s, score);
    SortDescending(s, score);
    SortPermutes(s, score);
    var top := Top10(s, score);
    var rest := sorted[|top|..];
    assert sorted == top + rest;
    SplitBeats(top, rest, score);
    assert multiset(top + rest) == multiset(s);
    SelectionMembers(top, s, score);
  }

  /** In a descending sequence, nothing after the first part scores more than anything in it. */
  lemma SplitBeats<T>(top: seq<T>, rest: seq<T>, score: T -> int)
    requires Descending(top + rest, score)
    ensures Descending(top, score)
    ensures multiset(top) <= multiset(top + rest)
    ensures forall x, y :: x in top && y in multiset(top + rest) - multiset(top) ==> score(x) >= score(y)
  {
    var sorted := top + rest;
    assert forall k :: 0 <= k < |top| ==> sorted[k] == top[k];
    forall x, y | x in top && y in multiset(sorted) - multiset(top)
      ensures score(x) >= score(y)
    {
      var i :| 0 <= i < |top| && top[i] == x;
      assert y in rest;
      var j :| 0 <= j < |rest| && rest[j] == y;
      assert sorted[|top| + j] == y;
    }
  }

  /** The element-wise reading of a selection taken out of `s`. */
  lemma SelectionMembers<T>(top: seq<T>, s: seq<T>, score: T -> int)
    requires multiset(top) <= multiset(s)
    requires forall x, y :: x in top && y in multiset(s) - multiset(top) ==> score(x) >= score(y)
    ensures forall k :: 0 <= k < |top| ==> top[k] in s
    ensures forall x, y :: x in top && y in s && y !in top ==> score(x) >= score(y)
  {
    forall k | 0 <= k < |top|
      ensures top[k] in s
    {
      assert top[k] in multiset(s);
    }
    forall y | y in s && y !in top
      ensures y in multiset(s) - multiset(top)
    {
    }
  }
}
