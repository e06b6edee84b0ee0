/**
 The few Underscore.js collection helpers the utilities rely on, modelled on
 Dafny sequences: `_.filter`, `_.find`, `_.first` and `_.intersection`.

 Both `_.filter` and `_.intersection` walk their input from left to right and
 push onto an accumulator; the recursive definitions below peel the LAST
 element off, so that each call is "the accumulator after the loop has seen
 this prefix".
 */
module Collections {

  datatype Option<+T> = None | Some(value: T)

  /** No element occurs twice. */
  predicate NoDup<T(==)>(s: seq<T>) {
    forall i, j :: 0 <= i < j < |s| ==> s[i] != s[j]
  }

  /** `_.filter(s, p)`: the elements of `s` that satisfy `p`, in order. */
  function Filter<T(==,!new)>(s: seq<T>, p: T -> bool): (r: seq<T>)
    ensures |r| <= |s|
    ensures forall x :: x in r <==> x in s && p(x)
    ensures NoDup(s) ==> NoDup(r)
  {
    if s == [] then []
    else
      var init := Filter(s[..|s| - 1], p);
      var x := s[|s| - 1];
      assert s == s[..|s| - 1] + [x];
      if p(x) then init + [x] else init
  }

  /** `x` occurs in every list of `lists`. */
  predicate InAll<T(==)>(x: T, lists: seq<seq<T>>) {
    forall j :: 0 <= j < |lists| ==> x in lists[j]
  }

  /** The membership test `_.intersection` applies to the later lists. */
  function InAllOf<T(==)>(lists: seq<seq<T>>): T -> bool {
    x => InAll(x, lists)
  }

  /**
   `_.intersection(first, others...)`: every element of `first` that occurs in
   all of `others`, skipping an element already collected.
   */
  function Intersection<T(==,!new)>(first: seq<T>, others: seq<seq<T>>): (r: seq<T>)
    ensures NoDup(r)
    ensures forall x :: x in r <==> x in first && InAll(x, others)
  {
    if first == [] then []
    else
      var acc := Intersection(first[..|first| - 1], others);
      var x := first[|first| - 1];
      assert first == first[..|first| - 1] + [x];
      if x in acc || !InAll(x, others) then acc else acc + [x]
  }

  /**
   `_.intersection.apply(_, lists)`. With no lists at all `_.intersection()`
   reads the length of `undefined`, runs its loop zero times and returns [].
   */
  function IntersectAll<T(==,!new)>(lists: seq<seq<T>>): (r: seq<T>)
    ensures NoDup(r)
    ensures forall x :: x in r <==> |lists| > 0 && InAll(x, lists)
  {
    if |lists| == 0 then []
    else
      var r := Intersection(lists[0], lists[1..]);
      assert forall x :: InAll(x, lists) <==> x in lists[0] && InAll(x, lists[1..]) by {
        forall x
          ensures InAll(x, lists) <==> x in lists[0] && InAll(x, lists[1..])
        {
          if x in lists[0] && InAll(x, lists[1..]) {
            forall j | 0 <= j < |lists| ensures x in lists[j] {
              if j > 0 { assert lists[j] == lists[1..][j - 1]; }
            }
          }
        }
      }
      r
  }

  /** `_.find` by position: the index of the first element satisfying `p`. */
  function FindIndex<T>(s: seq<T>, p: T -> bool): (r: Option<nat>)
    ensures r.Some? ==> r.value < |s| && p(s[r.value])
    ensures r.Some? ==> forall j :: 0 <= j < r.value ==> !p(s[j])
    ensures r.None? ==> forall j :: 0 <= j < |s| ==> !p(s[j])
  {
    if s == [] then None
    else if p(s[0]) then Some(0)
    else
      match FindIndex(s[1..], p)
      case None => None
      case Some(k) => Some(k + 1)
  }

  /** `_.find(s, p)`: the first element satisfying `p`, if any. */
  function Find<T>(s: seq<T>, p: T -> bool): (r: Option<T>)
    ensures r.Some? <==> exists i :: 0 <= i < |s| && p(s[i])
    ensures r.Some? ==> exists i :: 0 <= i < |s| && s[i] == r.value && p(s[i]) && forall j :: 0 <= j < i ==> !p(s[j])
  {
    match FindIndex(s, p)
    case None => None
    case Some(k) => Some(s[k])
  }

  /** Both predicates hold. */
  function Both<T>(p: T -> bool, q: T -> bool): T -> bool {
    x => p(x) && q(x)
  }

  /** Filtering depends only on the predicate's values on the elements. */
  lemma {:induction false} FilterExt<T(!new)>(s: seq<T>, p: T -> bool, q: T -> bool)
    requires forall x :: x in s ==> p(x) == q(x)
    ensures Filter(s, p) == Filter(s, q)
  {
    if s != [] {
      assert s == s[..|s| - 1] + [s[|s| - 1]];
      FilterExt(s[..|s| - 1], p, q);
    }
  }

  /** Filtering twice is filtering once by the conjunction. */
  lemma {:induction false} FilterFilter<T(!new)>(s: seq<T>, p: T -> bool, q: T -> bool)
    ensures Filter(Filter(s, p), q) == Filter(s, Both(p, q))
  {
    if s != [] {
      var init := s[..|s| - 1];
      var x := s[|s| - 1];
      FilterFilter(init, p, q);
      var a := Filter(init, p);
      if p(x) {
        assert Filter(s, p) == a + [x];
        assert (a + [x])[..|a + [x]| - 1] == a;
      }
    }
  }

  /** Filtering distributes over concatenation. */
  lemma {:induction false} FilterAppend<T(!new)>(a: seq<T>, b: seq<T>, p: T -> bool)
    ensures Filter(a + b, p) == Filter(a, p) + Filter(b, p)
    decreases |b|
  {
    if b != [] {
      var b' := b[..|b| - 1];
      var y := b[|b| - 1];
      assert b == b' + [y];
      assert a + b == (a + b') + [y];
      FilterAppend(a, b', p);
      FilterSnoc(b', y, p);
      FilterSnoc(a + b', y, p);
    } else {
      assert a + b == a;
    }
  }

  /** Filtering a one-element list keeps it or drops it. */
  lemma FilterSingleton<T(!new)>(x: T, p: T -> bool)
    ensures Filter([x], p) == if p(x) then [x] else []
  {
  }

  /** The one-element list of `x` when `keep` holds, else nothing. */
  function Pick<T>(x: T, keep: bool): seq<T> {
    if keep then [x] else []
  }

  /** Filtering a list with one more element at the end. */
  lemma FilterSnoc<T(!new)>(s: seq<T>, x: T, p: T -> bool)
    ensures Filter(s + [x], p) == Filter(s, p) + Pick(x, p(x))
  {
    assert (s + [x])[..|s|] == s;
  }

  /** Filtering a list of three elements, element by element. */
  lemma FilterThree<T(!new)>(a: T, b: T, c: T, p: T -> bool)
    ensures Filter([a, b, c], p) == Pick(a, p(a)) + Pick(b, p(b)) + Pick(c, p(c))
  {
    FilterSingleton(a, p);
    FilterSnoc([a], b, p);
    assert [a] + [b] == [a, b];
    FilterSnoc([a, b], c, p);
    assert [a, b] + [c] == [a, b, c];
  }

  /** A filter that keeps nothing of `s` yields the empty list. */
  lemma {:induction false} FilterNone<T(!new)>(s: seq<T>, p: T -> bool)
    requires forall x :: x in s ==> !p(x)
    ensures Filter(s, p) == []
  {
    if s != [] {
      assert s == s[..|s| - 1] + [s[|s| - 1]];
      FilterNone(s[..|s| - 1], p);
    }
  }

  /** A filter that keeps every element of `s` yields `s` itself. */
  lemma {:induction false} FilterAll<T(!new)>(s: seq<T>, p: T -> bool)
    requires forall x :: x in s ==> p(x)
    ensures Filter(s, p) == s
  {
    if s != [] {
      assert s == s[..|s| - 1] + [s[|s| - 1]];
      FilterAll(s[..|s| - 1], p);
    }
  }

  /** When no element of `first` occurs in all the others, nothing is kept. */
  lemma {:induction false} IntersectionNone<T(!new)>(first: seq<T>, others: seq<seq<T>>)
    requires forall x :: x in first ==> !InAll(x, others)
    ensures Intersection(first, others) == []
  {
    if first != [] {
      assert first == first[..|first| - 1] + [first[|first| - 1]];
      IntersectionNone(first[..|first| - 1], others);
    }
  }

  /**
   On a list without duplicates `_.intersection` never meets an element it
   already collected, so it is the plain filter "occurs in all the others",
   keeping the order of the first list.
   */
  lemma {:induction false} IntersectionOfDistinct<T(!new)>(first: seq<T>, others: seq<seq<T>>)
    requires NoDup(first)
    ensures Intersection(first, others) == Filter(first, InAllOf(others))
  {
    if first != [] {
      var init := first[..|first| - 1];
      var x := first[|first| - 1];
      assert NoDup(init);
      IntersectionOfDistinct(init, others);
      assert x !in init;
    }
  }

  /**
   The head of `_.intersection` is the first element of `first` that occurs
   in all the others; in particular the result is non-empty exactly when such
   an element exists.
   */
  lemma {:induction false} IntersectionHead<T(!new)>(first: seq<T>, others: seq<seq<T>>, k: nat)
    requires k < |first| && InAll(first[k], others)
    requires forall j :: 0 <= j < k ==> !InAll(first[j], others)
    ensures |Intersection(first, others)| > 0
    ensures Intersection(first, others)[0] == first[k]
  {
    var init := first[..|first| - 1];
    var acc := Intersection(init, others);
    if k < |first| - 1 {
      IntersectionHead(init, others, k);
    } else {
      assert forall x :: x in init ==> !InAll(x, others) by {
        forall x | x in init ensures !InAll(x, others) {
          var j :| 0 <= j < |init| && init[j] == x;
          assert first[j] == x;
        }
      }
      IntersectionNone(init, others);
    }
  }
}
