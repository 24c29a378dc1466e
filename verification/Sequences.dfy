/**
 The array operations the clients are written with: `filter`, `find` and `findLast`.
 All three recurse on the last element, because logs and loops grow at the end.
 */
module Sequences {
  import opened Wrappers

  function Last<T>(s: seq<T>): T
    requires s != []
  {
    s[|s| - 1]
  }

  function Init<T>(s: seq<T>): seq<T>
    requires s != []
  {
    s[..|s| - 1]
  }

  /** `Array.prototype.filter`. */
  function Filter<T>(s: seq<T>, p: T -> bool): seq<T> {
    if s == [] then []
    else if p(Last(s)) then Filter(Init(s), p) + [Last(s)]
    else Filter(Init(s), p)
  }

  /** `Array.prototype.find`: the first element satisfying `p`. */
  function Find<T>(s: seq<T>, p: T -> bool): Option<T> {
    if s == [] then None
    else if Find(Init(s), p).Some? then Find(Init(s), p)
    else if p(Last(s)) then Some(Last(s))
    else None
  }

  /** lodash `_.findLast`: the last element satisfying `p`. */
  function FindLast<T>(s: seq<T>, p: T -> bool): Option<T> {
    if s == [] then None
    else if p(Last(s)) then Some(Last(s))
    else FindLast(Init(s), p)
  }

  /** `Array.prototype.indexOf`, with `None` for -1. */
  function IndexOf<T(==)>(s: seq<T>, x: T): (r: Option<nat>)
    ensures r.Some? ==> r.value < |s| && s[r.value] == x && x !in s[..r.value]
    ensures r.None? <==> x !in s
  {
    if s == [] then None
    else
      assert s == Init(s) + [Last(s)];
      var before := IndexOf(Init(s), x);
      if before.Some? then
        assert Init(s)[..before.value] == s[..before.value];
        before
      else if Last(s) == x then Some(|s| - 1)
      else None
  }

  lemma {:induction false} FilterMembers<T>(s: seq<T>, p: T -> bool, x: T)
    ensures x in Filter(s, p) <==> x in s && p(x)
  {
    if s != [] {
      assert s == Init(s) + [Last(s)];
      FilterMembers(Init(s), p, x);
    }
  }

  lemma FilterOne<T>(x: T, p: T -> bool)
    ensures Filter([x], p) == if p(x) then [x] else []
    ensures Find([x], p) == if p(x) then Some(x) else None
  {
    assert Init([x]) == [] && Filter([], p) == [];
  }

  lemma {:induction false} FilterConcat<T>(a: seq<T>, b: seq<T>, p: T -> bool)
    ensures Filter(a + b, p) == Filter(a, p) + Filter(b, p)
  {
    if b == [] {
      assert a + b == a;
    } else {
      assert Init(a + b) == a + Init(b);
      FilterConcat(a, Init(b), p);
    }
  }

  /** Predicates that agree on the elements filter alike. */
  lemma {:induction false} FilterAgree<T>(s: seq<T>, p: T -> bool, q: T -> bool)
    requires forall x :: x in s ==> p(x) == q(x)
    ensures Filter(s, p) == Filter(s, q)
  {
    if s != [] {
      assert forall x :: x in Init(s) ==> x in s;
      FilterAgree(Init(s), p, q);
    }
  }

  lemma {:induction false} FilterAll<T>(s: seq<T>, p: T -> bool)
    requires forall x :: x in s ==> p(x)
    ensures Filter(s, p) == s
  {
    if s != [] {
      assert forall x :: x in Init(s) ==> x in s;
      FilterAll(Init(s), p);
    }
  }

  lemma {:induction false} FilterNone<T>(s: seq<T>, p: T -> bool)
    requires forall x :: x in s ==> !p(x)
    ensures Filter(s, p) == []
  {
    if s != [] {
      assert forall x :: x in Init(s) ==> x in s;
      FilterNone(Init(s), p);
    }
  }

  /** Filtering twice keeps what passes both tests. */
  lemma {:induction false} FilterTwice<T>(s: seq<T>, p: T -> bool, q: T -> bool, both: T -> bool)
    requires forall x :: x in s ==> both(x) == (p(x) && q(x))
    ensures Filter(Filter(s, p), q) == Filter(s, both)
  {
    if s != [] {
      assert forall x :: x in Init(s) ==> x in s;
      FilterTwice(Init(s), p, q, both);
      if p(Last(s)) {
        FilterConcat(Filter(Init(s), p), [Last(s)], q);
        assert Filter([Last(s)], q) == if q(Last(s)) then [Last(s)] else [];
      }
    }
  }

  lemma {:induction false} FilterCommutes<T>(s: seq<T>, p: T -> bool, q: T -> bool)
    ensures Filter(Filter(s, p), q) == Filter(Filter(s, q), p)
  {
    if s != [] {
      FilterCommutes(Init(s), p, q);
      FilterConcat(Filter(Init(s), p), [Last(s)], q);
      FilterConcat(Filter(Init(s), q), [Last(s)], p);
      FilterOne(Last(s), p);
      FilterOne(Last(s), q);
    }
  }

  lemma {:induction false} FindFirst<T>(s: seq<T>, p: T -> bool)
    ensures Find(s, p) == var hits := Filter(s, p); if hits == [] then None else Some(hits[0])
  {
    if s != [] {
      FindFirst(Init(s), p);
    }
  }

  lemma {:induction false} FindLastIsLast<T>(s: seq<T>, p: T -> bool)
    ensures FindLast(s, p) == var hits := Filter(s, p); if hits == [] then None else Some(Last(hits))
  {
    if s != [] {
      FindLastIsLast(Init(s), p);
    }
  }

  /** Where `find` stops: nothing before the hit satisfies the test. */
  lemma {:induction false} FindWitness<T>(s: seq<T>, p: T -> bool) returns (i: nat)
    ensures Find(s, p).Some? ==>
              i < |s| && s[i] == Find(s, p).value && p(s[i]) && forall j :: 0 <= j < i ==> !p(s[j])
    ensures Find(s, p).None? ==> forall x :: x in s ==> !p(x)
  {
    i := 0;
    if s != [] {
      i := FindWitness(Init(s), p);
      if Find(Init(s), p).None? {
        forall j | 0 <= j < |s| - 1 ensures !p(s[j]) {
          assert s[j] in Init(s);
        }
        i := |s| - 1;
      }
    }
  }

  /** Where `findLast` stops: nothing after the hit satisfies the test. */
  lemma {:induction false} FindLastWitness<T>(s: seq<T>, p: T -> bool) returns (i: nat)
    ensures FindLast(s, p).Some? ==>
              i < |s| && s[i] == FindLast(s, p).value && p(s[i]) && forall j :: i < j < |s| ==> !p(s[j])
    ensures FindLast(s, p).None? ==> forall x :: x in s ==> !p(x)
  {
    i := 0;
    if s != [] {
      if p(Last(s)) {
        i := |s| - 1;
      } else {
        i := FindLastWitness(Init(s), p);
        if FindLast(Init(s), p).None? {
          forall x | x in s ensures !p(x) {
            assert s == Init(s) + [Last(s)];
          }
        }
      }
    }
  }
}
