/**
 `assign` (src/utils/ObjectUtils.ts) as the clients use it, and the indexes that repeated calls build. A nested key
 path is one compound key here.
 */
module ObjectUtils {
  import opened Wrappers
  import opened Sequences

  function Get<K, V>(m: map<K, seq<V>>, k: K): seq<V> {
    if k in m then m[k] else []
  }

  /** `assign(obj, path, [v])`: sets the array when there is none yet, appends otherwise. */
  function AssignArray<K, V>(m: map<K, seq<V>>, k: K, v: V): map<K, seq<V>> {
    m[k := Get(m, k) + [v]]
  }

  /** What a boolean leaf can hold: `assign` merges `true` into `true` as objects, which leaves `{}`. */
  datatype Flag = True | False | EmptyObject {
    predicate Truthy() {
      !False?
    }
  }

  /** `assign(obj, path, value)` for a boolean value. */
  function AssignFlag<K>(m: map<K, Flag>, k: K, value: bool): map<K, Flag> {
    if k !in m || m[k].False? then m[k := if value then True else False]
    else if !value then m[k := False]
    else m[k := EmptyObject]
  }

  // ---------- indexes built by loops ----------

  /** Append every element under its key. */
  function GroupBy<K(!new), V(!new)>(m: map<K, seq<V>>, xs: seq<V>, key: V -> K): map<K, seq<V>> {
    if xs == [] then m
    else AssignArray(GroupBy(m, Init(xs), key), key(Last(xs)), Last(xs))
  }

  /** Store each element under its key unless the key is taken. */
  function FirstBy<K, V>(m: map<K, V>, xs: seq<V>, key: V -> K): map<K, V> {
    if xs == [] then m
    else
      var before := FirstBy(m, Init(xs), key);
      if key(Last(xs)) in before then before else before[key(Last(xs)) := Last(xs)]
  }

  /** Assign every boolean under its key. */
  function FlagBy<K>(m: map<K, Flag>, xs: seq<(K, bool)>): map<K, Flag> {
    if xs == [] then m
    else AssignFlag(FlagBy(m, Init(xs)), Last(xs).0, Last(xs).1)
  }

  function HasKey<K(==), V>(key: V -> K, k: K): V -> bool {
    (v: V) => key(v) == k
  }

  lemma {:induction false} GroupByConcat<K(!new), V(!new)>(m: map<K, seq<V>>, a: seq<V>, b: seq<V>, key: V -> K)
    ensures GroupBy(GroupBy(m, a, key), b, key) == GroupBy(m, a + b, key)
  {
    if b == [] {
      assert a + b == a;
    } else {
      assert Init(a + b) == a + Init(b);
      GroupByConcat(m, a, Init(b), key);
    }
  }

  /** Each key holds exactly the elements with that key, in order. */
  lemma {:induction false} GroupByContents<K(!new), V(!new)>(m: map<K, seq<V>>, xs: seq<V>, key: V -> K, k: K)
    ensures Get(GroupBy(m, xs, key), k) == Get(m, k) + Filter(xs, HasKey(key, k))
    ensures k in GroupBy(m, xs, key) <==> k in m || Filter(xs, HasKey(key, k)) != []
  {
    if xs != [] {
      GroupByContents(m, Init(xs), key, k);
    }
  }

  lemma {:induction false} FirstByConcat<K, V>(m: map<K, V>, a: seq<V>, b: seq<V>, key: V -> K)
    ensures FirstBy(FirstBy(m, a, key), b, key) == FirstBy(m, a + b, key)
  {
    if b == [] {
      assert a + b == a;
    } else {
      assert Init(a + b) == a + Init(b);
      FirstByConcat(m, a, Init(b), key);
    }
  }

  /** Each key holds the first element with that key. */
  lemma {:induction false} FirstByContents<K(!new), V(!new)>(m: map<K, V>, xs: seq<V>, key: V -> K, k: K)
    ensures k in FirstBy(m, xs, key) <==> k in m || Find(xs, HasKey(key, k)).Some?
    ensures k in FirstBy(m, xs, key) ==>
              FirstBy(m, xs, key)[k] == if k in m then m[k] else Find(xs, HasKey(key, k)).value
  {
    if xs != [] {
      FirstByContents(m, Init(xs), key, k);
    }
  }

  lemma {:induction false} FlagByConcat<K(!new)>(m: map<K, Flag>, a: seq<(K, bool)>, b: seq<(K, bool)>)
    ensures FlagBy(FlagBy(m, a), b) == FlagBy(m, a + b)
  {
    if b == [] {
      assert a + b == a;
    } else {
      assert Init(a + b) == a + Init(b);
      FlagByConcat(m, a, Init(b));
    }
  }

  function FirstIs<K(==)>(k: K): ((K, bool)) -> bool {
    (x: (K, bool)) => x.0 == k
  }

  /** Despite `{}` standing in for `true`, a leaf is truthy exactly when the last value assigned to it was true. */
  lemma {:induction false} FlagByContents<K(!new)>(xs: seq<(K, bool)>, k: K)
    ensures k in FlagBy(map[], xs) <==> FindLast(xs, FirstIs(k)).Some?
    ensures k in FlagBy(map[], xs) ==> FlagBy(map[], xs)[k].Truthy() == FindLast(xs, FirstIs(k)).value.1
  {
    if xs != [] {
      FlagByContents(Init(xs), k);
    }
  }

  // ---------- typed views of a list ----------

  /** The elements `f` recognises, mapped by it. */
  function Collect<E, T>(xs: seq<E>, f: E -> Option<T>): seq<T> {
    if xs == [] then []
    else
      match f(Last(xs))
      case Some(t) => Collect(Init(xs), f) + [t]
      case None => Collect(Init(xs), f)
  }

  lemma {:induction false} CollectConcat<E, T>(a: seq<E>, b: seq<E>, f: E -> Option<T>)
    ensures Collect(a + b, f) == Collect(a, f) + Collect(b, f)
  {
    if b == [] {
      assert a + b == a;
    } else {
      assert Init(a + b) == a + Init(b);
      CollectConcat(a, Init(b), f);
    }
  }

  /** What passes a test among the mapped elements, element by element: the images of those that `q` picks. */
  lemma {:induction false} CollectedAre<E, T>(xs: seq<E>, f: E -> Option<T>, p: T -> bool, q: E -> bool)
    requires forall e :: e in xs ==> (q(e) <==> f(e).Some? && p(f(e).value))
    ensures var (picked, images) := (Filter(xs, q), Filter(Collect(xs, f), p));
            |images| == |picked| && forall i :: 0 <= i < |picked| ==> f(picked[i]) == Some(images[i])
  {
    if xs != [] {
      assert forall e :: e in Init(xs) ==> e in xs;
      CollectedAre(Init(xs), f, p, q);
      assert Last(xs) in xs;
      if f(Last(xs)).Some? {
        FilterConcat(Collect(Init(xs), f), [f(Last(xs)).value], p);
        FilterOne(f(Last(xs)).value, p);
      }
    }
  }

  /** The first and the last of them. */
  lemma CollectedEnds<E, T>(xs: seq<E>, f: E -> Option<T>, p: T -> bool, q: E -> bool)
    requires forall e :: e in xs ==> (q(e) <==> f(e).Some? && p(f(e).value))
    ensures Find(Collect(xs, f), p) == match Find(xs, q) case Some(e) => f(e) case None => None
    ensures FindLast(Collect(xs, f), p) == match FindLast(xs, q) case Some(e) => f(e) case None => None
  {
    CollectedAre(xs, f, p, q);
    FindFirst(xs, q);
    FindFirst(Collect(xs, f), p);
    FindLastIsLast(xs, q);
    FindLastIsLast(Collect(xs, f), p);
  }

  lemma CollectSnoc<E, T>(xs: seq<E>, e: E, f: E -> Option<T>)
    ensures Collect(xs + [e], f) == Collect(xs, f) + match f(e) case Some(t) => [t] case None => []
  {
    assert Init(xs + [e]) == xs;
  }

  /** Dropping elements that `f` does not recognise changes nothing. */
  lemma {:induction false} CollectFiltered<E, T>(xs: seq<E>, p: E -> bool, f: E -> Option<T>)
    requires forall x :: x in xs && f(x).Some? ==> p(x)
    ensures Collect(Filter(xs, p), f) == Collect(xs, f)
  {
    if xs != [] {
      assert forall x :: x in Init(xs) ==> x in xs;
      CollectFiltered(Init(xs), p, f);
      if p(Last(xs)) {
        assert Init(Filter(xs, p)) == Filter(Init(xs), p);
      }
    }
  }

  lemma {:induction false} CollectMembers<E, T>(xs: seq<E>, f: E -> Option<T>, t: T)
    ensures t in Collect(xs, f) <==> exists x :: x in xs && f(x) == Some(t)
  {
    if xs != [] {
      assert xs == Init(xs) + [Last(xs)];
      CollectMembers(Init(xs), f, t);
    }
  }
}
