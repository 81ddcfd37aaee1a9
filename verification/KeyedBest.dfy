/** Keeping the best element per key in an insertion-ordered dictionary: the
    pattern `prev = seen.get(k); if prev is None or x > prev: seen[k] = x`.
    `le(a, b)` says that `a` is at least as good as `b`. */
module KeyedBest {
  import opened Common
  import opened StableSort
  import opened Wrappers

  /** A key keeps its place when its element is replaced. */
  function Put<T, K(==)>(key: T -> K, le: (T, T) -> bool, seen: seq<T>, x: T): seq<T> {
    if seen == [] then [x]
    else if key(seen[0]) == key(x) then [if le(seen[0], x) then seen[0] else x] + seen[1..]
    else [seen[0]] + Put(key, le, seen[1..], x)
  }

  function Collect<T, K(==)>(key: T -> K, le: (T, T) -> bool, xs: seq<T>): seq<T> {
    if xs == [] then []
    else Put(key, le, Collect(key, le, xs[..|xs| - 1]), xs[|xs| - 1])
  }

  /** The element a key should keep: the first of its best. */
  function Best<T, K(==)>(key: T -> K, le: (T, T) -> bool, xs: seq<T>, k: K): Option<T> {
    if xs == [] then None
    else
      var prev, last := Best(key, le, xs[..|xs| - 1], k), xs[|xs| - 1];
      if key(last) != k then prev
      else if prev.None? || !le(prev.value, last) then Some(last)
      else prev
  }

  ghost predicate Holds<T, K>(key: T -> K, s: seq<T>, k: K, kept: Option<T>) {
    match kept
    case None => forall x | x in s :: key(x) != k
    case Some(b) => b in s && key(b) == k
  }

  lemma {:induction false} BestIsMaximal<T(!new), K>(key: T -> K, le: (T, T) -> bool, xs: seq<T>, k: K)
    requires TotalPreorder(le)
    ensures Holds(key, xs, k, Best(key, le, xs, k))
    ensures forall x | x in xs && key(x) == k :: le(Best(key, le, xs, k).value, x)
  {
    if xs != [] {
      var front, last := xs[..|xs| - 1], xs[|xs| - 1];
      BestIsMaximal(key, le, front, k);
      assert xs == front + [last];
      assert forall x :: x in xs <==> x in front || x == last;
      assert le(last, last);
    }
  }

  /** Among equals the earliest is kept: everything before it is worse. */
  lemma {:induction false} BestIsFirst<T(!new), K>(key: T -> K, le: (T, T) -> bool, xs: seq<T>, k: K) returns (i: nat)
    requires TotalPreorder(le) && Best(key, le, xs, k).Some?
    ensures i < |xs| && xs[i] == Best(key, le, xs, k).value
    ensures forall j | 0 <= j < i && key(xs[j]) == k :: !le(xs[j], xs[i])
  {
    var front, last := xs[..|xs| - 1], xs[|xs| - 1];
    var prev := Best(key, le, front, k);
    BestIsMaximal(key, le, front, k);
    if key(last) == k && (prev.None? || !le(prev.value, last)) {
      i := |xs| - 1;
      forall j | 0 <= j < i && key(xs[j]) == k ensures !le(xs[j], xs[i]) {
        assert front[j] in front && le(prev.value, front[j]);
      }
    } else {
      i := BestIsFirst(key, le, front, k);
      forall j | 0 <= j < i && key(xs[j]) == k ensures !le(xs[j], xs[i]) {
        assert xs[j] == front[j];
      }
    }
  }

  lemma {:induction false} PutKeeps<T, K>(key: T -> K, le: (T, T) -> bool, seen: seq<T>, x: T)
    requires OnePerKey(key, seen)
    ensures OnePerKey(key, Put(key, le, seen, x))
    ensures forall y :: y in Put(key, le, seen, x) ==> y == x || y in seen
    ensures forall y | y in seen && key(y) != key(x) :: y in Put(key, le, seen, x)
    ensures forall y | y in seen && key(y) == key(x) :: (if le(y, x) then y else x) in Put(key, le, seen, x)
    ensures (forall y | y in seen :: key(y) != key(x)) ==> x in Put(key, le, seen, x)
  {
    if seen != [] && key(seen[0]) != key(x) {
      PutKeeps(key, le, seen[1..], x);
      var rest := Put(key, le, seen[1..], x);
      assert seen == [seen[0]] + seen[1..];
      forall j | 0 <= j < |rest| ensures key(rest[j]) != key(seen[0]) {
        assert rest[j] in rest;
      }
    }
  }

  lemma {:induction false} UniqueHolder<T, K>(key: T -> K, s: seq<T>, a: T, b: T)
    requires OnePerKey(key, s) && a in s && b in s && key(a) == key(b)
    ensures a == b
  {}

  /** The dictionary holds exactly the best element of every key it saw. */
  lemma {:induction false} CollectHoldsBest<T, K>(key: T -> K, le: (T, T) -> bool, xs: seq<T>, k: K)
    ensures OnePerKey(key, Collect(key, le, xs))
    ensures Holds(key, Collect(key, le, xs), k, Best(key, le, xs, k))
  {
    if xs != [] {
      var front, last := xs[..|xs| - 1], xs[|xs| - 1];
      CollectHoldsBest(key, le, front, k);
      PutKeeps(key, le, Collect(key, le, front), last);
    }
  }

  lemma {:induction false} CollectMember<T, K>(key: T -> K, le: (T, T) -> bool, xs: seq<T>, x: T)
    ensures x in Collect(key, le, xs) <==> Best(key, le, xs, key(x)) == Some(x)
  {
    CollectHoldsBest(key, le, xs, key(x));
    if x in Collect(key, le, xs) {
      UniqueHolder(key, Collect(key, le, xs), x, Best(key, le, xs, key(x)).value);
    }
  }

  lemma {:induction false} PermutedOnePerKey<T, K>(key: T -> K, a: seq<T>, b: seq<T>)
    requires OnePerKey(key, a) && multiset(a) == multiset(b)
    ensures OnePerKey(key, b)
    decreases |a|
  {
    SameLength(b, a);
    if b != [] {
      var j := Counterpart(b, a);
      var rest := a[..j] + a[j + 1..];
      assert OnePerKey(key, rest);
      PermutedOnePerKey(key, rest, b[1..]);
      forall i | 0 < i < |b| ensures key(b[i]) != key(b[0]) {
        assert b[i] in multiset(b[1..]);
        assert b[i] in rest;
      }
    }
  }

  /** With one element per key there is nothing to choose. */
  lemma {:induction false} BestOfUnique<T(!new), K>(key: T -> K, le: (T, T) -> bool, s: seq<T>, k: K)
    requires OnePerKey(key, s) && TotalPreorder(le)
    ensures forall x | x in s && key(x) == k :: Best(key, le, s, k) == Some(x)
    ensures (forall x | x in s :: key(x) != k) ==> Best(key, le, s, k) == None
  {
    BestIsMaximal(key, le, s, k);
    forall x | x in s && key(x) == k ensures Best(key, le, s, k) == Some(x) {
      UniqueHolder(key, s, x, Best(key, le, s, k).value);
    }
  }

  lemma {:induction false} BestSuffix<T, K>(key: T -> K, le: (T, T) -> bool, a: seq<T>, a': seq<T>, b: seq<T>, k: K)
    requires Best(key, le, a, k) == Best(key, le, a', k)
    ensures Best(key, le, a + b, k) == Best(key, le, a' + b, k)
  {
    if b == [] {
      assert a + b == a && a' + b == a';
    } else {
      var front := b[..|b| - 1];
      BestSuffix(key, le, a, a', front, k);
      assert (a + b)[..|a + b| - 1] == a + front && (a' + b)[..|a' + b| - 1] == a' + front;
    }
  }

  lemma {:induction false} PutNew<T, K>(key: T -> K, le: (T, T) -> bool, seen: seq<T>, x: T)
    requires forall y | y in seen :: key(y) != key(x)
    ensures Put(key, le, seen, x) == seen + [x]
  {
    if seen != [] {
      assert seen[0] in seen;
      PutNew(key, le, seen[1..], x);
      assert seen == [seen[0]] + seen[1..];
    }
  }

  /** A list with one element per key goes through unchanged, order included. */
  lemma {:induction false} CollectUnique<T, K>(key: T -> K, le: (T, T) -> bool, xs: seq<T>)
    requires OnePerKey(key, xs)
    ensures Collect(key, le, xs) == xs
  {
    if xs != [] {
      var front, last := xs[..|xs| - 1], xs[|xs| - 1];
      CollectUnique(key, le, front);
      PutNew(key, le, front, last);
    }
  }
}
