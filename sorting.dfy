/// Python's `list.sort` as the traversal uses it: a stable sort, ascending on
/// a key. Entries are keyed by name (`bse.sort()`, `dirs.sort()`: paths under
/// one parent compare by their last component) or by latest price
/// (`bse.sort(key=sort_by_price)`).
module Sorting {
  import opened Text

  datatype SortKey = ByName(name: string) | ByPrice(price: nat)

  /** `<=` on keys; a sort only ever compares keys of one kind. */
  predicate KeyLe(a: SortKey, b: SortKey)
  {
    match (a, b)
    case (ByName(x), ByName(y)) => LexLe(x, y)
    case (ByPrice(x), ByPrice(y)) => x <= y
    case (ByName(_), ByPrice(_)) => true
    case (ByPrice(_), ByName(_)) => false
  }

  lemma KeyLeReflexive(a: SortKey)
    ensures KeyLe(a, a)
  {
    if a.ByName? {
      LexLeReflexive(a.name);
    }
  }

  lemma KeyLeTotal(a: SortKey, b: SortKey)
    ensures KeyLe(a, b) || KeyLe(b, a)
  {
    if a.ByName? && b.ByName? {
      LexLeTotal(a.name, b.name);
    }
  }

  lemma KeyLeTransitive(a: SortKey, b: SortKey, c: SortKey)
    requires KeyLe(a, b) && KeyLe(b, c)
    ensures KeyLe(a, c)
  {
    if a.ByName? && b.ByName? && c.ByName? {
      LexLeTransitive(a.name, b.name, c.name);
    }
  }

  lemma KeyLeAntisymmetric(a: SortKey, b: SortKey)
    requires KeyLe(a, b) && KeyLe(b, a)
    ensures a == b
  {
    if a.ByName? && b.ByName? {
      LexLeAntisymmetric(a.name, b.name);
    }
  }

  /** Ascending (non-decreasing) on the key. */
  ghost predicate SortedBy<T>(s: seq<T>, key: T -> SortKey)
  {
    forall i, j :: 0 <= i < j < |s| ==> KeyLe(key(s[i]), key(s[j]))
  }

  /** The elements of `s` whose key is `k`, in their order in `s`. */
  function WithKey<T>(s: seq<T>, key: T -> SortKey, k: SortKey): seq<T>
  {
    if s == [] then [] else (if key(s[0]) == k then [s[0]] else []) + WithKey(s[1..], key, k)
  }

  lemma {:induction false} WithKeyAppend<T>(a: seq<T>, b: seq<T>, key: T -> SortKey, k: SortKey)
    ensures WithKey(a + b, key, k) == WithKey(a, key, k) + WithKey(b, key, k)
  {
    if a == [] {
      assert a + b == b;
    } else {
      assert (a + b)[0] == a[0] && (a + b)[1..] == a[1..] + b;
      WithKeyAppend(a[1..], b, key, k);
    }
  }

  /** Puts `x` before the first element whose key is not below its own. */
  function Insert<T>(x: T, s: seq<T>, key: T -> SortKey): (r: seq<T>)
    ensures multiset(r) == multiset([x] + s)
  {
    if s == [] || KeyLe(key(x), key(s[0])) then [x] + s
    else
      assert s == [s[0]] + s[1..];
      [s[0]] + Insert(x, s[1..], key)
  }

  /** Stable insertion sort: each element goes in front of the equal keys already placed. */
  function Sort<T>(s: seq<T>, key: T -> SortKey): (r: seq<T>)
    ensures multiset(r) == multiset(s)
  {
    if s == [] then []
    else
      assert s == [s[0]] + s[1..];
      Insert(s[0], Sort(s[1..], key), key)
  }

  lemma {:induction false} InsertSorted<T>(x: T, s: seq<T>, key: T -> SortKey)
    requires SortedBy(s, key)
    ensures SortedBy(Insert(x, s, key), key)
  {
    var r := Insert(x, s, key);
    if s == [] {
    } else if KeyLe(key(x), key(s[0])) {
      forall j | 1 <= j < |r|
        ensures KeyLe(key(r[0]), key(r[j]))
      {
        assert r[j] == s[j - 1];
        if j > 1 {
          KeyLeTransitive(key(x), key(s[0]), key(s[j - 1]));
        }
      }
    } else {
      var t := Insert(x, s[1..], key);
      InsertSorted(x, s[1..], key);
      KeyLeTotal(key(x), key(s[0]));
      forall j | 0 <= j < |t|
        ensures KeyLe(key(s[0]), key(t[j]))
      {
        assert t[j] in multiset([x] + s[1..]);
        if t[j] != x {
          assert t[j] in s[1..];
          var m :| 0 <= m < |s[1..]| && s[1..][m] == t[j];
          assert s[m + 1] == t[j];
        }
      }
      assert r == [s[0]] + t;
    }
  }

  /** The sort puts the keys in ascending order. */
  lemma {:induction false} SortSorted<T>(s: seq<T>, key: T -> SortKey)
    ensures SortedBy(Sort(s, key), key)
  {
    if s != [] {
      SortSorted(s[1..], key);
      InsertSorted(s[0], Sort(s[1..], key), key);
    }
  }

  lemma WithKeyCons<T>(a: T, s: seq<T>, key: T -> SortKey, k: SortKey)
    ensures WithKey([a] + s, key, k) == (if key(a) == k then [a] else []) + WithKey(s, key, k)
  {
    assert ([a] + s)[1..] == s;
  }

  lemma {:induction false} InsertStable<T>(x: T, s: seq<T>, key: T -> SortKey, k: SortKey)
    ensures WithKey(Insert(x, s, key), key, k) == WithKey([x] + s, key, k)
  {
    if s != [] && !KeyLe(key(x), key(s[0])) {
      var t := Insert(x, s[1..], key);
      var w := WithKey(s[1..], key, k);
      InsertStable(x, s[1..], key, k);
      KeyLeReflexive(key(x));
      assert Insert(x, s, key) == [s[0]] + t;
      assert [s[0]] + s[1..] == s;
      WithKeyCons(s[0], t, key, k);
      WithKeyCons(x, s[1..], key, k);
      WithKeyCons(s[0], s[1..], key, k);
      WithKeyCons(x, s, key, k);
      if key(x) == k {
        assert [] + WithKey(t, key, k) == WithKey(t, key, k);
        assert [] + w == w;
      } else {
        assert [] + w == w;
        assert [] + WithKey(s, key, k) == WithKey(s, key, k);
      }
    }
  }

  /** Equal keys keep their original relative order: for every key value,
      the elements carrying it appear in the output exactly as in the input. */
  lemma {:induction false} SortStable<T>(s: seq<T>, key: T -> SortKey, k: SortKey)
    ensures WithKey(Sort(s, key), key, k) == WithKey(s, key, k)
  {
    if s != [] {
      SortStable(s[1..], key, k);
      InsertStable(s[0], Sort(s[1..], key), key, k);
      assert ([s[0]] + Sort(s[1..], key))[1..] == Sort(s[1..], key);
      assert ([s[0]] + s[1..]) == s;
    }
  }
}
