/**
 Python's `sorted(xs, key=f)`: a stable sort by a key computed once per
 element, before any comparison; a key that raises makes the whole sort raise.
 The model sorts pairs of key and element by insertion, which is stable; the
 lemmas show the result is sorted, is a permutation, keeps the input order
 among equal keys, and is the only sequence with those three properties, so
 it is what any stable sort returns.
 */
module StableSort {
  import opened Results

  /** An element with the key `sorted` computed for it. */
  datatype Keyed<T> = Keyed(key: int, item: T)

  predicate SortedByKey<T>(s: seq<Keyed<T>>) {
    forall i, j :: 0 <= i < j < |s| ==> s[i].key <= s[j].key
  }

  /** The elements of `s` whose key is `k`, in their order in `s`. */
  function WithKey<T>(s: seq<Keyed<T>>, k: int): seq<Keyed<T>>
    decreases |s|
  {
    if s == [] then []
    else (if s[0].key == k then [s[0]] else []) + WithKey(s[1..], k)
  }

  /** Puts `x` into the sorted `s` after every element whose key is not larger. */
  function Insert<T>(x: Keyed<T>, s: seq<Keyed<T>>): (r: seq<Keyed<T>>)
    decreases |s|
  {
    if s == [] then [x]
    else if x.key < s[0].key then [x] + s
    else [s[0]] + Insert(x, s[1..])
  }

  /** Stable insertion sort: each element goes in after the earlier ones with the same key. */
  function SortByKey<T>(s: seq<Keyed<T>>): (sorted: seq<Keyed<T>>)
    decreases |s|
  {
    if s == [] then [] else Insert(s[|s| - 1], SortByKey(s[..|s| - 1]))
  }

  /** The elements, keys dropped. */
  function Items<T>(s: seq<Keyed<T>>): seq<T>
    decreases |s|
  {
    if s == [] then [] else [s[0].item] + Items(s[1..])
  }

  lemma {:induction false} WithKeyAppend<T>(a: seq<Keyed<T>>, b: seq<Keyed<T>>, k: int)
    ensures WithKey(a + b, k) == WithKey(a, k) + WithKey(b, k)
    decreases |a|
  {
    if a != [] {
      var head := if a[0].key == k then [a[0]] else [];
      assert (a + b)[0] == a[0];
      assert (a + b)[1..] == a[1..] + b;
      WithKeyAppend(a[1..], b, k);
      assert WithKey(a + b, k) == head + (WithKey(a[1..], k) + WithKey(b, k));
    } else {
      assert a + b == b;
    }
  }

  /** No element of `s` has a key below `m`, so none has key `k < m`. */
  lemma {:induction false} WithKeyBelow<T>(s: seq<Keyed<T>>, m: int, k: int)
    requires forall i :: 0 <= i < |s| ==> m <= s[i].key
    requires k < m
    ensures WithKey(s, k) == []
    decreases |s|
  {
    if s != [] {
      WithKeyBelow(s[1..], m, k);
    }
  }

  /** Inserting keeps a lower bound that `x` and every element of `s` respect. */
  lemma {:induction false} InsertLowerBound<T>(x: Keyed<T>, s: seq<Keyed<T>>, m: int)
    requires m <= x.key && forall i :: 0 <= i < |s| ==> m <= s[i].key
    ensures forall i :: 0 <= i < |Insert(x, s)| ==> m <= Insert(x, s)[i].key
    decreases |s|
  {
    if s != [] && x.key >= s[0].key {
      InsertLowerBound(x, s[1..], m);
      var r := Insert(x, s);
      assert r == [s[0]] + Insert(x, s[1..]);
      forall i | 0 <= i < |r|
        ensures m <= r[i].key
      {
        if i > 0 {
          assert r[i] == Insert(x, s[1..])[i - 1];
        }
      }
    }
  }

  lemma {:induction false} InsertSorted<T>(x: Keyed<T>, s: seq<Keyed<T>>)
    requires SortedByKey(s)
    ensures SortedByKey(Insert(x, s))
    decreases |s|
  {
    if s != [] && x.key >= s[0].key {
      var t := s[1..];
      InsertSorted(x, t);
      InsertLowerBound(x, t, s[0].key);
      var r := Insert(x, s);
      assert r == [s[0]] + Insert(x, t);
      forall i, j | 0 <= i < j < |r|
        ensures r[i].key <= r[j].key
      {
        assert r[j] == Insert(x, t)[j - 1];
        if i > 0 {
          assert r[i] == Insert(x, t)[i - 1];
        }
      }
    }
  }

  /** Inserting adds exactly `x`. */
  lemma {:induction false} InsertMultiset<T>(x: Keyed<T>, s: seq<Keyed<T>>)
    ensures multiset(Insert(x, s)) == multiset(s) + multiset{x}
    decreases |s|
  {
    if s != [] && x.key >= s[0].key {
      InsertMultiset(x, s[1..]);
      assert s == [s[0]] + s[1..];
    }
  }

  /** `x` goes in front of a sorted `s` whose keys are all larger, and no element of `s` shares its key. */
  lemma InsertInFront<T>(x: Keyed<T>, s: seq<Keyed<T>>, k: int)
    requires s != [] && SortedByKey(s) && x.key < s[0].key
    ensures WithKey([x] + s, k) == WithKey(s, k) + WithKey([x], k)
  {
    WithKeyAppend([x], s, k);
    if x.key == k {
      WithKeyBelow(s, s[0].key, k);
    } else {
      assert WithKey([x], k) == [];
    }
  }

  /** Inserting adds `x` after the elements that already have its key. */
  lemma {:induction false} InsertWithKey<T>(x: Keyed<T>, s: seq<Keyed<T>>, k: int)
    requires SortedByKey(s)
    ensures WithKey(Insert(x, s), k) == WithKey(s, k) + WithKey([x], k)
    decreases |s|
  {
    if s == [] {
      assert Insert(x, s) == [x];
      assert s + [x] == [x];
    } else if x.key < s[0].key {
      InsertInFront(x, s, k);
    } else {
      var t := s[1..];
      var u := Insert(x, t);
      InsertWithKey(x, t, k);
      assert Insert(x, s) == [s[0]] + u;
      assert s == [s[0]] + t;
      WithKeyAppend([s[0]], u, k);
      WithKeyAppend([s[0]], t, k);
      assert WithKey(Insert(x, s), k) == WithKey([s[0]], k) + (WithKey(t, k) + WithKey([x], k));
    }
  }

  /** The sort returns its input in ascending key order. */
  lemma {:induction false} SortByKeySorted<T>(s: seq<Keyed<T>>)
    ensures SortedByKey(SortByKey(s))
    ensures multiset(SortByKey(s)) == multiset(s)
    ensures forall k :: WithKey(SortByKey(s), k) == WithKey(s, k)
    decreases |s|
  {
    if s != [] {
      var init := s[..|s| - 1];
      var x := s[|s| - 1];
      SortByKeySorted(init);
      InsertSorted(x, SortByKey(init));
      InsertMultiset(x, SortByKey(init));
      assert s == init + [x];
      forall k
        ensures WithKey(SortByKey(s), k) == WithKey(s, k)
      {
        InsertWithKey(x, SortByKey(init), k);
        WithKeyAppend(init, [x], k);
      }
    }
  }

  /** The first element of `s` is the first with its key. */
  lemma WithKeyHead<T>(s: seq<Keyed<T>>)
    requires s != []
    ensures WithKey(s, s[0].key) == [s[0]] + WithKey(s[1..], s[0].key)
  {
  }

  /**
   Two sequences sorted by key in which every key has the same elements in the
   same order are equal: a stable sort has only one possible result.
   */
  lemma {:induction false} StableSortUnique<T>(a: seq<Keyed<T>>, b: seq<Keyed<T>>)
    requires SortedByKey(a) && SortedByKey(b)
    requires forall k :: WithKey(a, k) == WithKey(b, k)
    ensures a == b
    decreases |a| + |b|
  {
    if a == [] && b != [] {
      WithKeyHead(b);
      assert false;
    } else if b == [] && a != [] {
      WithKeyHead(a);
      assert false;
    } else if a != [] {
      var ka := a[0].key;
      var kb := b[0].key;
      if ka < kb {
        WithKeyBelow(b, kb, ka);
        WithKeyHead(a);
        assert false;
      } else if kb < ka {
        WithKeyBelow(a, ka, kb);
        WithKeyHead(b);
        assert false;
      } else {
        assert WithKey(a, ka) == [a[0]] + WithKey(a[1..], ka);
        assert WithKey(b, ka) == [b[0]] + WithKey(b[1..], ka);
        assert a[0] == WithKey(a, ka)[0] == WithKey(b, ka)[0] == b[0];
        forall k
          ensures WithKey(a[1..], k) == WithKey(b[1..], k)
        {
          var head := if ka == k then [a[0]] else [];
          assert WithKey(a, k) == head + WithKey(a[1..], k);
          assert WithKey(b, k) == head + WithKey(b[1..], k);
          assert WithKey(a[1..], k) == WithKey(a, k)[|head|..];
        }
        StableSortUnique(a[1..], b[1..]);
        assert a == [a[0]] + a[1..];
        assert b == [b[0]] + b[1..];
      }
    }
  }

  /** Any sorted sequence that keeps each key's elements in input order is the model's sort. */
  lemma StableSortIsSortByKey<T>(s: seq<Keyed<T>>, r: seq<Keyed<T>>)
    requires SortedByKey(r)
    requires forall k :: WithKey(r, k) == WithKey(s, k)
    ensures r == SortByKey(s)
  {
    SortByKeySorted(s);
    StableSortUnique(r, SortByKey(s));
  }

  lemma {:induction false} ItemsLength<T>(s: seq<Keyed<T>>)
    ensures |Items(s)| == |s|
    ensures forall i :: 0 <= i < |s| ==> Items(s)[i] == s[i].item
    decreases |s|
  {
    if s != [] {
      ItemsLength(s[1..]);
    }
  }

  // ---- `sorted(xs, key=f)` with a key that may raise ----

  /**
   The key of every element, computed front to back; the first element whose
   key fails (`None`, an exception in the source) is the error.
   */
  function KeyAll<T>(xs: seq<T>, key: T -> Option<int>): Result<seq<Keyed<T>>, T>
    decreases |xs|
  {
    if xs == [] then Ok([])
    else
      match key(xs[0])
      case None => Err(xs[0])
      case Some(m) =>
        match KeyAll(xs[1..], key)
        case Err(x) => Err(x)
        case Ok(rest) => Ok([Keyed(m, xs[0])] + rest)
  }

  /** Python's `sorted(xs, key=key)`: `Err(x)` when the key of `x` raises. */
  function SortedBy<T>(xs: seq<T>, key: T -> Option<int>): Result<seq<T>, T> {
    match KeyAll(xs, key)
    case Err(x) => Err(x)
    case Ok(ks) => Ok(Items(SortByKey(ks)))
  }

  /** `x` carries the key of its element. */
  predicate KeyedBy<T>(x: Keyed<T>, key: T -> Option<int>) {
    key(x.item) == Some(x.key)
  }

  /** The elements of `xs` whose key is `m`, in their order in `xs`. */
  function ItemsAt<T>(xs: seq<T>, key: T -> Option<int>, m: int): seq<T>
    decreases |xs|
  {
    if xs == [] then []
    else (if key(xs[0]) == Some(m) then [xs[0]] else []) + ItemsAt(xs[1..], key, m)
  }

  /**
   Keying succeeds exactly when every key does; it then keeps the elements in
   order, each with its own key.
   */
  lemma {:induction false} KeyAllOk<T>(xs: seq<T>, key: T -> Option<int>)
    ensures KeyAll(xs, key).Ok? <==> forall i :: 0 <= i < |xs| ==> key(xs[i]).Some?
    ensures KeyAll(xs, key).Ok? ==>
      Items(KeyAll(xs, key).value) == xs && forall x :: x in KeyAll(xs, key).value ==> KeyedBy(x, key)
    decreases |xs|
  {
    if xs != [] {
      var tail := xs[1..];
      KeyAllOk(tail, key);
      if key(xs[0]).Some? && KeyAll(tail, key).Ok? {
        var rest := KeyAll(tail, key).value;
        var ks := KeyAll(xs, key).value;
        assert ks == [Keyed(key(xs[0]).value, xs[0])] + rest;
        assert ks[1..] == rest;
        assert xs == [xs[0]] + tail;
      }
      if !KeyAll(tail, key).Ok? {
        var i :| 0 <= i < |tail| && !key(tail[i]).Some?;
        assert xs[i + 1] == tail[i];
      }
    }
  }

  /** The error names the first element whose key fails. */
  lemma {:induction false} KeyAllFirstError<T>(xs: seq<T>, key: T -> Option<int>, i: nat)
    requires i < |xs| && key(xs[i]).None?
    requires forall j :: 0 <= j < i ==> key(xs[j]).Some?
    ensures KeyAll(xs, key) == Err(xs[i])
    decreases i
  {
    if i > 0 {
      var tail := xs[1..];
      assert tail[i - 1] == xs[i];
      forall j | 0 <= j < i - 1
        ensures key(tail[j]).Some?
      {
        assert tail[j] == xs[j + 1];
      }
      KeyAllFirstError(tail, key, i - 1);
      assert key(xs[0]).Some?;
    }
  }

  lemma {:induction false} ItemsAppend<T>(a: seq<Keyed<T>>, b: seq<Keyed<T>>)
    ensures Items(a + b) == Items(a) + Items(b)
    decreases |a|
  {
    if a != [] {
      assert (a + b)[1..] == a[1..] + b;
      ItemsAppend(a[1..], b);
    } else {
      assert a + b == b;
    }
  }

  lemma ItemsCons<T>(y: Keyed<T>, s: seq<Keyed<T>>)
    ensures Items([y] + s) == [y.item] + Items(s)
  {
    assert ([y] + s)[1..] == s;
  }

  /** Inserting adds one copy of `x`'s element. */
  lemma {:induction false} ItemsInsert<T>(x: Keyed<T>, s: seq<Keyed<T>>)
    ensures multiset(Items(Insert(x, s))) == multiset(Items(s)) + multiset{x.item}
    decreases |s|
  {
    if s == [] {
      ItemsCons(x, []);
    } else if x.key < s[0].key {
      ItemsCons(x, s);
    } else {
      var t, u := s[1..], Insert(x, s[1..]);
      ItemsInsert(x, t);
      ItemsCons(s[0], u);
      assert multiset(Items(Insert(x, s))) == multiset([s[0].item]) + multiset(Items(u));
      assert multiset(Items(s)) == multiset([s[0].item]) + multiset(Items(t));
    }
  }

  lemma ItemsSnoc<T>(s: seq<Keyed<T>>)
    requires s != []
    ensures Items(s) == Items(s[..|s| - 1]) + [s[|s| - 1].item]
  {
    var init, x := s[..|s| - 1], s[|s| - 1];
    assert s == init + [x];
    ItemsAppend(init, [x]);
    ItemsCons(x, []);
  }

  /** Sorting keeps the multiset of elements. */
  lemma {:induction false} ItemsSortByKey<T>(s: seq<Keyed<T>>)
    ensures multiset(Items(SortByKey(s))) == multiset(Items(s))
    decreases |s|
  {
    if s != [] {
      var init, x := s[..|s| - 1], s[|s| - 1];
      ItemsSortByKey(init);
      ItemsInsert(x, SortByKey(init));
      ItemsSnoc(s);
    }
  }

  /** Elements of a filter are elements of the sequence. */
  lemma {:induction false} WithKeyIn<T>(s: seq<Keyed<T>>, m: int)
    ensures forall x :: x in WithKey(s, m) ==> x in s
    decreases |s|
  {
    if s != [] {
      WithKeyIn(s[1..], m);
    }
  }

  /** Dropping keys from the elements with key `m` gives the elements whose key is `m`. */
  lemma {:induction false} ItemsWithKey<T>(ks: seq<Keyed<T>>, key: T -> Option<int>, m: int)
    requires forall x :: x in ks ==> KeyedBy(x, key)
    ensures Items(WithKey(ks, m)) == ItemsAt(Items(ks), key, m)
    decreases |ks|
  {
    if ks != [] {
      assert ks[0] in ks;
      assert forall x :: x in ks[1..] ==> x in ks;
      ItemsWithKey(ks[1..], key, m);
      var head := if ks[0].key == m then [ks[0]] else [];
      ItemsAppend(head, WithKey(ks[1..], m));
      assert Items(ks)[1..] == Items(ks[1..]);
    }
  }

  /** Keyed elements are fixed by their elements, since the key is a function of the element. */
  lemma {:induction false} KeyedItemsDetermined<T>(a: seq<Keyed<T>>, b: seq<Keyed<T>>, key: T -> Option<int>)
    requires forall x :: x in a ==> KeyedBy(x, key)
    requires forall x :: x in b ==> KeyedBy(x, key)
    requires Items(a) == Items(b)
    ensures a == b
    decreases |a|
  {
    ItemsLength(a);
    ItemsLength(b);
    if a != [] {
      assert a[0] in a && b[0] in b;
      assert a[0].item == b[0].item;
      assert Items(a[1..]) == Items(a)[1..] && Items(b[1..]) == Items(b)[1..];
      assert forall x :: x in a[1..] ==> x in a;
      assert forall x :: x in b[1..] ==> x in b;
      KeyedItemsDetermined(a[1..], b[1..], key);
      assert a == [a[0]] + a[1..] && b == [b[0]] + b[1..];
    }
  }

  /**
   `sorted` succeeds exactly when every key does. Its result is then a
   permutation of the input in ascending key order, in which the elements
   with equal keys keep their input order.
   */
  lemma SortedBySpec<T>(xs: seq<T>, key: T -> Option<int>)
    ensures SortedBy(xs, key).Ok? <==> forall i :: 0 <= i < |xs| ==> key(xs[i]).Some?
    ensures SortedBy(xs, key).Ok? ==>
      var s := SortedBy(xs, key).value;
      && multiset(s) == multiset(xs)
      && (forall i :: 0 <= i < |s| ==> key(s[i]).Some?)
      && (forall i, j :: 0 <= i < j < |s| ==> key(s[i]).value <= key(s[j]).value)
      && (forall m :: ItemsAt(s, key, m) == ItemsAt(xs, key, m))
  {
    KeyAllOk(xs, key);
    if SortedBy(xs, key).Ok? {
      var ks := KeyAll(xs, key).value;
      var sk := SortByKey(ks);
      var s := Items(sk);
      SortByKeySorted(ks);
      ItemsSortByKey(ks);
      ItemsLength(sk);
      assert forall x :: x in sk ==> KeyedBy(x, key) by {
        forall x | x in sk
          ensures KeyedBy(x, key)
        {
          assert x in multiset(sk);
        }
      }
      forall i | 0 <= i < |s|
        ensures key(s[i]) == Some(sk[i].key)
      {
        assert sk[i] in sk;
      }
      forall m
        ensures ItemsAt(s, key, m) == ItemsAt(xs, key, m)
      {
        ItemsWithKey(sk, key, m);
        ItemsWithKey(ks, key, m);
      }
    }
  }

  /**
   Any sequence sorted by key that keeps, for every key, the input's elements
   in the input's order is what `sorted` returns.
   */
  lemma SortedByUnique<T>(xs: seq<T>, key: T -> Option<int>, s: seq<T>)
    requires SortedBy(xs, key).Ok?
    requires forall i :: 0 <= i < |s| ==> key(s[i]).Some?
    requires forall i, j :: 0 <= i < j < |s| ==> key(s[i]).value <= key(s[j]).value
    requires forall m :: ItemsAt(s, key, m) == ItemsAt(xs, key, m)
    ensures s == SortedBy(xs, key).value
  {
    KeyAllOk(xs, key);
    KeyAllOk(s, key);
    var ks := KeyAll(xs, key).value;
    var kt := KeyAll(s, key).value;
    ItemsLength(kt);
    forall i, j | 0 <= i < j < |kt|
      ensures kt[i].key <= kt[j].key
    {
      assert kt[i] in kt && kt[j] in kt;
    }
    forall m
      ensures WithKey(kt, m) == WithKey(ks, m)
    {
      ItemsWithKey(kt, key, m);
      ItemsWithKey(ks, key, m);
      WithKeyIn(kt, m);
      WithKeyIn(ks, m);
      KeyedItemsDetermined(WithKey(kt, m), WithKey(ks, m), key);
    }
    StableSortIsSortByKey(ks, kt);
  }

  /** Three keys computed one by one. */
  lemma KeyAllThree<T>(a: T, b: T, c: T, key: T -> Option<int>)
    requires key(a).Some? && key(b).Some? && key(c).Some?
    ensures KeyAll([a, b, c], key) == Ok([Keyed(key(a).value, a), Keyed(key(b).value, b), Keyed(key(c).value, c)])
  {
    assert [a, b, c][1..] == [b, c] && [b, c][1..] == [c] && [c][1..] == [];
    var kb, kc := Keyed(key(b).value, b), Keyed(key(c).value, c);
    assert KeyAll([], key) == Ok([]);
    var ka := Keyed(key(a).value, a);
    assert [kc] + [] == [kc] && [kb] + [kc] == [kb, kc] && [ka] + [kb, kc] == [ka, kb, kc];
    assert KeyAll([c], key) == Ok([kc]);
    assert KeyAll([b, c], key) == Ok([Keyed(key(b).value, b), Keyed(key(c).value, c)]);
  }

  /** A smaller key moves to the front; equal keys keep their order. */
  lemma SortThree<T>(x: Keyed<T>, y: Keyed<T>, z: Keyed<T>)
    requires x.key == y.key && z.key < x.key
    ensures SortByKey([x, y, z]) == [z, x, y]
  {
    assert [x, y][..1] == [x] && [x][..0] == [] && [x][1..] == [] && [x, y][1..] == [y];
    assert [x, y, z][..2] == [x, y];
    assert SortByKey([x]) == [x];
    assert Insert(y, [x]) == [x, y];
    assert SortByKey([x, y]) == [x, y];
    assert Insert(z, [x, y]) == [z, x, y];
  }

  /** `sorted` moves an element with a smaller key ahead of two with equal keys, which keep their order. */
  lemma SortedByThree<T>(a: T, b: T, c: T, key: T -> Option<int>)
    requires key(a).Some? && key(b) == key(a) && key(c).Some? && key(c).value < key(a).value
    ensures SortedBy([a, b, c], key) == Ok([c, a, b])
  {
    var ka, kb, kc := Keyed(key(a).value, a), Keyed(key(b).value, b), Keyed(key(c).value, c);
    KeyAllThree(a, b, c, key);
    SortThree(ka, kb, kc);
    var s := [kc, ka, kb];
    assert s[1..] == [ka, kb] && s[1..][1..] == [kb] && [kb][1..] == [];
    assert Items([kb]) == [b];
    assert Items([ka, kb]) == [a, b];
    assert Items(s) == [c, a, b];
    assert KeyAll([a, b, c], key) == Ok([ka, kb, kc]);
    assert SortByKey([ka, kb, kc]) == s;
  }
}
