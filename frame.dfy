/**
 * The data-frame operation the pipeline relies on: `drop_duplicates`, which keeps,
 * in order, the first row of every group of equal rows. Rows are compared through
 * a key function, so that a frame whose rows carry their index label can be
 * deduplicated on the row values alone.
 */
module Frame {

  /** The keys carried by the rows of `s`. */
  function KeySet<T, K>(s: seq<T>, key: T -> K): set<K>
  {
    set i | 0 <= i < |s| :: key(s[i])
  }

  /** No two rows of `s` carry the same key. */
  predicate DistinctKeys<T, K(==)>(s: seq<T>, key: T -> K)
  {
    forall i, j :: 0 <= i < j < |s| ==> key(s[i]) != key(s[j])
  }

  lemma KeySetSnoc<T, K>(s: seq<T>, x: T, key: T -> K)
    ensures KeySet(s + [x], key) == KeySet(s, key) + {key(x)}
  {
    var t := s + [x];
    assert key(t[|s|]) == key(x);
    forall k | k in KeySet(s, key) ensures k in KeySet(t, key) {
      var i :| 0 <= i < |s| && key(s[i]) == k;
      assert key(t[i]) == k;
    }
  }

  lemma KeySetInit<T, K>(s: seq<T>, key: T -> K)
    requires s != []
    ensures KeySet(s, key) == KeySet(s[..|s| - 1], key) + {key(s[|s| - 1])}
  {
    assert s == s[..|s| - 1] + [s[|s| - 1]];
    KeySetSnoc(s[..|s| - 1], s[|s| - 1], key);
  }

  /**
   * `drop_duplicates()`: the rows of `s` whose key does not occur earlier in `s`,
   * in their original order.
   */
  function DropDuplicates<T, K(==)>(s: seq<T>, key: T -> K): (r: seq<T>)
    ensures |r| <= |s|
    ensures forall x :: x in r ==> x in s
    ensures DistinctKeys(r, key)
    ensures KeySet(r, key) == KeySet(s, key)
  {
    if s == [] then []
    else
      var init, last := s[..|s| - 1], s[|s| - 1];
      var r := DropDuplicates(init, key);
      KeySetInit(s, key);
      if key(last) in KeySet(init, key) then r
      else
        KeySetSnoc(r, last, key);
        r + [last]
  }

  /** The position of the first row of `s` whose key is `k`. */
  function FirstIndex<T, K(==)>(s: seq<T>, key: T -> K, k: K): (i: nat)
    requires k in KeySet(s, key)
    ensures i < |s| && key(s[i]) == k
    ensures forall j :: 0 <= j < i ==> key(s[j]) != k
  {
    var init := s[..|s| - 1];
    KeySetInit(s, key);
    if k in KeySet(init, key) then FirstIndex(init, key, k) else |s| - 1
  }

  /** The position of the last row of `s` whose key is `k`. */
  function LastIndex<T, K(==)>(s: seq<T>, key: T -> K, k: K): (i: nat)
    requires k in KeySet(s, key)
    ensures i < |s| && key(s[i]) == k
    ensures forall j :: i < j < |s| ==> key(s[j]) != k
  {
    KeySetInit(s, key);
    if key(s[|s| - 1]) == k then |s| - 1 else LastIndex(s[..|s| - 1], key, k)
  }

  /** Every row of `r` is the first row of `s` with its key. */
  ghost predicate FirstOccurrences<T, K>(s: seq<T>, r: seq<T>, key: T -> K)
  {
    forall i :: 0 <= i < |r| ==> key(r[i]) in KeySet(s, key) && r[i] == s[FirstIndex(s, key, key(r[i]))]
  }

  /** The rows of `r` come in the order of their first occurrences in `s`. */
  ghost predicate InFirstOccurrenceOrder<T, K>(s: seq<T>, r: seq<T>, key: T -> K)
    requires FirstOccurrences(s, r, key)
  {
    forall i, j :: 0 <= i < j < |r| ==> FirstIndex(s, key, key(r[i])) < FirstIndex(s, key, key(r[j]))
  }

  /**
   * Every kept row is the first row of `s` with its key, and the kept rows appear
   * in the order of those first occurrences.
   */
  lemma {:induction false} DropDuplicatesKeepsFirst<T, K>(s: seq<T>, key: T -> K)
    ensures FirstOccurrences(s, DropDuplicates(s, key), key)
    ensures InFirstOccurrenceOrder(s, DropDuplicates(s, key), key)
  {
    if s != [] {
      var init, last := s[..|s| - 1], s[|s| - 1];
      DropDuplicatesKeepsFirst(init, key);
      KeySetInit(s, key);
      var r0 := DropDuplicates(init, key);
      var r := DropDuplicates(s, key);
      var kept := key(last) !in KeySet(init, key);
      assert r == if kept then r0 + [last] else r0;
      forall i | 0 <= i < |r|
        ensures key(r[i]) in KeySet(s, key) && r[i] == s[FirstIndex(s, key, key(r[i]))]
        ensures i < |r0| ==> FirstIndex(s, key, key(r[i])) == FirstIndex(init, key, key(r0[i]))
        ensures i == |r0| ==> FirstIndex(s, key, key(r[i])) == |init|
      {
        if i < |r0| {
          var k := key(r0[i]);
          assert r[i] == r0[i];
          assert k in KeySet(init, key) && r0[i] == init[FirstIndex(init, key, k)];
          assert FirstIndex(s, key, k) == FirstIndex(init, key, k);
        } else {
          assert r[i] == last;
        }
      }
      assert FirstOccurrences(s, r, key);
      forall i, j | 0 <= i < j < |r|
        ensures FirstIndex(s, key, key(r[i])) < FirstIndex(s, key, key(r[j]))
      {
        assert FirstIndex(init, key, key(r0[i])) < |init|;
        if j < |r0| {
          assert FirstIndex(init, key, key(r0[i])) < FirstIndex(init, key, key(r0[j]));
        }
      }
    }
  }

  /** A row set without repeated keys has as many rows as keys. */
  lemma {:induction false} DistinctKeysCount<T, K>(s: seq<T>, key: T -> K)
    requires DistinctKeys(s, key)
    ensures |KeySet(s, key)| == |s|
  {
    if s != [] {
      var init, last := s[..|s| - 1], s[|s| - 1];
      KeySetInit(s, key);
      DistinctKeysCount(init, key);
    }
  }

  /** The deduplicated frame has exactly one row per distinct key of the input. */
  lemma DropDuplicatesCount<T, K>(s: seq<T>, key: T -> K)
    ensures |DropDuplicates(s, key)| == |KeySet(s, key)|
  {
    DistinctKeysCount(DropDuplicates(s, key), key);
  }

  /** Rows compared whole: the key of a row is the row itself. */
  function Identity<T>(x: T): T
  {
    x
  }

  /**
   * Deduplicating whole rows: the result holds exactly the rows of `s`, each once,
   * as many as `s` has distinct rows, in the order of their first occurrences.
   */
  lemma DropDuplicateRows<T>(s: seq<T>)
    ensures forall x :: x in DropDuplicates(s, Identity) <==> x in s
    ensures DistinctKeys(DropDuplicates(s, Identity), Identity)
    ensures |DropDuplicates(s, Identity)| == |set x | x in s|
    ensures FirstOccurrences(s, DropDuplicates(s, Identity), Identity)
    ensures InFirstOccurrenceOrder(s, DropDuplicates(s, Identity), Identity)
  {
    var r := DropDuplicates(s, Identity);
    forall x | x in s ensures x in r {
      var i :| 0 <= i < |s| && s[i] == x;
      assert Identity(s[i]) in KeySet(s, Identity);
      assert x in KeySet(r, Identity);
    }
    assert KeySet(s, Identity) == set x | x in s by {
      forall x | x in s ensures x in KeySet(s, Identity) {
        var i :| 0 <= i < |s| && s[i] == x;
        assert Identity(s[i]) == x;
      }
    }
    DropDuplicatesCount(s, Identity);
    DropDuplicatesKeepsFirst(s, Identity);
  }

  /** Every row of `s` comes `before` every later row. */
  ghost predicate Ordered<T>(s: seq<T>, before: (T, T) -> bool)
  {
    forall i, j :: 0 <= i < j < |s| ==> before(s[i], s[j])
  }

  /** Deduplication keeps the rows in their original relative order. */
  lemma {:induction false} DropDuplicatesKeepsOrder<T, K>(s: seq<T>, key: T -> K, before: (T, T) -> bool)
    requires Ordered(s, before)
    ensures Ordered(DropDuplicates(s, key), before)
    decreases |s|
  {
    if s != [] {
      var init, last := s[..|s| - 1], s[|s| - 1];
      assert Ordered(init, before) by {
        forall i, j | 0 <= i < j < |init| ensures before(init[i], init[j]) {
          assert init[i] == s[i] && init[j] == s[j];
        }
      }
      DropDuplicatesKeepsOrder(init, key, before);
      var r0 := DropDuplicates(init, key);
      var r := DropDuplicates(s, key);
      if key(last) in KeySet(init, key) {
        assert r == r0;
      } else {
        assert r == r0 + [last];
        forall i, j | 0 <= i < j < |r| ensures before(r[i], r[j]) {
          if j == |r0| {
            assert r[i] == r0[i] && r0[i] in init;
            var k :| 0 <= k < |init| && init[k] == r0[i];
            assert before(s[k], s[|s| - 1]);
          } else {
            assert r[i] == r0[i] && r[j] == r0[j];
            assert before(r0[i], r0[j]);
          }
        }
      }
    }
  }
}
