/**
 The insertion order of a JavaScript object's keys, written out as a sequence.
 `Object.keys` and `Object.entries` enumerate string keys in the order they were
 first inserted, and deleting a key keeps the relative order of the others.
 */
module KeyOrder {

  /** The elements of a sequence, as a set. */
  function Members<T>(s: seq<T>): set<T>
  {
    set x | x in s
  }

  /** No key occurs twice. */
  predicate Distinct<T(==)>(s: seq<T>)
  {
    forall i, j :: 0 <= i < j < |s| ==> s[i] != s[j]
  }

  /** Appending adds one element to the set of elements. */
  lemma MembersSnoc<T>(s: seq<T>, x: T)
    ensures Members(s + [x]) == Members(s) + {x}
  {
  }

  /** Appending a new key keeps the keys distinct. */
  lemma DistinctSnoc<T>(s: seq<T>, x: T)
    requires Distinct(s) && x !in s
    ensures Distinct(s + [x])
    ensures Members(s + [x]) == Members(s) + {x}
  {
  }

  /** `a` is `b` with some elements left out, the rest kept in their order. */
  predicate Subsequence<T(==)>(a: seq<T>, b: seq<T>)
    decreases |b|
  {
    if a == [] then true
    else if b == [] then false
    else if a[|a| - 1] == b[|b| - 1] then Subsequence(a[..|a| - 1], b[..|b| - 1])
    else Subsequence(a, b[..|b| - 1])
  }

  /** The keys of an object after assigning, in turn, to each element of `s`:
      a key already present keeps its first position. */
  function Dedup<T(==)>(s: seq<T>): seq<T>
  {
    if s == [] then []
    else
      var init, x := s[..|s| - 1], s[|s| - 1];
      if x in init then Dedup(init) else Dedup(init) + [x]
  }

  /** The key order lists every assigned key once, in the order of the assignments. */
  lemma {:induction false} DedupSpec<T>(s: seq<T>)
    ensures Distinct(Dedup(s))
    ensures Members(Dedup(s)) == Members(s)
    ensures Subsequence(Dedup(s), s)
  {
    if s != [] {
      var init, x := s[..|s| - 1], s[|s| - 1];
      assert init + [x] == s;
      assert Members(s) == Members(init) + {x};
      DedupSpec(init);
      var d := Dedup(init);
      if x in init {
        SubsequenceSnoc(d, init, x);
      } else {
        DistinctSnoc(d, x);
        SubsequenceBothSnoc(d, init, x);
      }
    }
  }

  /** The position at which `x` first occurs in `s`. */
  function FirstIndex<T(==)>(s: seq<T>, x: T): (r: nat)
    requires x in s
    ensures r < |s| && s[r] == x
    ensures forall k :: 0 <= k < r ==> s[k] != x
  {
    var init := s[..|s| - 1];
    assert init + [s[|s| - 1]] == s;
    if x in init then FirstIndex(init, x) else |s| - 1
  }

  /** The keys of `d` come in the order in which `s` first names them. */
  predicate FirstOccurrenceOrder<T(==)>(d: seq<T>, s: seq<T>)
  {
    forall i, j :: 0 <= i < j < |d| && d[i] in s && d[j] in s ==> FirstIndex(s, d[i]) < FirstIndex(s, d[j])
  }

  /** The key order lists the keys in the order of their first assignment. Together with
      `DedupSpec` this determines the order completely. */
  lemma {:induction false} DedupFirstOrder<T>(s: seq<T>)
    ensures FirstOccurrenceOrder(Dedup(s), s)
  {
    if s != [] {
      var init, x := s[..|s| - 1], s[|s| - 1];
      assert init + [x] == s;
      DedupFirstOrder(init);
      DedupSpec(init);
      var d := Dedup(init);
      forall y | y in init ensures FirstIndex(s, y) == FirstIndex(init, y) {
        FirstIndexSnoc(init, x, y);
      }
      if x !in init {
        assert Dedup(s) == d + [x];
        forall i | 0 <= i < |d| ensures d[i] in init && FirstIndex(s, d[i]) < FirstIndex(s, x) {
          assert d[i] in Members(d);
        }
      }
    }
  }

  /** Appending to a sequence does not move the first occurrence of a key already in it. */
  lemma FirstIndexSnoc<T>(s: seq<T>, x: T, y: T)
    requires y in s
    ensures FirstIndex(s + [x], y) == FirstIndex(s, y)
  {
    assert (s + [x])[..|s|] == s;
  }

  /** Assigning one more key: a new key goes last, a present one keeps its place. */
  lemma DedupSnoc<T>(s: seq<T>, x: T)
    ensures Dedup(s + [x]) == if x in s then Dedup(s) else Dedup(s) + [x]
  {
    assert (s + [x])[..|s|] == s;
  }

  /** Appending anything to the longer sequence keeps a subsequence a subsequence. */
  lemma {:induction false} SubsequenceSnoc<T>(a: seq<T>, b: seq<T>, x: T)
    requires Subsequence(a, b)
    ensures Subsequence(a, b + [x])
    decreases |b|, 1
  {
    var b' := b + [x];
    assert b'[..|b|] == b;
    if a != [] && a[|a| - 1] == x {
      // the last element of `a` is matched against `x`; the rest must fit into `b`
      SubsequenceDropLast(a, b);
    }
  }

  /** Appending the same element to both keeps a subsequence a subsequence. */
  lemma SubsequenceBothSnoc<T>(a: seq<T>, b: seq<T>, x: T)
    requires Subsequence(a, b)
    ensures Subsequence(a + [x], b + [x])
  {
    assert (a + [x])[..|a|] == a;
    assert (b + [x])[..|b|] == b;
  }

  /** Dropping the last element of the subsequence keeps it a subsequence. */
  lemma {:induction false} SubsequenceDropLast<T>(a: seq<T>, b: seq<T>)
    requires a != [] && Subsequence(a, b)
    ensures Subsequence(a[..|a| - 1], b)
    decreases |b|, 0
  {
    var a' := a[..|a| - 1];
    var b' := b[..|b| - 1];
    if a[|a| - 1] == b[|b| - 1] {
      SubsequenceSnoc(a', b', b[|b| - 1]);
      assert b' + [b[|b| - 1]] == b;
    } else {
      SubsequenceDropLast(a, b');
      SubsequenceSnoc(a', b', b[|b| - 1]);
      assert b' + [b[|b| - 1]] == b;
    }
  }

  /** `s` with every occurrence of `x` deleted, the other keys kept in their order:
      the key order of an object after `delete obj[x]`. */
  function Without<T(==)>(s: seq<T>, x: T): (r: seq<T>)
    ensures Members(r) == Members(s) - {x}
    ensures x !in s ==> r == s
    ensures Subsequence(r, s)
  {
    if s == [] then []
    else
      var init, y := s[..|s| - 1], s[|s| - 1];
      assert init + [y] == s;
      assert Members(s) == Members(init) + {y};
      var w := Without(init, x);
      if y == x then
        SubsequenceSnoc(w, init, y);
        w
      else
        assert (w + [y])[..|w|] == w;
        assert Members(w + [y]) == Members(w) + {y};
        w + [y]
  }

  /** Deleting a key from a duplicate-free key order leaves one key fewer, still without duplicates. */
  lemma {:induction false} WithoutDistinct<T>(s: seq<T>, x: T)
    requires Distinct(s)
    ensures Distinct(Without(s, x))
    ensures x in s ==> |Without(s, x)| == |s| - 1
  {
    if s != [] {
      var init, y := s[..|s| - 1], s[|s| - 1];
      assert init + [y] == s;
      assert Distinct(init) && y !in init;
      WithoutDistinct(init, x);
      var w := Without(init, x);
      if y != x {
        assert Without(s, x) == w + [y];
        assert y !in Members(w);
      }
    }
  }
}
