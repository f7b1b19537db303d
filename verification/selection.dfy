/**
 * Selection lists: the change test `isSelectionChange`, the Set that holds
 * the registered cells (insertion order, no repeats) and the filter that
 * `mouseup` runs over the cells to build the new selection.
 */
module Selection {
  import opened Wrappers
  import opened Geometry

  /** No item occurs twice. */
  predicate Distinct<T(==)>(s: seq<T>) {
    forall i, j :: 0 <= i < j < |s| ==> s[i] != s[j]
  }

  /** The items of a list, ignoring order and repeats (`new Set(list)`). */
  function Elems<T>(s: seq<T>): set<T> { set x | x in s }

  /**
   * `isSelectionChange`: the lengths differ, or the union of both lists
   * holds a different number of items than `origin` has entries.
   */
  function IsSelectionChange<T(==)>(origin: seq<T>, change: seq<T>): (changed: bool)
    ensures |origin| != |change| ==> changed
  {
    |origin| != |change| || |Elems(origin + change)| != |origin|
  }

  lemma ElemsSnoc<T>(s: seq<T>, x: T)
    ensures Elems(s + [x]) == Elems(s) + {x}
  {
  }

  /** A list never has more distinct items than entries; exactly as many when it is duplicate-free. */
  lemma {:induction false} ElemsCard<T>(s: seq<T>)
    ensures |Elems(s)| <= |s|
    ensures Distinct(s) <==> |Elems(s)| == |s|
    decreases |s|
  {
    if s != [] {
      var init, x := s[..|s| - 1], s[|s| - 1];
      assert s == init + [x];
      ElemsSnoc(init, x);
      ElemsCard(init);
      if x in init {
        assert Elems(s) == Elems(init);
        var k :| 0 <= k < |init| && init[k] == x;
        assert s[k] == s[|s| - 1];
        assert !Distinct(s);
      } else {
        assert |Elems(s)| == |Elems(init)| + 1;
        if Distinct(init) {
          assert Distinct(s) by {
            forall i, j | 0 <= i < j < |s| ensures s[i] != s[j] {
              if j == |s| - 1 {
                assert s[i] == init[i];
              } else {
                assert s[i] == init[i] && s[j] == init[j];
              }
            }
          }
        } else {
          var i, j :| 0 <= i < j < |init| && init[i] == init[j];
          assert s[i] == s[j];
        }
      }
    }
  }

  lemma SubsetSameCard<T>(a: set<T>, b: set<T>)
    requires a <= b && |a| == |b|
    ensures a == b
  {
    assert |b - a| == |b| - |a|;
  }

  /**
   * For duplicate-free lists the change test reports no change exactly
   * when both lists hold the same items, in any order.
   */
  lemma SelectionChangeIffSameItems<T>(origin: seq<T>, change: seq<T>)
    requires Distinct(origin) && Distinct(change)
    ensures !IsSelectionChange(origin, change) <==> Elems(origin) == Elems(change)
  {
    ElemsCard(origin);
    ElemsCard(change);
    assert Elems(origin + change) == Elems(origin) + Elems(change);
    if !IsSelectionChange(origin, change) {
      SubsetSameCard(Elems(origin), Elems(origin + change));
      SubsetSameCard(Elems(change), Elems(origin));
    }
    if Elems(origin) == Elems(change) {
      assert Elems(origin + change) == Elems(origin);
    }
  }

  /** Comparing a duplicate-free list with any permutation of it reports no change. */
  lemma PermutationUnchanged<T>(origin: seq<T>, change: seq<T>)
    requires Distinct(origin) && multiset(origin) == multiset(change)
    ensures !IsSelectionChange(origin, change)
  {
    ElemsCard(origin);
    assert |origin| == |multiset(origin)| == |change|;
    assert Elems(origin + change) == Elems(origin) by {
      forall y ensures y in origin + change <==> y in origin {
        assert y in origin <==> y in multiset(origin);
        assert y in change <==> y in multiset(change);
      }
    }
  }

  /**
   * A list with a repeated item is reported as changed even when it is
   * compared with itself: the union then has fewer items than the list.
   */
  lemma RepeatedItemAlwaysChanged<T>(s: seq<T>)
    requires !Distinct(s)
    ensures IsSelectionChange(s, s)
  {
    ElemsCard(s);
    assert Elems(s + s) == Elems(s);
  }

  /**
   * The cell Set built from a query result: items in order of first
   * occurrence, repeats dropped.
   */
  function Dedup<T(==)>(s: seq<T>): (d: seq<T>)
    ensures Distinct(d) && Elems(d) == Elems(s)
    decreases |s|
  {
    if s == [] then []
    else
      var init, x := s[..|s| - 1], s[|s| - 1];
      assert s == init + [x];
      ElemsSnoc(init, x);
      var d := Dedup(init);
      if x in d then d
      else
        ElemsSnoc(d, x);
        d + [x]
  }

  /** A list without repeats is its own Set, in the same order. */
  lemma {:induction false} DedupOfDistinct<T>(s: seq<T>)
    requires Distinct(s)
    ensures Dedup(s) == s
    decreases |s|
  {
    if s != [] {
      var init := s[..|s| - 1];
      assert Distinct(init) by {
        forall i, j | 0 <= i < j < |init| ensures init[i] != init[j] {
          assert init[i] == s[i] && init[j] == s[j];
        }
      }
      DedupOfDistinct(init);
      assert s[|s| - 1] !in init by {
        forall k | 0 <= k < |init| ensures init[k] != s[|s| - 1] {
          assert init[k] == s[k];
        }
      }
      assert s == init + [s[|s| - 1]];
    }
  }

  /** The cached box of a cell (`cellMap.get(cell)`), absent when there is none. */
  function Lookup<T>(cellMap: map<T, Rect>, c: T): Option<Rect> {
    if c in cellMap then Some(cellMap[c]) else None
  }

  /**
   * The selection `mouseup` collects: the cells, in order, whose cached box
   * meets the drag rectangle.
   */
  function Hits<T(==)>(cells: seq<T>, cellMap: map<T, Rect>, bound: Rect): (hits: seq<T>)
    ensures forall c :: c in hits ==> c in cells && InBound(bound, Lookup(cellMap, c))
    ensures forall c :: c in cells && InBound(bound, Lookup(cellMap, c)) ==> c in hits
    ensures |hits| <= |cells|
    ensures Distinct(cells) ==> Distinct(hits)
    decreases |cells|
  {
    if cells == [] then []
    else
      var init, c := cells[..|cells| - 1], cells[|cells| - 1];
      assert cells == init + [c];
      assert Distinct(cells) ==> Distinct(init) && c !in init by {
        if Distinct(cells) {
          forall i, j | 0 <= i < j < |init| ensures init[i] != init[j] {
            assert init[i] == cells[i] && init[j] == cells[j];
          }
          forall k | 0 <= k < |init| ensures init[k] != c {
            assert init[k] == cells[k];
          }
        }
      }
      var prefix := Hits(init, cellMap, bound);
      if InBound(bound, Lookup(cellMap, c)) then prefix + [c] else prefix
  }

  /** The filter keeps order: filtering a concatenation concatenates the filtered parts. */
  lemma {:induction false} HitsAppend<T>(a: seq<T>, b: seq<T>, cellMap: map<T, Rect>, bound: Rect)
    ensures Hits(a + b, cellMap, bound) == Hits(a, cellMap, bound) + Hits(b, cellMap, bound)
    decreases |b|
  {
    if b == [] {
      assert a + b == a;
    } else {
      var init, c := b[..|b| - 1], b[|b| - 1];
      assert a + b == (a + init) + [c];
      assert (a + b)[..|a + b| - 1] == a + init;
      assert b[..|b| - 1] == init;
      HitsAppend(a, init, cellMap, bound);
    }
  }
}
