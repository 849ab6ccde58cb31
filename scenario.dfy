/**
  What the flat-map handlers produce on a small example: the source
  `['A', 'B']` with `f('A') = [1, 2]`, `f('B') = [3]` and `f('C') = [4, 5]`.
 */
module FlatMapScenario {
  import opened Sequences
  import opened VecDiffs
  import opened FlatMap

  function Letters(c: char): (r: seq<int>)
  {
    if c == 'A' then [1, 2] else if c == 'B' then [3] else [4, 5]
  }

  /**
    Inserting `'C'` at source index 1 splices `[4, 5]` in after `'A'`'s
    items: `[1, 2, 3]` becomes `[1, 2, 4, 5, 3]`, announced by
    `InsertAt(2, 4)` and `InsertAt(3, 5)`.
   */
  method InsertIntoSource() returns (m: ObservableCollectionFlatMap<char, int>)
    ensures m.items == [1, 2, 4, 5, 3]
    ensures m.log == [InsertAt(2, 4), InsertAt(3, 5)]
  {
    m := new ObservableCollectionFlatMap(['A', 'B'], Letters);
    assert m.subs == [[1, 2], [3]];
    assert m.items == [1, 2, 3] by {
      assert Concat([[1, 2], [3]]) == [1, 2] + Concat([[3]]);
    }
    assert m.data[0] == SubCollectionData(0, 2);
    assert Letters('C') == [4, 5];
    m.SourceInsertAt(1, 'C');
  }

  /**
    Then removing source index 0 (`'A'`) takes `[1, 2]` out of
    `[1, 2, 4, 5, 3]`, highest index first: `RemoveAt(1)`, `RemoveAt(0)`.
   */
  method RemoveFromSource() returns (m: ObservableCollectionFlatMap<char, int>)
    ensures m.items == [4, 5, 3]
    ensures m.log == [RemoveAt(1), RemoveAt(0)]
  {
    m := new ObservableCollectionFlatMap(['A', 'C', 'B'], Letters);
    assert m.subs == [[1, 2], [4, 5], [3]];
    assert m.items == [1, 2, 4, 5, 3] by {
      assert Concat([[1, 2], [4, 5], [3]]) == [1, 2] + Concat([[4, 5], [3]]);
      assert Concat([[4, 5], [3]]) == [4, 5] + Concat([[3]]);
    }
    assert m.data[0] == SubCollectionData(0, 2);
    m.SourceRemoveAt(0);
    assert Removals<int>(0, 2) == [RemoveAt(1), RemoveAt(0)];
  }

  /** With only `'A'` and `'B'`, inserting `9` at the front of `'B'`'s sub-collection emits one `InsertAt(2, 9)`. */
  method InsertIntoSubCollection() returns (m: ObservableCollectionFlatMap<char, int>)
    ensures m.items == [1, 2, 9, 3]
    ensures m.log == [InsertAt(2, 9)]
  {
    m := new ObservableCollectionFlatMap(['A', 'B'], Letters);
    assert m.subs == [[1, 2], [3]];
    assert m.items == [1, 2, 3] by {
      assert Concat([[1, 2], [3]]) == [1, 2] + Concat([[3]]);
    }
    assert m.data[1] == SubCollectionData(2, 1);
    m.SubCollectionInsertAt(m.indexes[1], 0, 9);
  }

  /** A source `Clear` over three non-empty sub-collections emits exactly one `Clear` and leaves no items and no records. */
  method ClearSource() returns (m: ObservableCollectionFlatMap<char, int>)
    ensures m.items == [] && m.data == [] && m.indexes == []
    ensures m.log == [Clear]
  {
    m := new ObservableCollectionFlatMap(['A', 'B', 'C'], Letters);
    m.SourceClear();
  }
}
