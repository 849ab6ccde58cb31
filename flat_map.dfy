/**
  The flat-map transform over observable collections: one flattened list of
  items that is the in-order concatenation of the sub-collections the
  mapping function gave for each source item, kept in step with diffs that
  arrive from the source collection and from every sub-collection, and the
  stream of diffs it emits downstream.

  The shared state of the original (`items`, the table of per-sub-collection
  records and the table of shared index cells, each behind `Rc<RefCell<…>>`)
  is held as fields of one object; the two handler closures are methods of
  that object. A sub-collection handler is identified by the index cell it
  captured: its subscription lives exactly as long as that cell is in the
  table of index cells.
 */
module FlatMap {
  import opened Wrappers
  import opened Sequences
  import opened VecDiffs

  /** A shared mutable slot number (`Rc<Cell<i32>>`). */
  class IndexCell {
    var value: int

    constructor (value: int)
      ensures this.value == value
    {
      this.value := value;
    }
  }

  /** Where one sub-collection starts in the flattened list, and how many items it has there. */
  datatype SubCollectionData = SubCollectionData(pos: int, size: int)

  /** The sub-collections the mapping function gives for each source item, in source order. */
  function Expand<S, D>(f: S -> seq<D>, source: seq<S>): (subs: seq<seq<D>>)
  {
    seq(|source|, i requires 0 <= i < |source| => f(source[i]))
  }

  /**
    The records describe the slots `subs`: one record per slot, and record
    `i` starts at the total length of the slots before it and has slot
    `i`'s length. Stated one record at a time from the end, so that the
    verifier only looks inside when a proof asks it to (`PositionsAt`,
    `PositionsIntro`).
   */
  ghost predicate Positions<D>(data: seq<SubCollectionData>, subs: seq<seq<D>>)
    decreases |data|
  {
    && |data| == |subs|
    && (|data| > 0 ==>
      var n := |data| - 1;
      && Positions(data[..n], subs[..n])
      && data[n] == SubCollectionData(|Concat(subs[..n])|, |subs[n]|))
  }

  /** Under `Positions`, record `i` starts at the total length of the slots before it and has slot `i`'s length. */
  lemma {:induction false} PositionsAt<D>(data: seq<SubCollectionData>, subs: seq<seq<D>>, i: nat)
    requires Positions(data, subs) && i < |data|
    ensures data[i] == SubCollectionData(|Concat(subs[..i])|, |subs[i]|)
    decreases |data|
  {
    var n := |data| - 1;
    if i < n {
      PositionsAt(data[..n], subs[..n], i);
      assert subs[..n][..i] == subs[..i];
    }
  }

  /** `Positions` follows from its record-by-record statement. */
  lemma {:induction false} PositionsIntro<D>(data: seq<SubCollectionData>, subs: seq<seq<D>>)
    requires |data| == |subs|
    requires forall i :: 0 <= i < |data| ==> data[i] == SubCollectionData(|Concat(subs[..i])|, |subs[i]|)
    ensures Positions(data, subs)
    decreases |data|
  {
    if |data| > 0 {
      var n := |data| - 1;
      forall i | 0 <= i < n
        ensures data[..n][i] == SubCollectionData(|Concat(subs[..n][..i])|, |subs[..n][i]|)
      {
        assert subs[..n][..i] == subs[..i];
      }
      PositionsIntro(data[..n], subs[..n]);
    }
  }

  /** Under `Positions`, the last slot ends at the total length of all slots. */
  lemma {:induction false} PositionsTotal<D>(data: seq<SubCollectionData>, subs: seq<seq<D>>)
    requires Positions(data, subs) && |data| > 0
    ensures data[|data| - 1].pos + data[|data| - 1].size == |Concat(subs)|
  {
    var n := |data| - 1;
    ConcatPrefixLength(subs, n);
    assert subs[..n + 1] == subs;
  }

  /** Under `Positions`, every slot's span lies within the concatenation. */
  lemma {:induction false} PositionsBounds<D>(data: seq<SubCollectionData>, subs: seq<seq<D>>)
    requires Positions(data, subs)
    ensures forall i :: 0 <= i < |data| ==>
      0 <= data[i].pos && data[i].pos + data[i].size <= |Concat(subs)| && data[i].size == |subs[i]|
  {
    forall i | 0 <= i < |data|
      ensures 0 <= data[i].pos && data[i].pos + data[i].size <= |Concat(subs)| && data[i].size == |subs[i]|
    {
      PositionsAt(data, subs, i);
      ConcatPrefixWithin(subs, i);
    }
  }

  /**
    `Positions` is the prefix-sum form of the table: the first record
    starts at 0 and every other record starts where the one before it
    ends, given that every record has its slot's size.
   */
  lemma {:induction false} PositionsPrefixSums<D>(data: seq<SubCollectionData>, subs: seq<seq<D>>)
    requires |data| == |subs|
    requires forall i :: 0 <= i < |data| ==> data[i].size == |subs[i]|
    ensures Positions(data, subs) <==>
      && (|data| > 0 ==> data[0].pos == 0)
      && (forall i, j {:trigger data[i], data[j]} :: 0 <= i && j == i + 1 && j < |data| ==>
        data[j].pos == data[i].pos + data[i].size)
  {
    if Positions(data, subs) {
      if |data| > 0 {
        PositionsAt(data, subs, 0);
      }
      forall i, j | 0 <= i && j == i + 1 && j < |data|
        ensures data[j].pos == data[i].pos + data[i].size
      {
        PositionsAt(data, subs, i);
        PositionsAt(data, subs, j);
        ConcatPrefixLength(subs, i);
      }
    }
    if && (|data| > 0 ==> data[0].pos == 0)
       && (forall i, j {:trigger data[i], data[j]} :: 0 <= i && j == i + 1 && j < |data| ==>
         data[j].pos == data[i].pos + data[i].size)
    {
      forall i | 0 <= i < |data|
        ensures data[i] == SubCollectionData(|Concat(subs[..i])|, |subs[i]|)
      {
        PrefixSumAt(data, subs, i);
      }
      PositionsIntro(data, subs);
    }
  }

  /** Under the prefix-sum form, record `i` starts at the total length of the slots before it. */
  lemma {:induction false} PrefixSumAt<D>(data: seq<SubCollectionData>, subs: seq<seq<D>>, i: nat)
    requires |data| == |subs| && i < |data|
    requires forall i :: 0 <= i < |data| ==> data[i].size == |subs[i]|
    requires |data| > 0 ==> data[0].pos == 0
    requires forall i, j {:trigger data[i], data[j]} :: 0 <= i && j == i + 1 && j < |data| ==>
      data[j].pos == data[i].pos + data[i].size
    ensures data[i].pos == |Concat(subs[..i])|
  {
    if i > 0 {
      PrefixSumAt(data, subs, i - 1);
      ConcatPrefixLength(subs, i - 1);
      assert data[i].pos == data[i - 1].pos + data[i - 1].size;
    }
  }

  /**
    Where the items of a sub-collection inserted at `index` go: right after
    the slot before it, or at 0 for the first slot.
   */
  function InsertPos(data: seq<SubCollectionData>, index: nat): (p: int)
    requires index <= |data|
  {
    if index > 0 then data[index - 1].pos + data[index - 1].size else 0
  }

  /** `data` with the position of every record from `from` on moved by `delta`. */
  function Shifted(data: seq<SubCollectionData>, from: nat, delta: int): (r: seq<SubCollectionData>)
  {
    seq(|data|, j requires 0 <= j < |data| =>
      if j < from then data[j] else data[j].(pos := data[j].pos + delta))
  }

  /** A new slot `s` at `index`, starting at `InsertPos`, with later slots moved right by `|s|`, keeps `Positions`. */
  lemma InsertedPositions<D>(data: seq<SubCollectionData>, subs: seq<seq<D>>, index: nat, s: seq<D>)
    requires Positions(data, subs) && index <= |data|
    ensures InsertPos(data, index) == |Concat(subs[..index])|
    ensures Positions(
      Shifted(data[..index] + [SubCollectionData(InsertPos(data, index), |s|)] + data[index..], index + 1, |s|),
      subs[..index] + [s] + subs[index..])
  {
    var p := InsertPos(data, index);
    assert p == |Concat(subs[..index])| by {
      if index > 0 {
        PositionsAt(data, subs, index - 1);
        ConcatPrefixLength(subs, index - 1);
      }
    }
    var nd := Shifted(data[..index] + [SubCollectionData(p, |s|)] + data[index..], index + 1, |s|);
    var ns := subs[..index] + [s] + subs[index..];
    forall j | 0 <= j < |nd| ensures nd[j] == SubCollectionData(|Concat(ns[..j])|, |ns[j]|) {
      if j < index {
        assert nd[j] == data[j] && ns[j] == subs[j];
        assert ns[..j] == subs[..j];
        PositionsAt(data, subs, j);
      } else if j == index {
        assert ns[..j] == subs[..index];
      } else {
        assert nd[j] == data[j - 1].(pos := data[j - 1].pos + |s|) && ns[j] == subs[j - 1];
        PositionsAt(data, subs, j - 1);
        ConcatSlotInserted(subs, index, s, j);
      }
    }
    PositionsIntro(nd, ns);
  }

  /** Dropping slot `index` and moving later slots left by its size keeps `Positions`. */
  lemma RemovedPositions<D>(data: seq<SubCollectionData>, subs: seq<seq<D>>, index: nat)
    requires Positions(data, subs) && index < |data|
    ensures data[index].pos == |Concat(subs[..index])|
    ensures Positions(
      Shifted(data[..index] + data[index + 1..], index, -data[index].size),
      subs[..index] + subs[index + 1..])
  {
    PositionsAt(data, subs, index);
    var nd := Shifted(data[..index] + data[index + 1..], index, -data[index].size);
    var ns := subs[..index] + subs[index + 1..];
    forall j | 0 <= j < |nd| ensures nd[j] == SubCollectionData(|Concat(ns[..j])|, |ns[j]|) {
      if j < index {
        PositionsAt(data, subs, j);
        assert ns[..j] == subs[..j];
      } else {
        PositionsAt(data, subs, j + 1);
        ConcatSlotRemoved(subs, index, j);
      }
    }
    PositionsIntro(nd, ns);
  }

  /**
    Giving slot `c` the items `s` (of length `size`) and moving later
    slots by the change in size, `delta`, keeps `Positions`.
   */
  lemma ResizedPositions<D>(data: seq<SubCollectionData>, subs: seq<seq<D>>, c: nat, s: seq<D>, size: int, delta: int)
    requires Positions(data, subs) && c < |data|
    requires size == |s| && delta == |s| - data[c].size
    ensures data[c].pos == |Concat(subs[..c])|
    ensures Positions(Shifted(data[c := data[c].(size := size)], c + 1, delta), subs[c := s])
  {
    PositionsAt(data, subs, c);
    var nd := Shifted(data[c := data[c].(size := size)], c + 1, delta);
    var ns := subs[c := s];
    forall j | 0 <= j < |nd| ensures nd[j] == SubCollectionData(|Concat(ns[..j])|, |ns[j]|) {
      PositionsAt(data, subs, j);
      if j <= c {
        assert ns[..j] == subs[..j];
      } else {
        ConcatSlotReplaced(subs, c, s, j);
      }
    }
    PositionsIntro(nd, ns);
  }

  /** A new last slot `s` starting where the slots so far end keeps `Positions`. */
  lemma AppendedPositions<D>(data: seq<SubCollectionData>, subs: seq<seq<D>>, s: seq<D>)
    requires Positions(data, subs)
    ensures Positions(data + [SubCollectionData(|Concat(subs)|, |s|)], subs + [s])
  {
    assert (data + [SubCollectionData(|Concat(subs)|, |s|)])[..|data|] == data;
    assert (subs + [s])[..|subs|] == subs;
  }

  /**
    Removing item `k` of slot `c`: with the slot shrunk by one and the
    later records moved left by one (`newData`), and the item at the
    slot's position plus `k` taken out of the concatenation (`newItems`),
    the records describe the new slots and `newItems` is their
    concatenation.
   */
  lemma SlotRemoval<D>(data: seq<SubCollectionData>, subs: seq<seq<D>>, items: seq<D>, c: nat, k: nat,
                       newData: seq<SubCollectionData>, newItems: seq<D>)
    requires Positions(data, subs) && items == Concat(subs)
    requires c < |data| && data[c].size == |subs[c]| && k < data[c].size
    requires 0 <= data[c].pos && data[c].pos + data[c].size <= |items|
    requires newData == Shifted(data[c := data[c].(size := data[c].size - 1)], c + 1, -1)
    requires newItems == items[..data[c].pos + k] + items[data[c].pos + k + 1..]
    ensures Positions(newData, subs[c := subs[c][..k] + subs[c][k + 1..]])
    ensures newItems == Concat(subs[c := subs[c][..k] + subs[c][k + 1..]])
  {
    var slot := subs[c][..k] + subs[c][k + 1..];
    ResizedPositions(data, subs, c, slot, data[c].size - 1, -1);
    ConcatRemoveFrom(subs, c, k, items, data[c].pos);
  }

  /**
    Inserting `v` at position `k` of slot `c`: with the slot grown by one
    and the later records moved right by one (`newData`), and `v` put into
    the concatenation at the slot's position plus `k` (`newItems`), the
    records describe the new slots and `newItems` is their concatenation.
   */
  lemma SlotInsertion<D>(data: seq<SubCollectionData>, subs: seq<seq<D>>, items: seq<D>, c: nat, k: nat, v: D,
                         newData: seq<SubCollectionData>, newItems: seq<D>)
    requires Positions(data, subs) && items == Concat(subs)
    requires c < |data| && data[c].size == |subs[c]| && k <= data[c].size
    requires 0 <= data[c].pos && data[c].pos + data[c].size <= |items|
    requires newData == Shifted(data[c := data[c].(size := data[c].size + 1)], c + 1, 1)
    requires newItems == items[..data[c].pos + k] + [v] + items[data[c].pos + k..]
    ensures Positions(newData, subs[c := subs[c][..k] + [v] + subs[c][k..]])
    ensures newItems == Concat(subs[c := subs[c][..k] + [v] + subs[c][k..]])
  {
    var slot := subs[c][..k] + [v] + subs[c][k..];
    ResizedPositions(data, subs, c, slot, data[c].size + 1, 1);
    ConcatInsertInto(subs, c, k, v, items, data[c].pos);
  }

  /**
    Emptying slot `c`: with the slot's size set to 0 and the later records
    moved left by its old size (`newData`), and its span taken out of the
    concatenation (`newItems`), the records describe the new slots and
    `newItems` is their concatenation.
   */
  lemma SlotClearing<D>(data: seq<SubCollectionData>, subs: seq<seq<D>>, items: seq<D>, c: nat,
                        newData: seq<SubCollectionData>, newItems: seq<D>)
    requires Positions(data, subs) && items == Concat(subs)
    requires c < |data| && data[c].size == |subs[c]|
    requires 0 <= data[c].pos && data[c].pos + data[c].size <= |items|
    requires newData == Shifted(data[c := data[c].(size := 0)], c + 1, -data[c].size)
    requires newItems == items[..data[c].pos] + items[data[c].pos + data[c].size..]
    ensures Positions(newData, subs[c := []])
    ensures newItems == Concat(subs[c := []])
  {
    ResizedPositions(data, subs, c, [], 0, -data[c].size);
    ConcatUpdate(subs, c, [], items, data[c].pos);
    assert items[..data[c].pos] + [] + items[data[c].pos + data[c].size..] == newItems;
  }

  /**
    A new slot `s` at `index`: with a record for it at `InsertPos` and the
    later records moved right by `|s|` (`newData`), and `s` put into the
    concatenation at `InsertPos` (`newItems`), the records describe the
    new slots and `newItems` is their concatenation.
   */
  lemma SlotAdded<D>(data: seq<SubCollectionData>, subs: seq<seq<D>>, items: seq<D>, index: nat, s: seq<D>,
                     newData: seq<SubCollectionData>, newItems: seq<D>)
    requires Positions(data, subs) && items == Concat(subs)
    requires index <= |data| && 0 <= InsertPos(data, index) <= |items|
    requires newData == Shifted(data[..index] + [SubCollectionData(InsertPos(data, index), |s|)] + data[index..], index + 1, |s|)
    requires newItems == items[..InsertPos(data, index)] + s + items[InsertPos(data, index)..]
    ensures Positions(newData, subs[..index] + [s] + subs[index..])
    ensures newItems == Concat(subs[..index] + [s] + subs[index..])
  {
    InsertedPositions(data, subs, index, s);
    ConcatInsert(subs, index, s, items, InsertPos(data, index));
  }

  /**
    Dropping slot `index`: with the later records moved left by its size
    (`newData`) and its span taken out of the concatenation (`newItems`),
    the records describe the remaining slots and `newItems` is their
    concatenation.
   */
  lemma SlotDropped<D>(data: seq<SubCollectionData>, subs: seq<seq<D>>, items: seq<D>, index: nat,
                       newData: seq<SubCollectionData>, newItems: seq<D>)
    requires Consistent(data, subs, items) && index < |data|
    requires newData == Shifted(data[..index] + data[index + 1..], index, -data[index].size)
    requires newItems == items[..data[index].pos] + items[data[index].pos + data[index].size..]
    ensures Consistent(newData, subs[..index] + subs[index + 1..], newItems)
  {
    PositionsAt(data, subs, index);
    RemovedPositions(data, subs, index);
    ConcatRemove(subs, index, items, data[index].pos);
    ConsistentIntro(newData, subs[..index] + subs[index + 1..], newItems);
  }

  /**
    The tables agree: the records describe the slots `subs`, every slot's
    span lies within `items`, and `items` is the concatenation of the slots.
   */
  ghost predicate Consistent<D>(data: seq<SubCollectionData>, subs: seq<seq<D>>, items: seq<D>)
  {
    && Positions(data, subs)
    && (forall i {:trigger data[i]} :: 0 <= i < |data| ==>
      0 <= data[i].pos && data[i].pos + data[i].size <= |items| && data[i].size == |subs[i]|)
    && items == Concat(subs)
  }

  /** The spans lie within `items` as soon as the records describe the slots and `items` is their concatenation. */
  lemma ConsistentIntro<D>(data: seq<SubCollectionData>, subs: seq<seq<D>>, items: seq<D>)
    requires Positions(data, subs) && items == Concat(subs)
    ensures Consistent(data, subs, items)
  {
    PositionsBounds(data, subs);
  }

  /** Moves the position of every record from `from` on by `delta`. */
  method ShiftPositions(data: seq<SubCollectionData>, from: nat, delta: int) returns (shifted: seq<SubCollectionData>)
    ensures shifted == Shifted(data, from, delta)
  {
    shifted := data;
    var k := from;
    while k < |shifted|
      invariant |shifted| == |data|
      invariant forall j :: 0 <= j < |data| ==>
        shifted[j] == if from <= j < k then data[j].(pos := data[j].pos + delta) else data[j]
    {
      shifted := shifted[k := shifted[k].(pos := shifted[k].pos + delta)];
      k := k + 1;
    }
  }

  /** Every cell of the table holds its own position in it. */
  ghost predicate Numbered(cells: seq<IndexCell>)
    reads cells
  {
    forall i :: 0 <= i < |cells| ==> cells[i].value == i
  }

  /** Sets every cell from `from` on to its own position in `cells`. */
  method Renumber(cells: seq<IndexCell>, from: nat)
    requires forall j, k :: 0 <= j < k < |cells| ==> cells[j] != cells[k]
    modifies cells
    ensures forall j :: 0 <= j < |cells| ==> cells[j].value == if j < from then old(cells[j].value) else j
  {
    var i := from;
    while i < |cells|
      invariant forall j :: 0 <= j < |cells| ==>
        cells[j].value == if from <= j < i then j else old(cells[j].value)
    {
      cells[i].value := i;
      i := i + 1;
    }
  }

  /**
    Puts a fresh cell holding `index` at position `index` of a numbered
    table and renumbers the cells after it.
   */
  method InsertCell(cells: seq<IndexCell>, index: nat) returns (table: seq<IndexCell>, cell: IndexCell)
    requires index <= |cells| && Numbered(cells)
    modifies cells
    ensures fresh(cell)
    ensures table == cells[..index] + [cell] + cells[index..]
    ensures Numbered(table)
  {
    cell := new IndexCell(index);
    table := cells[..index] + [cell] + cells[index..];
    forall j, k | 0 <= j < k < |table| ensures table[j] != table[k] {
      if j != index && k != index {
        assert table[j].value != table[k].value;
      }
    }
    Renumber(table, index + 1);
  }

  /** Takes the cell at `index` out of a numbered table and renumbers the cells after it. */
  method RemoveCell(cells: seq<IndexCell>, index: nat) returns (table: seq<IndexCell>)
    requires index < |cells| && Numbered(cells)
    modifies cells
    ensures table == cells[..index] + cells[index + 1..]
    ensures Numbered(table)
    ensures cells[index] !in table
  {
    table := cells[..index] + cells[index + 1..];
    forall j, k | 0 <= j < k < |table| ensures table[j] != table[k] {
      assert table[j].value != table[k].value;
    }
    forall j | 0 <= j < |table| ensures table[j] != cells[index] {
      assert table[j].value != cells[index].value;
    }
    Renumber(table, index);
  }

  /** Inserts `newItems` at `pos` one at a time, announcing each insertion. */
  method InsertSpan<D>(items: seq<D>, pos: nat, newItems: seq<D>) returns (result: seq<D>, ghost emitted: seq<VecDiff<D>>)
    requires pos <= |items|
    ensures result == items[..pos] + newItems + items[pos..]
    ensures emitted == Insertions(pos, newItems)
  {
    result := items;
    emitted := [];
    var n := 0;
    while n < |newItems|
      invariant 0 <= n <= |newItems|
      invariant result == items[..pos] + newItems[..n] + items[pos..]
      invariant emitted == Insertions(pos, newItems)[..n]
    {
      result := result[..pos + n] + [newItems[n]] + result[pos + n..];
      emitted := emitted + [InsertAt(pos + n, newItems[n])];
      n := n + 1;
      assert newItems[..n] == newItems[..n - 1] + [newItems[n - 1]];
    }
    assert newItems[..n] == newItems;
  }

  /** Removes the span `[pos, pos + size)` highest index first, announcing each removal. */
  method RemoveSpan<D>(items: seq<D>, pos: nat, size: nat) returns (result: seq<D>, ghost emitted: seq<VecDiff<D>>)
    requires pos + size <= |items|
    ensures result == items[..pos] + items[pos + size..]
    ensures emitted == Removals<D>(pos, size)
  {
    result := items;
    emitted := [];
    var i := pos + size;
    while i > pos
      invariant pos <= i <= pos + size
      invariant result == items[..i] + items[pos + size..]
      invariant emitted == Removals<D>(pos, size)[..pos + size - i]
    {
      i := i - 1;
      result := result[..i] + result[i + 1..];
      emitted := emitted + [RemoveAt(i)];
    }
  }

  /**
    The tables after a slot for `newItems` is put at source position
    `index`: the new record starts at `InsertPos`, later records move
    right by its size, and its items go into `items` one at a time, each
    insertion announced.
   */
  method AddSlot<D>(items: seq<D>, data: seq<SubCollectionData>, ghost subs: seq<seq<D>>, index: nat, newItems: seq<D>)
    returns (allItems: seq<D>, records: seq<SubCollectionData>, ghost emitted: seq<VecDiff<D>>)
    requires Consistent(data, subs, items) && index <= |data|
    ensures records == Shifted(data[..index] + [SubCollectionData(InsertPos(data, index), |newItems|)] + data[index..], index + 1, |newItems|)
    ensures allItems == items[..InsertPos(data, index)] + newItems + items[InsertPos(data, index)..]
    ensures emitted == Insertions(InsertPos(data, index), newItems)
    ensures Consistent(records, subs[..index] + [newItems] + subs[index..], allItems)
    ensures Replay(items, emitted) == Some(allItems)
  {
    var newPos := InsertPos(data, index);
    assert 0 <= newPos <= |items| by {
      if index > 0 {
        assert 0 <= data[index - 1].pos && data[index - 1].pos + data[index - 1].size <= |items|;
      }
    }
    records := ShiftPositions(data[..index] + [SubCollectionData(newPos, |newItems|)] + data[index..], index + 1, |newItems|);
    allItems, emitted := InsertSpan(items, newPos, newItems);
    SlotAdded(data, subs, items, index, newItems, records, allItems);
    ConsistentIntro(records, subs[..index] + [newItems] + subs[index..], allItems);
    InsertionsReplay(items, newPos, newItems);
  }

  /**
    The tables after source slot `index` is dropped: its span leaves
    `items` highest index first, each removal announced, and the later
    records move left by its size.
   */
  method DropSlot<D>(items: seq<D>, data: seq<SubCollectionData>, ghost subs: seq<seq<D>>, index: nat)
    returns (newItems: seq<D>, records: seq<SubCollectionData>, ghost emitted: seq<VecDiff<D>>)
    requires Consistent(data, subs, items) && index < |data|
    ensures records == Shifted(data[..index] + data[index + 1..], index, -data[index].size)
    ensures newItems == items[..data[index].pos] + items[data[index].pos + data[index].size..]
    ensures emitted == Removals(data[index].pos, data[index].size)
    ensures Consistent(records, subs[..index] + subs[index + 1..], newItems)
    ensures Replay(items, emitted) == Some(newItems)
  {
    var removed := data[index];
    records := ShiftPositions(data[..index] + data[index + 1..], index, -removed.size);
    newItems, emitted := RemoveSpan(items, removed.pos, removed.size);
    SlotDropped(data, subs, items, index, records, newItems);
    RemovalsReplay(items, removed.pos, removed.size);
  }

  class ObservableCollectionFlatMap<S, D> {
    /** The mapping from a source item to its sub-collection's current items. */
    const f: S -> seq<D>
    /** All the items of all sub-collections. */
    var items: seq<D>
    /** One record per source item, in source order. */
    var data: seq<SubCollectionData>
    /** One shared index cell per source item, in source order. */
    var indexes: seq<IndexCell>
    /** The current items of each sub-collection, in source order. */
    ghost var subs: seq<seq<D>>
    /** Every diff emitted downstream so far, in emission order. */
    ghost var log: seq<VecDiff<D>>

    ghost predicate Valid()
      reads this, indexes
    {
      && Consistent(data, subs, items)
      && |indexes| == |data|
      && Numbered(indexes)
    }

    /**
      `flat_map`: maps every source item, in order, records one slot per
      source item (also when its sub-collection is empty) at the running
      sum of the earlier sizes, and copies all the items.
     */
    constructor (source: seq<S>, f: S -> seq<D>)
      ensures Valid()
      ensures this.f == f
      ensures subs == Expand(f, source)
      ensures items == Concat(Expand(f, source))
      ensures |data| == |source|
      ensures forall i :: 0 <= i < |data| ==>
        data[i] == SubCollectionData(|Concat(subs[..i])|, |f(source[i])|)
      ensures forall i :: 0 <= i < |indexes| ==> fresh(indexes[i])
      ensures log == []
    {
      this.f := f;
      var allItems: seq<D> := [];
      var records: seq<SubCollectionData> := [];
      var cells: seq<IndexCell> := [];
      ghost var slots: seq<seq<D>> := [];
      var pos := 0;
      var index := 0;
      while index < |source|
        invariant 0 <= index <= |source|
        invariant |records| == |cells| == index
        invariant slots == Expand(f, source[..index])
        invariant Positions(records, slots)
        invariant allItems == Concat(slots) && pos == |allItems|
        invariant forall i :: 0 <= i < index ==> cells[i].value == i
        invariant forall i :: 0 <= i < |cells| ==> fresh(cells[i])
      {
        var destItems := f(source[index]);
        var size := |destItems|;
        var cell := new IndexCell(index);
        cells := cells + [cell];
        assert Positions(records + [SubCollectionData(pos, size)], slots + [destItems]) by {
          AppendedPositions(records, slots, destItems);
        }
        assert Concat(slots + [destItems]) == allItems + destItems by {
          ConcatSnoc(slots, destItems);
        }
        records := records + [SubCollectionData(pos, size)];
        slots := slots + [destItems];
        allItems := allItems + destItems;
        pos := pos + size;
        index := index + 1;
        assert Expand(f, source[..index]) == Expand(f, source[..index - 1]) + [destItems];
      }
      assert source[..index] == source;
      forall i | 0 <= i < |records|
        ensures records[i] == SubCollectionData(|Concat(slots[..i])|, |f(source[i])|)
      {
        PositionsAt(records, slots, i);
      }
      ConsistentIntro(records, slots, allItems);
      items := allItems;
      data := records;
      indexes := cells;
      subs := slots;
      log := [];
      new;
    }

    /** `len`: the number of items of all sub-collections together. */
    function Len(): (n: nat)
      reads this, indexes
      requires Valid()
      ensures n == |Concat(subs)|
      ensures |data| > 0 ==> n == data[|data| - 1].pos + data[|data| - 1].size
    {
      if |data| > 0 then PositionsTotal(data, subs); |items| else |items|
    }

    /** `get`: the item at `index` of the concatenation, or `None` past its end. */
    function Get(index: nat): (r: Option<D>)
      reads this, indexes
      requires Valid()
      ensures r.Some? <==> index < |Concat(subs)|
      ensures r.Some? ==> r.value == Concat(subs)[index]
    {
      if index < |items| then Some(items[index]) else None
    }

    /** Item `k` of slot `c` is what `get` returns at the slot's position plus `k`. */
    lemma GetInSlot(c: nat, k: nat)
      requires Valid()
      requires c < |data| && k < data[c].size
      ensures Get(data[c].pos + k) == Some(subs[c][k])
    {
      PositionsAt(data, subs, c);
      ConcatAt(subs, c, k);
    }

    /**
      Source `Clear`: every item, record and index cell goes (and with the
      records every sub-collection subscription), and exactly one `Clear`
      is emitted.
     */
    method SourceClear()
      requires Valid()
      modifies this
      ensures Valid()
      ensures items == [] && data == [] && indexes == [] && subs == []
      ensures log == old(log) + [Clear]
      ensures Replay(old(items), log[|old(log)|..]) == Some(items)
    {
      items := [];
      data := [];
      indexes := [];
      subs := [];
      log := log + [Clear];
      assert log[|old(log)|..] == [Clear];
    }

    /**
      Source `InsertAt`: a new slot at `index` for the sub-collection
      `f(value)`, starting where slot `index - 1` ends (0 for the first
      slot) and with a fresh index cell holding `index`; the cells after it
      are renumbered, later slots move right by the new slot's size, and
      its items are inserted one at a time, each announced by an `InsertAt`.
     */
    method SourceInsertAt(index: nat, value: S)
      requires Valid()
      requires index <= |data|
      modifies this, indexes
      ensures Valid()
      ensures subs == old(subs[..index]) + [f(value)] + old(subs[index..])
      ensures data == Shifted(
        old(data[..index]) + [SubCollectionData(old(InsertPos(data, index)), |f(value)|)] + old(data[index..]),
        index + 1, |f(value)|)
      ensures items == old(items[..InsertPos(data, index)]) + f(value) + old(items[InsertPos(data, index)..])
      ensures log == old(log) + Insertions(old(InsertPos(data, index)), f(value))
      ensures Replay(old(items), log[|old(log)|..]) == Some(items)
      ensures index < |indexes| && fresh(indexes[index])
      ensures indexes == old(indexes[..index]) + [indexes[index]] + old(indexes[index..])
    {
      var newItems := f(value);

      // the new record, later records moved right; the new items, each announced
      var allItems, records;
      ghost var emitted;
      allItems, records, emitted := AddSlot(items, data, subs, index, newItems);
      ghost var newSubs := subs[..index] + [newItems] + subs[index..];
      ghost var newLog := log + emitted;
      assert newLog[|log|..] == emitted;

      // a fresh index cell at `index`; the later ones are renumbered
      var cell;
      indexes, cell := InsertCell(indexes, index);

      items, data, subs, log := allItems, records, newSubs, newLog;
    }

    /**
      Source `RemoveAt`: the slot at `index` goes with its record (and its
      subscription) and its index cell; the later cells are renumbered,
      later slots move left by the removed size, and the removed span is
      taken out of `items` highest index first, each removal announced by a
      `RemoveAt`.
     */
    method SourceRemoveAt(index: nat)
      requires Valid()
      requires index < |data|
      modifies this, indexes
      ensures Valid()
      ensures subs == old(subs[..index]) + old(subs[index + 1..])
      ensures data == Shifted(old(data[..index]) + old(data[index + 1..]), index, -old(data[index].size))
      ensures items == old(items[..data[index].pos]) + old(items[data[index].pos + data[index].size..])
      ensures log == old(log) + Removals(old(data[index].pos), old(data[index].size))
      ensures Replay(old(items), log[|old(log)|..]) == Some(items)
      ensures indexes == old(indexes[..index]) + old(indexes[index + 1..])
      ensures old(indexes[index]) !in indexes
    {
      // the items go, highest index first, each announced; later records move left
      var newItems, records;
      ghost var emitted;
      newItems, records, emitted := DropSlot(items, data, subs, index);
      ghost var newSubs := subs[..index] + subs[index + 1..];
      ghost var newLog := log + emitted;
      assert newLog[|log|..] == emitted;

      // the cell goes; the later ones are renumbered
      indexes := RemoveCell(indexes, index);

      items, data, subs, log := newItems, records, newSubs, newLog;
    }

    /**
      Sub-collection `Clear`, for the sub-collection whose handler holds
      `cell`: only that slot's span is removed, highest index first, each
      removal announced; the slot stays, with size 0, and later slots move
      left by its old size.
     */
    method SubCollectionClear(cell: IndexCell)
      requires Valid()
      requires cell in indexes
      modifies this
      ensures Valid()
      ensures indexes == old(indexes)
      ensures subs == old(subs[cell.value := []])
      ensures data == Shifted(old(data[cell.value := data[cell.value].(size := 0)]), cell.value + 1, -old(data[cell.value].size))
      ensures items == old(items[..data[cell.value].pos]) + old(items[data[cell.value].pos + data[cell.value].size..])
      ensures log == old(log) + Removals(old(data[cell.value].pos), old(data[cell.value].size))
      ensures Replay(old(items), log[|old(log)|..]) == Some(items)
    {
      var c := cell.value;
      var pos := data[c].pos;
      var size := data[c].size;
      var records := ShiftPositions(data[c := data[c].(size := 0)], c + 1, -size);

      // the slot's items go, highest index first, each announced
      ghost var emitted;
      var newItems;
      newItems, emitted := RemoveSpan(items, pos, size);
      ghost var newSubs := subs[c := []];
      assert Consistent(records, newSubs, newItems) by {
        SlotClearing(data, subs, items, c, records, newItems);
        ConsistentIntro(records, newSubs, newItems);
      }
      assert Replay(items, emitted) == Some(newItems) by {
        RemovalsReplay(items, pos, size);
      }
      ghost var newLog := log + emitted;
      assert newLog[|log|..] == emitted;

      items, data, subs, log := newItems, records, newSubs, newLog;
    }

    /**
      Sub-collection `InsertAt` at local position `index`, for the
      sub-collection whose handler holds `cell`: the item goes into `items`
      at the slot's position plus `index`, the slot grows by one, later
      slots move right by one, and one `InsertAt` at that global index is
      emitted.
     */
    method SubCollectionInsertAt(cell: IndexCell, index: nat, value: D)
      requires Valid()
      requires cell in indexes
      requires index <= data[cell.value].size
      modifies this
      ensures Valid()
      ensures indexes == old(indexes)
      ensures subs == old(subs[cell.value := subs[cell.value][..index] + [value] + subs[cell.value][index..]])
      ensures data == Shifted(old(data[cell.value := data[cell.value].(size := data[cell.value].size + 1)]), cell.value + 1, 1)
      ensures items == old(items[..data[cell.value].pos + index]) + [value] + old(items[data[cell.value].pos + index..])
      ensures log == old(log) + [InsertAt(old(data[cell.value].pos) + index, value)]
      ensures Replay(old(items), log[|old(log)|..]) == Some(items)
    {
      var c := cell.value;
      var pos := data[c].pos;
      var records := ShiftPositions(data[c := data[c].(size := data[c].size + 1)], c + 1, 1);
      var newItems := items[..pos + index] + [value] + items[pos + index..];
      ghost var newSubs := subs[c := subs[c][..index] + [value] + subs[c][index..]];
      assert Consistent(records, newSubs, newItems) by {
        SlotInsertion(data, subs, items, c, index, value, records, newItems);
        ConsistentIntro(records, newSubs, newItems);
      }
      assert Replay(items, [InsertAt(pos + index, value)]) == Some(newItems) by {
        ReplayInsertAt(items, pos + index, value);
      }
      ghost var newLog := log + [InsertAt(pos + index, value)];
      assert newLog[|log|..] == [InsertAt(pos + index, value)];

      items, data, subs, log := newItems, records, newSubs, newLog;
    }

    /**
      Sub-collection `RemoveAt` at local position `index`, for the
      sub-collection whose handler holds `cell`: the item at the slot's
      position plus `index` leaves `items`, the slot shrinks by one, later
      slots move left by one, and one `RemoveAt` at that global index is
      emitted.
     */
    method SubCollectionRemoveAt(cell: IndexCell, index: nat)
      requires Valid()
      requires cell in indexes
      requires index < data[cell.value].size
      modifies this
      ensures Valid()
      ensures indexes == old(indexes)
      ensures subs == old(subs[cell.value := subs[cell.value][..index] + subs[cell.value][index + 1..]])
      ensures data == Shifted(old(data[cell.value := data[cell.value].(size := data[cell.value].size - 1)]), cell.value + 1, -1)
      ensures items == old(items[..data[cell.value].pos + index]) + old(items[data[cell.value].pos + index + 1..])
      ensures log == old(log) + [RemoveAt(old(data[cell.value].pos) + index)]
      ensures Replay(old(items), log[|old(log)|..]) == Some(items)
    {
      var c := cell.value;
      var pos := data[c].pos;
      var records := ShiftPositions(data[c := data[c].(size := data[c].size - 1)], c + 1, -1);
      var newItems := items[..pos + index] + items[pos + index + 1..];
      ghost var newSubs := subs[c := subs[c][..index] + subs[c][index + 1..]];
      assert Consistent(records, newSubs, newItems) by {
        SlotRemoval(data, subs, items, c, index, records, newItems);
        ConsistentIntro(records, newSubs, newItems);
      }
      assert Replay(items, [RemoveAt(pos + index)]) == Some(newItems) by {
        ReplayRemoveAt(items, pos + index);
      }
      ghost var newLog := log + [RemoveAt(pos + index)];
      assert newLog[|log|..] == [RemoveAt(pos + index)];

      items, data, subs, log := newItems, records, newSubs, newLog;
    }
  }
}
