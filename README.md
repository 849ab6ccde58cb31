# Flat-map observable collections and the `Children` collection of fui

This project models two pieces of the fui user-interface library in Dafny and proves what
they promise.

**The flat-map transform** (`fui_core/src/observable/observable_collection_flat_map.rs`).
`flat_map(f)` turns an observable collection of source items into one flat observable
collection. Each source item `s` is mapped to a sub-collection `f(s)`, and the output holds
all of their items in order. The transform keeps three parallel tables:

- `items`, the flattened list;
- one `SubCollectionData` record (`pos`, `size`) per source item, saying where that item's
  sub-collection sits in `items`;
- one shared index cell per source item. The handler subscribed to a sub-collection reads
  its cell to learn which slot it occupies now.

The transform reacts to `Clear`, `InsertAt` and `RemoveAt` diffs from the source and from
every sub-collection. It splices the three tables and emits its own diffs downstream.

The model (module `FlatMap`) is a class with `items`, `data` and `indexes` as fields. Each
index cell is an `IndexCell` object shared with its handler. The class also has two ghost
fields:

- `subs`, the current items of every sub-collection;
- `log`, every diff emitted so far.

The invariant `Valid` says four things:

- record `i` starts at the total size of the slots before it, and has slot `i`'s size;
- `items` is the concatenation of the sub-collections;
- there is one cell per record;
- every cell holds its own position in the table.

Each of the six handlers is a method. It keeps `Valid`, states the whole new state, and
proves that replaying its emitted diffs, one at a time, on the old `items` gives the new
`items` (module `VecDiffs`).

**The `Children` collection** (`fui_macros/tests/test1.rs`). A control's children are an
enum with five shapes: no child, one control, one observable collection, a list of controls,
or a mixed list of parts. Each part is a control, a collection or a list of controls. The
model (module `ChildrenCollection`) gives every shape its `Content`, the ordered list of
controls it stands for. It then proves the following:

- `len` and `get` read that list;
- `add`, `append` and `from` produce the concatenation of their inputs' contents;
- `add` keeps neighbouring static controls in one part;
- the double-ended iterator yields the content from the front and from the back, and the
  two ends never cross.

Module `FlatMapScenario` proves what the handlers produce on a small example: source items `'A'`, `'B'` and
`'C'` mapped to `[1, 2]`, `[3]` and `[4, 5]`.

Module `Sequences` holds the flattening `Concat` and how it reacts to splices. Module
`Wrappers` holds `Option`.

## Model

| member | source | states |
|---|---|---|
| FlatMap.ObservableCollectionFlatMap.constructor | fui_core/src/observable/observable_collection_flat_map.rs:84-115 | the construction loop keeps one slot per source item, also for an empty sub-collection; `items` is the in-order concatenation of `f(src_i)`; record `i` starts at the running sum of the earlier sizes and has size `|f(src_i)|`; every index cell is new; the invariant holds |
| FlatMap.PositionsPrefixSums | fui_core/src/observable/observable_collection_flat_map.rs:104-114 | given the sizes, the position table is a prefix sum (first record at 0, each later record where the previous one ends) exactly when each record starts at the total size of the earlier slots; both directions |
| FlatMap.PositionsTotal | fui_core/src/observable/observable_collection_flat_map.rs:104-114 | the last slot ends at the total number of items, so the sizes sum to `len` |
| FlatMap.PositionsBounds | fui_core/src/observable/observable_collection_flat_map.rs:18-20 | every slot's span `[pos, pos + size)` lies inside the flattened list and `size` is its sub-collection's length |
| FlatMap.ObservableCollectionFlatMap.Len | fui_core/src/observable/observable_collection_flat_map.rs:25-27 | `len` is the length of the concatenation of all sub-collections, which is where the last slot ends |
| FlatMap.ObservableCollectionFlatMap.Get | fui_core/src/observable/observable_collection_flat_map.rs:29-35 | `get(i)` is `Some` exactly when `i` is below `len`, and then it is element `i` of the concatenation |
| FlatMap.ObservableCollectionFlatMap.GetInSlot | fui_core/src/observable/observable_collection_flat_map.rs:18-20 | item `k` of sub-collection `c` is what `get` returns at `pos[c] + k` |
| FlatMap.ObservableCollectionFlatMap.SourceClear | fui_core/src/observable/observable_collection_flat_map.rs:123-130 | a source `Clear` empties `items`, the records and the cells, emits exactly one `Clear`, and the replay of that one diff gives the new (empty) list |
| FlatMap.ObservableCollectionFlatMap.SourceInsertAt | fui_core/src/observable/observable_collection_flat_map.rs:132-187 | a source `InsertAt` puts a new slot for `f(value)` at `index`, starting at `new_pos` (the end of slot `index - 1`, or 0); it adds a fresh cell there and keeps every cell numbered; it moves later slots right by the new size, splices `f(value)` into `items` at `new_pos`, and emits `InsertAt(new_pos + k, v_k)` for ascending `k`, whose replay gives the new list; the invariant is kept |
| FlatMap.ObservableCollectionFlatMap.SourceRemoveAt | fui_core/src/observable/observable_collection_flat_map.rs:189-217 | a source `RemoveAt` drops the slot, its record and its cell (so its handler is gone), renumbers the later cells, moves later slots left by the removed size, removes the span from `items`, and emits `RemoveAt` from `pos + size - 1` down to `pos`, whose replay gives the new list; the invariant is kept |
| FlatMap.ObservableCollectionFlatMap.SubCollectionClear | fui_core/src/observable/observable_collection_flat_map.rs:245-267 | a sub-collection `Clear` removes only its own span, highest index first, each removal emitted; the slot stays with size 0; later slots move left by its old size; the cells are unchanged; the replay of the emitted diffs gives the new list |
| FlatMap.ObservableCollectionFlatMap.SubCollectionInsertAt | fui_core/src/observable/observable_collection_flat_map.rs:269-287 | a sub-collection `InsertAt(k, v)` inserts `v` at `pos[c] + k`, grows slot `c` by one, moves later slots right by one, and emits one `InsertAt` at `pos[c] + k`; every other slot's items are unchanged |
| FlatMap.ObservableCollectionFlatMap.SubCollectionRemoveAt | fui_core/src/observable/observable_collection_flat_map.rs:289-306 | a sub-collection `RemoveAt(k)` removes the item at `pos[c] + k`, shrinks slot `c` by one, moves later slots left by one, and emits one `RemoveAt` at `pos[c] + k` |
| FlatMap.ShiftPositions | fui_core/src/observable/observable_collection_flat_map.rs:173-175 | the shifting loop moves the position of every record from a given index on by the same amount and leaves the earlier records and all sizes alone |
| FlatMap.Renumber | fui_core/src/observable/observable_collection_flat_map.rs:147-149 | the renumbering loop sets every cell from a given index on to its own position and leaves the earlier cells alone |
| FlatMap.InsertCell | fui_core/src/observable/observable_collection_flat_map.rs:143-149 | the cell of a new slot is fresh, starts at its insertion index, and after renumbering every cell holds its position |
| FlatMap.RemoveCell | fui_core/src/observable/observable_collection_flat_map.rs:200-203 | after removing a cell and renumbering, every remaining cell holds its position and the removed cell is no longer in the table |
| FlatMap.InsertSpan | fui_core/src/observable/observable_collection_flat_map.rs:178-186 | inserting a sub-collection one item at a time at `new_pos + k` splices it in whole, and the diffs emitted are the ascending insertions |
| FlatMap.RemoveSpan | fui_core/src/observable/observable_collection_flat_map.rs:210-216 | the reverse removal loop takes out exactly the span `[pos, pos + size)`, and the diffs emitted are the removals from the highest index down |
| FlatMap.AppendedPositions | fui_core/src/observable/observable_collection_flat_map.rs:104-113 | appending a record at the running position with the new sub-collection's size keeps the position table consistent |
| FlatMap.InsertedPositions | fui_core/src/observable/observable_collection_flat_map.rs:164-175 | a new record at `index`, starting at `new_pos`, with later records moved right by its size, is consistent with the sub-collections after the insertion |
| FlatMap.RemovedPositions | fui_core/src/observable/observable_collection_flat_map.rs:195-208 | dropping a record and moving later records left by its size is consistent with the sub-collections after the removal |
| FlatMap.ResizedPositions | fui_core/src/observable/observable_collection_flat_map.rs:253-258 | changing one slot's size and moving the later records by the difference is consistent with the resized sub-collection |
| FlatMap.SlotAdded | fui_core/src/observable/observable_collection_flat_map.rs:132-187 | after a source insertion, the new records describe the new sub-collections and the spliced `items` is their concatenation |
| FlatMap.SlotDropped | fui_core/src/observable/observable_collection_flat_map.rs:189-217 | after a source removal, the tables stay consistent: the new records describe the remaining sub-collections, every span lies inside the list, and `items` without the span is their concatenation |
| FlatMap.AddSlot | fui_core/src/observable/observable_collection_flat_map.rs:136-186 | the table work of a source insertion: the new record at `new_pos`, later records moved right by the new size, the new items inserted one at a time with ascending `InsertAt`s; the tables stay consistent and the replay of the insertions gives the new list |
| FlatMap.DropSlot | fui_core/src/observable/observable_collection_flat_map.rs:195-216 | the table work of a source removal: later records moved left by the removed size, the span removed with descending `RemoveAt`s; the tables stay consistent and the replay of the removals gives the new list |
| FlatMap.SlotClearing | fui_core/src/observable/observable_collection_flat_map.rs:245-267 | after a sub-collection is cleared, the records and `items` describe the sub-collections with that one empty |
| FlatMap.SlotInsertion | fui_core/src/observable/observable_collection_flat_map.rs:269-287 | after an insertion into one sub-collection, the records and `items` describe the updated sub-collections |
| FlatMap.SlotRemoval | fui_core/src/observable/observable_collection_flat_map.rs:289-306 | after a removal from one sub-collection, the records and `items` describe the updated sub-collections |
| VecDiffs.InsertionsReplay | fui_core/src/observable/observable_collection_flat_map.rs:178-186 | a downstream mirror that applies the emitted insertions one at a time ends up with the sub-collection spliced in at `new_pos`; every index is valid when it is applied |
| VecDiffs.RemovalsReplay | fui_core/src/observable/observable_collection_flat_map.rs:263-266 | a downstream mirror that applies the emitted removals one at a time, highest index first, ends up without the span; every index is valid when it is applied |
| VecDiffs.RemovalsDescending | fui_core/src/observable/observable_collection_flat_map.rs:213-216 | the removals of a span address each index of `[pos, pos + size)` exactly once, in strictly descending order |
| VecDiffs.AscendingRemovalsOverrun | fui_core/src/observable/observable_collection_flat_map.rs:213-216 | once `k` of the lowest-index-first removals of a span that reached the end of the mirror have been applied, the remaining ones always run past the end of the shortened mirror |
| VecDiffs.AscendingRemovalsDesynchronise | fui_core/src/observable/observable_collection_flat_map.rs:213-216 | the descending order of removals matters: for every span of two or more items that reaches the end of the mirror, removing it lowest index first runs past the end of the mirror, while the emitted descending removals leave exactly the items before the span |
| VecDiffs.ReplayInsertAt | fui_core/src/observable/observable_collection_flat_map.rs:282-286 | the single `InsertAt` a sub-collection insertion emits, replayed on the old list, inserts the same item at the same index |
| VecDiffs.ReplayRemoveAt | fui_core/src/observable/observable_collection_flat_map.rs:302-305 | the single `RemoveAt` a sub-collection removal emits, replayed on the old list, removes the same item |
| VecDiffs.ApplyShifts | fui_core/src/observable/observable_collection_flat_map.rs:282-302 | an applied `InsertAt` puts its value at its index and moves later items one place right; an applied `RemoveAt` moves later items one place left; earlier items stay |
| Sequences.ConcatInsertInto | fui_core/src/observable/observable_collection_flat_map.rs:274-282 | inserting into one sub-collection at local `k` inserts into the flattened list at the slot's offset plus `k` |
| Sequences.ConcatRemoveFrom | fui_core/src/observable/observable_collection_flat_map.rs:294-302 | removing local `k` from one sub-collection removes the flattened item at the slot's offset plus `k` |
| FlatMapScenario.InsertIntoSource | fui_core/src/observable/observable_collection_flat_map.rs:132-187 | with `f('A') = [1, 2]`, `f('B') = [3]`, `f('C') = [4, 5]`: inserting `'C'` at source index 1 of `['A', 'B']` turns `[1, 2, 3]` into `[1, 2, 4, 5, 3]` and emits `InsertAt(2, 4)`, `InsertAt(3, 5)` |
| FlatMapScenario.RemoveFromSource | fui_core/src/observable/observable_collection_flat_map.rs:189-217 | removing source index 0 of `['A', 'C', 'B']` turns `[1, 2, 4, 5, 3]` into `[4, 5, 3]` and emits `RemoveAt(1)`, `RemoveAt(0)` |
| FlatMapScenario.InsertIntoSubCollection | fui_core/src/observable/observable_collection_flat_map.rs:269-287 | inserting `9` at local index 0 of `'B'`'s sub-collection turns `[1, 2, 3]` into `[1, 2, 9, 3]` and emits the single `InsertAt(2, 9)` |
| FlatMapScenario.ClearSource | fui_core/src/observable/observable_collection_flat_map.rs:123-130 | a source `Clear` over three non-empty sub-collections leaves no items, records or cells and emits exactly one `Clear` |
| ChildrenCollection.SubLen | fui_macros/tests/test1.rs:303-309 | a part's `len` is the number of controls it stands for |
| ChildrenCollection.SubGet | fui_macros/tests/test1.rs:311-323 | a part's `get(i)` is `Some` exactly for `i` below its length, and then it is control `i` of the part; a single control answers only index 0 |
| ChildrenCollection.SumLens | fui_macros/tests/test1.rs:61 | the sum of the parts' lengths is the length of the mixed collection's content |
| ChildrenCollection.Len | fui_macros/tests/test1.rs:55-63 | `len` is the number of controls in the content: 0, 1, the held list's or collection's length, or the sum over the parts |
| ChildrenCollection.Get | fui_macros/tests/test1.rs:66-90 | `get(i)` is `Some` exactly for `i` below `len`, and then it is control `i` of the content; in a mixed collection, the part-walking loop keeps `i` equal to the lengths of the parts already passed plus the remaining index |
| ChildrenCollection.Add | fui_macros/tests/test1.rs:131-235 | `add` needs a single control or a single collection as the child (other shapes are unreachable); the result's content is the old content followed by the child's; the result is never `None`; neighbouring static parts stay merged |
| ChildrenCollection.Mixed | fui_macros/tests/test1.rs:144-147 | a mixed collection built from two parts stands for the first part's controls followed by the second's |
| ChildrenCollection.AddToParts | fui_macros/tests/test1.rs:180-230 | adding to a non-empty mixed list appends the child's controls; a control joins a static last part, so the number of parts stays the same; otherwise there is one more part; the earlier parts are untouched |
| ChildrenCollection.AddMerged | fui_macros/tests/test1.rs:182-199 | a new last part keeps static neighbours merged when it is not static or when the part before it is not static |
| ChildrenCollection.Append | fui_macros/tests/test1.rs:94-126 | `append` yields the old content followed by the appended collection's content, and keeps static neighbours merged |
| ChildrenCollection.AppendParts | fui_macros/tests/test1.rs:106-124 | adding the parts of a mixed collection one by one appends their concatenated contents |
| ChildrenCollection.AddPart | fui_macros/tests/test1.rs:109-121 | one part's controls are added in order |
| ChildrenCollection.AddControls | fui_macros/tests/test1.rs:99-105 | a list of controls added one at a time lands at the end, in order |
| ChildrenCollection.From | fui_macros/tests/test1.rs:41-52 | `from` of an empty list is `None`; otherwise its content is the concatenation of the contents of the list's collections, in order |
| ChildrenCollection.ChildrenIterator.constructor | fui_macros/tests/test1.rs:293-299 | `into_iter` starts at position 0 with `len` equal to the collection's `len`, so the controls still to come are the whole content |
| ChildrenCollection.ChildrenIterator.Next | fui_macros/tests/test1.rs:268-275 | `next` yields the first control not yet yielded and drops it from the remaining ones; once the two ends meet it yields `None` and changes nothing |
| ChildrenCollection.ChildrenIterator.NextBack | fui_macros/tests/test1.rs:279-286 | `next_back` yields the last control not yet yielded and drops it from the remaining ones; once the two ends meet it yields `None`; the two ends never cross |

## Left out

- Integer widths: `pos` and `size` are `i32` and the indices `usize`. The model uses unbounded integers, so overflow beyond 2^31 items, and the wrap-around of the `as` casts, are not modelled.
- The mapping function `f` is an `FnMut` closure. Here it is a pure function `S -> seq<D>`, so a closure with its own state is not modelled.
- A sub-collection is modelled by its current items (ghost `subs`). Its own diff stream is the argument of the three sub-collection handler methods.
- The handlers' `requires` that a local index be within the sub-collection (`index <= size` for `InsertAt`, `index < size` for `RemoveAt`) is the contract of a well-behaved observable collection. The source does not check it.
- `Event`, `Subscription`, weak-reference upgrade and unsubscribe-on-drop are not modelled. Emitting a diff appends it to the ghost `log`. A sub-collection handler is named by its index cell, and its subscription is alive exactly while that cell is in the table of cells.
- The `Rc<RefCell<…>>` sharing is modelled as fields of one object. `borrow_mut` re-entrancy is not modelled. For example, a downstream handler that reads the flat map while a sub-collection handler still holds its borrow of `items` would panic in the source.
- The source handlers apply each change and emit each diff interleaved, one item at a time. The model computes the same final tables and the same emitted sequence, and assigns them in one step.
- The Rust definitions of `VecDiff` and of the `ObservableCollection` trait are not among the modelled files. `VecDiffs.VecDiff` has the three variants the handlers match on, and `VecDiffs.Apply` gives each the meaning the handlers give it.
- `Children::new` is the constructor `Children.None`. The conversions of a single control or collection into `Children` (`From` impls) are the constructors `SingleStatic` and `SingleDynamic`.
- An observable collection inside `Children` is modelled by the list of controls it holds when read. A collection that changes between `len` and `get` calls (for example, during iteration) is not modelled.
- The `ui!` macro, drawing, styles, attached values and every other file of the repository are not part of this model.
