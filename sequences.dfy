/**
  Concatenation of a sequence of sequences, and how it behaves when one of
  the inner sequences is replaced, inserted or removed. Both the flattened
  output of the flat-map transform and the children of a mixed `Children`
  collection are such concatenations.
 */
module Sequences {

  /** The in-order concatenation of `ss`. */
  function Concat<T>(ss: seq<seq<T>>): (r: seq<T>)
  {
    if |ss| == 0 then [] else Concat(ss[..|ss| - 1]) + ss[|ss| - 1]
  }

  /** Concatenating one more sequence at the end. */
  lemma ConcatSnoc<T>(ss: seq<seq<T>>, s: seq<T>)
    ensures Concat(ss + [s]) == Concat(ss) + s
  {
    assert (ss + [s])[..|ss|] == ss;
  }

  /** Concatenation distributes over `+` of the outer sequence. */
  lemma {:induction false} ConcatSplit<T>(a: seq<seq<T>>, b: seq<seq<T>>)
    ensures Concat(a + b) == Concat(a) + Concat(b)
  {
    if |b| == 0 {
      assert a + b == a;
    } else {
      var init := b[..|b| - 1];
      ConcatSplit(a, init);
      assert a + b == (a + init) + [b[|b| - 1]];
      ConcatSnoc(a + init, b[|b| - 1]);
      ConcatSnoc(init, b[|b| - 1]);
      assert init + [b[|b| - 1]] == b;
      assert Concat(a + b) == Concat(a) + (Concat(init) + b[|b| - 1]);
    }
  }

  /** A prefix one slot longer ends with that slot's elements. */
  lemma ConcatPrefixSnoc<T>(ss: seq<seq<T>>, i: nat)
    requires i < |ss|
    ensures Concat(ss[..i + 1]) == Concat(ss[..i]) + ss[i]
  {
    assert ss[..i + 1] == ss[..i] + [ss[i]];
    ConcatSnoc(ss[..i], ss[i]);
  }

  /** Appending the next slot after `pre` and the first `i` slots gives `pre` and the first `i + 1` slots. */
  lemma ConcatPrefixAfter<T>(pre: seq<T>, ss: seq<seq<T>>, i: nat)
    requires i < |ss|
    ensures (pre + Concat(ss[..i])) + ss[i] == pre + Concat(ss[..i + 1])
  {
    ConcatPrefixSnoc(ss, i);
  }

  /** The length of a concatenation is the sum of the lengths, one part at a time. */
  lemma ConcatPrefixLength<T>(ss: seq<seq<T>>, i: nat)
    requires i < |ss|
    ensures |Concat(ss[..i + 1])| == |Concat(ss[..i])| + |ss[i]|
  {
    ConcatPrefixSnoc(ss, i);
  }

  /** `ss` seen as the part before slot `c`, the slot itself and the part after it. */
  lemma ConcatAround<T>(ss: seq<seq<T>>, c: nat)
    requires c < |ss|
    ensures Concat(ss) == Concat(ss[..c]) + ss[c] + Concat(ss[c + 1..])
  {
    var left, right := ss[..c + 1], ss[c + 1..];
    assert ss == left + right;
    ConcatSplit(left, right);
    ConcatPrefixSnoc(ss, c);
  }

  /** Slot `i` ends within the concatenation. */
  lemma ConcatPrefixWithin<T>(ss: seq<seq<T>>, i: nat)
    requires i < |ss|
    ensures |Concat(ss[..i])| + |ss[i]| <= |Concat(ss)|
  {
    ConcatAround(ss, i);
  }

  /**
    Element `k` of slot `c` sits in the concatenation at the offset of the
    slot (the total length of the earlier slots) plus `k`.
   */
  lemma ConcatAt<T>(ss: seq<seq<T>>, c: nat, k: nat)
    requires c < |ss| && k < |ss[c]|
    ensures |Concat(ss[..c])| + k < |Concat(ss)|
    ensures Concat(ss)[|Concat(ss[..c])| + k] == ss[c][k]
  {
    ConcatAround(ss, c);
  }

  /**
    Replacing slot `c` of `ss` by `s` replaces exactly the span of slot `c`
    in the concatenation `all`, which starts at the slot's offset `p`; the
    elements of every other slot keep their order.
   */
  lemma ConcatUpdate<T>(ss: seq<seq<T>>, c: nat, s: seq<T>, all: seq<T>, p: nat)
    requires c < |ss| && all == Concat(ss) && p == |Concat(ss[..c])|
    ensures p + |ss[c]| <= |all|
    ensures Concat(ss[c := s]) == all[..p] + s + all[p + |ss[c]|..]
  {
    ConcatAround(ss, c);
    ConcatAroundUpdate(ss, c, s);
    assert all[..p] == Concat(ss[..c]);
    assert all[p + |ss[c]|..] == Concat(ss[c + 1..]);
  }

  /** Inserting a new slot `s` at `c` inserts `s` at the slot's offset `p` in the concatenation `all`. */
  lemma ConcatInsert<T>(ss: seq<seq<T>>, c: nat, s: seq<T>, all: seq<T>, p: nat)
    requires c <= |ss| && all == Concat(ss) && p == |Concat(ss[..c])|
    ensures p <= |all|
    ensures Concat(ss[..c] + [s] + ss[c..]) == all[..p] + s + all[p..]
  {
    assert ss == ss[..c] + ss[c..];
    ConcatSplit(ss[..c], ss[c..]);
    ConcatSplit(ss[..c] + [s], ss[c..]);
    ConcatSnoc(ss[..c], s);
    assert all[..p] == Concat(ss[..c]);
    assert all[p..] == Concat(ss[c..]);
  }

  /** Removing slot `c` removes exactly its span, from its offset `p`, from the concatenation `all`. */
  lemma ConcatRemove<T>(ss: seq<seq<T>>, c: nat, all: seq<T>, p: nat)
    requires c < |ss| && all == Concat(ss) && p == |Concat(ss[..c])|
    ensures p + |ss[c]| <= |all|
    ensures Concat(ss[..c] + ss[c + 1..]) == all[..p] + all[p + |ss[c]|..]
  {
    ConcatAround(ss, c);
    ConcatSplit(ss[..c], ss[c + 1..]);
    assert all[..p] == Concat(ss[..c]);
    assert all[p + |ss[c]|..] == Concat(ss[c + 1..]);
  }

  /** Slot `c` of `ss` replaced by `s`, seen around slot `c`. */
  lemma ConcatAroundUpdate<T>(ss: seq<seq<T>>, c: nat, s: seq<T>)
    requires c < |ss|
    ensures Concat(ss[c := s]) == Concat(ss[..c]) + s + Concat(ss[c + 1..])
  {
    var t := ss[c := s];
    ConcatAround(t, c);
    assert t[..c] == ss[..c];
    assert t[c + 1..] == ss[c + 1..];
  }

  /**
    Inserting `v` at position `k` of slot `c` inserts it in the
    concatenation `all` at the slot's offset `p` plus `k`.
   */
  lemma ConcatInsertInto<T>(ss: seq<seq<T>>, c: nat, k: nat, v: T, all: seq<T>, p: nat)
    requires c < |ss| && k <= |ss[c]| && all == Concat(ss) && p == |Concat(ss[..c])|
    ensures p + k <= |all|
    ensures Concat(ss[c := ss[c][..k] + [v] + ss[c][k..]]) == all[..p + k] + [v] + all[p + k..]
  {
    var a, b, z := Concat(ss[..c]), ss[c], Concat(ss[c + 1..]);
    ConcatAround(ss, c);
    ConcatAroundUpdate(ss, c, b[..k] + [v] + b[k..]);
    SpliceInsert(a, b, z, k, v);
  }

  /**
    Removing position `k` of slot `c` removes the element at the slot's
    offset `p` plus `k` from the concatenation `all`.
   */
  lemma ConcatRemoveFrom<T>(ss: seq<seq<T>>, c: nat, k: nat, all: seq<T>, p: nat)
    requires c < |ss| && k < |ss[c]| && all == Concat(ss) && p == |Concat(ss[..c])|
    ensures p + k < |all|
    ensures Concat(ss[c := ss[c][..k] + ss[c][k + 1..]]) == all[..p + k] + all[p + k + 1..]
  {
    var a, b, z := Concat(ss[..c]), ss[c], Concat(ss[c + 1..]);
    ConcatAround(ss, c);
    ConcatAroundUpdate(ss, c, b[..k] + b[k + 1..]);
    SpliceRemove(a, b, z, k);
  }

  /**
    After a new slot `s` is inserted at `c`, a prefix that ends past it is
    longer by `|s|` than the matching prefix of the original.
   */
  lemma ConcatSlotInserted<T>(ss: seq<seq<T>>, c: nat, s: seq<T>, j: nat)
    requires c < j <= |ss| + 1
    ensures |Concat((ss[..c] + [s] + ss[c..])[..j])| == |Concat(ss[..j - 1])| + |s|
  {
    var mid := ss[c..j - 1];
    assert (ss[..c] + [s] + ss[c..])[..j] == (ss[..c] + [s]) + mid;
    assert ss[..j - 1] == ss[..c] + mid;
    ConcatSplit(ss[..c] + [s], mid);
    ConcatSnoc(ss[..c], s);
    ConcatSplit(ss[..c], mid);
  }

  /**
    After slot `c` is removed, a prefix that ends past it is shorter by
    `|ss[c]|` than the matching prefix of the original.
   */
  lemma ConcatSlotRemoved<T>(ss: seq<seq<T>>, c: nat, j: nat)
    requires c <= j < |ss| - 1
    ensures |Concat((ss[..c] + ss[c + 1..])[..j])| == |Concat(ss[..j + 1])| - |ss[c]|
  {
    var mid := ss[c + 1..j + 1];
    assert (ss[..c] + ss[c + 1..])[..j] == ss[..c] + mid;
    assert ss[..j + 1] == (ss[..c] + [ss[c]]) + mid;
    ConcatSplit(ss[..c], mid);
    ConcatSplit(ss[..c] + [ss[c]], mid);
    ConcatSnoc(ss[..c], ss[c]);
  }

  /**
    After slot `c` is replaced by `s`, a prefix that ends past it changes
    length by `|s| - |ss[c]|`.
   */
  lemma ConcatSlotReplaced<T>(ss: seq<seq<T>>, c: nat, s: seq<T>, j: nat)
    requires c < j <= |ss|
    ensures |Concat(ss[c := s][..j])| == |Concat(ss[..j])| + |s| - |ss[c]|
  {
    var mid := ss[c + 1..j];
    assert ss[c := s][..j] == (ss[..c] + [s]) + mid;
    assert ss[..j] == (ss[..c] + [ss[c]]) + mid;
    ConcatSplit(ss[..c] + [s], mid);
    ConcatSplit(ss[..c] + [ss[c]], mid);
    ConcatSnoc(ss[..c], s);
    ConcatSnoc(ss[..c], ss[c]);
  }

  lemma SpliceInsert<T>(a: seq<T>, b: seq<T>, z: seq<T>, k: nat, v: T)
    requires k <= |b|
    ensures (a + b + z)[..|a| + k] + [v] + (a + b + z)[|a| + k..] == a + (b[..k] + [v] + b[k..]) + z
  {
    assert (a + b + z)[..|a| + k] == a + b[..k];
    assert (a + b + z)[|a| + k..] == b[k..] + z;
  }

  lemma SpliceRemove<T>(a: seq<T>, b: seq<T>, z: seq<T>, k: nat)
    requires k < |b|
    ensures (a + b + z)[..|a| + k] + (a + b + z)[|a| + k + 1..] == a + (b[..k] + b[k + 1..]) + z
  {
    assert (a + b + z)[..|a| + k] == a + b[..k];
    assert (a + b + z)[|a| + k + 1..] == b[k + 1..] + z;
  }
}
