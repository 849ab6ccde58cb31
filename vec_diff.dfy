/**
  The diff vocabulary observable collections use to report their changes,
  what a consumer does with each diff to keep a mirrored copy, and the two
  multi-element emission shapes of the flat-map transform: a run of
  insertions at ascending indices and a run of removals at descending ones.
 */
module VecDiffs {
  import opened Wrappers

  /**
    `Clear` empties the collection; `InsertAt` puts `value` at `index` and
    shifts the later elements right; `RemoveAt` drops the element at
    `index` and shifts the later elements left.
   */
  datatype VecDiff<T> = Clear | InsertAt(index: nat, value: T) | RemoveAt(index: nat)

  /**
    Applies one diff to a mirrored copy `s`. An index out of range for the
    mirror's current state gives `None`.
   */
  function Apply<T>(s: seq<T>, d: VecDiff<T>): (r: Option<seq<T>>)
    ensures d.Clear? ==> r == Some([])
    ensures d.InsertAt? ==> (r.Some? <==> d.index <= |s|)
    ensures d.RemoveAt? ==> (r.Some? <==> d.index < |s|)
  {
    match d
    case Clear => Some([])
    case InsertAt(i, v) => if i <= |s| then Some(s[..i] + [v] + s[i..]) else None
    case RemoveAt(i) => if i < |s| then Some(s[..i] + s[i + 1..]) else None
  }

  /**
    An applied `InsertAt` puts its value at its index and moves every later
    element one place right; an applied `RemoveAt` moves every element
    after its index one place left. Earlier elements stay where they are.
   */
  lemma ApplyShifts<T>(s: seq<T>, d: VecDiff<T>)
    requires Apply(s, d).Some?
    ensures var r := Apply(s, d).value;
      && (d.InsertAt? ==>
        && |r| == |s| + 1
        && r[d.index] == d.value
        && (forall j :: 0 <= j < d.index ==> r[j] == s[j])
        && (forall j :: d.index < j < |r| ==> r[j] == s[j - 1]))
      && (d.RemoveAt? ==>
        && |r| == |s| - 1
        && (forall j :: 0 <= j < d.index ==> r[j] == s[j])
        && (forall j :: d.index <= j < |r| ==> r[j] == s[j + 1]))
  {
  }

  /**
    Applies the diffs one at a time, in order, to a mirrored copy; `None`
    as soon as one diff does not fit the mirror as it is at that moment.
   */
  function Replay<T>(s: seq<T>, ds: seq<VecDiff<T>>): (r: Option<seq<T>>)
    decreases |ds|
  {
    if |ds| == 0 then Some(s)
    else match Apply(s, ds[0])
      case None => None
      case Some(t) => Replay(t, ds[1..])
  }

  /** Replaying a single in-range `InsertAt` splices its value in. */
  lemma ReplayInsertAt<T>(s: seq<T>, i: nat, v: T)
    requires i <= |s|
    ensures Replay(s, [InsertAt(i, v)]) == Some(s[..i] + [v] + s[i..])
  {
    assert [InsertAt(i, v)][1..] == [];
  }

  /** Replaying a single in-range `RemoveAt` drops that element. */
  lemma ReplayRemoveAt<T>(s: seq<T>, i: nat)
    requires i < |s|
    ensures Replay(s, [RemoveAt(i)]) == Some(s[..i] + s[i + 1..])
  {
    var d: VecDiff<T> := RemoveAt(i);
    assert [d][1..] == [];
  }

  /** Replaying two runs of diffs is replaying the first, then the second. */
  lemma {:induction false} ReplayAppend<T>(s: seq<T>, ds1: seq<VecDiff<T>>, ds2: seq<VecDiff<T>>)
    ensures Replay(s, ds1 + ds2) ==
      match Replay(s, ds1)
      case None => None
      case Some(t) => Replay(t, ds2)
    decreases |ds1|
  {
    if |ds1| == 0 {
      assert ds1 + ds2 == ds2;
    } else {
      assert (ds1 + ds2)[0] == ds1[0];
      assert (ds1 + ds2)[1..] == ds1[1..] + ds2;
      match Apply(s, ds1[0])
      case None =>
      case Some(t) => ReplayAppend(t, ds1[1..], ds2);
    }
  }

  /**
    The diffs announcing that `vs` was inserted at `p`: one `InsertAt` per
    element, at `p`, `p + 1`, ..., in the order of `vs`.
   */
  function Insertions<T>(p: nat, vs: seq<T>): (r: seq<VecDiff<T>>)
  {
    seq(|vs|, k requires 0 <= k < |vs| => InsertAt(p + k, vs[k]))
  }

  /**
    The diffs announcing that the span `[p, p + n)` was removed: one
    `RemoveAt` per element, highest index first.
   */
  function Removals<T>(p: nat, n: nat): (r: seq<VecDiff<T>>)
    ensures |r| == n
  {
    seq(n, k requires 0 <= k < n => RemoveAt(p + n - 1 - k))
  }

  /**
    The removals address exactly the span `[p, p + n)`, each index once,
    in strictly descending order.
   */
  lemma RemovalsDescending<T>(p: nat, n: nat)
    ensures forall k :: 0 <= k < n ==> Removals<T>(p, n)[k].RemoveAt? && p <= Removals<T>(p, n)[k].index < p + n
    ensures forall j, k :: 0 <= j < k < n ==> Removals<T>(p, n)[j].index > Removals<T>(p, n)[k].index
    ensures forall i :: p <= i < p + n ==> Removals<T>(p, n)[p + n - 1 - i] == RemoveAt(i)
  {
  }

  /**
    Applying the insertions one at a time to a mirror leaves the mirror
    with `vs` spliced in at `p`: every index is valid when it is applied.
   */
  lemma {:induction false} InsertionsReplay<T>(s: seq<T>, p: nat, vs: seq<T>)
    requires p <= |s|
    ensures Replay(s, Insertions(p, vs)) == Some(s[..p] + vs + s[p..])
    decreases |vs|
  {
    if |vs| == 0 {
      assert s[..p] + vs + s[p..] == s;
    } else {
      var n := |vs| - 1;
      var init := vs[..n];
      var d: VecDiff<T> := InsertAt(p + n, vs[n]);
      var t := s[..p] + init + s[p..];
      assert Replay(s, Insertions(p, init)) == Some(t) by {
        InsertionsReplay(s, p, init);
      }
      assert Replay(s, Insertions(p, vs)) == Replay(t, [d]) by {
        assert Insertions(p, vs) == Insertions(p, init) + [d];
        ReplayAppend(s, Insertions(p, init), [d]);
      }
      assert Replay(t, [d]) == Some(t[..p + n] + [vs[n]] + t[p + n..]) by {
        ReplayInsertAt(t, p + n, vs[n]);
      }
      assert t[..p + n] + [vs[n]] + t[p + n..] == s[..p] + vs + s[p..] by {
        assert t[..p + n] == s[..p] + init;
        assert t[p + n..] == s[p..];
        assert init + [vs[n]] == vs;
      }
    }
  }

  /**
    Applying the removals one at a time, highest index first, leaves the
    mirror without the span `[p, p + n)`: every index is still valid when
    it is applied.
   */
  lemma {:induction false} RemovalsReplay<T>(s: seq<T>, p: nat, n: nat)
    requires p + n <= |s|
    ensures Replay(s, Removals<T>(p, n)) == Some(s[..p] + s[p + n..])
    decreases n
  {
    if n == 0 {
      assert s[..p] + s[p..] == s;
    } else {
      var t := s[..p + n - 1] + s[p + n..];
      assert Removals<T>(p, n)[0] == RemoveAt(p + n - 1);
      assert Removals<T>(p, n)[1..] == Removals<T>(p, n - 1);
      RemovalsReplay(t, p, n - 1);
      assert t[..p] == s[..p];
      assert t[p + n - 1..] == s[p + n..];
    }
  }

  /** The removals of the span `[p, p + n)` lowest index first: `RemoveAt(p)`, ..., `RemoveAt(p + n - 1)`. */
  function AscendingRemovals<T>(p: nat, n: nat): (r: seq<VecDiff<T>>)
  {
    seq(n, k requires 0 <= k < n => RemoveAt(p + k))
  }

  /**
    After `k` of the ascending removals of a span that reaches the end of
    the mirror, the mirror has `k` fewer elements, and one of the
    remaining removals addresses an index past its end.
   */
  lemma {:induction false} AscendingRemovalsOverrun<T>(t: seq<T>, p: nat, n: nat, k: nat)
    requires 2 <= n && k < n && |t| + k == p + n
    ensures Replay(t, AscendingRemovals<T>(p, n)[k..]) == None
    decreases n - k
  {
    var ds := AscendingRemovals<T>(p, n)[k..];
    assert ds[0] == RemoveAt(p + k);
    if p + k < |t| {
      var u := t[..p + k] + t[p + k + 1..];
      assert Apply(t, ds[0]) == Some(u);
      assert ds[1..] == AscendingRemovals<T>(p, n)[k + 1..];
      AscendingRemovalsOverrun(u, p, n, k + 1);
    }
  }

  /**
    Why the removals are emitted highest index first: removing a span of
    two or more elements that reaches the end of the mirror lowest index
    first addresses, after the first removals, elements that have already
    shifted, and runs past the end of the mirror; the descending removals
    of the same span succeed.
   */
  lemma AscendingRemovalsDesynchronise<T>(s: seq<T>, p: nat, n: nat)
    requires 2 <= n && p + n == |s|
    ensures Replay(s, AscendingRemovals<T>(p, n)) == None
    ensures Replay(s, Removals<T>(p, n)) == Some(s[..p])
  {
    AscendingRemovalsOverrun(s, p, n, 0);
    assert AscendingRemovals<T>(p, n)[0..] == AscendingRemovals<T>(p, n);
    RemovalsReplay(s, p, n);
    assert s[p + n..] == [];
    assert s[..p] + s[p + n..] == s[..p];
  }
}
