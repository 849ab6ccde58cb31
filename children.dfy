/**
  The children collection of a control: an enum optimised for the common
  shapes (no child, one control, one observable collection, a list of
  controls) with a general mixed form, a list of parts each of which is a
  control, an observable collection or a list of controls. Whatever the
  shape, the collection stands for one ordered list of controls, its
  `Content`; `len`, `get` and the double-ended iterator read that list, and
  `add`, `append` and `from` build collections whose content is the
  concatenation of their inputs' contents.

  Controls are a type parameter `C`. An observable collection is modelled
  by the list of controls it holds when it is read.
 */
module ChildrenCollection {
  import opened Wrappers
  import opened Sequences

  /** One part of a mixed collection. */
  datatype SubChildren<C> =
    | SingleStatic(control: C)
    | SingleDynamic(collection: seq<C>)
    | MultipleStatic(controls: seq<C>)

  datatype Children<C> =
    | None
    | SingleStatic(control: C)
    | SingleDynamic(collection: seq<C>)
    | MultipleStatic(controls: seq<C>)
    | MultipleMixed(parts: seq<SubChildren<C>>)

  /** The controls a part stands for, in order. */
  function SubContent<C>(s: SubChildren<C>): (r: seq<C>)
  {
    match s
    case SingleStatic(x) => [x]
    case SingleDynamic(xs) => xs
    case MultipleStatic(xs) => xs
  }

  /** The controls of each part, part by part. */
  function PartContents<C>(ps: seq<SubChildren<C>>): (r: seq<seq<C>>)
    ensures |r| == |ps|
  {
    seq(|ps|, i requires 0 <= i < |ps| => SubContent(ps[i]))
  }

  /** The controls a collection stands for, in order. */
  function Content<C>(c: Children<C>): (r: seq<C>)
  {
    match c
    case None => []
    case SingleStatic(x) => [x]
    case SingleDynamic(xs) => xs
    case MultipleStatic(xs) => xs
    case MultipleMixed(ps) => Concat(PartContents(ps))
  }

  /** The contents of a list of collections, collection by collection. */
  function ChildrenContents<C>(cs: seq<Children<C>>): (r: seq<seq<C>>)
    ensures |r| == |cs|
  {
    seq(|cs|, i requires 0 <= i < |cs| => Content(cs[i]))
  }

  /** Element `i` of a list, or `None` past its end (`Vec::get`, `ObservableCollection::get`). */
  function At<C>(xs: seq<C>, i: nat): (r: Option<C>)
    ensures r.Some? <==> i < |xs|
    ensures r.Some? ==> r.value == xs[i]
  {
    if i < |xs| then Some(xs[i]) else Option.None
  }

  /** A control on its own or a list of controls, as opposed to an observable collection. */
  predicate IsStatic<C>(s: SubChildren<C>)
  {
    s.SingleStatic? || s.MultipleStatic?
  }

  /** No two neighbouring parts are both static. */
  predicate StaticRunsMerged<C>(ps: seq<SubChildren<C>>)
    decreases |ps|
  {
    |ps| < 2 ||
      (StaticRunsMerged(ps[..|ps| - 1]) && !(IsStatic(ps[|ps| - 2]) && IsStatic(ps[|ps| - 1])))
  }

  /**
    The shape `add` maintains: in a mixed collection, controls that follow
    each other without an observable collection between them share one part.
   */
  predicate Coalesced<C>(c: Children<C>)
  {
    c.MultipleMixed? ==> StaticRunsMerged(c.parts)
  }

  /** `SubChildren::len`: the number of controls in a part. */
  function SubLen<C>(s: SubChildren<C>): (n: nat)
    ensures n == |SubContent(s)|
  {
    match s
    case SingleStatic(_) => 1
    case SingleDynamic(xs) => |xs|
    case MultipleStatic(xs) => |xs|
  }

  /** `SubChildren::get`: the control at `index` of a part, or `None` past its end. */
  function SubGet<C>(s: SubChildren<C>, index: nat): (r: Option<C>)
    ensures r.Some? <==> index < |SubContent(s)|
    ensures r.Some? ==> r.value == SubContent(s)[index]
  {
    match s
    case SingleStatic(x) => if index == 0 then Some(x) else Option.None
    case SingleDynamic(xs) => At(xs, index)
    case MultipleStatic(xs) => At(xs, index)
  }

  /** Dropping the last part drops its controls from the end of the content. */
  lemma PartContentsInit<C>(ps: seq<SubChildren<C>>)
    requires |ps| > 0
    ensures Concat(PartContents(ps)) == Concat(PartContents(ps[..|ps| - 1])) + SubContent(ps[|ps| - 1])
  {
    assert PartContents(ps)[..|ps| - 1] == PartContents(ps[..|ps| - 1]);
  }

  /** A new last part adds its controls at the end of the content. */
  lemma PartContentsSnoc<C>(ps: seq<SubChildren<C>>, s: SubChildren<C>)
    ensures Concat(PartContents(ps + [s])) == Concat(PartContents(ps)) + SubContent(s)
  {
    PartContentsInit(ps + [s]);
    assert (ps + [s])[..|ps|] == ps;
  }

  /** The sum of the parts' lengths, as `len` computes it for a mixed collection. */
  function SumLens<C>(ps: seq<SubChildren<C>>): (n: nat)
    ensures n == |Concat(PartContents(ps))|
    decreases |ps|
  {
    if |ps| == 0 then 0
    else
      PartContentsInit(ps);
      SumLens(ps[..|ps| - 1]) + SubLen(ps[|ps| - 1])
  }

  /** `Children::len`: the number of controls in the collection. */
  function Len<C>(c: Children<C>): (n: nat)
    ensures n == |Content(c)|
  {
    match c
    case None => 0
    case SingleStatic(_) => 1
    case SingleDynamic(xs) => |xs|
    case MultipleStatic(xs) => |xs|
    case MultipleMixed(ps) => SumLens(ps)
  }

  /**
    `Children::get`: the control at `index`, or `None` past the end. A mixed
    collection is walked part by part, taking each part's length off
    `index` until `index` falls inside a part.
   */
  method Get<C>(c: Children<C>, index: nat) returns (r: Option<C>)
    ensures r.Some? <==> index < |Content(c)|
    ensures r.Some? ==> r.value == Content(c)[index]
  {
    match c
    case None =>
      r := Option.None;
    case SingleStatic(x) =>
      r := if index == 0 then Some(x) else Option.None;
    case SingleDynamic(xs) =>
      r := At(xs, index);
    case MultipleStatic(xs) =>
      r := At(xs, index);
    case MultipleMixed(ps) =>
      var contents := PartContents(ps);
      var i := index;
      var k := 0;
      while k < |ps|
        invariant 0 <= k <= |ps|
        invariant index == |Concat(contents[..k])| + i
      {
        var len := SubLen(ps[k]);
        if i < len {
          ConcatAt(contents, k, i);
          r := SubGet(ps[k], i);
          return;
        }
        ConcatPrefixLength(contents, k);
        i := i - len;
        k := k + 1;
      }
      assert contents[..k] == contents;
      r := Option.None;
  }

  /**
    `Children::add`: a collection with one more control or observable
    collection at the end. The content grows by the child's content; a
    control that follows other controls joins their part, while an
    observable collection always becomes a part of its own.
   */
  method Add<C>(self: Children<C>, child: Children<C>) returns (r: Children<C>)
    requires child.SingleStatic? || child.SingleDynamic?
    ensures Content(r) == Content(self) + Content(child)
    ensures Coalesced(self) ==> Coalesced(r)
    ensures r != Children.None
  {
    var part :=
      if child.SingleStatic? then SubChildren.SingleStatic(child.control)
      else SubChildren.SingleDynamic(child.collection);
    match self
    case None =>
      r := child;
    case SingleStatic(x) =>
      if child.SingleStatic? {
        r := Children.MultipleStatic([x, child.control]);
      } else {
        r := Mixed(SubChildren.SingleStatic(x), part);
      }
    case SingleDynamic(x) =>
      r := Mixed(SubChildren.SingleDynamic(x), part);
    case MultipleStatic(xs) =>
      if child.SingleStatic? {
        var x := xs;
        x := x + [child.control];
        r := Children.MultipleStatic(x);
      } else {
        r := Mixed(SubChildren.MultipleStatic(xs), part);
      }
    case MultipleMixed(ps) =>
      if |ps| == 0 {
        r := child;
      } else {
        r := AddToParts(ps, part);
      }
  }

  /** A mixed collection of two parts, as `add` builds one from a single control or collection. */
  function Mixed<C>(first: SubChildren<C>, second: SubChildren<C>): (r: Children<C>)
    ensures r.MultipleMixed?
    ensures Content(r) == SubContent(first) + SubContent(second)
    ensures !(IsStatic(first) && IsStatic(second)) ==> Coalesced(r)
  {
    PartContentsSnoc([first], second);
    PartContentsSnoc([], first);
    assert [] + [first] == [first];
    assert [first] + [second] == [first, second];
    AddMerged([first], second);
    Children.MultipleMixed([first, second])
  }

  /**
    The mixed arm of `add` on a non-empty list of parts: the last part is
    popped and pushed back with the new part after it, except that a
    control joins a static last part.
   */
  method AddToParts<C>(ps: seq<SubChildren<C>>, part: SubChildren<C>) returns (r: Children<C>)
    requires |ps| > 0 && (part.SingleStatic? || part.SingleDynamic?)
    ensures r.MultipleMixed?
    ensures Content(r) == Concat(PartContents(ps)) + SubContent(part)
    ensures StaticRunsMerged(ps) ==> Coalesced(r)
    ensures |r.parts| == if part.SingleStatic? && IsStatic(ps[|ps| - 1]) then |ps| else |ps| + 1
    ensures r.parts[..|ps| - 1] == ps[..|ps| - 1]
  {
    var x := ps[..|ps| - 1];
    var last := ps[|ps| - 1];
    PartContentsInit(ps);
    assert x + [last] == ps;
    if part.SingleStatic? {
      var c := part.control;
      match last {
        case SingleStatic(l) =>
          var merged := SubChildren.MultipleStatic([l, c]);
          PartContentsSnoc(x, merged);
          AddMerged(x, merged);
          x := x + [merged];
        case SingleDynamic(l) =>
          x := x + [SubChildren.SingleDynamic(l)];
          x := x + [part];
          PartContentsSnoc(ps, part);
          AddMerged(ps, part);
        case MultipleStatic(l) =>
          var l' := l + [c];
          var merged := SubChildren.MultipleStatic(l');
          PartContentsSnoc(x, merged);
          AddMerged(x, merged);
          x := x + [merged];
      }
    } else {
      x := x + [last];
      x := x + [part];
      PartContentsSnoc(ps, part);
      AddMerged(ps, part);
    }
    r := Children.MultipleMixed(x);
  }

  /**
    A new last part keeps static runs merged when it is an observable
    collection, or when it replaces a static last part (or follows a
    dynamic one).
   */
  lemma AddMerged<C>(ps: seq<SubChildren<C>>, s: SubChildren<C>)
    ensures StaticRunsMerged(ps) && (|ps| > 0 && IsStatic(s) ==> !IsStatic(ps[|ps| - 1])) ==>
      StaticRunsMerged(ps + [s])
  {
    assert (ps + [s])[..|ps|] == ps;
  }

  /**
    `Children::append`: adds every control and observable collection of
    `children`, one at a time and in order, to `self`.
   */
  method Append<C>(self: Children<C>, children: Children<C>) returns (r: Children<C>)
    ensures Content(r) == Content(self) + Content(children)
    ensures Coalesced(self) ==> Coalesced(r)
  {
    match children
    case None =>
      r := self;
    case SingleStatic(x) =>
      r := Add(self, Children.SingleStatic(x));
    case SingleDynamic(xs) =>
      r := Add(self, Children.SingleDynamic(xs));
    case MultipleStatic(xs) =>
      r := AddControls(self, xs);
    case MultipleMixed(ps) =>
      r := AppendParts(self, ps);
  }

  /** The mixed arm of `append`: adds the parts' contents, part by part, to `self`. */
  method AppendParts<C>(self: Children<C>, ps: seq<SubChildren<C>>) returns (r: Children<C>)
    ensures Content(r) == Content(self) + Concat(PartContents(ps))
    ensures Coalesced(self) ==> Coalesced(r)
  {
    r := self;
    var contents := PartContents(ps);
    var k := 0;
    while k < |ps|
      invariant 0 <= k <= |ps|
      invariant Content(r) == Content(self) + Concat(contents[..k])
      invariant Coalesced(self) ==> Coalesced(r)
    {
      r := AddPart(r, ps[k]);
      ConcatPrefixAfter(Content(self), contents, k);
      k := k + 1;
    }
    assert contents[..k] == contents;
  }

  /** Adds the controls and observable collection of one part of a mixed collection to `self`. */
  method AddPart<C>(self: Children<C>, part: SubChildren<C>) returns (r: Children<C>)
    ensures Content(r) == Content(self) + SubContent(part)
    ensures Coalesced(self) ==> Coalesced(r)
  {
    match part
    case SingleStatic(x) =>
      r := Add(self, Children.SingleStatic(x));
    case SingleDynamic(xs) =>
      r := Add(self, Children.SingleDynamic(xs));
    case MultipleStatic(xs) =>
      r := AddControls(self, xs);
  }

  /** Adds the controls `xs`, one at a time and in order, to `self`. */
  method AddControls<C>(self: Children<C>, xs: seq<C>) returns (r: Children<C>)
    ensures Content(r) == Content(self) + xs
    ensures Coalesced(self) ==> Coalesced(r)
  {
    r := self;
    var j := 0;
    while j < |xs|
      invariant 0 <= j <= |xs|
      invariant Content(r) == Content(self) + xs[..j]
      invariant Coalesced(self) ==> Coalesced(r)
    {
      ghost var done := Content(r);
      var child := Children.SingleStatic(xs[j]);
      assert Content(child) == [xs[j]];
      r := Add(r, child);
      assert Content(r) == done + [xs[j]];
      assert xs[..j + 1] == xs[..j] + [xs[j]];
      assert Content(r) == Content(self) + xs[..j + 1];
      j := j + 1;
    }
    assert xs[..j] == xs;
  }

  /**
    `Children::from`: the first collection of the list, with every later
    one appended to it in order; `None` for an empty list.
   */
  method From<C>(childrenVec: seq<Children<C>>) returns (r: Children<C>)
    ensures |childrenVec| == 0 ==> r == Children.None
    ensures Content(r) == Concat(ChildrenContents(childrenVec))
    ensures |childrenVec| > 0 && Coalesced(childrenVec[0]) ==> Coalesced(r)
  {
    var contents := ChildrenContents(childrenVec);
    if |childrenVec| == 0 {
      r := Children.None;
      return;
    }
    r := childrenVec[0];
    assert Concat(contents[..1]) == Content(r) by {
      ConcatPrefixSnoc(contents, 0);
      assert contents[..0] == [];
    }
    var k := 1;
    while k < |childrenVec|
      invariant 1 <= k <= |childrenVec|
      invariant Content(r) == Concat(contents[..k])
      invariant Coalesced(childrenVec[0]) ==> Coalesced(r)
    {
      r := Append(r, childrenVec[k]);
      ConcatPrefixSnoc(contents, k);
      k := k + 1;
    }
    assert contents[..k] == contents;
  }

  /**
    The double-ended iterator over a collection's controls: `pos` is the
    next position from the front, `len` one past the next position from
    the back, and the controls still to come are those in between.
   */
  class ChildrenIterator<C> {
    const source: Children<C>
    var pos: nat
    var len: nat

    ghost predicate Valid()
      reads this
    {
      pos <= len <= |Content(source)|
    }

    /** The controls not yet yielded from either end. */
    ghost function Remaining(): seq<C>
      reads this
      requires Valid()
    {
      Content(source)[pos..len]
    }

    /** `into_iter`: an iterator over every control of `source`, front to back. */
    constructor (source: Children<C>)
      ensures Valid()
      ensures this.source == source && pos == 0 && len == Len(source)
      ensures Remaining() == Content(source)
    {
      this.source := source;
      pos := 0;
      len := Len(source);
    }

    /** `next`: the first control not yet yielded, taken from the front; `None` once the ends meet. */
    method Next() returns (r: Option<C>)
      requires Valid()
      modifies this
      ensures Valid()
      ensures old(pos < len) ==> pos == old(pos) + 1 && len == old(len)
      ensures old(pos < len) ==> r == Some(old(Remaining())[0]) && Remaining() == old(Remaining())[1..]
      ensures old(pos >= len) ==> r == Option.None && pos == old(pos) && len == old(len)
    {
      if pos < len {
        pos := pos + 1;
        r := Get(source, pos - 1);
      } else {
        r := Option.None;
      }
    }

    /** `next_back`: the last control not yet yielded, taken from the back; `None` once the ends meet. */
    method NextBack() returns (r: Option<C>)
      requires Valid()
      modifies this
      ensures Valid()
      ensures old(len > pos) ==> len == old(len) - 1 && pos == old(pos)
      ensures old(len > pos) ==>
        r == Some(old(Remaining())[|old(Remaining())| - 1]) && Remaining() == old(Remaining())[..|old(Remaining())| - 1]
      ensures old(len <= pos) ==> r == Option.None && pos == old(pos) && len == old(len)
    {
      if len > pos {
        len := len - 1;
        r := Get(source, len);
      } else {
        r := Option.None;
      }
    }
  }
}
