/** The address ranges of a DHCP server: pairs kept in a search tree that is ordered by start, then stop. */
module DhcpRange {

  datatype Range<A> = Range(start: A, stop: A)

  /** A comparison function in the manner of C. */
  type Compare<!A> = (A, A) -> int

  ghost predicate IsOrder<A(!new)>(cmp: Compare<A>) {
    && (forall a, b :: cmp(a, b) == 0 <==> a == b)
    && (forall a, b :: cmp(a, b) < 0 <==> 0 < cmp(b, a))
    && (forall a, b, c :: cmp(a, b) < 0 && cmp(b, c) < 0 ==> cmp(a, c) < 0)
  }

  /** The range comparison: by the first address, and by the last one if the first are equal. */
  function RangeCmp<A>(cmp: Compare<A>, a: Range<A>, b: Range<A>): int {
    var rc := cmp(a.start, b.start);
    if rc != 0 then rc else cmp(a.stop, b.stop)
  }

  /** The range comparison orders all pairs if the address comparison orders all addresses. */
  lemma RangeCmpIsOrder<A(!new)>(cmp: Compare<A>)
    requires IsOrder(cmp)
    ensures IsOrder((a: Range<A>, b: Range<A>) => RangeCmp(cmp, a, b))
  {
    var rc := (a: Range<A>, b: Range<A>) => RangeCmp(cmp, a, b);
    forall a: Range<A>, b: Range<A>, c: Range<A> | rc(a, b) < 0 && rc(b, c) < 0
      ensures rc(a, c) < 0
    {
      assert cmp(a.start, b.start) <= 0 && cmp(b.start, c.start) <= 0;
    }
  }

  datatype Tree<A> = Leaf | Node(left: Tree<A>, top: Range<A>, right: Tree<A>)

  ghost function Elements<A>(t: Tree<A>): set<Range<A>> {
    match t
    case Leaf => {}
    case Node(l, x, r) => Elements(l) + {x} + Elements(r)
  }

  ghost predicate Ordered<A(!new)>(cmp: Compare<A>, t: Tree<A>) {
    match t
    case Leaf => true
    case Node(l, x, r) =>
      && Ordered(cmp, l) && Ordered(cmp, r)
      && (forall y :: y in Elements(l) ==> RangeCmp(cmp, y, x) < 0)
      && (forall y :: y in Elements(r) ==> RangeCmp(cmp, x, y) < 0)
  }

  function Find<A>(cmp: Compare<A>, t: Tree<A>, x: Range<A>): bool {
    match t
    case Leaf => false
    case Node(l, y, r) =>
      var rc := RangeCmp(cmp, x, y);
      if rc == 0 then true else if rc < 0 then Find(cmp, l, x) else Find(cmp, r, x)
  }

  function Insert<A>(cmp: Compare<A>, t: Tree<A>, x: Range<A>): Tree<A> {
    match t
    case Leaf => Node(Leaf, x, Leaf)
    case Node(l, y, r) =>
      if RangeCmp(cmp, x, y) < 0 then Node(Insert(cmp, l, x), y, r) else Node(l, y, Insert(cmp, r, x))
  }

  /** The least range of a tree, and the tree without it. */
  function TakeLeast<A>(t: Tree<A>): (r: (Range<A>, Tree<A>))
    requires t.Node?
  {
    if t.left.Leaf? then (t.top, t.right)
    else
      var (x, l) := TakeLeast(t.left);
      (x, Node(l, t.top, t.right))
  }

  function Remove<A>(cmp: Compare<A>, t: Tree<A>, x: Range<A>): Tree<A> {
    match t
    case Leaf => Leaf
    case Node(l, y, r) =>
      var rc := RangeCmp(cmp, x, y);
      if rc < 0 then Node(Remove(cmp, l, x), y, r)
      else if 0 < rc then Node(l, y, Remove(cmp, r, x))
      else Joined(l, r)
  }

  /** The two trees that a removed range leaves, as one. */
  function Joined<A>(l: Tree<A>, r: Tree<A>): Tree<A> {
    if r.Leaf? then l
    else
      var (z, r') := TakeLeast(r);
      Node(l, z, r')
  }

  lemma {:induction false} FindIsMember<A(!new)>(cmp: Compare<A>, t: Tree<A>, x: Range<A>)
    requires IsOrder(cmp) && Ordered(cmp, t)
    ensures Find(cmp, t, x) <==> x in Elements(t)
  {
    if t.Node? {
      RangeCmpIsOrder(cmp);
      FindIsMember(cmp, t.left, x);
      FindIsMember(cmp, t.right, x);
      var rc := (a: Range<A>, b: Range<A>) => RangeCmp(cmp, a, b);
      assert rc(x, t.top) == RangeCmp(cmp, x, t.top);
      if x in Elements(t.left) { assert rc(x, t.top) < 0; }
      if x in Elements(t.right) { assert rc(t.top, x) < 0; }
    }
  }

  lemma {:induction false} InsertAdds<A(!new)>(cmp: Compare<A>, t: Tree<A>, x: Range<A>)
    requires IsOrder(cmp) && Ordered(cmp, t) && x !in Elements(t)
    ensures Ordered(cmp, Insert(cmp, t, x)) && Elements(Insert(cmp, t, x)) == Elements(t) + {x}
  {
    if t.Node? {
      RangeCmpIsOrder(cmp);
      var rc := (a: Range<A>, b: Range<A>) => RangeCmp(cmp, a, b);
      assert rc(x, t.top) == RangeCmp(cmp, x, t.top) && rc(t.top, x) == RangeCmp(cmp, t.top, x);
      if RangeCmp(cmp, x, t.top) < 0 { InsertAdds(cmp, t.left, x); } else { InsertAdds(cmp, t.right, x); }
    }
  }

  lemma {:induction false} TakeLeastTakesOne<A(!new)>(cmp: Compare<A>, t: Tree<A>)
    requires IsOrder(cmp) && Ordered(cmp, t) && t.Node?
    ensures var (x, u) := TakeLeast(t);
            && Ordered(cmp, u) && x !in Elements(u) && Elements(t) == Elements(u) + {x}
            && forall y :: y in Elements(u) ==> RangeCmp(cmp, x, y) < 0
  {
    RangeCmpIsOrder(cmp);
    var rc := (a: Range<A>, b: Range<A>) => RangeCmp(cmp, a, b);
    if t.left.Leaf? {
      assert rc(t.top, t.top) == 0;
    } else {
      TakeLeastTakesOne(cmp, t.left);
      var (x, l) := TakeLeast(t.left);
      assert x in Elements(t.left) && rc(x, t.top) < 0;
      forall y | y in Elements(Node(l, t.top, t.right))
        ensures RangeCmp(cmp, x, y) < 0
      {
        if y in Elements(t.right) { assert rc(t.top, y) < 0 && rc(x, y) < 0; }
      }
      assert rc(x, x) == 0;
    }
  }

  lemma JoinedHoldsBoth<A(!new)>(cmp: Compare<A>, t: Tree<A>)
    requires IsOrder(cmp) && Ordered(cmp, t) && t.Node?
    ensures Ordered(cmp, Joined(t.left, t.right))
    ensures Elements(Joined(t.left, t.right)) == Elements(t.left) + Elements(t.right)
  {
    if t.right.Node? {
      RangeCmpIsOrder(cmp);
      var rc := (a: Range<A>, b: Range<A>) => RangeCmp(cmp, a, b);
      TakeLeastTakesOne(cmp, t.right);
      var (z, r) := TakeLeast(t.right);
      assert z in Elements(t.right) && rc(t.top, z) < 0;
      forall y | y in Elements(t.left)
        ensures RangeCmp(cmp, y, z) < 0
      {
        assert rc(y, t.top) < 0 && rc(y, z) < 0;
      }
    }
  }

  /** What is in the left tree is not in the right one, and the top is in neither. */
  lemma SidesDiffer<A(!new)>(cmp: Compare<A>, t: Tree<A>, x: Range<A>)
    requires IsOrder(cmp) && Ordered(cmp, t) && t.Node?
    ensures RangeCmp(cmp, x, t.top) < 0 ==> x != t.top && x !in Elements(t.right)
    ensures RangeCmp(cmp, x, t.top) > 0 ==> x != t.top && x !in Elements(t.left)
    ensures RangeCmp(cmp, x, t.top) == 0 ==> x == t.top && x !in Elements(t.left) + Elements(t.right)
  {
    RangeCmpIsOrder(cmp);
    var rc := (a: Range<A>, b: Range<A>) => RangeCmp(cmp, a, b);
    assert rc(x, t.top) == RangeCmp(cmp, x, t.top) && rc(t.top, x) == RangeCmp(cmp, t.top, x);
    assert x in Elements(t.left) ==> rc(x, t.top) < 0;
    assert x in Elements(t.right) ==> rc(t.top, x) < 0;
  }

  lemma LeftWithout<A(!new)>(cmp: Compare<A>, t: Tree<A>, l: Tree<A>, x: Range<A>)
    requires t.Node? && Ordered(cmp, t) && Ordered(cmp, l) && Elements(l) == Elements(t.left) - {x}
    requires x != t.top && x !in Elements(t.right)
    ensures Ordered(cmp, Node(l, t.top, t.right)) && Elements(Node(l, t.top, t.right)) == Elements(t) - {x}
  {
  }

  lemma RightWithout<A(!new)>(cmp: Compare<A>, t: Tree<A>, r: Tree<A>, x: Range<A>)
    requires t.Node? && Ordered(cmp, t) && Ordered(cmp, r) && Elements(r) == Elements(t.right) - {x}
    requires x != t.top && x !in Elements(t.left)
    ensures Ordered(cmp, Node(t.left, t.top, r)) && Elements(Node(t.left, t.top, r)) == Elements(t) - {x}
  {
  }

  lemma {:induction false} RemoveRemoves<A(!new)>(cmp: Compare<A>, t: Tree<A>, x: Range<A>)
    requires IsOrder(cmp) && Ordered(cmp, t)
    ensures Ordered(cmp, Remove(cmp, t, x)) && Elements(Remove(cmp, t, x)) == Elements(t) - {x}
  {
    if t.Node? {
      var rc := RangeCmp(cmp, x, t.top);
      if rc < 0 {
        RemoveRemoves(cmp, t.left, x);
        assert x != t.top && x !in Elements(t.right) by { SidesDiffer(cmp, t, x); }
        LeftWithout(cmp, t, Remove(cmp, t.left, x), x);
      } else if 0 < rc {
        RemoveRemoves(cmp, t.right, x);
        assert x != t.top && x !in Elements(t.left) by { SidesDiffer(cmp, t, x); }
        RightWithout(cmp, t, Remove(cmp, t.right, x), x);
      } else {
        assert x == t.top && x !in Elements(t.left) + Elements(t.right) by { SidesDiffer(cmp, t, x); }
        JoinedHoldsBoth(cmp, t);
      }
    }
  }

  class RangeList<A(!new)> {
    const cmp: Compare<A>
    var tree: Tree<A>

    ghost predicate Valid()
      reads this
    {
      IsOrder(cmp) && Ordered(cmp, tree)
    }

    constructor (cmp: Compare<A>)
      requires IsOrder(cmp)
      ensures Valid() && Elements(tree) == {} && this.cmp == cmp
    {
      this.cmp := cmp;
      tree := Leaf;
    }

    method RangeAdd(start: A, stop: A) returns (ok: bool)
      requires Valid()
      modifies this
      ensures Valid() && ok && Elements(tree) == old(Elements(tree)) + {Range(start, stop)}
    {
      var find := Range(start, stop);
      FindIsMember(cmp, tree, find);
      if Find(cmp, tree, find) { return true; }
      InsertAdds(cmp, tree, find);
      tree := Insert(cmp, tree, find);
      return true;
    }

    method RangeDel(start: A, stop: A) returns (ok: bool)
      requires Valid()
      modifies this
      ensures Valid() && ok && Elements(tree) == old(Elements(tree)) - {Range(start, stop)}
    {
      var find := Range(start, stop);
      FindIsMember(cmp, tree, find);
      if !Find(cmp, tree, find) { return true; }
      RemoveRemoves(cmp, tree, find);
      tree := Remove(cmp, tree, find);
      return true;
    }
  }

  // ---------------------------------------------------------------- any sequence of adds and deletes

  datatype Event<A> = Add(r: Range<A>) | Del(r: Range<A>)

  function TreeRun<A>(cmp: Compare<A>, es: seq<Event<A>>): Tree<A> {
    if es == [] then Leaf
    else
      var t := TreeRun(cmp, es[..|es| - 1]);
      match es[|es| - 1]
      case Add(r) => if Find(cmp, t, r) then t else Insert(cmp, t, r)
      case Del(r) => if Find(cmp, t, r) then Remove(cmp, t, r) else t
  }

  /** The pair was added, and not deleted since. */
  ghost predicate Live<A>(es: seq<Event<A>>, r: Range<A>) {
    es != [] && (es[|es| - 1] == Add(r) || (es[|es| - 1] != Del(r) && Live(es[..|es| - 1], r)))
  }

  /** The ranges in tree order. */
  function InOrder<A>(t: Tree<A>): seq<Range<A>> {
    match t
    case Leaf => []
    case Node(l, x, r) => InOrder(l) + [x] + InOrder(r)
  }

  /** After any adds and deletes the tree is ordered and holds exactly the pairs added and not deleted
      since. */
  lemma {:induction false} TreeHoldsLive<A(!new)>(cmp: Compare<A>, es: seq<Event<A>>)
    requires IsOrder(cmp)
    ensures Ordered(cmp, TreeRun(cmp, es))
    ensures forall r :: r in Elements(TreeRun(cmp, es)) <==> Live(es, r)
  {
    if es != [] {
      var front, e := es[..|es| - 1], es[|es| - 1];
      TreeHoldsLive(cmp, front);
      var t := TreeRun(cmp, front);
      FindIsMember(cmp, t, e.r);
      if e.Add? && !Find(cmp, t, e.r) { InsertAdds(cmp, t, e.r); }
      if e.Del? { RemoveRemoves(cmp, t, e.r); }
    }
  }

  /** `a` starts before `b`, or they start together and `a` stops before `b`. */
  predicate Before<A(==)>(cmp: Compare<A>, a: Range<A>, b: Range<A>) {
    cmp(a.start, b.start) < 0 || (a.start == b.start && cmp(a.stop, b.stop) < 0)
  }

  /** An ordered tree lists its ranges by their starts, and by their stops where they start together; and so it
      lists each of them once. */
  lemma {:induction false} NoDuplicates<A(!new)>(cmp: Compare<A>, t: Tree<A>)
    requires IsOrder(cmp) && Ordered(cmp, t)
    ensures forall x :: x in InOrder(t) <==> x in Elements(t)
    ensures forall i, j :: 0 <= i < j < |InOrder(t)| ==>
              Before(cmp, InOrder(t)[i], InOrder(t)[j]) && InOrder(t)[i] != InOrder(t)[j]
  {
    if t.Node? {
      NoDuplicates(cmp, t.left);
      NoDuplicates(cmp, t.right);
      RangeCmpIsOrder(cmp);
      var rc := (a: Range<A>, b: Range<A>) => RangeCmp(cmp, a, b);
      var l, r, s := InOrder(t.left), InOrder(t.right), InOrder(t);
      forall i, j | 0 <= i < j < |s|
        ensures Before(cmp, s[i], s[j]) && s[i] != s[j]
      {
        if i < |l| { assert l[i] in Elements(t.left) && rc(s[i], t.top) < 0; }
        if |l| < j { assert r[j - |l| - 1] in Elements(t.right) && rc(t.top, s[j]) < 0; }
        if i <= |l| <= j {
          assert rc(t.top, t.top) == 0 && rc(s[i], s[j]) < 0;
        } else if j < |l| {
          assert s[i] == l[i] && s[j] == l[j];
        } else {
          assert s[i] == r[i - |l| - 1] && s[j] == r[j - |l| - 1];
        }
      }
    }
  }
}
