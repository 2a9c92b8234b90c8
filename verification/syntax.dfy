/**
 * The parse tree.  A node's children are a cons list of tokens and nested
 * nodes; `addChild` conses, so while a node is being built its children are
 * in reverse arrival order, and `flip` reverses every level once the tree is
 * complete.
 */
module Syntax {
  import opened Tokens
  import Lists

  datatype Form = Leaf(tok: Token) | Node(children: Lists.List<Form>)

  /** A size measure that strictly decreases from a form to any of its children. */
  function Size(f: Form): nat {
    match f
    case Leaf(_) => 1
    case Node(cs) => 1 + SizeAll(cs)
  }

  function SizeAll(cs: seq<Form>): nat {
    if |cs| == 0 then 0 else Size(cs[0]) + SizeAll(cs[1..])
  }

  /** `addChild`: the new child becomes the head of the children. */
  function AddChild(children: Lists.List<Form>, child: Form): (r: Lists.List<Form>)
    ensures Lists.Car(r).Some? && Lists.Car(r).value == child
    ensures Lists.Cdr(r) == Wrappers.Some(children)
  {
    Lists.Cons(children, child)
  }

  /**
   * `flip`: the children of every node reversed, nested nodes flipped in turn;
   * tokens are returned as they are.  (The original maps over the children,
   * and `map` itself reverses; `FlipIsListMap` states that correspondence.)
   */
  function Flip(f: Form): (r: Form)
    ensures r.Leaf? <==> f.Leaf?
    ensures f.Leaf? ==> r == f
    ensures f.Node? ==> |r.children| == |f.children|
  {
    match f
    case Leaf(_) => f
    case Node(cs) => Node(seq(|cs|, i requires 0 <= i < |cs| => Flip(cs[|cs| - 1 - i])))
  }

  /** A node's flipped children are exactly `map` of `flip` over its children. */
  lemma FlipIsListMap(cs: seq<Form>)
    ensures Flip(Node(cs)).children == Lists.Map(cs, Flip)
  {
  }

  /** Flipping twice restores every level of the tree. */
  lemma {:induction false} FlipInvolutive(f: Form)
    ensures Flip(Flip(f)) == f
    decreases f
  {
    match f
    case Leaf(_) =>
    case Node(cs) =>
      var once := Flip(f).children;
      var twice := Flip(Flip(f)).children;
      assert |twice| == |cs|;
      forall i | 0 <= i < |cs|
        ensures twice[i] == cs[i]
      {
        assert once[|cs| - 1 - i] == Flip(cs[i]);
        FlipInvolutive(cs[i]);
      }
  }
}
