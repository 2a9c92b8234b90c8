/**
 * The `equals` methods of lists, trees and tokens, over the JavaScript values
 * they can be handed.  `_divineEquality` asks the left operand's `equals` if
 * it has one, else the right operand's, else falls back to `===`; list
 * equality compares element by element against another list or an array;
 * tree equality compares its children; token equality compares `text` with a
 * string or with another token's `text`, whatever kind of token either is.
 */
module Equality {
  import opened Wrappers
  import opened Tokens
  import opened Syntax

  datatype Datum =
    | Undef
    | NullD
    | BoolD(b: bool)
    | NumD(n: int)
    | StrD(s: string)
    | Tok(text: Option<string>)          // any token; `None` is an unset `text`
    | LL(items: seq<Datum>)              // a cons list, by its values head first
    | Tree(children: seq<Datum>)         // a tree node, by its children
    | Arr(id: nat, elems: seq<Datum>)    // an array: an object with identity `id`
    | Obj(id: nat)                       // any other object without `equals`

  function DSize(d: Datum): nat {
    match d
    case LL(items) => 1 + DSizeAll(items)
    case Tree(cs) => 1 + DSizeAll(cs)
    case Arr(_, elems) => 1 + DSizeAll(elems)
    case _ => 1
  }

  function DSizeAll(ds: seq<Datum>): nat {
    if |ds| == 0 then 1 else DSize(ds[0]) + DSizeAll(ds[1..])
  }

  /** The value is an object with an `equals` method. */
  predicate HasEquals(d: Datum) {
    d.Tok? || d.LL? || d.Tree?
  }

  /** `===` between values neither of which has `equals`: primitives by value, objects by identity. */
  predicate StrictEquals(l: Datum, r: Datum)
    requires !HasEquals(l) && !HasEquals(r)
  {
    match (l, r)
    case (Undef, Undef) => true
    case (NullD, NullD) => true
    case (BoolD(a), BoolD(b)) => a == b
    case (NumD(a), NumD(b)) => a == b
    case (StrD(a), StrD(b)) => a == b
    case (Arr(i, _), Arr(j, _)) => i == j
    case (Obj(i), Obj(j)) => i == j
    case _ => false
  }

  /** `_divineEquality`: the left operand's `equals`, else the right operand's, else `===`. */
  predicate Divine(l: Datum, r: Datum)
    decreases DSize(l) + DSize(r), 1
  {
    if HasEquals(l) then MethodEquals(l, r)
    else if HasEquals(r) then MethodEquals(r, l)
    else StrictEquals(l, r)
  }

  /** `self.equals(that)` for a value that has the method. */
  predicate MethodEquals(self: Datum, that: Datum): (b: bool)
    requires HasEquals(self)
    ensures b && self.Tok? ==> that.StrD? || that.Tok?
    ensures b && !self.Tok? ==> that.LL? || that.Arr? || that.Tree?
    decreases DSize(self) + DSize(that), 0
  {
    match self
    case Tok(text) => TokenEquals(text, that)
    case LL(items) => ListEquals(items, that)
    case Tree(cs) =>
      if that.Tree? then ListEquals(cs, LL(that.children))
      else if that.LL? || that.Arr? then ListEquals(cs, that)
      else false
  }

  /** `Token.equals`: the text against a string, or against another token's text. */
  predicate TokenEquals(text: Option<string>, that: Datum): (b: bool)
    ensures b ==> that.StrD? || that.Tok?
    ensures that.StrD? && text.None? ==> !b
  {
    match that
    case StrD(s) => text == Some(s)
    case Tok(other) => text == other
    case _ => false
  }

  /** `LinkedList.equals`: against a list or an array, else false. */
  predicate ListEquals(items: seq<Datum>, that: Datum): (b: bool)
    ensures b ==> that.LL? || that.Arr?
    ensures b && that.LL? ==> |that.items| == |items|
    ensures b && that.Arr? ==> |that.elems| == |items|
    decreases DSizeAll(items) + DSize(that), 2
  {
    match that
    case LL(other) => CompWithLL(items, other)
    case Arr(_, elems) => |items| == |elems| && CompWithArr(items, elems)
    case _ => false
  }

  /** `_compWithLL`: equal lengths, equal heads, equal tails. */
  predicate CompWithLL(a: seq<Datum>, b: seq<Datum>): (r: bool)
    ensures r ==> |a| == |b|
    decreases DSizeAll(a) + DSizeAll(b), 0
  {
    if |a| == 0 && |b| == 0 then true
    else if |a| != |b| then false
    else
      assert DSizeAll(a) == DSize(a[0]) + DSizeAll(a[1..]);
      assert DSizeAll(b) == DSize(b[0]) + DSizeAll(b[1..]);
      Divine(a[0], b[0]) && CompWithLL(a[1..], b[1..])
  }

  /** The loop of `_compWithArr` once the lengths agree: each value against the array slot. */
  predicate CompWithArr(a: seq<Datum>, elems: seq<Datum>)
    requires |a| == |elems|
    decreases DSizeAll(a) + DSizeAll(elems), 0
  {
    if |a| == 0 then true
    else
      assert DSizeAll(a) == DSize(a[0]) + DSizeAll(a[1..]);
      assert DSizeAll(elems) == DSize(elems[0]) + DSizeAll(elems[1..]);
      Divine(a[0], elems[0]) && CompWithArr(a[1..], elems[1..])
  }

  /** Two sequences agree slot by slot under `_divineEquality`. */
  predicate Pairwise(a: seq<Datum>, b: seq<Datum>) {
    |a| == |b| && forall i :: 0 <= i < |a| ==> Divine(a[i], b[i])
  }

  lemma {:induction false} CompWithLLPairwise(a: seq<Datum>, b: seq<Datum>)
    ensures CompWithLL(a, b) <==> Pairwise(a, b)
    decreases |a|
  {
    if |a| > 0 && |a| == |b| {
      CompWithLLPairwise(a[1..], b[1..]);
      if Pairwise(a[1..], b[1..]) && Divine(a[0], b[0]) {
        forall i | 0 <= i < |a| ensures Divine(a[i], b[i]) {
          if i > 0 { assert a[i] == a[1..][i - 1] && b[i] == b[1..][i - 1]; }
        }
      }
      if Pairwise(a, b) {
        forall i | 0 <= i < |a| - 1 ensures Divine(a[1..][i], b[1..][i]) {
          assert a[1..][i] == a[i + 1] && b[1..][i] == b[i + 1];
        }
      }
    }
  }

  lemma {:induction false} CompWithArrPairwise(a: seq<Datum>, elems: seq<Datum>)
    requires |a| == |elems|
    ensures CompWithArr(a, elems) <==> Pairwise(a, elems)
    decreases |a|
  {
    if |a| > 0 {
      CompWithArrPairwise(a[1..], elems[1..]);
      if Pairwise(a[1..], elems[1..]) && Divine(a[0], elems[0]) {
        forall i | 0 <= i < |a| ensures Divine(a[i], elems[i]) {
          if i > 0 { assert a[i] == a[1..][i - 1] && elems[i] == elems[1..][i - 1]; }
        }
      }
      if Pairwise(a, elems) {
        forall i | 0 <= i < |a| - 1 ensures Divine(a[1..][i], elems[1..][i]) {
          assert a[1..][i] == a[i + 1] && elems[1..][i] == elems[i + 1];
        }
      }
    }
  }

  /**
   * A list equals a list or an array exactly when the lengths match and the
   * values are pairwise equal under `_divineEquality`; it equals nothing else.
   */
  lemma ListEqualsPairwise(items: seq<Datum>, that: Datum)
    ensures that.LL? ==> (ListEquals(items, that) <==> Pairwise(items, that.items))
    ensures that.Arr? ==> (ListEquals(items, that) <==> Pairwise(items, that.elems))
    ensures !that.LL? && !that.Arr? ==> !ListEquals(items, that)
  {
    match that
    case LL(other) => CompWithLLPairwise(items, other);
    case Arr(_, elems) => if |items| == |elems| { CompWithArrPairwise(items, elems); }
    case _ =>
  }

  /** Every value equals itself: `===` on primitives and identities, and `equals` all the way down. */
  lemma {:induction false} DivineReflexive(d: Datum)
    ensures Divine(d, d)
    decreases d
  {
    match d
    case LL(items) =>
      forall i | 0 <= i < |items| ensures Divine(items[i], items[i]) { DivineReflexive(items[i]); }
      ListEqualsPairwise(items, d);
    case Tree(cs) =>
      forall i | 0 <= i < |cs| ensures Divine(cs[i], cs[i]) { DivineReflexive(cs[i]); }
      ListEqualsPairwise(cs, LL(cs));
    case _ =>
  }

  /**
   * Equality is not symmetric between lists and trees: a tree equals a list
   * with the same values, but a list never equals a tree, since only list and
   * array arguments are compared.
   */
  lemma ListTreeAsymmetry(items: seq<Datum>)
    ensures Divine(Tree(items), LL(items))
    ensures !Divine(LL(items), Tree(items))
  {
    forall i | 0 <= i < |items| ensures Divine(items[i], items[i]) { DivineReflexive(items[i]); }
    ListEqualsPairwise(items, LL(items));
    ListEqualsPairwise(items, Tree(items));
  }

  /** A token as the equality methods see it: only its `text`. */
  function TokenDatum(t: Token): Datum {
    Tok(Text(t))
  }

  /**
   * `curSym.equals(c)` holds exactly when the token's text is the one-character
   * string `c`, whatever kind of token it is; a number literal has no text, so
   * it equals no string, and any two number literals equal each other.
   */
  lemma TokenEqualsText(t: Token, u: Token, c: char)
    ensures Divine(TokenDatum(t), StrD([c])) <==> Is(t, c)
    ensures t.NumberLiteral? ==> forall s :: !Divine(TokenDatum(t), StrD(s))
    ensures t.NumberLiteral? && u.NumberLiteral? ==> Divine(TokenDatum(t), TokenDatum(u))
    ensures t.Symbol? && u.Bracket? ==> (Divine(TokenDatum(t), TokenDatum(u)) <==> t.name == [u.c])
  {
  }

  /** A tree as the equality methods see it. */
  function FormDatum(f: Form): Datum {
    match f
    case Leaf(t) => TokenDatum(t)
    case Node(cs) => Tree(seq(|cs|, i requires 0 <= i < |cs| => FormDatum(cs[i])))
  }

  /**
   * Tree equality is coarser than structural equality: equal trees are equal,
   * but trees that differ only in the digits of a number literal are equal too.
   */
  lemma TreeEqualityIgnoresDigits(f: Form, a: string, b: string)
    ensures Divine(FormDatum(f), FormDatum(f))
    ensures Divine(FormDatum(Node([Leaf(NumberLiteral(a))])), FormDatum(Node([Leaf(NumberLiteral(b))])))
  {
    DivineReflexive(FormDatum(f));
    var l := FormDatum(Node([Leaf(NumberLiteral(a))]));
    var r := FormDatum(Node([Leaf(NumberLiteral(b))]));
    assert FormDatum(Leaf(NumberLiteral(a))) == Tok(None) == FormDatum(Leaf(NumberLiteral(b)));
    assert l.children == [Tok(None)] && r.children == [Tok(None)];
    ListEqualsPairwise(l.children, LL(r.children));
  }
}
