/**
 * Recursive descent over the token list, on `(` and `)` only.
 *
 * `_parseSExp` consumes tokens from a list shared by all levels of the
 * descent: `(` opens a nested node, `)` closes the current one, anything else
 * (including `[` and `]`) becomes a leaf.  Running out of tokens closes every
 * open node.  `parse` takes `nthChild(0)` of the top-level node, which,
 * children being consed, is the LAST top-level item, and flips it.
 */
module Parser {
  import opened Wrappers
  import opened Errors
  import opened Tokens
  import opened Syntax
  import Lists
  import Lexer

  /** What `_parseSExp` leaves behind: the node it built and the tokens not yet consumed. */
  datatype Parsed = Parsed(node: Form, rest: seq<Token>)

  /**
   * `_parseSExp`, with the children gathered so far in `acc` (reversed).  The
   * tokens left over are always a suffix of the input, which is what makes the
   * shared-cursor recursion terminate.
   */
  function ParseSExp(toks: seq<Token>, acc: Lists.List<Form>): (r: Parsed)
    ensures r.node.Node?
    ensures |r.rest| <= |toks| && r.rest == toks[|toks| - |r.rest|..]
    decreases |toks|
  {
    if |toks| == 0 then Parsed(Node(acc), [])
    else
      var cur := toks[0];
      var rest := toks[1..];
      if Is(cur, '(') then
        var sub := ParseSExp(rest, []);
        ParseSExp(sub.rest, AddChild(acc, sub.node))
      else if Is(cur, ')') then Parsed(Node(acc), rest)
      else ParseSExp(rest, AddChild(acc, Leaf(cur)))
  }

  /** `Parser.parse`: `nthChild(0)` of the top-level node, `null` (here `None`) when it has no children. */
  function ParseTokens(toks: seq<Token>): (r: Option<Form>)
    ensures r.None? <==> ParseSExp(toks, []).node.children == []
  {
    NthChild(ParseSExp(toks, []).node.children)
  }

  /** `nthChild(0)`: `nth(0)` never throws, and answers `car`. */
  function NthChild(children: Lists.List<Form>): (r: Option<Form>)
    ensures r == Lists.Car(children)
  {
    Lists.Nth(children, 0).value
  }

  /** The `.flip()` that `parse` applies: only a node has it; a missing item or a token throws. */
  function FlipParsed(item: Option<Form>): (r: Result<Form, Error>)
    ensures r.Ok? <==> item.Some? && item.value.Node?
    ensures r.Ok? ==> r.value == Flip(item.value)
    ensures r.Err? ==> r.error == NotAnAst
  {
    match item
    case Some(f) => if f.Node? then Ok(Flip(f)) else Err(NotAnAst)
    case None => Err(NotAnAst)
  }

  /**
   * Parsing a token list as `parse` does after lexing.  For the tokens of
   * paren-free forms, the answer is the last of those forms, or `NotAnAst`
   * when it is a bare token or there is none.
   */
  function ParseAndFlip(toks: seq<Token>): (r: Result<Form, Error>)
    ensures r.Ok? ==> r.value.Node?
    ensures forall fs :: AllParenFree(fs) && toks == UnparseAll(fs) ==> r == LastForm(fs)
  {
    forall fs | AllParenFree(fs) && toks == UnparseAll(fs)
      ensures FlipParsed(ParseTokens(toks)) == LastForm(fs)
    {
      ParseYieldsLastForm(fs);
    }
    FlipParsed(ParseTokens(toks))
  }

  /** What `parse` answers for the forms `fs` written out: the last one, if it is a node. */
  function LastForm(fs: seq<Form>): Result<Form, Error> {
    if |fs| == 0 || fs[|fs| - 1].Leaf? then Err(NotAnAst) else Ok(fs[|fs| - 1])
  }

  /**
   * `parse(input)`: lex, parse, flip.  A lexing error propagates; input that
   * lexes to the tokens of paren-free forms parses to the last of them.
   */
  function Parse(s: string): (r: Result<Form, Error>)
    ensures Lexer.Lex(s).Err? ==> r == Err(Lexer.Lex(s).error)
    ensures forall fs :: AllParenFree(fs) && Lexer.Lex(s) == Ok(UnparseAll(fs)) ==> r == LastForm(fs)
  {
    var toks :- Lexer.Lex(s);
    ParseAndFlip(toks)
  }

  // ---------------------------------------------------------------------------
  // Printing a tree back to tokens, and the round trip.

  /** No leaf of the tree is a `(` or `)` token (those are consumed by the parser, never stored). */
  predicate ParenFree(f: Form) {
    match f
    case Leaf(t) => !Is(t, '(') && !Is(t, ')')
    case Node(cs) => forall k :: 0 <= k < |cs| ==> ParenFree(cs[k])
  }

  predicate AllParenFree(fs: seq<Form>) {
    forall k :: 0 <= k < |fs| ==> ParenFree(fs[k])
  }

  /** The tokens of a tree: a leaf is its token, a node is its children between `(` and `)`. */
  function Unparse(f: Form): seq<Token> {
    match f
    case Leaf(t) => [t]
    case Node(cs) => [Bracket('(')] + UnparseAll(cs) + [Bracket(')')]
  }

  function UnparseAll(fs: seq<Form>): seq<Token> {
    if |fs| == 0 then [] else Unparse(fs[0]) + UnparseAll(fs[1..])
  }

  /** The reversed, internally built form of `fs`: the children `flip` would turn back into `fs`. */
  function Built(fs: seq<Form>): seq<Form> {
    Flip(Node(fs)).children
  }

  lemma BuiltIndex(fs: seq<Form>)
    ensures |Built(fs)| == |fs|
    ensures forall i :: 0 <= i < |fs| ==> Built(fs)[i] == Flip(fs[|fs| - 1 - i])
  {
  }

  lemma BuiltCons(f: Form, fs: seq<Form>)
    ensures Built([f] + fs) == Built(fs) + [Flip(f)]
  {
    var l := Built([f] + fs);
    var r := Built(fs) + [Flip(f)];
    BuiltIndex([f] + fs);
    BuiltIndex(fs);
    forall i | 0 <= i < |l|
      ensures l[i] == r[i]
    {
      BuiltConsAt(f, fs, i);
    }
  }

  lemma BuiltConsAt(f: Form, fs: seq<Form>, i: nat)
    requires i <= |fs|
    ensures |Built([f] + fs)| == |fs| + 1
    ensures Built([f] + fs)[i] == (Built(fs) + [Flip(f)])[i]
  {
    var ffs := [f] + fs;
    BuiltIndex(ffs);
    BuiltIndex(fs);
    if i < |fs| {
      assert ffs[|fs| - i] == fs[|fs| - 1 - i];
    } else {
      assert ffs[0] == f;
    }
  }

  lemma ParseStepLeaf(t: Token, rest: seq<Token>, acc: Lists.List<Form>)
    requires !Is(t, '(') && !Is(t, ')')
    ensures ParseSExp([t] + rest, acc) == ParseSExp(rest, [Leaf(t)] + acc)
  {
    assert ([t] + rest)[1..] == rest;
  }

  lemma ParseStepOpen(rest: seq<Token>, acc: Lists.List<Form>)
    ensures ParseSExp([Bracket('(')] + rest, acc) ==
      ParseSExp(ParseSExp(rest, []).rest, [ParseSExp(rest, []).node] + acc)
  {
    assert ([Bracket('(')] + rest)[1..] == rest;
  }

  lemma ParseStepClose(rest: seq<Token>, acc: Lists.List<Form>)
    ensures ParseSExp([Bracket(')')] + rest, acc) == Parsed(Node(acc), rest)
  {
    assert ([Bracket(')')] + rest)[1..] == rest;
  }

  /**
   * The heart of the parser's correctness: reading the tokens of a sequence of
   * paren-free forms consumes exactly those tokens and adds, to the children
   * gathered so far, every form in its reversed (unflipped) state.
   */
  lemma {:induction false} ParseUnparseAll(fs: seq<Form>, tail: seq<Token>, acc: Lists.List<Form>)
    requires AllParenFree(fs)
    ensures ParseSExp(UnparseAll(fs) + tail, acc) == ParseSExp(tail, Built(fs) + acc)
    decreases SizeAll(fs), 0
  {
    if |fs| == 0 {
      assert UnparseAll(fs) + tail == tail;
      assert Built(fs) + acc == acc;
    } else {
      var f := fs[0];
      var more := fs[1..];
      assert SizeAll(fs) == Size(f) + SizeAll(more);
      assert AllParenFree(more);
      BuiltCons(f, more);
      assert [f] + more == fs;
      var after := UnparseAll(more) + tail;
      assert UnparseAll(fs) + tail == Unparse(f) + after;
      match f
      case Leaf(t) =>
        ParseStepLeaf(t, after, acc);
        ParseUnparseAll(more, tail, [Leaf(t)] + acc);
        Lists.ConsUnderPrefix(Built(more), Leaf(t), acc);
      case Node(ds) =>
        ParseNodeStep(ds, after, acc);
        ParseUnparseAll(more, tail, [Flip(f)] + acc);
        Lists.ConsUnderPrefix(Built(more), Flip(f), acc);
    }
  }

  /** Reading the tokens of one paren-free node adds that node, unflipped, to the children. */
  lemma {:induction false} ParseNodeStep(ds: seq<Form>, after: seq<Token>, acc: Lists.List<Form>)
    requires AllParenFree(ds)
    ensures ParseSExp(Unparse(Node(ds)) + after, acc) == ParseSExp(after, [Flip(Node(ds))] + acc)
    decreases SizeAll(ds), 2
  {
    var inner := UnparseAll(ds) + ([Bracket(')')] + after);
    UnparseNodeSplit(ds, after);
    ParseStepOpen(inner, acc);
    ParseNodeInner(ds, after);
  }

  /** After a `(`, the tokens of the children and the `)` read back the node, unflipped. */
  lemma {:induction false} ParseNodeInner(ds: seq<Form>, after: seq<Token>)
    requires AllParenFree(ds)
    ensures ParseSExp(UnparseAll(ds) + ([Bracket(')')] + after), []) == Parsed(Flip(Node(ds)), after)
    decreases SizeAll(ds), 1
  {
    ParseUnparseAll(ds, [Bracket(')')] + after, []);
    assert Built(ds) + [] == Built(ds);
    ParseStepClose(after, Built(ds));
  }

  lemma UnparseNodeSplit(ds: seq<Form>, after: seq<Token>)
    ensures Unparse(Node(ds)) + after == [Bracket('(')] + (UnparseAll(ds) + ([Bracket(')')] + after))
  {
    var u := UnparseAll(ds);
    assert Unparse(Node(ds)) == [Bracket('(')] + u + [Bracket(')')];
  }

  /**
   * `parse` yields the LAST top-level item, restored to source order at every
   * level: for the tokens of paren-free forms `fs`, the result is the last form
   * when it is a node, and `NotAnAst` when it is a bare token or `fs` is empty.
   */
  lemma ParseYieldsLastForm(fs: seq<Form>)
    requires AllParenFree(fs)
    ensures FlipParsed(ParseTokens(UnparseAll(fs))) ==
      if |fs| == 0 || fs[|fs| - 1].Leaf? then Err(NotAnAst) else Ok(fs[|fs| - 1])
  {
    ParseFormsTop(fs);
    if |fs| > 0 {
      var last := fs[|fs| - 1];
      BuiltHead(fs);
      FlipInvolutive(last);
    }
  }

  /** The top-level item `parse` picks from the tokens of paren-free forms is the head of their built form. */
  lemma ParseFormsTop(fs: seq<Form>)
    requires AllParenFree(fs)
    ensures ParseTokens(UnparseAll(fs)) == Lists.Car(Built(fs))
  {
    ParseUnparseAll(fs, [], []);
    assert UnparseAll(fs) + [] == UnparseAll(fs);
    assert Built(fs) + [] == Built(fs);
  }

  /** The head of the built form is the last form, flipped. */
  lemma BuiltHead(fs: seq<Form>)
    requires |fs| > 0
    ensures Built(fs)[0] == Flip(fs[|fs| - 1])
  {
  }

  /** Round trip: the tokens of a paren-free node parse back to that node. */
  lemma ParseUnparse(f: Form)
    requires f.Node? && ParenFree(f)
    ensures ParseAndFlip(Unparse(f)) == Ok(f)
  {
    assert UnparseAll([f]) == Unparse(f) + [];
    assert Unparse(f) + [] == Unparse(f);
    ParseYieldsLastForm([f]);
  }

  /** An unmatched `)` at the top level ends parsing: whatever follows it is ignored. */
  lemma UnmatchedCloseEndsParse(fs: seq<Form>, junk: seq<Token>)
    requires AllParenFree(fs)
    ensures ParseAndFlip(UnparseAll(fs) + [Bracket(')')] + junk) == ParseAndFlip(UnparseAll(fs))
  {
    ParseUnparseAll(fs, [Bracket(')')] + junk, []);
    assert UnparseAll(fs) + [Bracket(')')] + junk == UnparseAll(fs) + ([Bracket(')')] + junk);
    assert ([Bracket(')')] + junk)[1..] == junk;
    ParseUnparseAll(fs, [], []);
    assert UnparseAll(fs) + [] == UnparseAll(fs);
  }

  /**
   * Running out of tokens closes the open node: a `(` that is never closed,
   * after any complete top-level forms, still yields its node.
   */
  lemma UnclosedNodeIsClosedAtEnd(fs: seq<Form>, cs: seq<Form>)
    requires AllParenFree(fs) && AllParenFree(cs)
    ensures ParseAndFlip(UnparseAll(fs) + [Bracket('(')] + UnparseAll(cs)) == Ok(Node(cs))
  {
    var toks := UnparseAll(fs) + [Bracket('(')] + UnparseAll(cs);
    UnclosedNodeTop(fs, cs);
    assert ParseTokens(toks) == Some(Flip(Node(cs)));
    FlipInvolutive(Node(cs));
  }

  /** The top-level item picked from forms followed by a never-closed `(` is that node, unflipped. */
  lemma UnclosedNodeTop(fs: seq<Form>, cs: seq<Form>)
    requires AllParenFree(fs) && AllParenFree(cs)
    ensures ParseTokens(UnparseAll(fs) + [Bracket('(')] + UnparseAll(cs)) == Some(Flip(Node(cs)))
  {
    var open := [Bracket('(')] + UnparseAll(cs);
    assert UnparseAll(fs) + [Bracket('(')] + UnparseAll(cs) == UnparseAll(fs) + open;
    ParseUnparseAll(fs, open, []);
    assert Built(fs) + [] == Built(fs);
    OpenNodeAtEnd(cs, Built(fs));
  }

  /** A `(` followed by the tokens of paren-free forms and nothing else closes at the end of input. */
  lemma OpenNodeAtEnd(cs: seq<Form>, acc: Lists.List<Form>)
    requires AllParenFree(cs)
    ensures ParseSExp([Bracket('(')] + UnparseAll(cs), acc) == Parsed(Node([Flip(Node(cs))] + acc), [])
  {
    var open := [Bracket('(')] + UnparseAll(cs);
    assert open[1..] == UnparseAll(cs) + [];
    ParseUnparseAll(cs, [], []);
    assert Built(cs) + [] == Built(cs);
    assert ParseSExp(open[1..], []) == Parsed(Node(Built(cs)), []);
  }

  /** A final bare token at the top level (such as the empty symbol trailing whitespace produces) makes `parse` throw. */
  lemma TrailingTokenFailsParse(fs: seq<Form>, t: Token)
    requires AllParenFree(fs) && !Is(t, '(') && !Is(t, ')')
    ensures ParseAndFlip(UnparseAll(fs) + [t]) == Err(NotAnAst)
  {
    assert AllParenFree(fs + [Leaf(t)]);
    UnparseAllAppend(fs, Leaf(t));
    ParseYieldsLastForm(fs + [Leaf(t)]);
  }

  lemma {:induction false} UnparseAllAppend(fs: seq<Form>, f: Form)
    ensures UnparseAll(fs + [f]) == UnparseAll(fs) + Unparse(f)
    decreases |fs|
  {
    if |fs| == 0 {
      assert fs + [f] == [f];
      assert UnparseAll([f]) == Unparse(f) + UnparseAll([]);
    } else {
      assert (fs + [f])[1..] == fs[1..] + [f];
      UnparseAllAppend(fs[1..], f);
    }
  }
}
