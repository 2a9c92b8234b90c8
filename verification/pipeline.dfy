/**
 * `readEval` from text to value, worked through on concrete inputs: every
 * stage (lexing, parsing, flipping, evaluating, applying `+`) takes part.
 */
module Pipeline {
  import opened Wrappers
  import opened Errors
  import opened Tokens
  import opened Syntax
  import opened Values
  import opened Environment
  import opened Evaluator
  import Lexer
  import Parser
  import Primitives
  import Semantics

  /** The tokens of `(+ 1 2)`. */
  function SumTokens(): seq<Token> {
    [Bracket('('), Symbol("+"), NumberLiteral("1"), NumberLiteral("2"), Bracket(')')]
  }

  /** The tree of `(+ 1 2)`. */
  function SumForm(): Form {
    Node([Leaf(Symbol("+")), Leaf(NumberLiteral("1")), Leaf(NumberLiteral("2"))])
  }

  /** One step of the reference tokenization. */
  lemma TokenizeStep(s: string, i: nat, tok: Token, next: nat, rest: seq<Token>)
    requires i < |s| && next <= |s|
    requires Lexer.NextTok(s, i) == Ok(Lexer.Step(tok, next))
    requires Lexer.Tokenize(s, next) == Ok(rest)
    ensures Lexer.Tokenize(s, i) == Ok([tok] + rest)
  {
  }

  /** The input starts with the seven characters `(+ 1 2)`. */
  predicate StartsWithSum(s: string) {
    && |s| >= 7
    && s[0] == '(' && s[1] == '+' && s[2] == ' ' && s[3] == '1'
    && s[4] == ' ' && s[5] == '2' && s[6] == ')'
  }

  lemma ScanOpen(s: string)
    requires StartsWithSum(s)
    ensures Lexer.NextTok(s, 0) == Ok(Lexer.Step(Bracket('('), 1))
  {
    assert Lexer.SkipWhitespace(s, 0) == 0;
  }

  lemma ScanPlus(s: string)
    requires StartsWithSum(s)
    ensures Lexer.NextTok(s, 1) == Ok(Lexer.Step(Symbol("+"), 2))
  {
    assert Lexer.SkipWhitespace(s, 1) == 1;
    assert Lexer.RunEnd(s, 2) == 2;
    assert Lexer.RunEnd(s, 1) == 2;
    assert s[1..2] == "+";
  }

  lemma ScanOne(s: string)
    requires StartsWithSum(s)
    ensures Lexer.NextTok(s, 2) == Ok(Lexer.Step(NumberLiteral("1"), 4))
  {
    assert Lexer.SkipWhitespace(s, 3) == 3;
    assert Lexer.SkipWhitespace(s, 2) == 3;
    assert Lexer.RunEnd(s, 4) == 4;
    assert Lexer.RunEnd(s, 3) == 4;
    assert Lexer.NumberEnd(s, 4) == Ok(4);
    assert Lexer.NumberEnd(s, 3) == Ok(4);
    assert s[3..4] == "1";
  }

  lemma ScanTwo(s: string)
    requires StartsWithSum(s)
    ensures Lexer.NextTok(s, 4) == Ok(Lexer.Step(NumberLiteral("2"), 6))
  {
    assert Lexer.SkipWhitespace(s, 5) == 5;
    assert Lexer.SkipWhitespace(s, 4) == 5;
    assert Lexer.RunEnd(s, 6) == 6;
    assert Lexer.RunEnd(s, 5) == 6;
    assert Lexer.NumberEnd(s, 6) == Ok(6);
    assert Lexer.NumberEnd(s, 5) == Ok(6);
    assert s[5..6] == "2";
  }

  lemma ScanClose(s: string)
    requires StartsWithSum(s)
    ensures Lexer.NextTok(s, 6) == Ok(Lexer.Step(Bracket(')'), 7))
  {
    assert Lexer.SkipWhitespace(s, 6) == 6;
  }

  /** Whatever follows `(+ 1 2)`, it is scanned into these five tokens first. */
  lemma TokenizeSumPrefix(s: string, rest: seq<Token>)
    requires StartsWithSum(s)
    requires Lexer.Tokenize(s, 7) == Ok(rest)
    ensures Lexer.Tokenize(s, 0) == Ok(SumTokens() + rest)
  {
    var r6 := [Bracket(')')] + rest;
    var r4 := [NumberLiteral("2")] + r6;
    TokenizeSumTail(s, rest);
    ScanOne(s);
    var r2 := [NumberLiteral("1")] + r4;
    TokenizeStep(s, 2, NumberLiteral("1"), 4, r4);
    ScanPlus(s);
    var r1 := [Symbol("+")] + r2;
    TokenizeStep(s, 1, Symbol("+"), 2, r2);
    ScanOpen(s);
    TokenizeStep(s, 0, Bracket('('), 1, r1);
    SumTokensCons(rest);
  }

  /** The last two tokens of `(+ 1 2)`, scanned from index 4. */
  lemma TokenizeSumTail(s: string, rest: seq<Token>)
    requires StartsWithSum(s)
    requires Lexer.Tokenize(s, 7) == Ok(rest)
    ensures Lexer.Tokenize(s, 4) == Ok([NumberLiteral("2")] + ([Bracket(')')] + rest))
  {
    ScanClose(s);
    TokenizeStep(s, 6, Bracket(')'), 7, rest);
    ScanTwo(s);
    TokenizeStep(s, 4, NumberLiteral("2"), 6, [Bracket(')')] + rest);
  }

  lemma SumTokensCons(rest: seq<Token>)
    ensures [Bracket('(')] + ([Symbol("+")] + ([NumberLiteral("1")] + ([NumberLiteral("2")] + ([Bracket(')')] + rest))))
         == SumTokens() + rest
  {
  }

  /** `lex("(+ 1 2)")`: five tokens in source order. */
  lemma LexSum(s: string)
    requires s == "(+ 1 2)"
    ensures Lexer.Lex(s) == Ok(SumTokens())
  {
    assert StartsWithSum(s);
    assert Lexer.Tokenize(s, 7) == Ok([]);
    TokenizeSumPrefix(s, []);
    assert SumTokens() + [] == SumTokens();
  }

  /** `lex("(+ 1 2) ")`: the tokens of `(+ 1 2)` followed by the empty symbol. */
  lemma LexSumSpace(s: string)
    requires s == "(+ 1 2) "
    ensures Lexer.Lex(s) == Ok(SumTokens() + [Symbol([])])
  {
    assert StartsWithSum(s);
    assert Lexer.SkipWhitespace(s, 8) == 8;
    assert Lexer.SkipWhitespace(s, 7) == 8;
    assert Lexer.RunEnd(s, 8) == 8;
    assert s[8..8] == [];
    assert Lexer.NextTok(s, 7) == Ok(Lexer.Step(Symbol([]), 8));
    assert Lexer.Tokenize(s, 8) == Ok([]);
    TokenizeStep(s, 7, Symbol([]), 8, []);
    assert [Symbol([])] + [] == [Symbol([])];
    TokenizeSumPrefix(s, [Symbol([])]);
  }

  lemma UnparseSum()
    ensures Parser.UnparseAll([SumForm()]) == SumTokens()
    ensures Parser.Unparse(SumForm()) == SumTokens()
  {
    var cs := SumForm().children;
    assert Parser.UnparseAll(cs[3..]) == [];
    assert Parser.UnparseAll(cs[2..]) == [NumberLiteral("2")];
    assert Parser.UnparseAll(cs[1..]) == [NumberLiteral("1"), NumberLiteral("2")];
    assert Parser.UnparseAll(cs) == [Symbol("+"), NumberLiteral("1"), NumberLiteral("2")];
    assert Parser.UnparseAll([SumForm()]) == Parser.Unparse(SumForm()) + Parser.UnparseAll([]);
  }

  /** `parse("(+ 1 2)")`: the tree of the single form, in source order. */
  lemma ParseSum(s: string)
    requires s == "(+ 1 2)"
    ensures Parser.Parse(s) == Ok(SumForm())
  {
    LexSum(s);
    UnparseSum();
    Parser.ParseUnparse(SumForm());
  }

  /** `(+ a b)` whose operands evaluate to the integers `x` and `y` answers `x + y`. */
  lemma PlusOfTwo(cs: seq<Form>, env: Env, x: int, y: int)
    requires |cs| == 3 && Eval(cs[0], env) == Ok(BuiltinFn(Plus))
    requires Eval(cs[1], env) == Ok(Int(x)) && Eval(cs[2], env) == Ok(Int(y))
    ensures Eval(Node(cs), env) == Ok(Int(x + y))
  {
    assert Semantics.AllOk(cs[1..], env);
    Semantics.EvalNumericForm(cs, env);
    var vs := Semantics.ValuesOf(cs[1..], env);
    assert vs == [Int(x), Int(y)];
    SumTwo(x, y);
  }

  lemma SumTwo(x: int, y: int)
    ensures Primitives.Plus([Int(x), Int(y)]) == Ok(Int(x + y))
  {
    var vs := [Int(x), Int(y)];
    assert vs[1..][1..] == [];
    assert Primitives.Sum(vs[1..]) == y;
  }

  /** Evaluating the tree of `(+ 1 2)` in a fresh environment answers 3. */
  lemma EvalSum()
    ensures Eval(SumForm(), FreshEnv()) == Ok(Int(3))
  {
    var env := FreshEnv();
    FreshEnvResolves("+");
    Semantics.SmallLiterals(env);
    PlusOfTwo(SumForm().children, env, 1, 2);
  }

  /** `readEval("(+ 1 2)")`, with no environment supplied, answers 3. */
  lemma ReadEvalSum(s: string)
    requires s == "(+ 1 2)"
    ensures ReadEval(s, None) == Ok(Int(3))
  {
    ParseSum(s);
    EvalSum();
  }

  /**
   * `readEval("(+ 1 2) ")` throws: trailing whitespace lexes to a final empty
   * symbol, which becomes the last top-level item, and a token has no `flip`.
   */
  lemma ReadEvalTrailingSpace(s: string)
    requires s == "(+ 1 2) "
    ensures ReadEval(s, None) == Err(NotAnAst)
  {
    LexSumSpace(s);
    UnparseSum();
    Parser.TrailingTokenFailsParse([SumForm()], Symbol([]));
  }
}
