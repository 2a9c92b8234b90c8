/**
 * Worked evaluations that pin down how names are scoped: `let` binds
 * sequentially into one new frame, that frame is gone once the `let` has
 * answered, and the else-arm of `if` does not see it at all.
 */
module Scoping {
  import opened Wrappers
  import opened Errors
  import opened Tokens
  import opened Syntax
  import opened Values
  import opened Environment
  import opened Evaluator
  import Semantics

  function Sym(name: string): Form { Leaf(Symbol(name)) }
  function Num(digits: string): Form { Leaf(NumberLiteral(digits)) }

  /** The environment inside `(let (x 1) ...)` evaluated in a fresh environment. */
  function WithX(): Env {
    [map["x" := Int(1)]] + FreshEnv()
  }

  /** The environment inside `(let (x 1 y x) ...)` evaluated in a fresh environment. */
  function WithXY(): Env {
    [map["x" := Int(1), "y" := Int(1)]] + FreshEnv()
  }

  /** A form whose head evaluates to a special form hands it the argument forms. */
  lemma SpecialStep(cs: seq<Form>, env: Env, op: Builtin)
    requires |cs| > 0 && IsSpecial(op) && Eval(cs[0], env) == Ok(BuiltinFn(op))
    ensures Eval(Node(cs), env) == ApplySpecial(op, cs[1..], env)
  {
  }

  /** One step of the binding loop: a symbol whose right-hand side evaluates is bound, and the loop goes on. */
  lemma BindStep(x: string, rhs: Form, rest: seq<Form>, env: Env, v: Value)
    requires |rest| % 2 == 0 && |env| > 0 && Eval(rhs, env) == Ok(v)
    ensures LetBind([Sym(x), rhs] + rest, env) == LetBind(rest, Bind(env, x, v).value)
  {
    assert ([Sym(x), rhs] + rest)[2..] == rest;
  }

  /** A symbol evaluates to its binding. */
  lemma EvalSym(name: string, env: Env)
    ensures Eval(Sym(name), env) == Lookup(env, name)
  {
  }

  /** The binding loop over an empty group answers the environment it was given. */
  lemma BindDone(env: Env)
    requires |env| > 0
    ensures LetBind([], env) == Ok(env)
  {
  }

  /** One step of `do`: a form that evaluates passes its value on as the accumulator. */
  lemma DoStep(f: Form, rest: seq<Form>, env: Env, acc: Value, v: Value)
    requires Eval(f, env) == Ok(v)
    ensures DoForms([f] + rest, env, acc) == DoForms(rest, env, v)
  {
    assert ([f] + rest)[1..] == rest;
  }

  /** A `do` over one form answers that form. */
  lemma DoOne(f: Form, env: Env, acc: Value)
    ensures DoForms([f], env, acc) == Eval(f, env)
  {
    assert [f][1..] == [];
  }

  /** `let` whose binding group binds successfully runs its body in the bound environment. */
  lemma LetStep(group: seq<Form>, body: seq<Form>, env: Env, bound: Env)
    requires |group| % 2 == 0 && LetBind(group, Augment(env, map[])) == Ok(bound)
    ensures LetForm([Node(group)] + body, env) == DoForms(body, bound, Null)
  {
    assert ([Node(group)] + body)[1..] == body;
  }

  /** In a fresh environment `let` resolves to the special form. */
  lemma LetResolves()
    ensures Eval(Sym("let"), FreshEnv()) == Ok(BuiltinFn(Let))
  {
    FreshEnvResolves("let");
  }

  /** Binding `x` to `1` in the frame `let` pushes over a fresh environment gives `WithX`. */
  lemma BindXOne(rest: seq<Form>)
    requires |rest| % 2 == 0
    ensures LetBind([Sym("x"), Num("1")] + rest, Augment(FreshEnv(), map[])) == LetBind(rest, WithX())
  {
    var e1 := Augment(FreshEnv(), map[]);
    Semantics.SmallLiterals(e1);
    BindStep("x", Num("1"), rest, e1, Int(1));
    assert Bind(e1, "x", Int(1)).value == WithX();
  }

  /** Binding `y` to the value of `x` inside `WithX` gives `WithXY`. */
  lemma BindYX()
    ensures LetBind([Sym("y"), Sym("x")], WithX()) == Ok(WithXY())
  {
    LookupAugment(FreshEnv(), map["x" := Int(1)], "x");
    EvalSym("x", WithX());
    assert [Sym("y"), Sym("x")] == [Sym("y"), Sym("x")] + [];
    BindStep("y", Sym("x"), [], WithX(), Int(1));
    assert Bind(WithX(), "y", Int(1)).value == WithXY();
    BindDone(WithXY());
  }

  /** `(let (x 1 y x) y)`: the second right-hand side sees the first binding. */
  lemma LetBindsSequentially()
    ensures Eval(Node([Sym("let"), Node([Sym("x"), Num("1"), Sym("y"), Sym("x")]), Sym("y")]), FreshEnv()) == Ok(Int(1))
  {
    var env := FreshEnv();
    var group := [Sym("x"), Num("1"), Sym("y"), Sym("x")];
    var cs := [Sym("let"), Node(group), Sym("y")];
    LetResolves();
    SpecialStep(cs, env, Let);
    assert cs[1..] == [Node(group)] + [Sym("y")];
    assert group == [Sym("x"), Num("1")] + [Sym("y"), Sym("x")];
    BindXOne([Sym("y"), Sym("x")]);
    BindYX();
    LetStep(group, [Sym("y")], env, WithXY());
    LookupAugment(FreshEnv(), map["x" := Int(1), "y" := Int(1)], "y");
    EvalSym("y", WithXY());
    DoOne(Sym("y"), WithXY(), Null);
  }

  /** `(do (let (x 1) x) x)`: the frame `let` pushed is not visible after it. */
  lemma LetFrameEndsWithLet()
    ensures Eval(Node([Sym("do"), Node([Sym("let"), Node([Sym("x"), Num("1")]), Sym("x")]), Sym("x")]), FreshEnv())
         == Err(SymbolNotFound("x"))
  {
    var env := FreshEnv();
    var inner := Node([Sym("let"), Node([Sym("x"), Num("1")]), Sym("x")]);
    var cs := [Sym("do"), inner, Sym("x")];
    FreshEnvResolves("do");
    FreshEnvResolves("x");
    SpecialStep(cs, env, Do);
    assert cs[1..] == [inner] + [Sym("x")];
    LetXOne(Sym("x"));
    LookupAugment(FreshEnv(), map["x" := Int(1)], "x");
    DoStep(inner, [Sym("x")], env, Null, Int(1));
    DoOne(Sym("x"), env, Int(1));
  }

  /** `(let (x 1) body)` answers what `body` answers with `x` bound to 1 in one new frame. */
  lemma LetXOne(body: Form)
    ensures Eval(Node([Sym("let"), Node([Sym("x"), Num("1")]), body]), FreshEnv()) == Eval(body, WithX())
  {
    var env := FreshEnv();
    var group := [Sym("x"), Num("1")];
    var cs := [Sym("let"), Node(group), body];
    LetResolves();
    SpecialStep(cs, env, Let);
    assert cs[1..] == [Node(group)] + [body];
    assert group == [Sym("x"), Num("1")] + [];
    BindXOne([]);
    BindDone(WithX());
    LetStep(group, [body], env, WithX());
    DoOne(body, WithX(), Null);
  }

  /** Inside the `let`, `if` still resolves to the special form. */
  lemma IfResolvesWithX()
    ensures Eval(Sym("if"), WithX()) == Ok(BuiltinFn(If))
  {
    LookupAugment(FreshEnv(), map["x" := Int(1)], "if");
    FreshEnvResolves("if");
  }

  /** `if` with a falsy test answers its third argument in a fresh environment. */
  lemma IfFalsyStep(test: Form, thenArm: Form, elseArm: Form, env: Env, v: Value)
    requires Eval(test, env) == Ok(v) && !Truthy(v)
    ensures IfForm([test, thenArm, elseArm], env) == Eval(elseArm, FreshEnv())
  {
  }

  /** `if` with a truthy test answers its second argument in the caller's environment. */
  lemma IfTruthyStep(test: Form, thenArm: Form, elseArm: Form, env: Env, v: Value)
    requires Eval(test, env) == Ok(v) && Truthy(v)
    ensures IfForm([test, thenArm, elseArm], env) == Eval(thenArm, env)
  {
  }

  lemma ElseArmInWithX()
    ensures Eval(Node([Sym("if"), Num("0"), Num("0"), Sym("x")]), WithX()) == Err(SymbolNotFound("x"))
  {
    var cs := [Sym("if"), Num("0"), Num("0"), Sym("x")];
    IfResolvesWithX();
    SpecialStep(cs, WithX(), If);
    assert cs[1..] == [Num("0"), Num("0"), Sym("x")];
    Semantics.SmallLiterals(WithX());
    IfFalsyStep(Num("0"), Num("0"), Sym("x"), WithX(), Int(0));
    FreshEnvResolves("x");
  }

  lemma ThenArmInWithX()
    ensures Eval(Node([Sym("if"), Num("1"), Sym("x"), Num("0")]), WithX()) == Ok(Int(1))
  {
    var cs := [Sym("if"), Num("1"), Sym("x"), Num("0")];
    IfResolvesWithX();
    SpecialStep(cs, WithX(), If);
    assert cs[1..] == [Num("1"), Sym("x"), Num("0")];
    Semantics.SmallLiterals(WithX());
    IfTruthyStep(Num("1"), Sym("x"), Num("0"), WithX(), Int(1));
    LookupAugment(FreshEnv(), map["x" := Int(1)], "x");
  }

  /**
   * `(let (x 1) (if 0 0 x))` throws: the else-arm is evaluated in a fresh
   * environment, where `x` is not bound.
   */
  lemma ElseArmIgnoresLet()
    ensures Eval(Node([Sym("let"), Node([Sym("x"), Num("1")]), Node([Sym("if"), Num("0"), Num("0"), Sym("x")])]), FreshEnv())
         == Err(SymbolNotFound("x"))
  {
    LetXOne(Node([Sym("if"), Num("0"), Num("0"), Sym("x")]));
    ElseArmInWithX();
  }

  /** `(let (x 1) (if 1 x 0))` answers 1: the then-arm is evaluated where `x` is bound. */
  lemma ThenArmSeesLet()
    ensures Eval(Node([Sym("let"), Node([Sym("x"), Num("1")]), Node([Sym("if"), Num("1"), Sym("x"), Num("0")])]), FreshEnv())
         == Ok(Int(1))
  {
    LetXOne(Node([Sym("if"), Num("1"), Sym("x"), Num("0")]));
    ThenArmInWithX();
  }
}
