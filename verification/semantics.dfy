/**
 * Properties of evaluation: the order in which `evalList` and `do` evaluate
 * their forms and which error wins, the scoping of `let`, the arms of `if`,
 * and what the primitives see once `evalList` has stored their arguments.
 */
module Semantics {
  import opened Wrappers
  import opened Errors
  import opened Tokens
  import opened Syntax
  import opened Values
  import opened Environment
  import opened Evaluator
  import Primitives
  import Lists

  /** Every form evaluates without throwing. */
  predicate AllOk(forms: seq<Form>, env: Env) {
    forall i :: 0 <= i < |forms| ==> Eval(forms[i], env).Ok?
  }

  /** Form `k` is the first of `forms` whose evaluation throws. */
  predicate FirstFailure(forms: seq<Form>, env: Env, k: int) {
    && 0 <= k < |forms|
    && Eval(forms[k], env).Err?
    && (forall j :: 0 <= j < k ==> Eval(forms[j], env).Ok?)
  }

  /** The values of forms that all evaluate, as evaluated (before any storing). */
  function ValuesOf(forms: seq<Form>, env: Env): (r: seq<Value>)
    requires AllOk(forms, env)
    ensures |r| == |forms|
    ensures forall i :: 0 <= i < |forms| ==> Ok(r[i]) == Eval(forms[i], env)
  {
    seq(|forms|, i requires 0 <= i < |forms| && AllOk(forms, env) => Eval(forms[i], env).value)
  }

  lemma {:induction false} EvalMapPointwise(run: seq<Form>, env: Env, acc: seq<Value>)
    ensures EvalMap(run, env, acc).Ok? <==> AllOk(run, env)
    ensures EvalMap(run, env, acc).Ok? ==>
      && EvalMap(run, env, acc).value[|run|..] == acc
      && forall i :: 0 <= i < |run| ==>
           EvalMap(run, env, acc).value[i] == Stored(Eval(run[|run| - 1 - i], env).value)
    ensures EvalMap(run, env, acc).Err? ==>
      exists k :: FirstFailure(run, env, k) && Eval(run[k], env).error == EvalMap(run, env, acc).error
    decreases |run|
  {
    if |run| > 0 {
      var first := Eval(run[0], env);
      if first.Err? {
        assert FirstFailure(run, env, 0);
      } else {
        EvalMapPointwise(run[1..], env, [Stored(first.value)] + acc);
        EvalMapStep(run, env, acc);
      }
    }
  }

  /** What `EvalMapPointwise` states of `EvalMap(run, env, acc)`. */
  ghost predicate EvalMapSpec(run: seq<Form>, env: Env, acc: seq<Value>) {
    && (EvalMap(run, env, acc).Ok? <==> AllOk(run, env))
    && (EvalMap(run, env, acc).Ok? ==>
          && EvalMap(run, env, acc).value[|run|..] == acc
          && forall i :: 0 <= i < |run| ==>
               EvalMap(run, env, acc).value[i] == Stored(Eval(run[|run| - 1 - i], env).value))
    && (EvalMap(run, env, acc).Err? ==>
          exists k :: FirstFailure(run, env, k) && Eval(run[k], env).error == EvalMap(run, env, acc).error)
  }

  /** Every form evaluates exactly when the first one does and the rest all do. */
  lemma AllOkTail(forms: seq<Form>, env: Env)
    requires |forms| > 0
    ensures AllOk(forms, env) <==> Eval(forms[0], env).Ok? && AllOk(forms[1..], env)
  {
    if Eval(forms[0], env).Ok? && AllOk(forms[1..], env) {
      forall i | 0 <= i < |forms| ensures Eval(forms[i], env).Ok? {
        if i > 0 { assert forms[i] == forms[1..][i - 1]; }
      }
    }
    if AllOk(forms, env) {
      forall i | 0 <= i < |forms| - 1 ensures Eval(forms[1..][i], env).Ok? {
        assert forms[1..][i] == forms[i + 1];
      }
    }
  }

  /** A first failure among the later forms, after a first form that evaluates, is a first failure of all of them. */
  lemma FirstFailureTail(forms: seq<Form>, env: Env, k: int)
    requires |forms| > 0 && Eval(forms[0], env).Ok? && FirstFailure(forms[1..], env, k)
    ensures FirstFailure(forms, env, k + 1) && forms[k + 1] == forms[1..][k]
  {
    forall j | 0 <= j < k + 1 ensures Eval(forms[j], env).Ok? {
      if j > 0 { assert forms[j] == forms[1..][j - 1]; }
    }
  }

  /** The values after a step of `EvalMap`: the first form's stored value lands just above the accumulator. */
  lemma EvalMapStepOk(run: seq<Form>, env: Env, acc: seq<Value>, acc': seq<Value>, out: seq<Value>)
    requires |run| > 0 && AllOk(run, env) && AllOk(run[1..], env)
    requires acc' == [Stored(Eval(run[0], env).value)] + acc
    requires |out| == |run| + |acc| && out[|run| - 1..] == acc'
    requires forall i :: 0 <= i < |run| - 1 ==> out[i] == Stored(Eval(run[1..][|run| - 2 - i], env).value)
    ensures out[|run|..] == acc
    ensures forall i :: 0 <= i < |run| ==> out[i] == Stored(Eval(run[|run| - 1 - i], env).value)
  {
    var n := |run|;
    forall i | 0 <= i < n ensures out[i] == Stored(Eval(run[n - 1 - i], env).value) {
      if i < n - 1 {
        assert run[1..][n - 2 - i] == run[n - 1 - i];
      } else {
        assert out[n - 1] == acc'[0];
      }
    }
    assert out[n..] == out[n - 1..][1..];
  }

  /** The inductive step of `EvalMapPointwise`, from the statement about the rest of the forms. */
  lemma EvalMapStep(run: seq<Form>, env: Env, acc: seq<Value>)
    requires |run| > 0 && Eval(run[0], env).Ok?
    requires EvalMapSpec(run[1..], env, [Stored(Eval(run[0], env).value)] + acc)
    ensures EvalMapSpec(run, env, acc)
  {
    var acc' := [Stored(Eval(run[0], env).value)] + acc;
    var r := EvalMap(run, env, acc);
    assert r == EvalMap(run[1..], env, acc');
    AllOkTail(run, env);
    if r.Ok? {
      EvalMapStepOk(run, env, acc, acc', r.value);
    } else {
      var k :| FirstFailure(run[1..], env, k) && Eval(run[1..][k], env).error == r.error;
      FirstFailureTail(run, env, k);
    }
  }

  /**
   * `evalList` evaluates the arguments left to right: it succeeds exactly when
   * every argument does, and then lists their stored values in source order;
   * otherwise it throws what the leftmost failing argument threw.
   */
  lemma EvalListPointwise(args: seq<Form>, env: Env)
    ensures EvalList(args, env).Ok? <==> AllOk(args, env)
    ensures EvalList(args, env).Ok? ==>
      EvalList(args, env).value == Primitives.StoredAll(ValuesOf(args, env))
    ensures EvalList(args, env).Err? ==>
      exists k :: FirstFailure(args, env, k) && Eval(args[k], env).error == EvalList(args, env).error
  {
    EvalMapPointwise(args, env, []);
    if AllOk(args, env) {
      var mapped := EvalMap(args, env, []).value;
      EvalListInOrder(args, env, mapped);
    }
  }

  /** Reversing the values `EvalMap` laid down mirrored gives the stored values in source order. */
  lemma EvalListInOrder(args: seq<Form>, env: Env, mapped: seq<Value>)
    requires AllOk(args, env) && |mapped| == |args|
    requires forall i :: 0 <= i < |args| ==> mapped[i] == Stored(Eval(args[|args| - 1 - i], env).value)
    ensures Lists.Reverse(mapped) == Primitives.StoredAll(ValuesOf(args, env))
  {
    var l := Lists.Reverse(mapped);
    var r := Primitives.StoredAll(ValuesOf(args, env));
    forall i | 0 <= i < |args| ensures l[i] == r[i] {
      assert l[i] == mapped[|args| - 1 - i];
    }
  }

  /**
   * `do` evaluates its forms in order in one environment: an empty `do` answers
   * `null`, a `do` whose forms all evaluate answers the last value, and
   * otherwise it throws what its first failing form threw.
   */
  lemma {:induction false} DoReturnsLast(forms: seq<Form>, env: Env)
    ensures |forms| == 0 ==> DoForms(forms, env, Null) == Ok(Null)
    ensures DoForms(forms, env, Null).Ok? <==> AllOk(forms, env)
    ensures |forms| > 0 && AllOk(forms, env) ==>
      DoForms(forms, env, Null) == Eval(forms[|forms| - 1], env)
    ensures DoForms(forms, env, Null).Err? ==>
      exists k :: FirstFailure(forms, env, k) && Eval(forms[k], env).error == DoForms(forms, env, Null).error
  {
    DoFromAnySeed(forms, env, Null);
  }

  lemma {:induction false} DoFromAnySeed(forms: seq<Form>, env: Env, acc: Value)
    ensures DoForms(forms, env, acc).Ok? <==> AllOk(forms, env)
    ensures |forms| > 0 && AllOk(forms, env) ==> DoForms(forms, env, acc) == Eval(forms[|forms| - 1], env)
    ensures DoForms(forms, env, acc).Err? ==>
      exists k :: FirstFailure(forms, env, k) && Eval(forms[k], env).error == DoForms(forms, env, acc).error
    decreases |forms|
  {
    if |forms| > 0 {
      var first := Eval(forms[0], env);
      if first.Err? {
        assert FirstFailure(forms, env, 0);
      } else {
        var r := DoForms(forms, env, acc);
        DoFromAnySeed(forms[1..], env, first.value);
        assert r == DoForms(forms[1..], env, first.value);
        assert AllOk(forms, env) <==> AllOk(forms[1..], env) by {
          if AllOk(forms[1..], env) {
            forall i | 0 <= i < |forms| ensures Eval(forms[i], env).Ok? {
              if i > 0 { assert forms[i] == forms[1..][i - 1]; }
            }
          }
          if AllOk(forms, env) {
            forall i | 0 <= i < |forms| - 1 ensures Eval(forms[1..][i], env).Ok? {
              assert forms[1..][i] == forms[i + 1];
            }
          }
        }
        if |forms| > 1 {
          assert forms[1..][|forms| - 2] == forms[|forms| - 1];
        }
        if r.Err? {
          var k :| FirstFailure(forms[1..], env, k) && Eval(forms[1..][k], env).error == r.error;
          assert forms[1..][k] == forms[k + 1];
          forall j | 0 <= j < k + 1 ensures Eval(forms[j], env).Ok? {
            if j > 0 { assert forms[j] == forms[1..][j - 1]; }
          }
          assert FirstFailure(forms, env, k + 1);
        }
      }
    }
  }

  /**
   * The leaves of a tree: a number literal the lexer built answers its decimal
   * value, a symbol answers its binding in the innermost frame that has one
   * (and is reported missing otherwise), and a bracket token is bad parser
   * output.
   */
  lemma EvalLeaf(t: Token, env: Env)
    ensures t.NumberLiteral? && WellFormed(t) ==> Eval(Leaf(t), env) == Ok(Int(DecimalValue(t.digits)))
    ensures t.Symbol? && |env| > 0 ==> (Eval(Leaf(t), env).Ok? <==> Bound(env, t.name))
    ensures t.Symbol? && Eval(Leaf(t), env).Ok? ==>
      exists k :: Innermost(env, t.name, k) && Eval(Leaf(t), env).value == env[k][t.name]
    ensures t.Symbol? && |env| > 0 && Eval(Leaf(t), env).Err? ==> Eval(Leaf(t), env).error == SymbolNotFound(t.name)
    ensures t.Bracket? ==> Eval(Leaf(t), env) == Err(BadParserOutput)
  {
  }

  /** The number literals `0`, `1` and `2` evaluate to their values in any environment. */
  lemma SmallLiterals(env: Env)
    ensures Eval(Leaf(NumberLiteral("0")), env) == Ok(Int(0))
    ensures Eval(Leaf(NumberLiteral("1")), env) == Ok(Int(1))
    ensures Eval(Leaf(NumberLiteral("2")), env) == Ok(Int(2))
  {
    assert "0"[..0] == [] && "1"[..0] == [] && "2"[..0] == [];
  }

  /**
   * A form evaluates its head first: a failing head decides the result; a
   * special form receives the argument forms unevaluated; anything else is
   * applied to the stored values of the arguments, which are evaluated left
   * to right, the first failure deciding the result.  The empty form has no
   * head and is bad parser output.
   */
  lemma EvalForm(cs: seq<Form>, env: Env)
    ensures |cs| == 0 ==> Eval(Node(cs), env) == Err(BadParserOutput)
    ensures |cs| > 0 && Eval(cs[0], env).Err? ==> Eval(Node(cs), env) == Eval(cs[0], env)
    ensures |cs| > 0 && Eval(cs[0], env).Ok? && Eval(cs[0], env).value.BuiltinFn? && IsSpecial(Eval(cs[0], env).value.op) ==>
      Eval(Node(cs), env) == ApplySpecial(Eval(cs[0], env).value.op, cs[1..], env)
    ensures |cs| > 0 && Eval(cs[0], env).Ok? && !(Eval(cs[0], env).value.BuiltinFn? && IsSpecial(Eval(cs[0], env).value.op)) ==>
      && (AllOk(cs[1..], env) ==>
            Eval(Node(cs), env) == Apply(Eval(cs[0], env).value, Primitives.StoredAll(ValuesOf(cs[1..], env))))
      && (!AllOk(cs[1..], env) ==>
            exists k :: FirstFailure(cs[1..], env, k) && Eval(Node(cs), env) == Err(Eval(cs[1..][k], env).error))
  {
    if |cs| > 0 {
      EvalListPointwise(cs[1..], env);
    }
  }

  /**
   * `(+ a ...)` answers the sum of the arguments as they evaluated (storing
   * falsy values as `null` makes no difference), or fails as soon as one is
   * not a number; `(> a ...)` likewise compares the values as evaluated.
   */
  lemma EvalNumericForm(cs: seq<Form>, env: Env)
    requires |cs| > 0 && AllOk(cs[1..], env)
    ensures Eval(cs[0], env) == Ok(BuiltinFn(Plus)) ==>
      Eval(Node(cs), env) == Primitives.Plus(ValuesOf(cs[1..], env))
    ensures Eval(cs[0], env) == Ok(BuiltinFn(Gt)) ==>
      Eval(Node(cs), env) == Primitives.GreaterThan(ValuesOf(cs[1..], env))
  {
    EvalForm(cs, env);
    Primitives.NumericOpsIgnoreStoring(ValuesOf(cs[1..], env));
  }

  /** `(print a ...)` throws whenever one of its arguments evaluates to a falsy value, `0` included. */
  lemma EvalPrintForm(cs: seq<Form>, env: Env)
    requires |cs| > 0 && AllOk(cs[1..], env) && Eval(cs[0], env) == Ok(BuiltinFn(Print))
    ensures Eval(Node(cs), env).Err? <==>
      exists i :: 0 <= i < |cs| - 1 && !Truthy(Eval(cs[1..][i], env).value)
    ensures Eval(Node(cs), env).Ok? ==> Eval(Node(cs), env) == Ok(Nil)
  {
    EvalForm(cs, env);
    var vs := ValuesOf(cs[1..], env);
    Primitives.PrintRejectsFalsy(vs);
    assert forall i :: 0 <= i < |cs| - 1 ==> vs[i] == Eval(cs[1..][i], env).value;
  }

  /**
   * `if` never evaluates the arm it does not take: the result is the same
   * whatever that arm is.  A truthy test answers the second argument in the
   * caller's environment; a falsy one the third argument in a fresh child of
   * the base environment (so the caller's bindings are not visible there), or
   * `nil` when there is no third argument.
   */
  lemma IfTakesOneArm(test: Form, thenArm: Form, elseArm: Form, other: Form, env: Env)
    ensures Eval(test, env).Err? ==> IfForm([test, thenArm, elseArm], env) == Err(Eval(test, env).error)
    ensures Eval(test, env).Ok? && Truthy(Eval(test, env).value) ==>
      && IfForm([test, thenArm, elseArm], env) == Eval(thenArm, env)
      && IfForm([test, thenArm, other], env) == Eval(thenArm, env)
      && IfForm([test, thenArm], env) == Eval(thenArm, env)
    ensures Eval(test, env).Ok? && !Truthy(Eval(test, env).value) ==>
      && IfForm([test, thenArm, elseArm], env) == Eval(elseArm, FreshEnv())
      && IfForm([test, other, elseArm], env) == Eval(elseArm, FreshEnv())
      && IfForm([test, thenArm], env) == Ok(Nil)
  {
  }

  /**
   * `let` pushes exactly one frame over the caller's environment, binding
   * exactly the names of its binding group, and evaluates its body there as an
   * implicit `do`; a failing binding decides the result.
   */
  lemma LetPushesOneFrame(args: seq<Form>, env: Env)
    requires |args| > 0 && args[0].Node? && |args[0].children| % 2 == 0
    ensures var bound := LetBind(args[0].children, Augment(env, map[]));
      && (bound.Err? ==> LetForm(args, env) == Err(bound.error))
      && (bound.Ok? ==>
            && |bound.value| == |env| + 1
            && bound.value[1..] == env
            && bound.value[0].Keys == BoundNames(args[0].children)
            && LetForm(args, env) == DoForms(args[1..], bound.value, Null))
  {
  }

  /**
   * The binding loop takes the group pair by pair, so binding a group in two
   * halves binds the second half in the environment the first half left, and
   * a failure in the first half decides the result.
   */
  lemma {:induction false} LetBindAppend(a: seq<Form>, b: seq<Form>, env: Env)
    requires |a| % 2 == 0 && |b| % 2 == 0 && |env| > 0
    ensures LetBind(a, env).Err? ==> LetBind(a + b, env) == LetBind(a, env)
    ensures LetBind(a, env).Ok? ==> LetBind(a + b, env) == LetBind(b, LetBind(a, env).value)
    decreases |a|
  {
    if |a| == 0 {
      assert a + b == b;
    } else {
      EvenLength(|a|);
      var ab := a + b;
      assert ab[0] == a[0] && ab[1] == a[1];
      assert ab[2..] == a[2..] + b;
      if a[0].Leaf? && a[0].tok.Symbol? && Eval(a[1], env).Ok? {
        var env' := Bind(env, a[0].tok.name, Eval(a[1], env).value).value;
        LetBindAppend(a[2..], b, env');
      }
    }
  }

  /**
   * The value a pair binds: the last pair `x rhs` of a group evaluates `rhs`
   * in the frame that already holds every earlier binding, and binds `x` to
   * that value in the innermost frame, overwriting an earlier binding of `x`.
   */
  lemma LetBindLast(pre: seq<Form>, x: string, rhs: Form, env: Env)
    requires |pre| % 2 == 0 && |env| > 0
    ensures var r := LetBind(pre + [Leaf(Symbol(x)), rhs], env);
      var mid := LetBind(pre, env);
      && (mid.Err? ==> r == mid)
      && (mid.Ok? && Eval(rhs, mid.value).Err? ==> r == Err(Eval(rhs, mid.value).error))
      && (mid.Ok? && Eval(rhs, mid.value).Ok? ==>
            && r == Bind(mid.value, x, Eval(rhs, mid.value).value)
            && r.value[0][x] == Eval(rhs, mid.value).value)
  {
    var last := [Leaf(Symbol(x)), rhs];
    LetBindAppend(pre, last, env);
    assert last[2..] == [];
  }

  /**
   * The three ways `let` itself throws: a first argument that is not a form
   * (or none at all), a binding group of odd length, and a left-hand side that
   * is not a symbol at any pair `k` the loop reaches, rejected before its
   * right-hand side is evaluated.
   */
  lemma LetRejects(args: seq<Form>, env: Env, k: nat)
    ensures |args| == 0 || !args[0].Node? ==> LetForm(args, env) == Err(LetWithoutBindingGroup)
    ensures |args| > 0 && args[0].Node? && |args[0].children| % 2 != 0 ==> LetForm(args, env) == Err(LetOddBindings)
    ensures (&& |args| > 0 && args[0].Node? && |args[0].children| % 2 == 0
             && k % 2 == 0 && k < |args[0].children|
             && LetBind(args[0].children[..k], Augment(env, map[])).Ok?
             && !(args[0].children[k].Leaf? && args[0].children[k].tok.Symbol?)) ==>
      LetForm(args, env) == Err(BindTargetNotSymbol)
  {
    if && |args| > 0 && args[0].Node? && |args[0].children| % 2 == 0
       && k % 2 == 0 && k < |args[0].children|
       && LetBind(args[0].children[..k], Augment(env, map[])).Ok?
       && !(args[0].children[k].Leaf? && args[0].children[k].tok.Symbol?)
    {
      var g := args[0].children;
      assert g == g[..k] + g[k..];
      LetBindAppend(g[..k], g[k..], Augment(env, map[]));
      assert g[k..][0] == g[k];
    }
  }
}
