/**
 * The evaluator: `rEval`, `rApply`, `evalList`, the three special forms and
 * `readEval`.  With no user closures, evaluation recurses only into sub-forms
 * of the form being evaluated, so every function here terminates on the size
 * of the forms it is given (`Syntax.Size`), with a rank to break ties between
 * the mutually recursive members.
 */
module Evaluator {
  import opened Wrappers
  import opened Errors
  import opened Tokens
  import opened Syntax
  import opened Values
  import opened Environment
  import Primitives
  import Lists
  import Parser
  import Lexer

  /** Each form of a sequence is no larger than the sequence. */
  lemma {:induction false} SizeOfElement(cs: seq<Form>, k: nat)
    requires k < |cs|
    ensures Size(cs[k]) <= SizeAll(cs)
    ensures SizeAll(cs[k + 1..]) < SizeAll(cs)
    decreases k
  {
    if k > 0 {
      SizeOfElement(cs[1..], k - 1);
      assert cs[1..][k - 1] == cs[k];
      assert cs[1..][k..] == cs[k + 1..];
    }
  }

  /**
   * `rEval`.  A number literal answers its value and a symbol its binding; a
   * form evaluates its head first, hands a special form its argument forms
   * unevaluated, and applies anything else to the evaluated arguments.  Any
   * other expression (a bracket token, or the missing head of `()`) is
   * rejected as bad parser output.
   */
  function Eval(f: Form, env: Env): (r: Result<Value, Error>)
    ensures f.Leaf? && f.tok.NumberLiteral? && WellFormed(f.tok) ==> r.Ok? && r.value.Int? && r.value.n >= 0
    ensures f.Leaf? && f.tok.Symbol? ==> r == Lookup(env, f.tok.name)
    ensures (f.Leaf? && f.tok.Bracket?) || f == Node([]) ==> r == Err(BadParserOutput)
    decreases Size(f), 0
  {
    match f
    case Leaf(NumberLiteral(digits)) =>
      // The lexer only builds number literals from digit runs.
      if AllDigits(digits) then Ok(Int(DecimalValue(digits))) else Err(MalformedAtom)
    case Leaf(Symbol(name)) => Lookup(env, name)
    case Leaf(Bracket(_)) => Err(BadParserOutput)
    case Node(cs) =>
      if |cs| == 0 then Err(BadParserOutput)
      else
        SizeOfElement(cs, 0);
        var head :- Eval(cs[0], env);
        if head.BuiltinFn? && IsSpecial(head.op) then ApplySpecial(head.op, cs[1..], env)
        else
          var args :- EvalList(cs[1..], env);
          Apply(head, args)
  }

  /** `specialApply` of the special form `op` on unevaluated argument forms. */
  function ApplySpecial(op: Builtin, args: seq<Form>, env: Env): (r: Result<Value, Error>)
    requires IsSpecial(op)
    ensures op == Do && |args| == 0 ==> r == Ok(Null)
    ensures op == Let && (|args| == 0 || !args[0].Node?) ==> r == Err(LetWithoutBindingGroup)
    ensures op == Let && |args| > 0 && args[0].Node? && |args[0].children| % 2 != 0 ==> r == Err(LetOddBindings)
    ensures op == If && |args| != 2 && |args| != 3 ==> r == Err(IfArity)
    decreases SizeAll(args), 3
  {
    match op
    case Do => DoForms(args, env, Null)
    case Let => LetForm(args, env)
    case If => IfForm(args, env)
  }

  /**
   * `do`: reduces the forms from the seed `null`, each step evaluating the next
   * form in the same environment and keeping its value.
   */
  function DoForms(forms: seq<Form>, env: Env, acc: Value): (r: Result<Value, Error>)
    ensures |forms| == 0 ==> r == Ok(acc)
    decreases SizeAll(forms), 1
  {
    if |forms| == 0 then Ok(acc)
    else
      var v :- Eval(forms[0], env);
      DoForms(forms[1..], env, v)
  }

  /** The names a binding group binds: the symbols at its even positions. */
  function BoundNames(pairs: seq<Form>): set<string>
    decreases |pairs|
  {
    if |pairs| < 2 then {}
    else if pairs[0].Leaf? && pairs[0].tok.Symbol? then {pairs[0].tok.name} + BoundNames(pairs[2..])
    else BoundNames(pairs[2..])
  }

  /** A non-empty group of even length holds a whole pair, and what follows it is of even length too. */
  lemma EvenLength(n: int)
    requires n % 2 == 0 && n > 0
    ensures n >= 2 && (n - 2) % 2 == 0
  {
  }

  /**
   * The binding loop of `let`: takes the group two forms at a time, rejects a
   * left-hand side that is not a symbol before evaluating its right-hand side,
   * and binds the value into the innermost frame, where later right-hand sides
   * see it.  Only the innermost frame ever changes.
   */
  function LetBind(pairs: seq<Form>, env: Env): (r: Result<Env, Error>)
    requires |pairs| % 2 == 0 && |env| > 0
    ensures r.Ok? ==> |r.value| == |env| && r.value[1..] == env[1..]
    ensures r.Ok? ==> r.value[0].Keys == env[0].Keys + BoundNames(pairs)
    decreases SizeAll(pairs), 1
  {
    if |pairs| == 0 then Ok(env)
    else
      var lval := pairs[0];
      EvenLength(|pairs|);
      SizeOfElement(pairs, 1);
      assert pairs[2..] == pairs[1 + 1..];
      if !(lval.Leaf? && lval.tok.Symbol?) then Err(BindTargetNotSymbol)
      else
        var v :- Eval(pairs[1], env);
        var env' := Bind(env, lval.tok.name, v).value;
        var r := LetBind(pairs[2..], env');
        LetBindStep(pairs, env, env', r);
        r
  }

  /** The frame-keys bookkeeping of one binding step, from what holds of the rest of the group. */
  lemma LetBindStep(pairs: seq<Form>, env: Env, env': Env, r: Result<Env, Error>)
    requires |pairs| >= 2 && pairs[0].Leaf? && pairs[0].tok.Symbol?
    requires |env| > 0 && |env'| == |env| && env'[1..] == env[1..]
    requires env'[0].Keys == env[0].Keys + {pairs[0].tok.name}
    requires r.Ok? ==> |r.value| == |env'| && r.value[1..] == env'[1..]
    requires r.Ok? ==> r.value[0].Keys == env'[0].Keys + BoundNames(pairs[2..])
    ensures r.Ok? ==> |r.value| == |env| && r.value[1..] == env[1..]
    ensures r.Ok? ==> r.value[0].Keys == env[0].Keys + BoundNames(pairs)
  {
  }

  /**
   * `let`: the first argument must be a form holding an even-length binding
   * group; one frame is pushed for the whole group, and the remaining
   * arguments are evaluated as an implicit `do` in the extended environment.
   */
  function LetForm(args: seq<Form>, env: Env): (r: Result<Value, Error>)
    ensures |args| == 0 || !args[0].Node? ==> r == Err(LetWithoutBindingGroup)
    ensures |args| > 0 && args[0].Node? && |args[0].children| % 2 != 0 ==> r == Err(LetOddBindings)
    ensures |args| > 0 && args[0].Node? && |args[0].children| == 0 ==> r == DoForms(args[1..], Augment(env, map[]), Null)
    decreases SizeAll(args), 2
  {
    if |args| == 0 || !args[0].Node? then Err(LetWithoutBindingGroup)
    else
      var group := args[0].children;
      if |group| % 2 != 0 then Err(LetOddBindings)
      else
        SizeOfElement(args, 0);
        var bound :- LetBind(group, Augment(env, map[]));
        DoForms(args[1..], bound, Null)
  }

  /**
   * `if`: two or three arguments.  A truthy test evaluates the second in the
   * caller's environment.  A falsy test evaluates the third, if any, with no
   * environment, which means a fresh child of the base environment; otherwise
   * it answers `nil`.
   */
  function IfForm(args: seq<Form>, env: Env): (r: Result<Value, Error>)
    ensures |args| != 2 && |args| != 3 ==> r == Err(IfArity)
    decreases SizeAll(args), 1
  {
    if |args| != 2 && |args| != 3 then Err(IfArity)
    else
      SizeOfElement(args, 0);
      SizeOfElement(args, 1);
      var test :- Eval(args[0], env);
      if Truthy(test) then Eval(args[1], env)
      else if |args| == 3 then
        SizeOfElement(args, 2);
        Eval(args[2], FreshEnv())
      else Ok(Nil)
  }

  /**
   * The `map` step of `evalList`: evaluates `run` from its head, consing each
   * stored value onto `acc` (so the values come out reversed).
   */
  function EvalMap(run: seq<Form>, env: Env, acc: Lists.List<Value>): (r: Result<Lists.List<Value>, Error>)
    ensures r.Ok? ==> |r.value| == |run| + |acc|
    decreases SizeAll(run), 1
  {
    if |run| == 0 then Ok(acc)
    else
      var v :- Eval(run[0], env);
      EvalMap(run[1..], env, Lists.Cons(acc, Stored(v)))
  }

  /** `evalList`: `map` then `reverse`, which restores source order. */
  function EvalList(args: seq<Form>, env: Env): (r: Result<seq<Value>, Error>)
    ensures r.Ok? ==> |r.value| == |args|
    decreases SizeAll(args), 2
  {
    var mapped :- EvalMap(args, env, []);
    Ok(Lists.Reverse(mapped))
  }

  /** A primitive function that `rApply` can call (special forms have no `primitiveApply`). */
  predicate IsApplicable(fn: Value) {
    fn.BuiltinFn? && !IsSpecial(fn.op)
  }

  /**
   * `rApply`: a primitive function answers `primitiveApply` of the arguments.
   * Nothing the base environment binds is a user function, so every other
   * value fails to be called.
   */
  function Apply(fn: Value, args: seq<Value>): (r: Result<Value, Error>)
    ensures r == Err(NotCallable) <==> !IsApplicable(fn)
    ensures fn == BuiltinFn(Plus) ==> r == Primitives.Plus(args)
    ensures fn == BuiltinFn(Gt) ==> r == Primitives.GreaterThan(args)
    ensures fn == BuiltinFn(Print) ==> r == Primitives.Print(args)
  {
    match fn
    case BuiltinFn(Plus) => Primitives.Plus(args)
    case BuiltinFn(Gt) => Primitives.GreaterThan(args)
    case BuiltinFn(Print) => Primitives.Print(args)
    case _ => Err(NotCallable)
  }

  /** The environment `readEval` uses: the one supplied, else a fresh child of the base environment. */
  function EnvOrFresh(env: Option<Env>): (r: Env)
    ensures env.Some? ==> r == env.value
    ensures env.None? ==> r == FreshEnv()
  {
    if env.Some? then env.value else FreshEnv()
  }

  /**
   * `readEval`: parse the input, then evaluate the form, in the environment
   * supplied or else a fresh one.  A lexing error propagates; input that lexes
   * to the tokens of paren-free forms evaluates the last of them, or throws
   * when that is a bare token or there is none.
   */
  function ReadEval(input: string, env: Option<Env>): (r: Result<Value, Error>)
    ensures Lexer.Lex(input).Err? ==> r == Err(Lexer.Lex(input).error)
    ensures forall fs :: Parser.AllParenFree(fs) && Lexer.Lex(input) == Ok(Parser.UnparseAll(fs)) ==>
      r == (match Parser.LastForm(fs) case Ok(f) => Eval(f, EnvOrFresh(env)) case Err(e) => Err(e))
  {
    var e := EnvOrFresh(env);
    var form :- Parser.Parse(input);
    Eval(form, e)
  }
}
