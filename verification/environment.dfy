/**
 * The environment: a chain of frames, each a mutable map from names to
 * values, innermost first.  The terminal empty environment the chain hangs
 * from is left implicit, so `[]` is that terminal and `env[0]` is the frame
 * `lookup` looks in first.  `bind` mutates a frame in place; since no value can
 * hold an environment, every frame `bind` writes to is reachable only from the
 * evaluation that created it, so the model threads environments as values.
 */
module Environment {
  import opened Wrappers
  import opened Errors
  import opened Values

  type Frame = map<string, Value>
  type Env = seq<Frame>

  /** Some frame of `env` binds `name`. */
  predicate Bound(env: Env, name: string) {
    exists k :: 0 <= k < |env| && name in env[k]
  }

  /** `k` is the innermost frame binding `name`. */
  predicate Innermost(env: Env, name: string, k: int) {
    && 0 <= k < |env|
    && name in env[k]
    && (forall j :: 0 <= j < k ==> name !in env[j])
  }

  /**
   * `lookup`: the binding in the innermost frame that has the name.  When the
   * frame's `cdr` is the terminal environment the name is reported missing; the
   * terminal itself has no map to look in.
   */
  function Lookup(env: Env, name: string): (r: Result<Value, Error>)
    ensures |env| == 0 ==> r == Err(NoFrame)
    ensures |env| > 0 ==> (r.Ok? <==> Bound(env, name))
    ensures |env| > 0 && r.Err? ==> r.error == SymbolNotFound(name)
    ensures r.Ok? ==> exists k :: Innermost(env, name, k) && r.value == env[k][name]
    decreases |env|
  {
    if |env| == 0 then Err(NoFrame)
    else if name in env[0] then Ok(env[0][name])
    else if |env[1..]| > 0 then
      var r := Lookup(env[1..], name);
      assert r.Ok? ==> exists k :: Innermost(env[1..], name, k) && r.value == env[1..][k][name];
      assert r.Ok? ==> exists k :: Innermost(env, name, k) && r.value == env[k][name] by {
        if r.Ok? {
          var k :| Innermost(env[1..], name, k) && r.value == env[1..][k][name];
          assert Innermost(env, name, k + 1);
        }
      }
      assert Bound(env[1..], name) ==> Bound(env, name) by {
        if Bound(env[1..], name) {
          var k :| 0 <= k < |env[1..]| && name in env[1..][k];
          assert name in env[k + 1];
        }
      }
      assert Bound(env, name) ==> Bound(env[1..], name) by {
        if Bound(env, name) {
          var k :| 0 <= k < |env| && name in env[k];
          assert k > 0;
          assert name in env[1..][k - 1];
        }
      }
      r
    else
      Err(SymbolNotFound(name))
  }

  /** `augment`: a new innermost frame in front of the receiver, which is left as it was. */
  function Augment(env: Env, frame: Frame): (r: Env)
    ensures |r| == |env| + 1
    ensures r[0] == frame && r[1..] == env
  {
    [frame] + env
  }

  /**
   * `bind`: writes the name into the innermost frame, overwriting any earlier
   * binding there; every other frame is untouched.  The terminal environment
   * has no map to write to.
   */
  function Bind(env: Env, name: string, v: Value): (r: Result<Env, Error>)
    ensures r.Ok? <==> |env| > 0
    ensures r.Err? ==> r.error == NoFrame
    ensures r.Ok? ==> |r.value| == |env| && r.value[1..] == env[1..]
    ensures r.Ok? ==> r.value[0].Keys == env[0].Keys + {name}
    ensures r.Ok? ==> r.value[0][name] == v
    ensures r.Ok? ==> forall n :: n in env[0] && n != name ==> r.value[0][n] == env[0][n]
  {
    if |env| == 0 then Err(NoFrame) else Ok([env[0][name := v]] + env[1..])
  }

  /** The frame of builtins: `do`, `let`, `if`, `>`, `+` and `print`. */
  function Builtins(): (r: Frame)
    ensures r.Keys == {"do", "let", "if", ">", "+", "print"}
    ensures forall n :: n in r ==> r[n].BuiltinFn? && (IsSpecial(r[n].op) <==> n in {"do", "let", "if"})
  {
    map["do" := BuiltinFn(Do), "let" := BuiltinFn(Let), "if" := BuiltinFn(If),
        ">" := BuiltinFn(Gt), "+" := BuiltinFn(Plus), "print" := BuiltinFn(Print)]
  }

  /** `baseEnv`: the single frame of builtins over the terminal environment. */
  function BaseEnv(): (r: Env)
    ensures |r| == 1
    ensures forall n :: Lookup(r, n).Ok? <==> n in Builtins()
  {
    Augment([], Builtins())
  }

  /** `baseEnv.augment({})`: the environment used whenever none is supplied. */
  function FreshEnv(): (r: Env)
    ensures |r| == 2 && r[0] == map[] && r[1] == Builtins()
  {
    Augment(BaseEnv(), map[])
  }

  /** A name bound in the new frame is found there; any other name is looked up in the receiver. */
  lemma LookupAugment(env: Env, frame: Frame, name: string)
    requires |env| > 0
    ensures name in frame ==> Lookup(Augment(env, frame), name) == Ok(frame[name])
    ensures name !in frame ==> Lookup(Augment(env, frame), name) == Lookup(env, name)
  {
    assert Augment(env, frame)[1..] == env;
  }

  /** After `bind`, the name resolves to the bound value; other names resolve as before. */
  lemma {:induction false} LookupBind(env: Env, name: string, v: Value, other: string)
    requires |env| > 0
    ensures Lookup(Bind(env, name, v).value, name) == Ok(v)
    ensures other != name ==> Lookup(Bind(env, name, v).value, other) == Lookup(env, other)
  {
    var e' := Bind(env, name, v).value;
    assert e'[1..] == env[1..];
  }

  /** Exactly the six builtin names resolve in a fresh environment, each to its own builtin. */
  lemma FreshEnvResolves(name: string)
    ensures Lookup(FreshEnv(), name).Ok? <==> name in {"do", "let", "if", ">", "+", "print"}
    ensures Lookup(FreshEnv(), name).Ok? ==> Lookup(FreshEnv(), name) == Ok(Builtins()[name])
    ensures Lookup(FreshEnv(), name).Err? ==> Lookup(FreshEnv(), name) == Err(SymbolNotFound(name))
  {
    LookupAugment(BaseEnv(), map[], name);
    assert BaseEnv()[1..] == [];
  }
}
