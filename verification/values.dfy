/**
 * The values an evaluation can produce.  With no closures in the base
 * environment, these are the integers parsed from number literals and summed
 * by `+`, the booleans `>` answers, `null` (an empty `do`), `nil` (the empty
 * list that `if` and `print` answer) and the six builtin objects a symbol can
 * resolve to.
 */
module Values {

  /** The builtins the base environment binds: three special forms and three primitives. */
  datatype Builtin = Do | Let | If | Gt | Plus | Print

  datatype Value =
    | Int(n: int)
    | Bool(b: bool)
    | Null
    | Nil
    | BuiltinFn(op: Builtin)

  /** `instanceof SpecialForm`: these receive their argument forms unevaluated. */
  predicate IsSpecial(op: Builtin) {
    op == Do || op == Let || op == If
  }

  /** JavaScript truthiness: `0`, `false` and `null` are falsy; `nil` and every object are truthy. */
  predicate Truthy(v: Value): (b: bool)
    ensures !b <==> v == Int(0) || v == Bool(false) || v == Null
  {
    match v
    case Int(n) => n != 0
    case Bool(b) => b
    case Null => false
    case Nil => true
    case BuiltinFn(_) => true
  }

  /**
   * What a list cell holds after `cons(v)`, whose constructor stores
   * `value || null`: every falsy value becomes `null`.
   */
  function Stored(v: Value): (r: Value)
    ensures Truthy(r) <==> Truthy(v)
    ensures Truthy(v) ==> r == v
    ensures !Truthy(v) ==> r == Null
  {
    if Truthy(v) then v else Null
  }

  /** `utils.isNumber`: numbers, and the booleans and `null`, which coerce to finite numbers. */
  predicate IsNumeric(v: Value): (b: bool)
    ensures !b <==> v == Nil || v.BuiltinFn?
  {
    v.Int? || v.Bool? || v.Null?
  }

  /** The number a numeric value coerces to (`+true` is 1, `+false` and `+null` are 0). */
  function NumericValue(v: Value): int
    requires IsNumeric(v)
  {
    match v
    case Int(n) => n
    case Bool(b) => if b then 1 else 0
    case Null => 0
  }

  /** Storing a value as a list cell does not change whether it is numeric, nor what number it is. */
  lemma StoredNumeric(v: Value)
    ensures IsNumeric(Stored(v)) <==> IsNumeric(v)
    ensures IsNumeric(v) ==> NumericValue(Stored(v)) == NumericValue(v)
  {
  }
}
