/**
 * Tokens and the character classes the lexer scans by.
 *
 * The original has an open class hierarchy (`Token`, `Symbol`, `Literal`,
 * `NumberLiteral`, `StringLiteral`); the only tokens the lexer can produce are
 * a plain `Token` for a structural character, a `Symbol`, and a
 * `NumberLiteral`, so the model is a closed datatype of those three.
 */
module Tokens {
  import opened Wrappers

  datatype Token =
    | Bracket(c: char)          // a plain Token for one of `(` `)` `[` `]`
    | Symbol(name: string)      // a name to resolve
    | NumberLiteral(digits: string)

  /** JavaScript's `\s` class: the characters the lexer treats as whitespace, all alike. */
  predicate IsWhitespace(c: char) {
    || c == ' ' || c == '\t' || c == '\n' || c == '\r'
    || c as int == 0x0B || c as int == 0x0C || c as int == 0xA0 || c as int == 0x1680
    || (0x2000 <= c as int <= 0x200A)
    || c as int == 0x2028 || c as int == 0x2029 || c as int == 0x202F
    || c as int == 0x205F || c as int == 0x3000 || c as int == 0xFEFF
  }

  /** The structural characters, each of which becomes a token of its own. */
  predicate IsBracket(c: char) {
    c == '(' || c == ')' || c == '[' || c == ']'
  }

  /** Where a symbol or number run ends: whitespace or a structural character. */
  predicate IsSeparator(c: char) {
    IsWhitespace(c) || IsBracket(c)
  }

  predicate IsDigit(c: char) {
    '0' <= c <= '9'
  }

  predicate AllDigits(s: string) {
    forall k :: 0 <= k < |s| ==> IsDigit(s[k])
  }

  /** `parseInt(digits, 10)` on a run of decimal digits. */
  function DecimalValue(digits: string): (v: nat)
    requires AllDigits(digits)
    decreases |digits|
  {
    if |digits| == 0 then 0
    else DecimalValue(digits[..|digits| - 1]) * 10 + (digits[|digits| - 1] as int - '0' as int)
  }

  /**
   * The token's `text` field.  A `NumberLiteral` never has it set: its
   * constructor delegates to a base constructor that does nothing, so its
   * text is `undefined` (here `None`).
   */
  function Text(t: Token): Option<string> {
    match t
    case Bracket(c) => Some([c])
    case Symbol(name) => Some(name)
    case NumberLiteral(_) => None
  }

  /** The characters of the input the token was scanned from. */
  function Spelling(t: Token): string {
    match t
    case Bracket(c) => [c]
    case Symbol(name) => name
    case NumberLiteral(digits) => digits
  }

  /** The spellings of a token sequence, concatenated. */
  function Spell(ts: seq<Token>): string
    decreases |ts|
  {
    if |ts| == 0 then [] else Spelling(ts[0]) + Spell(ts[1..])
  }

  /** `curSym.equals(c)` as the parser asks it: the token's text is the one-character string `c`. */
  predicate Is(t: Token, c: char) {
    Text(t) == Some([c])
  }

  /**
   * The shapes the lexer can produce: a structural character; a non-empty digit
   * run; or a symbol whose characters are no separators and that starts with
   * neither a digit nor a quote (the empty symbol included).
   */
  predicate WellFormed(t: Token) {
    match t
    case Bracket(c) => IsBracket(c)
    case NumberLiteral(digits) => |digits| > 0 && AllDigits(digits)
    case Symbol(name) =>
      && (forall k :: 0 <= k < |name| ==> !IsSeparator(name[k]))
      && (|name| > 0 ==> !IsDigit(name[0]) && name[0] != '"')
  }
}
