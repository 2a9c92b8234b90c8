/**
 * The single-pass lexer: text to a list of tokens.
 *
 * The original lexer is an immutable state (input, current index, tokens so
 * far); each `_nextTok` returns a new state.  Here a state is the index plus
 * the token accumulator, which is consed onto and reversed at the end
 * (`getSyms`).
 */
module Lexer {
  import opened Wrappers
  import opened Errors
  import opened Tokens
  import Lists

  /** The result of one `_nextTok`: the token and the index scanning resumes at. */
  datatype Step = Step(tok: Token, next: nat)

  /** `_advanceThroughWhitespace`: the first index at or after `i` that is not whitespace. */
  function SkipWhitespace(s: string, i: nat): (j: nat)
    requires i <= |s|
    ensures i <= j <= |s|
    ensures forall k :: i <= k < j ==> IsWhitespace(s[k])
    ensures j == |s| || !IsWhitespace(s[j])
    decreases |s| - i
  {
    if i < |s| && IsWhitespace(s[i]) then SkipWhitespace(s, i + 1) else i
  }

  /** The end of the run starting at `i`: the first separator at or after `i`, or the end of input. */
  function RunEnd(s: string, i: nat): (k: nat)
    requires i <= |s|
    ensures i <= k <= |s|
    ensures forall p :: i <= p < k ==> !IsSeparator(s[p])
    ensures k == |s| || IsSeparator(s[k])
    decreases |s| - i
  {
    if i < |s| && !IsSeparator(s[i]) then RunEnd(s, i + 1) else i
  }

  /** The loop of `_nextNumber`: walks the run, throwing at the first character that is not a digit. */
  function NumberEnd(s: string, i: nat): (r: Result<nat, Error>)
    requires i <= |s|
    ensures r.Ok? <==> AllDigits(s[i..RunEnd(s, i)])
    ensures r.Ok? ==> r.value == RunEnd(s, i)
    ensures r.Err? ==> r.error == MalformedAtom
    decreases |s| - i
  {
    if i < |s| && !IsSeparator(s[i]) then
      if !IsDigit(s[i]) then Err(MalformedAtom) else NumberEnd(s, i + 1)
    else Ok(i)
  }

  /** `_nextNumber`: a digit run up to the next separator becomes a number literal. */
  function NextNumber(s: string, i: nat): (r: Result<Step, Error>)
    requires i < |s| && IsDigit(s[i])
    ensures r.Ok? <==> AllDigits(s[i..RunEnd(s, i)])
    ensures r.Ok? ==> r.value == Step(NumberLiteral(s[i..RunEnd(s, i)]), RunEnd(s, i))
    ensures r.Ok? ==> WellFormed(r.value.tok)
    ensures r.Err? ==> r.error == MalformedAtom
  {
    var k :- NumberEnd(s, i);
    Ok(Step(NumberLiteral(s[i..k]), k))
  }

  /**
   * `_nextTok`: skip whitespace, then scan one token.  A structural character
   * is a token of its own; a digit starts a number; a quote starts a string
   * literal, whose construction always fails; anything else runs to the next
   * separator as a symbol.  At the end of input (only whitespace was left)
   * that run is empty, which yields the empty symbol.
   */
  function NextTok(s: string, i: nat): (r: Result<Step, Error>)
    requires i <= |s|
    ensures r.Ok? ==> i <= r.value.next <= |s| && WellFormed(r.value.tok)
    ensures r.Ok? && i < |s| ==> i < r.value.next
    ensures r.Ok? ==> (r.value.tok == Symbol([]) <==> SkipWhitespace(s, i) == |s|)
    ensures r.Ok? && r.value.tok == Symbol([]) ==> r.value.next == |s|
    ensures r.Ok? && r.value.tok != Symbol([]) ==> !IsWhitespace(s[r.value.next - 1])
    ensures r.Err? ==> r.error == MalformedAtom || r.error == StringLiteralUnsupported
  {
    var j := SkipWhitespace(s, i);
    if j < |s| && IsBracket(s[j]) then Ok(Step(Bracket(s[j]), j + 1))
    else if j < |s| && IsDigit(s[j]) then NextNumber(s, j)
    else if j < |s| && s[j] == '"' then Err(StringLiteralUnsupported)
    else
      var k := RunEnd(s, j);
      Ok(Step(Symbol(s[j..k]), k))
  }

  /** The loop of `lex`: one token per step until the index reaches the end, then `getSyms`. */
  function LexFrom(s: string, i: nat, acc: Lists.List<Token>): (r: Result<seq<Token>, Error>)
    requires i <= |s|
    ensures r.Ok? ==> |r.value| >= |acc| && r.value[..|acc|] == Lists.Reverse(acc)
    decreases |s| - i
  {
    if i >= |s| then Ok(Lists.Reverse(acc))
    else
      var st :- NextTok(s, i);
      var r := LexFrom(s, st.next, Lists.Cons(acc, st.tok));
      Lists.ReverseCons(acc, st.tok);
      assert r.Ok? ==> r.value[..|acc|] == r.value[..|acc| + 1][..|acc|];
      r
  }

  /** `lex(input)`: the tokens, accumulated reversed and reversed back, come out in source order. */
  function Lex(s: string): (r: Result<seq<Token>, Error>)
    ensures r == Tokenize(s, 0)
  {
    LexFromIsTokenize(s, 0, []);
    assert Tokenize(s, 0).Ok? ==> Lists.Reverse<Token>([]) + Tokenize(s, 0).value == Tokenize(s, 0).value;
    LexFrom(s, 0, [])
  }

  /** Reference tokenization in source order: the token at `i` followed by the tokens after it. */
  function Tokenize(s: string, i: nat): Result<seq<Token>, Error>
    requires i <= |s|
    decreases |s| - i
  {
    if i >= |s| then Ok([])
    else
      var st :- NextTok(s, i);
      var rest :- Tokenize(s, st.next);
      Ok([st.tok] + rest)
  }

  /** `s` with its whitespace removed. */
  function Strip(s: string): string
    decreases |s|
  {
    if |s| == 0 then [] else (if IsWhitespace(s[0]) then [] else [s[0]]) + Strip(s[1..])
  }

  lemma {:induction false} StripAppend(a: string, b: string)
    ensures Strip(a + b) == Strip(a) + Strip(b)
    decreases |a|
  {
    if |a| > 0 {
      assert (a + b)[1..] == a[1..] + b;
      StripAppend(a[1..], b);
    } else {
      assert a + b == b;
    }
  }

  lemma {:induction false} StripWhitespaceOnly(a: string)
    requires forall k :: 0 <= k < |a| ==> IsWhitespace(a[k])
    ensures Strip(a) == []
    decreases |a|
  {
    if |a| > 0 {
      StripWhitespaceOnly(a[1..]);
    }
  }

  lemma {:induction false} StripNoWhitespace(a: string)
    requires forall k :: 0 <= k < |a| ==> !IsWhitespace(a[k])
    ensures Strip(a) == a
    decreases |a|
  {
    if |a| > 0 {
      StripNoWhitespace(a[1..]);
    }
  }

  /**
   * The accumulator of `lex` is consed onto and reversed once at the end, so the
   * tokens come out in source order: lexing from any state equals the
   * accumulated tokens, in order, followed by the reference tokenization of the
   * rest of the input.
   */
  lemma {:induction false} LexFromIsTokenize(s: string, i: nat, acc: Lists.List<Token>)
    requires i <= |s|
    ensures LexFrom(s, i, acc) ==
      (match Tokenize(s, i)
       case Ok(ts) => Ok(Lists.Reverse(acc) + ts)
       case Err(e) => Err(e))
    decreases |s| - i
  {
    if i < |s| {
      var r := NextTok(s, i);
      if r.Ok? {
        LexFromIsTokenize(s, r.value.next, Lists.Cons(acc, r.value.tok));
        LexAgreesStep(s, i, acc);
      }
    } else {
      assert Lists.Reverse(acc) + [] == Lists.Reverse(acc);
    }
  }

  /** `lex` from index `i` with accumulator `acc` agrees with the reference tokenization. */
  predicate LexAgrees(s: string, i: nat, acc: Lists.List<Token>)
    requires i <= |s|
  {
    LexFrom(s, i, acc) ==
      (match Tokenize(s, i)
       case Ok(ts) => Ok(Lists.Reverse(acc) + ts)
       case Err(e) => Err(e))
  }

  /** The inductive step of `LexFromIsTokenize`: agreement after a token step gives agreement before it. */
  lemma LexAgreesStep(s: string, i: nat, acc: Lists.List<Token>)
    requires i < |s| && NextTok(s, i).Ok?
    requires LexAgrees(s, NextTok(s, i).value.next, Lists.Cons(acc, NextTok(s, i).value.tok))
    ensures LexAgrees(s, i, acc)
  {
    var st := NextTok(s, i).value;
    LexStepOk(s, i, acc);
    AgreesAfterCons(LexFrom(s, st.next, Lists.Cons(acc, st.tok)), Tokenize(s, st.next), acc, st.tok);
  }

  /** The list algebra behind `LexAgreesStep`, free of the lexer's definitions. */
  lemma AgreesAfterCons(lexed: Result<seq<Token>, Error>, rest: Result<seq<Token>, Error>,
                        acc: Lists.List<Token>, tok: Token)
    requires lexed == (match rest case Ok(ts) => Ok(Lists.Reverse(Lists.Cons(acc, tok)) + ts) case Err(e) => Err(e))
    ensures lexed ==
      (match (match rest case Ok(ts) => Ok([tok] + ts) case Err(e) => Err(e))
       case Ok(ts) => Ok(Lists.Reverse(acc) + ts)
       case Err(e) => Err(e))
  {
    Lists.ReverseCons(acc, tok);
    match rest
    case Ok(ts) =>
      assert Lists.Reverse(Lists.Cons(acc, tok)) + ts == Lists.Reverse(acc) + ([tok] + ts);
    case Err(e) =>
  }

  /** One successful token step of `lex`, and of the reference tokenization. */
  lemma LexStepOk(s: string, i: nat, acc: Lists.List<Token>)
    requires i < |s| && NextTok(s, i).Ok?
    ensures LexFrom(s, i, acc) == LexFrom(s, NextTok(s, i).value.next, Lists.Cons(acc, NextTok(s, i).value.tok))
    ensures Tokenize(s, i) ==
      (match Tokenize(s, NextTok(s, i).value.next)
       case Ok(ts) => Ok([NextTok(s, i).value.tok] + ts)
       case Err(e) => Err(e))
  {
  }

  /** One token step consumes whitespace and then exactly the token's characters. */
  lemma NextTokSpelling(s: string, i: nat)
    requires i <= |s| && NextTok(s, i).Ok?
    ensures Strip(s[i..NextTok(s, i).value.next]) == Spelling(NextTok(s, i).value.tok)
  {
    var st := NextTok(s, i).value;
    var j := SkipWhitespace(s, i);
    NextTokSpan(s, i);
    var pre := s[i..j];
    var word := s[j..st.next];
    assert s[i..st.next] == pre + word;
    StripAppend(pre, word);
    StripWhitespaceOnly(pre);
    StripNoWhitespace(word);
  }

  /** After the whitespace, a token step consumes exactly the token's spelling, which holds no whitespace. */
  lemma NextTokSpan(s: string, i: nat)
    requires i <= |s| && NextTok(s, i).Ok?
    ensures SkipWhitespace(s, i) <= NextTok(s, i).value.next
    ensures s[SkipWhitespace(s, i)..NextTok(s, i).value.next] == Spelling(NextTok(s, i).value.tok)
    ensures forall k :: SkipWhitespace(s, i) <= k < NextTok(s, i).value.next ==> !IsWhitespace(s[k])
  {
  }

  /** A successful tokenization from inside the input is the next token followed by the rest. */
  lemma TokenizeCons(s: string, i: nat)
    requires i < |s| && Tokenize(s, i).Ok?
    ensures NextTok(s, i).Ok? && Tokenize(s, NextTok(s, i).value.next).Ok?
    ensures Tokenize(s, i).value == [NextTok(s, i).value.tok] + Tokenize(s, NextTok(s, i).value.next).value
  {
  }

  lemma SpellCons(t: Token, ts: seq<Token>)
    ensures Spell([t] + ts) == Spelling(t) + Spell(ts)
  {
    assert ([t] + ts)[1..] == ts;
  }

  lemma StripSplit(s: string, i: nat, j: nat)
    requires i <= j <= |s|
    ensures Strip(s[i..]) == Strip(s[i..j]) + Strip(s[j..])
  {
    assert s[i..] == s[i..j] + s[j..];
    StripAppend(s[i..j], s[j..]);
  }

  /** Nothing is lost and nothing invented: the tokens spell the rest of the input minus its whitespace. */
  lemma {:induction false} TokenizeSpelling(s: string, i: nat)
    requires i <= |s| && Tokenize(s, i).Ok?
    ensures Spell(Tokenize(s, i).value) == Strip(s[i..])
    decreases |s| - i
  {
    if i < |s| {
      TokenizeCons(s, i);
      var st := NextTok(s, i).value;
      var rest := Tokenize(s, st.next).value;
      TokenizeSpelling(s, st.next);
      NextTokSpelling(s, i);
      SpellCons(st.tok, rest);
      StripSplit(s, i, st.next);
    } else {
      assert s[i..] == [];
    }
  }

  /**
   * A successful `lex` returns well-formed tokens whose spellings concatenate to
   * the input with its whitespace removed.
   */
  lemma LexSpellsInput(s: string)
    requires Lex(s).Ok?
    ensures Spell(Lex(s).value) == Strip(s)
    ensures forall k :: 0 <= k < |Lex(s).value| ==> WellFormed(Lex(s).value[k])
  {
    TokenizeSpelling(s, 0);
    assert s[0..] == s;
    TokenizeWellFormed(s, 0);
  }

  lemma {:induction false} TokenizeWellFormed(s: string, i: nat)
    requires i <= |s| && Tokenize(s, i).Ok?
    ensures forall k :: 0 <= k < |Tokenize(s, i).value| ==> WellFormed(Tokenize(s, i).value[k])
    decreases |s| - i
  {
    if i < |s| {
      var st := NextTok(s, i).value;
      TokenizeWellFormed(s, st.next);
    }
  }

  /**
   * The empty symbol appears only as the last token, and is the last token
   * exactly when the input (from `i` on, non-empty) ends in whitespace.
   */
  lemma {:induction false} TokenizeTrailing(s: string, i: nat)
    requires i < |s| && Tokenize(s, i).Ok?
    ensures |Tokenize(s, i).value| > 0
    ensures Tokenize(s, i).value[|Tokenize(s, i).value| - 1] == Symbol([]) <==> IsWhitespace(s[|s| - 1])
    ensures forall k :: 0 <= k < |Tokenize(s, i).value| - 1 ==> Tokenize(s, i).value[k] != Symbol([])
    decreases |s| - i
  {
    var st := NextTok(s, i).value;
    var rest := Tokenize(s, st.next).value;
    if st.next < |s| {
      TokenizeTrailing(s, st.next);
    } else if st.tok == Symbol([]) {
      assert IsWhitespace(s[|s| - 1]);
    }
  }

  /**
   * Trailing whitespace yields a final empty symbol: a successful `lex` of
   * non-empty input ends with `Symbol("")` exactly when the input ends in
   * whitespace, and the empty symbol occurs nowhere else.
   */
  lemma LexTrailingWhitespace(s: string)
    requires |s| > 0 && Lex(s).Ok?
    ensures |Lex(s).value| > 0
    ensures Lex(s).value[|Lex(s).value| - 1] == Symbol([]) <==> IsWhitespace(s[|s| - 1])
    ensures forall k :: 0 <= k < |Lex(s).value| - 1 ==> Lex(s).value[k] != Symbol([])
  {
    TokenizeTrailing(s, 0);
  }

  /** `p` starts a word: a maximal run of characters that are not separators. */
  predicate WordStart(s: string, p: nat) {
    p < |s| && !IsSeparator(s[p]) && (p == 0 || IsSeparator(s[p - 1]))
  }

  /** A word the lexer rejects: it starts with a quote, or it starts with a digit and holds a non-digit. */
  predicate BadWord(s: string, p: nat) {
    WordStart(s, p) && (s[p] == '"' || (IsDigit(s[p]) && !AllDigits(s[p..RunEnd(s, p)])))
  }

  /** The error the lexer reports for a rejected word. */
  function WordError(s: string, p: nat): Error
    requires BadWord(s, p)
  {
    if s[p] == '"' then StringLiteralUnsupported else MalformedAtom
  }

  /** Index `i` is not strictly inside a word, as every index the lexer resumes at is. */
  predicate AtBoundary(s: string, i: nat) {
    i == 0 || i >= |s| || IsSeparator(s[i - 1]) || IsSeparator(s[i])
  }

  /** One token step from a boundary: it passes no rejected word and ends on a boundary, or it fails on the first rejected word. */
  lemma NextTokWords(s: string, i: nat)
    requires i < |s| && AtBoundary(s, i)
    ensures NextTok(s, i).Ok? ==>
      AtBoundary(s, NextTok(s, i).value.next) && forall p :: i <= p < NextTok(s, i).value.next ==> !BadWord(s, p)
    ensures NextTok(s, i).Err? ==>
      var j := SkipWhitespace(s, i);
      j < |s| && BadWord(s, j) && NextTok(s, i).error == WordError(s, j) && forall q :: i <= q < j ==> !BadWord(s, q)
  {
    if NextTok(s, i).Ok? {
      NextTokWordsOk(s, i);
    } else {
      NextTokWordsErr(s, i);
    }
  }

  /** The whitespace before the token holds no word start. */
  lemma SkippedNoWord(s: string, i: nat)
    requires i < |s|
    ensures forall p :: i <= p < SkipWhitespace(s, i) ==> !WordStart(s, p)
  {
  }

  lemma NextTokWordsOk(s: string, i: nat)
    requires i < |s| && AtBoundary(s, i) && NextTok(s, i).Ok?
    ensures AtBoundary(s, NextTok(s, i).value.next)
    ensures forall p :: i <= p < NextTok(s, i).value.next ==> !BadWord(s, p)
  {
    var j := SkipWhitespace(s, i);
    SkippedNoWord(s, i);
    if j < |s| {
      assert j > i ==> IsWhitespace(s[j - 1]);
      if IsBracket(s[j]) {
        assert !WordStart(s, j);
      } else {
        assert WordStart(s, j);
        var k := RunEnd(s, j);
        assert forall p :: j < p < k ==> !WordStart(s, p);
      }
    }
  }

  lemma NextTokWordsErr(s: string, i: nat)
    requires i < |s| && AtBoundary(s, i) && NextTok(s, i).Err?
    ensures var j := SkipWhitespace(s, i);
      j < |s| && BadWord(s, j) && NextTok(s, i).error == WordError(s, j) && forall q :: i <= q < j ==> !BadWord(s, q)
  {
    var j := SkipWhitespace(s, i);
    SkippedNoWord(s, i);
    assert j < |s|;
    assert j > i ==> IsWhitespace(s[j - 1]);
    assert WordStart(s, j);
  }

  /**
   * From a boundary, tokenizing succeeds exactly when no later word is rejected,
   * and a failure reports the error of the leftmost rejected word.
   */
  lemma {:induction false} TokenizeErrors(s: string, i: nat)
    requires i <= |s| && AtBoundary(s, i)
    ensures Tokenize(s, i).Ok? <==> forall p :: i <= p < |s| ==> !BadWord(s, p)
    ensures Tokenize(s, i).Err? ==>
      exists p :: i <= p < |s| && BadWord(s, p) && Tokenize(s, i).error == WordError(s, p)
                  && forall q :: i <= q < p ==> !BadWord(s, q)
    decreases |s| - i
  {
    if i < |s| {
      NextTokWords(s, i);
      var r := NextTok(s, i);
      if r.Ok? {
        TokenizeErrors(s, r.value.next);
      } else {
        var j := SkipWhitespace(s, i);
        assert BadWord(s, j);
      }
    }
  }

  /**
   * `lex` throws exactly when the input holds a word that starts with a quote,
   * or that starts with a digit and holds a non-digit before the next separator;
   * the leftmost such word decides the error.
   */
  lemma LexErrors(s: string)
    ensures Lex(s).Ok? <==> forall p :: 0 <= p < |s| ==> !BadWord(s, p)
    ensures Lex(s).Err? ==>
      exists p :: 0 <= p < |s| && BadWord(s, p) && Lex(s).error == WordError(s, p)
                  && forall q :: 0 <= q < p ==> !BadWord(s, q)
  {
    TokenizeErrors(s, 0);
  }
}
