/**
 * The primitive functions of the base environment: `+`, `>` and `print`.
 * Each receives its arguments already evaluated, in source order, as
 * `evalList` leaves them (so every falsy argument arrives as `null`).
 */
module Primitives {
  import opened Wrappers
  import opened Errors
  import opened Values
  import Lists

  predicate AllNumeric(args: seq<Value>) {
    forall i :: 0 <= i < |args| ==> IsNumeric(args[i])
  }

  /** Reference sum of numeric arguments, from the head. */
  function Sum(args: seq<Value>): int
    requires AllNumeric(args)
    decreases |args|
  {
    if |args| == 0 then 0 else NumericValue(args[0]) + Sum(args[1..])
  }

  /**
   * One step of `x + y` with a numeric running total (`Some`).  As soon as an
   * operand is not a number JavaScript switches to string concatenation, and
   * the total is a string from then on; `None` stands for that string.
   */
  function PlusStep(acc: Option<int>, v: Value): Option<int> {
    if acc.Some? && IsNumeric(v) then Some(acc.value + NumericValue(v)) else None
  }

  /** Once the total has become a string, it stays one. */
  lemma {:induction false} FoldPlusStepString(args: seq<Value>)
    ensures Lists.FoldLeft(PlusStep, None, args) == None
    decreases |args|
  {
    if |args| > 0 {
      FoldPlusStepString(args[..|args| - 1]);
    }
  }

  /** Folding `PlusStep` from a numeric total adds the reference sum, if every argument is numeric. */
  lemma {:induction false} FoldPlusStep(a: int, args: seq<Value>)
    ensures AllNumeric(args) ==> Lists.FoldLeft(PlusStep, Some(a), args) == Some(a + Sum(args))
    ensures !AllNumeric(args) ==> Lists.FoldLeft(PlusStep, Some(a), args) == None
    decreases |args|
  {
    if |args| > 0 {
      var x := args[0];
      Lists.FoldLeftCons(PlusStep, Some(a), x, args[1..]);
      assert args == [x] + args[1..];
      if IsNumeric(x) {
        FoldPlusStep(a + NumericValue(x), args[1..]);
        assert AllNumeric(args) <==> AllNumeric(args[1..]) by {
          if AllNumeric(args[1..]) {
            forall i | 0 <= i < |args| ensures IsNumeric(args[i]) {
              if i > 0 { assert args[i] == args[1..][i - 1]; }
            }
          }
        }
      } else {
        FoldPlusStepString(args[1..]);
      }
    }
  }

  /**
   * `+`: reduces the arguments with `x + y` from the seed `0`.  The result is
   * the sum (0 for no arguments) when every argument is a number, a boolean or
   * `null`; any other argument makes the result a string.
   */
  function Plus(args: seq<Value>): (r: Result<Value, Error>)
    ensures r.Ok? <==> AllNumeric(args)
    ensures r.Ok? ==> r == Ok(Int(Sum(args)))
    ensures r.Err? ==> r.error == StringConcatenation
  {
    FoldPlusStep(0, args);
    var total := Lists.ReduceSeeded(args, PlusStep, Some(0));
    if total.Some? then Ok(Int(total.value)) else Err(StringConcatenation)
  }

  /** `x > y` between two numbers, after coercion. */
  predicate Descends(x: Value, y: Value) {
    IsNumeric(x) && IsNumeric(y) && NumericValue(x) > NumericValue(y)
  }

  /** Every consecutive pair is numeric and strictly decreasing. */
  ghost predicate StrictlyDecreasing(args: seq<Value>) {
    forall i, j :: 0 <= i < j < |args| && j == i + 1 ==> Descends(args[i], args[j])
  }

  /**
   * The `reduce` callback of `>` threaded along the arguments: `prev` is the
   * value the callback returned last, `satisfied` the flag it updates.  Each
   * pair is type-checked before it is compared, even once the flag is false.
   */
  function GtLoop(prev: Value, rest: seq<Value>, satisfied: bool): (r: Result<bool, Error>)
    ensures r.Err? <==> |rest| > 0 && !AllNumeric([prev] + rest)
    ensures r.Err? ==> r.error == NonNumericComparison
    ensures r.Ok? ==> (r.value <==> satisfied && StrictlyDecreasing([prev] + rest))
    decreases |rest|
  {
    if |rest| == 0 then Ok(satisfied)
    else if !IsNumeric(prev) || !IsNumeric(rest[0]) then
      assert !IsNumeric(([prev] + rest)[0]) || !IsNumeric(([prev] + rest)[1]);
      Err(NonNumericComparison)
    else
      var r := GtLoop(rest[0], rest[1..], satisfied && NumericValue(prev) > NumericValue(rest[0]));
      assert [rest[0]] + rest[1..] == rest;
      assert AllNumeric([prev] + rest) <==> AllNumeric(rest) by {
        if AllNumeric(rest) {
          forall i | 0 <= i < |[prev] + rest| ensures IsNumeric(([prev] + rest)[i]) {
            if i > 0 { assert ([prev] + rest)[i] == rest[i - 1]; }
          }
        }
        if AllNumeric([prev] + rest) {
          forall i | 0 <= i < |rest| ensures IsNumeric(rest[i]) {
            assert rest[i] == ([prev] + rest)[i + 1];
          }
        }
      }
      assert StrictlyDecreasing([prev] + rest) <==>
        NumericValue(prev) > NumericValue(rest[0]) && StrictlyDecreasing(rest) by {
        var s := [prev] + rest;
        if StrictlyDecreasing(rest) && NumericValue(prev) > NumericValue(rest[0]) {
          forall i, j | 0 <= i < j < |s| && j == i + 1 ensures Descends(s[i], s[j]) {
            if i > 0 { assert s[i] == rest[i - 1] && s[j] == rest[j - 1]; }
          }
        }
        if StrictlyDecreasing(s) {
          assert Descends(s[0], s[1]);
          forall i, j | 0 <= i < j < |rest| && j == i + 1 ensures Descends(rest[i], rest[j]) {
            assert rest[i] == s[i + 1] && rest[j] == s[j + 1];
            assert Descends(s[i + 1], s[j + 1]);
          }
        }
      }
      r
  }

  /**
   * `>`: true iff every consecutive pair is strictly decreasing.  With fewer
   * than two arguments there is no pair, so the answer is true whatever the
   * argument is; otherwise any non-number among the arguments throws.
   */
  function GreaterThan(args: seq<Value>): (r: Result<Value, Error>)
    ensures |args| <= 1 ==> r == Ok(Bool(true))
    ensures |args| >= 2 ==> (r.Err? <==> !AllNumeric(args))
    ensures r.Err? ==> r.error == NonNumericComparison
    ensures r.Ok? ==> r.value.Bool?
    ensures r.Ok? && |args| >= 2 ==> (r.value.b <==> StrictlyDecreasing(args))
  {
    if |args| < 1 then Ok(Bool(true))
    else
      assert [args[0]] + args[1..] == args;
      var satisfied :- GtLoop(args[0], args[1..], true);
      Ok(Bool(satisfied))
  }

  /**
   * `print`: concatenates the textual form of every argument, which fails for
   * `null`, and answers `nil`.  Writing the text to the console is not modelled.
   */
  function Print(args: seq<Value>): (r: Result<Value, Error>)
    ensures r.Err? <==> Null in args
    ensures r.Ok? ==> r.value == Nil
    ensures r.Err? ==> r.error == PrintNull
    decreases |args|
  {
    if |args| == 0 then Ok(Nil)
    else if args[0] == Null then Err(PrintNull)
    else Print(args[1..])
  }

  /** Arguments as `evalList` hands them over: every value stored as a list cell. */
  function StoredAll(vs: seq<Value>): (r: seq<Value>)
    ensures |r| == |vs|
    ensures forall i :: 0 <= i < |vs| ==> r[i] == Stored(vs[i])
  {
    seq(|vs|, i requires 0 <= i < |vs| => Stored(vs[i]))
  }

  /** Storing falsy arguments as `null` changes neither `+` nor `>`. */
  lemma {:induction false} NumericOpsIgnoreStoring(args: seq<Value>)
    ensures Plus(StoredAll(args)) == Plus(args)
    ensures GreaterThan(StoredAll(args)) == GreaterThan(args)
  {
    var st := StoredAll(args);
    forall i | 0 <= i < |args| ensures IsNumeric(st[i]) <==> IsNumeric(args[i]) {
      StoredNumeric(args[i]);
    }
    assert AllNumeric(st) <==> AllNumeric(args);
    if AllNumeric(args) {
      SumStored(args);
    }
    forall i | 0 <= i < |args| ensures IsNumeric(args[i]) ==> NumericValue(st[i]) == NumericValue(args[i]) {
      StoredNumeric(args[i]);
    }
    assert StrictlyDecreasing(st) <==> StrictlyDecreasing(args);
  }

  lemma {:induction false} SumStored(args: seq<Value>)
    requires AllNumeric(args)
    ensures AllNumeric(StoredAll(args)) && Sum(StoredAll(args)) == Sum(args)
    decreases |args|
  {
    var st := StoredAll(args);
    forall i | 0 <= i < |args| ensures IsNumeric(st[i]) {
      StoredNumeric(args[i]);
    }
    if |args| > 0 {
      StoredNumeric(args[0]);
      assert StoredAll(args[1..]) == st[1..];
      SumStored(args[1..]);
    }
  }

  /** Given the arguments as `evalList` stores them, `print` fails whenever some argument evaluated falsy. */
  lemma PrintRejectsFalsy(args: seq<Value>)
    ensures Print(StoredAll(args)).Err? <==> exists i :: 0 <= i < |args| && !Truthy(args[i])
  {
    var st := StoredAll(args);
    if exists i :: 0 <= i < |args| && !Truthy(args[i]) {
      var i :| 0 <= i < |args| && !Truthy(args[i]);
      assert st[i] == Null;
    }
    if Null in st {
      var i :| 0 <= i < |st| && st[i] == Null;
      assert !Truthy(args[i]);
    }
  }
}
