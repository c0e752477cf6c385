// setVariablesValue of the numeric parsers: the text is scanned once, an
// identifier (letters, then digits that are not the last character) is
// collected, and when another character ends it the identifier is either
// copied (a function name) or replaced by the next queued value. The root,
// Int, Double and BigDecimal parsers differ only in how a value is written,
// which is the `format` parameter; BigDecimal's check of the value text is a
// format that can fail.

module Binding {
  import opened Errors
  import opened Text
  import MathParsing

  /** The text written so far, the identifier being read and the values not yet used. */
  datatype Binder<V> = Binder(output: string, variable: string, queue: seq<V>)

  /** Whether the character at a position joins the identifier being read. */
  predicate Extends(symbol: char, last: bool, variable: string)
  {
    IsLetter(symbol) || (IsDigit(symbol) && variable != [] && !last)
  }

  /** The end of an identifier: it is copied, replaced by the next value, or dropped when none is left. */
  function Substitute<V>(fns: MathParsing.ClientFunctions, format: V -> Result<string>,
                         symbol: char, last: bool, st: Binder<V>): (r: Result<Binder<V>>)
    ensures r.Ok? ==> r.value.variable == []
    ensures r.Ok? && !MathParsing.IsFunctionName(fns, st.variable) && st.queue != [] ==> r.value.queue == st.queue[1..]
    ensures r.Ok? && (MathParsing.IsFunctionName(fns, st.variable) || st.queue == []) ==> r.value.queue == st.queue
    ensures r.Err? ==> (!MathParsing.IsFunctionName(fns, st.variable) && st.queue != [] &&
                        format(st.queue[0]).Err? && r.error == format(st.queue[0]).error)
  {
    if MathParsing.IsFunctionName(fns, st.variable) then Ok(Binder(st.output + st.variable, "", st.queue))
    else if st.queue != [] then
      var text :- format(st.queue[0]);
      Ok(Binder(st.output + text + (if last then "" else [symbol]), "", st.queue[1..]))
    else Ok(Binder(st.output, "", st.queue))
  }

  /** One character of the text. */
  function BindStep<V>(fns: MathParsing.ClientFunctions, format: V -> Result<string>,
                       symbol: char, last: bool, st: Binder<V>): Result<Binder<V>>
  {
    if Extends(symbol, last, st.variable) then Ok(Binder(st.output, st.variable + [symbol], st.queue))
    else if st.variable != [] then
      var t :- Substitute(fns, format, symbol, last, st);
      var p := MathParsing.MathPriority(symbol);
      Ok(Binder(t.output + (if p == 1 || p == -1 then [symbol] else ""), "", t.queue))
    else Ok(Binder(st.output + [symbol], "", st.queue))
  }

  function BindFrom<V>(fns: MathParsing.ClientFunctions, format: V -> Result<string>,
                       expression: string, token: nat, st: Binder<V>): Result<Binder<V>>
    requires token <= |expression|
    decreases |expression| - token
  {
    if token == |expression| then Ok(st)
    else
      var next :- BindStep(fns, format, expression[token], token == |expression| - 1, st);
      BindFrom(fns, format, expression, token + 1, next)
  }

  lemma {:induction false} BindAt<V>(fns: MathParsing.ClientFunctions, format: V -> Result<string>,
                  expression: string, token: nat, st: Binder<V>)
    requires token < |expression|
    ensures BindFrom(fns, format, expression, token, st) ==
      match BindStep(fns, format, expression[token], token == |expression| - 1, st)
      case Err(e) => Err(e)
      case Ok(next) => BindFrom(fns, format, expression, token + 1, next)
  {
  }

  /** The bound text, or the reason binding fails; values left over are an error. */
  function Bound<V>(fns: MathParsing.ClientFunctions, format: V -> Result<string>,
                    expression: string, values: seq<V>): Result<string>
  {
    var st :- BindFrom(fns, format, expression, 0, Binder("", "", values));
    if st.queue != [] then Err(IncorrectVariablesQuantityError) else Ok(st.output)
  }

  /** The loop of setVariablesValue: the text to store, or the error it raises. */
  method SetVariablesValue<V>(fns: MathParsing.ClientFunctions, format: V -> Result<string>,
                              expression: string, values: seq<V>) returns (r: Result<string>)
    ensures r == Bound(fns, format, expression, values)
  {
    var output := "";
    var variable := "";
    var queue := values;
    var token := 0;
    while token < |expression|
      invariant 0 <= token <= |expression|
      invariant BindFrom(fns, format, expression, 0, Binder("", "", values)) ==
        BindFrom(fns, format, expression, token, Binder(output, variable, queue))
    {
      var symbol := expression[token];
      var last := token == |expression| - 1;
      BindAt(fns, format, expression, token, Binder(output, variable, queue));
      ghost var next := BindStep(fns, format, symbol, last, Binder(output, variable, queue));
      if IsLetter(symbol) {
        variable := variable + [symbol];
      } else if IsDigit(symbol) && variable != [] && !last {
        variable := variable + [symbol];
      } else if variable != [] {
        ghost var substituted := Substitute(fns, format, symbol, last, Binder(output, variable, queue));
        if MathParsing.IsFunctionName(fns, variable) {
          output := output + variable;
        } else if queue != [] {
          var text := format(queue[0]);
          if text.Err? {
            return Err(text.error);
          }
          output := output + text.value;
          queue := queue[1..];
          if !last {
            output := output + [symbol];
          } else {
            assert output + "" == output;
          }
        }
        assert substituted == Ok(Binder(output, "", queue));
        var p := MathParsing.MathPriority(symbol);
        if p == 1 || p == -1 {
          output := output + [symbol];
        } else {
          assert output + "" == output;
        }
        variable := "";
      } else {
        output := output + [symbol];
        variable := "";
      }
      assert next == Ok(Binder(output, variable, queue));
      token := token + 1;
    }
    if queue != [] {
      return Err(IncorrectVariablesQuantityError);
    }
    return Ok(output);
  }

  /** The number of identifiers from token on that are ended and are not function names: the values the text takes. */
  function SlotsFrom(fns: MathParsing.ClientFunctions, expression: string, token: nat, variable: string): nat
    requires token <= |expression|
    decreases |expression| - token
  {
    if token == |expression| then 0
    else
      var symbol := expression[token];
      var last := token == |expression| - 1;
      if Extends(symbol, last, variable) then SlotsFrom(fns, expression, token + 1, variable + [symbol])
      else if variable != [] && !MathParsing.IsFunctionName(fns, variable) then 1 + SlotsFrom(fns, expression, token + 1, "")
      else SlotsFrom(fns, expression, token + 1, "")
  }

  function Slots(fns: MathParsing.ClientFunctions, expression: string): nat
  {
    SlotsFrom(fns, expression, 0, "")
  }

  function Min(a: nat, b: nat): nat { if a <= b then a else b }

  /** A format that accepts every value still queued. */
  predicate Accepts<V>(format: V -> Result<string>, queue: seq<V>)
  {
    forall k :: 0 <= k < |queue| ==> format(queue[k]).Ok?
  }

  lemma {:induction false} AcceptsSuffix<V>(format: V -> Result<string>, queue: seq<V>, k: nat)
    requires Accepts(format, queue) && k <= |queue|
    ensures Accepts(format, queue[k..])
  {
    forall i | 0 <= i < |queue[k..]|
      ensures format(queue[k..][i]).Ok?
    {
      assert queue[k..][i] == queue[k + i];
    }
  }

  /** One character uses the front value exactly when it ends an identifier that is not a function name. */
  lemma {:induction false} StepUsesValues<V>(fns: MathParsing.ClientFunctions, format: V -> Result<string>,
                                expression: string, token: nat, st: Binder<V>)
    requires token < |expression| && Accepts(format, st.queue)
    ensures var next := BindStep(fns, format, expression[token], token == |expression| - 1, st);
      next.Ok? && SlotsFrom(fns, expression, token + 1, next.value.variable) <= SlotsFrom(fns, expression, token, st.variable) &&
      var d := SlotsFrom(fns, expression, token, st.variable) - SlotsFrom(fns, expression, token + 1, next.value.variable);
      d <= 1 && next.value.queue == st.queue[Min(|st.queue|, d)..]
  {
    if st.queue != [] {
      assert format(st.queue[0]).Ok?;
    }
  }

  lemma {:induction false} DropTwice<V>(q: seq<V>, a: nat, b: nat)
    ensures q[Min(|q|, a)..][Min(|q| - Min(|q|, a), b)..] == q[Min(|q|, a + b)..]
  {
  }

  /** The values are used from the front, one per slot, until either runs out. */
  lemma {:induction false} BindFromUsesValues<V>(fns: MathParsing.ClientFunctions, format: V -> Result<string>,
                                                  expression: string, token: nat, st: Binder<V>)
    requires token <= |expression| && Accepts(format, st.queue)
    ensures BindFrom(fns, format, expression, token, st).Ok?
    ensures BindFrom(fns, format, expression, token, st).value.queue ==
      st.queue[Min(|st.queue|, SlotsFrom(fns, expression, token, st.variable))..]
    decreases |expression| - token
  {
    if token < |expression| {
      StepUsesValues(fns, format, expression, token, st);
      var next := BindStep(fns, format, expression[token], token == |expression| - 1, st).value;
      var rest := SlotsFrom(fns, expression, token + 1, next.variable);
      var used := SlotsFrom(fns, expression, token, st.variable) - rest;
      assert next.queue == st.queue[Min(|st.queue|, used)..];
      BindAt(fns, format, expression, token, st);
      AcceptsSuffix(format, st.queue, Min(|st.queue|, used));
      BindFromUsesValues(fns, format, expression, token + 1, next);
      DropTwice(st.queue, used, rest);
    } else {
      assert st.queue[0..] == st.queue;
    }
  }

  /** When the format accepts every value given, binding fails exactly when there are more values than slots. */
  lemma {:induction false} BindQuantity<V>(fns: MathParsing.ClientFunctions, format: V -> Result<string>, expression: string, values: seq<V>)
    requires Accepts(format, values)
    ensures Bound(fns, format, expression, values).Err? <==> |values| > Slots(fns, expression)
    ensures Bound(fns, format, expression, values).Err? ==>
      Bound(fns, format, expression, values) == Err(IncorrectVariablesQuantityError)
  {
    BindFromUsesValues(fns, format, expression, 0, Binder("", "", values));
  }

  /** A failing format is the only other way binding can fail. */
  lemma {:induction false} BindFromErrors<V>(fns: MathParsing.ClientFunctions, format: V -> Result<string>,
                                              expression: string, token: nat, st: Binder<V>)
    requires token <= |expression|
    ensures BindFrom(fns, format, expression, token, st).Err? ==>
      exists v :: v in st.queue && format(v) == Err(BindFrom(fns, format, expression, token, st).error)
    decreases |expression| - token
  {
    if token < |expression| {
      var next := BindStep(fns, format, expression[token], token == |expression| - 1, st);
      if next.Ok? {
        BindFromErrors(fns, format, expression, token + 1, next.value);
        var r := BindFrom(fns, format, expression, token + 1, next.value);
        if r.Err? {
          var v :| v in next.value.queue && format(v) == Err(r.error);
          assert next.value.queue == st.queue || next.value.queue == st.queue[1..];
          assert v in st.queue;
        }
      } else {
        assert st.queue[0] in st.queue;
      }
    }
  }

  /** Text without letters has no identifier: it is copied unchanged and takes no value. */
  lemma {:induction false} BindFromNoLetters<V>(fns: MathParsing.ClientFunctions, format: V -> Result<string>,
                                                 expression: string, token: nat, st: Binder<V>)
    requires token <= |expression| && st.variable == []
    requires forall k :: token <= k < |expression| ==> !IsLetter(expression[k])
    ensures BindFrom(fns, format, expression, token, st) == Ok(Binder(st.output + expression[token..], "", st.queue))
    ensures SlotsFrom(fns, expression, token, "") == 0
    decreases |expression| - token
  {
    if token < |expression| {
      var next := Binder(st.output + [expression[token]], "", st.queue);
      BindAt(fns, format, expression, token, st);
      BindFromNoLetters(fns, format, expression, token + 1, next);
      assert expression[token..] == [expression[token]] + expression[token + 1..];
      assert next.output + expression[token + 1..] == st.output + expression[token..];
    } else {
      assert st.output + expression[token..] == st.output;
    }
  }

  lemma {:induction false} BindNoLetters<V>(fns: MathParsing.ClientFunctions, format: V -> Result<string>, expression: string, values: seq<V>)
    requires forall k :: 0 <= k < |expression| ==> !IsLetter(expression[k])
    ensures values == [] ==> Bound(fns, format, expression, values) == Ok(expression)
    ensures values != [] ==> Bound(fns, format, expression, values) == Err(IncorrectVariablesQuantityError)
  {
    BindFromNoLetters(fns, format, expression, 0, Binder("", "", values));
    assert "" + expression[0..] == expression;
  }
}
