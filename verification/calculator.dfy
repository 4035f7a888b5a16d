/**
 * Calculator.java: a calculator for space-separated infix text. `InfixToPostfix`
 * is the shunting-yard conversion to reverse Polish notation over an operator
 * stack, `EvaluatePostfix` runs that notation on a value stack. Tokens are the
 * pieces of the input between single spaces; values are reals.
 *
 * Each method is proved equal to a specification function (`ToPostfix`,
 * `EvalRpn`); the properties of those functions are lemmas in this module and,
 * for the agreement with precedence evaluation, in CalculatorProofs.
 */
module Calculator {
  import opened Outcomes
  import opened Text

  // ---------------------------------------------------------------------------
  // Tokens
  // ---------------------------------------------------------------------------

  predicate AllDigits(s: string) {
    s != [] && forall i :: 0 <= i < |s| ==> IsDigit(s[i])
  }

  /** The position of the first '.' in `u`, or |u| when there is none. */
  function DotIndex(u: string): (k: nat)
    ensures k <= |u|
    ensures forall i :: 0 <= i < k ==> u[i] != '.'
    ensures k < |u| ==> u[k] == '.'
  {
    if u == [] then 0
    else if u[0] == '.' then 0
    else 1 + DotIndex(u[1..])
  }

  /** `\d+(\.\d+)?`: an integer part and an optional fractional part, both non-empty. */
  predicate IsUnsignedDecimal(u: string) {
    var k := DotIndex(u);
    AllDigits(u[..k]) && (k == |u| || AllDigits(u[k + 1..]))
  }

  /** `token.matches("-?\\d+(\\.\\d+)?")`, the test that makes a token a number. */
  predicate IsNumber(t: string) {
    if t != [] && t[0] == '-' then IsUnsignedDecimal(t[1..]) else IsUnsignedDecimal(t)
  }

  lemma NumberShape(t: string)
    requires IsNumber(t)
    ensures t != [] && ' ' !in t && '(' !in t && ')' !in t
    ensures t != "+" && t != "-" && t != "*" && t != "/"
  {
    var u := if t[0] == '-' then t[1..] else t;
    var k := DotIndex(u);
    assert IsDigit(u[..k][0]);
    forall i | 0 <= i < |u| ensures IsDigit(u[i]) || u[i] == '.' {
      if i < k { assert u[i] == u[..k][i]; }
      else if i > k { assert u[i] == u[k + 1..][i - k - 1]; }
    }
  }

  function DigitsValue(d: string): nat
    requires forall i :: 0 <= i < |d| ==> IsDigit(d[i])
  {
    if d == [] then 0
    else
      var c := d[|d| - 1];
      assert IsDigit(c);
      DigitsValue(d[..|d| - 1]) * 10 + (c as int - '0' as int)
  }

  function Pow10(n: nat): (r: nat)
    ensures r >= 1
  {
    if n == 0 then 1 else 10 * Pow10(n - 1)
  }

  function UnsignedValue(u: string): real
    requires IsUnsignedDecimal(u)
  {
    var k := DotIndex(u);
    if k == |u| then DigitsValue(u) as real
    else DigitsValue(u[..k]) as real + DigitsValue(u[k + 1..]) as real / Pow10(|u| - k - 1) as real
  }

  /** `Double.parseDouble` of a number token, taken exactly (no rounding to a double). */
  function DecimalValue(t: string): real
    requires IsNumber(t)
  {
    if t != [] && t[0] == '-' then -UnsignedValue(t[1..]) else UnsignedValue(t)
  }

  /** The precedence map of lines 15-19: the four binary operators and nothing else. */
  const Precedence: map<string, nat> := map["+" := 1, "-" := 1, "*" := 2, "/" := 2]

  predicate IsOperator(t: string) { t in Precedence }

  /** A token the operator stack may hold: an operator or an opening parenthesis. */
  predicate Stackable(t: string) { IsOperator(t) || t == "(" }

  function Reversed(s: seq<string>): (r: seq<string>)
    ensures |r| == |s|
  {
    if s == [] then [] else [s[|s| - 1]] + Reversed(s[..|s| - 1])
  }

  // ---------------------------------------------------------------------------
  // infixToPostfix, as a specification
  // ---------------------------------------------------------------------------

  /** The output list and the operator stack (its top is the last element). */
  datatype Shunting = Shunting(output: seq<string>, stack: seq<string>)

  /** Lines 25-28: move stack-top operators of precedence at least `p` to the output. */
  function PopAtLeast(m: Shunting, p: nat): Shunting
    decreases |m.stack|
  {
    var st := m.stack;
    if st != [] && IsOperator(st[|st| - 1]) && Precedence[st[|st| - 1]] >= p then
      PopAtLeast(Shunting(m.output + [st[|st| - 1]], st[..|st| - 1]), p)
    else m
  }

  /** Lines 33-35: move stack-top tokens to the output down to the nearest "(". */
  function PopToOpen(m: Shunting): Shunting
    decreases |m.stack|
  {
    var st := m.stack;
    if st != [] && st[|st| - 1] != "(" then
      PopToOpen(Shunting(m.output + [st[|st| - 1]], st[..|st| - 1]))
    else m
  }

  lemma ReversedSnoc(s: seq<string>, x: string)
    ensures Reversed(s + [x]) == [x] + Reversed(s)
  {
    assert (s + [x])[..|s|] == s;
  }

  /** Moving the top of `st` to `out` and then a top part of what is left moves a top part of `st`. */
  lemma PopOne(out: seq<string>, st: seq<string>, k: nat, rest: seq<string>, moved: seq<string>)
    requires st != [] && k <= |st| - 1
    requires rest == st[..|st| - 1][..k]
    requires moved == (out + [st[|st| - 1]]) + Reversed(st[..|st| - 1][k..])
    ensures rest == st[..k] && moved == out + Reversed(st[k..])
  {
    var top, below := st[|st| - 1], st[..|st| - 1];
    assert st[k..] == below[k..] + [top];
    ReversedSnoc(below[k..], top);
  }

  /** Moving nothing leaves the stack and the output as they are. */
  lemma PopNone(out: seq<string>, st: seq<string>)
    ensures st == st[..|st|] && out == out + Reversed(st[|st|..])
  {
    assert st[|st|..] == [];
  }

  /** PopAtLeast removes a top part of the stack and appends it to the output, top first. */
  lemma {:induction false} PopAtLeastMoves(m: Shunting, p: nat)
    ensures |PopAtLeast(m, p).stack| <= |m.stack|
    ensures PopAtLeast(m, p).stack == m.stack[..|PopAtLeast(m, p).stack|]
    ensures PopAtLeast(m, p).output == m.output + Reversed(m.stack[|PopAtLeast(m, p).stack|..])
    decreases |m.stack|
  {
    var st := m.stack;
    if st != [] && IsOperator(st[|st| - 1]) && Precedence[st[|st| - 1]] >= p {
      var m' := Shunting(m.output + [st[|st| - 1]], st[..|st| - 1]);
      assert PopAtLeast(m, p) == PopAtLeast(m', p);
      PopAtLeastMoves(m', p);
      var r := PopAtLeast(m', p);
      PopOne(m.output, st, |r.stack|, r.stack, r.output);
    } else {
      PopNone(m.output, st);
    }
  }

  /** What PopAtLeast moved are operators of precedence at least `p`, and it stopped below them. */
  lemma {:induction false} PopAtLeastStops(m: Shunting, p: nat)
    ensures var k := |PopAtLeast(m, p).stack|;
      && k <= |m.stack|
      && (forall i :: k <= i < |m.stack| ==> IsOperator(m.stack[i]) && Precedence[m.stack[i]] >= p)
      && (k == 0 || !IsOperator(m.stack[k - 1]) || Precedence[m.stack[k - 1]] < p)
    decreases |m.stack|
  {
    var st := m.stack;
    if st != [] && IsOperator(st[|st| - 1]) && Precedence[st[|st| - 1]] >= p {
      PopAtLeastStops(Shunting(m.output + [st[|st| - 1]], st[..|st| - 1]), p);
    }
  }

  /** PopToOpen removes a top part of the stack and appends it to the output, top first. */
  lemma {:induction false} PopToOpenMoves(m: Shunting)
    ensures |PopToOpen(m).stack| <= |m.stack|
    ensures PopToOpen(m).stack == m.stack[..|PopToOpen(m).stack|]
    ensures PopToOpen(m).output == m.output + Reversed(m.stack[|PopToOpen(m).stack|..])
    decreases |m.stack|
  {
    var st := m.stack;
    if st != [] && st[|st| - 1] != "(" {
      var m' := Shunting(m.output + [st[|st| - 1]], st[..|st| - 1]);
      assert PopToOpen(m) == PopToOpen(m');
      PopToOpenMoves(m');
      var r := PopToOpen(m');
      PopOne(m.output, st, |r.stack|, r.stack, r.output);
    } else {
      PopNone(m.output, st);
    }
  }

  /** PopToOpen moves no "(" and stops at the nearest one, or at the bottom. */
  lemma {:induction false} PopToOpenStops(m: Shunting)
    ensures var k := |PopToOpen(m).stack|;
      && k <= |m.stack|
      && (forall i :: k <= i < |m.stack| ==> m.stack[i] != "(")
      && (k == 0 || m.stack[k - 1] == "(")
    decreases |m.stack|
  {
    var st := m.stack;
    if st != [] && st[|st| - 1] != "(" {
      PopToOpenStops(Shunting(m.output + [st[|st| - 1]], st[..|st| - 1]));
    }
  }

  /** One pass of the loop of lines 21-38. */
  function Step(m: Shunting, token: string): (r: Result<Shunting>)
    ensures r.Err? ==> token == ")" && "(" !in m.stack && r.error == EmptyStack
  {
    if IsNumber(token) then Ok(Shunting(m.output + [token], m.stack))
    else if IsOperator(token) then
      var p := PopAtLeast(m, Precedence[token]);
      Ok(Shunting(p.output, p.stack + [token]))
    else if token == "(" then Ok(Shunting(m.output, m.stack + ["("]))
    else if token == ")" then
      var p := PopToOpen(m);
      if p.stack == [] then
        PopToOpenStops(m);
        assert forall i :: 0 <= i < |m.stack| ==> m.stack[i] != "(";
        Err(EmptyStack)
      else Ok(Shunting(p.output, p.stack[..|p.stack| - 1]))
    else Ok(m)
  }

  /** The tokens processed left to right, stopping at the first failure. */
  function Shunt(tokens: seq<string>, m: Shunting): (r: Result<Shunting>)
    ensures r.Err? ==> r.error == EmptyStack
  {
    if tokens == [] then Ok(m)
    else
      var m' :- Step(m, tokens[0]);
      Shunt(tokens[1..], m')
  }

  /** Lines 40-42: the remaining stack, top first, appended to the output. */
  function Drain(m: Shunting): seq<string> {
    m.output + Reversed(m.stack)
  }

  /** The result of `infixToPostfix`. */
  function ToPostfix(tokens: seq<string>): (r: Result<seq<string>>)
    ensures r.Err? ==> r.error == EmptyStack
  {
    var m :- Shunt(tokens, Shunting([], []));
    Ok(Drain(m))
  }

  // ---------------------------------------------------------------------------
  // infixToPostfix, the loops
  // ---------------------------------------------------------------------------

  method InfixToPostfix(tokens: seq<string>) returns (r: Result<seq<string>>)
    ensures r == ToPostfix(tokens)
  {
    var output: seq<string> := [];
    var stack: seq<string> := [];
    for i := 0 to |tokens|
      invariant Shunt(tokens[i..], Shunting(output, stack)) == Shunt(tokens, Shunting([], []))
    {
      var token := tokens[i];
      assert tokens[i..][1..] == tokens[i + 1..];
      if IsNumber(token) {
        output := output + [token];
      } else if IsOperator(token) {
        ghost var before := Shunting(output, stack);
        while stack != [] && IsOperator(stack[|stack| - 1]) && Precedence[stack[|stack| - 1]] >= Precedence[token]
          invariant PopAtLeast(Shunting(output, stack), Precedence[token]) == PopAtLeast(before, Precedence[token])
        {
          output := output + [stack[|stack| - 1]];
          stack := stack[..|stack| - 1];
        }
        stack := stack + [token];
      } else if token == "(" {
        stack := stack + [token];
      } else if token == ")" {
        ghost var before := Shunting(output, stack);
        while stack != [] && stack[|stack| - 1] != "("
          invariant PopToOpen(Shunting(output, stack)) == PopToOpen(before)
        {
          output := output + [stack[|stack| - 1]];
          stack := stack[..|stack| - 1];
        }
        if stack == [] {
          return Err(EmptyStack);
        }
        stack := stack[..|stack| - 1];
      }
    }
    assert tokens[|tokens|..] == [];
    ghost var before := Shunting(output, stack);
    assert ToPostfix(tokens) == Ok(Drain(before));
    while stack != []
      invariant Drain(Shunting(output, stack)) == Drain(before)
    {
      assert stack == stack[..|stack| - 1] + [stack[|stack| - 1]];
      ReversedSnoc(stack[..|stack| - 1], stack[|stack| - 1]);
      output := output + [stack[|stack| - 1]];
      stack := stack[..|stack| - 1];
    }
    assert Reversed(stack) == [] && output + [] == output;
    return Ok(output);
  }

  // ---------------------------------------------------------------------------
  // evaluatePostfix
  // ---------------------------------------------------------------------------

  /** Lines 57-65 for an operator-position token with operands `a` (popped second) and `b`
      (popped first): what goes back on the stack. A token outside the switch pushes nothing. */
  function Apply(token: string, a: real, b: real): (r: Result<seq<real>>)
    ensures r.Err? <==> token == "/" && b == 0.0
    ensures r.Err? ==> r.error == DivisionByZero
    ensures r.Ok? ==> |r.value| == (if IsOperator(token) then 1 else 0)
  {
    if token == "+" then Ok([a + b])
    else if token == "-" then Ok([a - b])
    else if token == "*" then Ok([a * b])
    else if token == "/" then (if b == 0.0 then Err(DivisionByZero) else Ok([a / b]))
    else Ok([])
  }

  /** The value-stack machine of lines 48-69; `values` is the stack, its top last. */
  function EvalRpn(postfix: seq<string>, values: seq<real>): (r: Result<real>)
    ensures r.Err? ==> r.error == EmptyStack || r.error == DivisionByZero
  {
    if postfix == [] then
      if values == [] then Err(EmptyStack) else Ok(values[|values| - 1])
    else
      var token := postfix[0];
      if IsNumber(token) then EvalRpn(postfix[1..], values + [DecimalValue(token)])
      else if |values| < 2 then Err(EmptyStack)
      else
        var pushed :- Apply(token, values[|values| - 2], values[|values| - 1]);
        EvalRpn(postfix[1..], values[..|values| - 2] + pushed)
  }

  method EvaluatePostfix(postfix: seq<string>) returns (r: Result<real>)
    ensures r == EvalRpn(postfix, [])
  {
    var stack: seq<real> := [];
    for i := 0 to |postfix|
      invariant EvalRpn(postfix[i..], stack) == EvalRpn(postfix, [])
    {
      var token := postfix[i];
      assert postfix[i..][1..] == postfix[i + 1..];
      if IsNumber(token) {
        stack := stack + [DecimalValue(token)];
      } else {
        ghost var values := stack;
        if stack == [] { return Err(EmptyStack); }
        var b := stack[|stack| - 1];
        stack := stack[..|stack| - 1];
        if stack == [] { return Err(EmptyStack); }
        var a := stack[|stack| - 1];
        stack := stack[..|stack| - 1];
        assert a == values[|values| - 2] && b == values[|values| - 1];
        assert stack == values[..|values| - 2];
        if token == "+" {
          stack := stack + [a + b];
        } else if token == "-" {
          stack := stack + [a - b];
        } else if token == "*" {
          stack := stack + [a * b];
        } else if token == "/" {
          if b == 0.0 { return Err(DivisionByZero); }
          stack := stack + [a / b];
        }
        assert stack == values[..|values| - 2] + Apply(token, a, b).value;
      }
    }
    if stack == [] { return Err(EmptyStack); }
    return Ok(stack[|stack| - 1]);
  }

  // ---------------------------------------------------------------------------
  // calculate
  // ---------------------------------------------------------------------------

  /** The tokens of `expression.split(" ")`. */
  function Tokenize(expression: string): seq<string> {
    JavaSplit(expression, " ")
  }

  /** The result of `calculate`. */
  function Calculation(expression: string): Result<real> {
    var postfix :- ToPostfix(Tokenize(expression));
    EvalRpn(postfix, [])
  }

  method Calculate(expression: string) returns (r: Result<real>)
    ensures r == Calculation(expression)
    ensures r.Err? ==> r.error == EmptyStack || r.error == DivisionByZero
  {
    var tokens := JavaSplit(expression, " ");
    var postfix := InfixToPostfix(tokens);
    if postfix.Err? {
      return Err(postfix.error);
    }
    r := EvaluatePostfix(postfix.value);
  }
}
