/**
 * What Calculator.java's conversion promises about its output and its
 * operator stack, proved about the specification functions of module
 * Calculator (and so, through their ensures, about its methods).
 */
module CalculatorProperties {
  import opened Outcomes
  import opened Calculator

  /** The number tokens of `ts`, in order. */
  function Numbers(ts: seq<string>): seq<string>
  {
    if ts == [] then []
    else Numbers(ts[..|ts| - 1]) + (if IsNumber(ts[|ts| - 1]) then [ts[|ts| - 1]] else [])
  }

  /** The number and operator tokens of `ts`, in order. */
  function Kept(ts: seq<string>): seq<string>
  {
    if ts == [] then []
    else
      var t := ts[|ts| - 1];
      Kept(ts[..|ts| - 1]) + (if IsNumber(t) || IsOperator(t) then [t] else [])
  }

  /** Only operators and "(" ever sit on the operator stack. */
  predicate AllStackable(s: seq<string>) {
    forall i :: 0 <= i < |s| ==> Stackable(s[i])
  }

  lemma AllStackableSplit(a: seq<string>, b: seq<string>)
    requires AllStackable(a + b)
    ensures AllStackable(a) && AllStackable(b)
  {
    forall i | 0 <= i < |a| ensures Stackable(a[i]) { assert a[i] == (a + b)[i]; }
    forall i | 0 <= i < |b| ensures Stackable(b[i]) { assert b[i] == (a + b)[|a| + i]; }
  }

  /** The number of "(" in `ts`. */
  function Opens(ts: seq<string>): nat {
    multiset(ts)["("]
  }

  lemma OperatorsHaveNoOpens(s: seq<string>)
    requires forall x :: x in s ==> IsOperator(x)
    ensures Opens(s) == 0
  {
    if "(" in s {
      OperatorIsNotParen("(");
    }
    assert "(" !in multiset(s);
  }

  lemma {:induction false} NumbersAppend(a: seq<string>, b: seq<string>)
    ensures Numbers(a + b) == Numbers(a) + Numbers(b)
    decreases |b|
  {
    if b == [] {
      assert a + b == a;
    } else {
      assert (a + b)[..|a + b| - 1] == a + b[..|b| - 1];
      NumbersAppend(a, b[..|b| - 1]);
    }
  }

  lemma {:induction false} KeptAppend(a: seq<string>, b: seq<string>)
    ensures Kept(a + b) == Kept(a) + Kept(b)
    decreases |b|
  {
    if b == [] {
      assert a + b == a;
    } else {
      assert (a + b)[..|a + b| - 1] == a + b[..|b| - 1];
      KeptAppend(a, b[..|b| - 1]);
    }
  }

  lemma OperatorIsNotParen(t: string)
    requires IsOperator(t)
    ensures t != "(" && t != ")"
  {
    assert t == "+" || t == "-" || t == "*" || t == "/";
  }

  lemma StackableIsNotNumber(t: string)
    requires Stackable(t)
    ensures !IsNumber(t) && t != ")"
  {
    if IsNumber(t) { NumberShape(t); }
  }

  lemma {:induction false} ReversedSameElements(s: seq<string>)
    ensures multiset(Reversed(s)) == multiset(s)
    ensures forall x :: x in Reversed(s) <==> x in s
    decreases |s|
  {
    if s != [] {
      ReversedSameElements(s[..|s| - 1]);
      assert s == s[..|s| - 1] + [s[|s| - 1]];
    }
  }

  lemma {:induction false} StackableHasNoNumbers(s: seq<string>)
    requires AllStackable(s)
    ensures Numbers(s) == []
    decreases |s|
  {
    if s != [] {
      StackableIsNotNumber(s[|s| - 1]);
      StackableHasNoNumbers(s[..|s| - 1]);
    }
  }

  lemma {:induction false} KeptReversed(s: seq<string>)
    ensures multiset(Kept(Reversed(s))) == multiset(Kept(s))
    decreases |s|
  {
    if s != [] {
      var last, init := s[|s| - 1], s[..|s| - 1];
      KeptReversed(init);
      assert Reversed(s) == [last] + Reversed(init);
      KeptAppend([last], Reversed(init));
      assert Kept([last]) == Kept([]) + (if IsNumber(last) || IsOperator(last) then [last] else []);
    }
  }

  /** Moving a part of an all-operator stack to the output adds no number to it. */
  lemma MovedAddsNoNumbers(out: seq<string>, moved: seq<string>)
    requires AllStackable(moved)
    ensures Numbers(out + Reversed(moved)) == Numbers(out)
  {
    ReversedSameElements(moved);
    assert AllStackable(Reversed(moved)) by {
      forall i | 0 <= i < |Reversed(moved)| ensures Stackable(Reversed(moved)[i]) {
        assert Reversed(moved)[i] in moved;
      }
    }
    StackableHasNoNumbers(Reversed(moved));
    NumbersAppend(out, Reversed(moved));
  }

  // ---------------------------------------------------------------------------
  // Number tokens keep their order (lines 21-23)
  // ---------------------------------------------------------------------------

  lemma OperatorStepKeepsNumbers(m: Shunting, token: string)
    requires AllStackable(m.stack) && IsOperator(token)
    ensures Step(m, token).Ok?
    ensures var r := Step(m, token).value;
      Numbers(r.output) == Numbers(m.output) && AllStackable(r.stack)
  {
    StackableIsNotNumber(token);
    var p := PopAtLeast(m, Precedence[token]);
    assert Step(m, token) == Ok(Shunting(p.output, p.stack + [token]));
    PopAtLeastMoves(m, Precedence[token]);
    MovedAddsNoNumbers(m.output, m.stack[|p.stack|..]);
  }

  lemma CloseStepKeepsNumbers(m: Shunting)
    requires AllStackable(m.stack) && Step(m, ")").Ok?
    ensures var r := Step(m, ")").value;
      Numbers(r.output) == Numbers(m.output) && AllStackable(r.stack)
  {
    var p := PopToOpen(m);
    assert !IsNumber(")") && !IsOperator(")");
    assert Step(m, ")") == Ok(Shunting(p.output, p.stack[..|p.stack| - 1]));
    PopToOpenMoves(m);
    MovedAddsNoNumbers(m.output, m.stack[|p.stack|..]);
  }

  lemma StepKeepsNumbers(m: Shunting, token: string)
    requires AllStackable(m.stack) && Step(m, token).Ok?
    ensures var r := Step(m, token).value;
      Numbers(r.output) == Numbers(m.output) + Numbers([token]) && AllStackable(r.stack)
  {
    assert Numbers([token]) == Numbers([]) + (if IsNumber(token) then [token] else []);
    if IsNumber(token) {
      NumbersAppend(m.output, [token]);
    } else if IsOperator(token) {
      OperatorStepKeepsNumbers(m, token);
    } else if token == ")" {
      CloseStepKeepsNumbers(m);
    }
  }

  lemma NumbersCons(tokens: seq<string>)
    requires tokens != []
    ensures Numbers(tokens) == Numbers([tokens[0]]) + Numbers(tokens[1..])
  {
    assert tokens == [tokens[0]] + tokens[1..];
    NumbersAppend([tokens[0]], tokens[1..]);
  }

  lemma {:induction false} ShuntKeepsNumbers(tokens: seq<string>, m: Shunting)
    requires AllStackable(m.stack) && Shunt(tokens, m).Ok?
    ensures var r := Shunt(tokens, m).value;
      Numbers(r.output) == Numbers(m.output) + Numbers(tokens) && AllStackable(r.stack)
  {
    if tokens != [] {
      StepKeepsNumbers(m, tokens[0]);
      var m' := Step(m, tokens[0]).value;
      assert Shunt(tokens, m) == Shunt(tokens[1..], m');
      ShuntKeepsNumbers(tokens[1..], m');
      NumbersCons(tokens);
    }
  }

  /** The number tokens of the postfix output are those of the input, in the same order. */
  lemma NumbersInOrder(tokens: seq<string>)
    requires ToPostfix(tokens).Ok?
    ensures Numbers(ToPostfix(tokens).value) == Numbers(tokens)
  {
    ShuntKeepsNumbers(tokens, Shunting([], []));
    var m := Shunt(tokens, Shunting([], [])).value;
    MovedAddsNoNumbers(m.output, m.stack);
  }

  // ---------------------------------------------------------------------------
  // The operator stack is ordered by precedence (lines 24-29)
  // ---------------------------------------------------------------------------

  /** Two operators adjacent on the stack have strictly increasing precedence from bottom to top. */
  ghost predicate PrecedenceOrdered(st: seq<string>) {
    forall i, j :: 0 <= i && j == i + 1 && j < |st| && IsOperator(st[i]) && IsOperator(st[j]) ==>
      Precedence[st[i]] < Precedence[st[j]]
  }

  lemma OrderedPrefix(st: seq<string>, k: nat)
    requires PrecedenceOrdered(st) && k <= |st|
    ensures PrecedenceOrdered(st[..k])
  {
    forall i, j | 0 <= i && j == i + 1 && j < k && IsOperator(st[..k][i]) && IsOperator(st[..k][j])
      ensures Precedence[st[..k][i]] < Precedence[st[..k][j]]
    {
      assert st[..k][i] == st[i] && st[..k][j] == st[j];
    }
  }

  lemma OrderedPush(base: seq<string>, t: string)
    requires PrecedenceOrdered(base) && IsOperator(t)
    requires base == [] || !IsOperator(base[|base| - 1]) || Precedence[base[|base| - 1]] < Precedence[t]
    ensures PrecedenceOrdered(base + [t])
  {
    var st := base + [t];
    forall i, j | 0 <= i && j == i + 1 && j < |st| && IsOperator(st[i]) && IsOperator(st[j])
      ensures Precedence[st[i]] < Precedence[st[j]]
    {
      assert st[i] == base[i];
      if j < |base| { assert st[j] == base[j]; }
    }
  }

  lemma OrderedPushOpen(base: seq<string>)
    requires PrecedenceOrdered(base)
    ensures PrecedenceOrdered(base + ["("])
  {
    var st := base + ["("];
    forall i, j | 0 <= i && j == i + 1 && j < |st| && IsOperator(st[i]) && IsOperator(st[j])
      ensures Precedence[st[i]] < Precedence[st[j]]
    {
      assert st[i] == base[i];
      if j < |base| {
        assert st[j] == base[j];
      } else {
        OperatorIsNotParen(st[j]);
      }
    }
  }

  lemma StepKeepsOrder(m: Shunting, token: string)
    requires PrecedenceOrdered(m.stack) && Step(m, token).Ok?
    ensures PrecedenceOrdered(Step(m, token).value.stack)
  {
    if IsNumber(token) {
      assert Step(m, token).value.stack == m.stack;
    } else if IsOperator(token) {
      var base, moved := OperatorStepSplit(m, token);
      OrderedPrefix(m.stack, |base|);
      assert m.stack[..|base|] == base;
      OrderedPush(base, token);
    } else if token == "(" {
      OrderedPushOpen(m.stack);
    } else if token == ")" {
      var base, moved := CloseStepSplit(m);
      OrderedPrefix(m.stack, |base|);
      assert m.stack[..|base|] == base;
    }
  }

  lemma {:induction false} ShuntKeepsOrder(tokens: seq<string>, m: Shunting)
    requires PrecedenceOrdered(m.stack) && Shunt(tokens, m).Ok?
    ensures PrecedenceOrdered(Shunt(tokens, m).value.stack)
  {
    if tokens != [] {
      StepKeepsOrder(m, tokens[0]);
      ShuntKeepsOrder(tokens[1..], Step(m, tokens[0]).value);
    }
  }

  // ---------------------------------------------------------------------------
  // Failure exactly when a ")" finds no "(" (lines 32-36)
  // ---------------------------------------------------------------------------

  /** Reading `tokens` with `depth` open parentheses, some ")" arrives when none is open. */
  predicate Underflows(tokens: seq<string>, depth: nat)
    decreases |tokens|
  {
    tokens != [] &&
    if tokens[0] == ")" then depth == 0 || Underflows(tokens[1..], depth - 1)
    else Underflows(tokens[1..], if tokens[0] == "(" then depth + 1 else depth)
  }

  lemma {:induction false} StackableSuffixOpens(s: seq<string>, k: nat)
    requires k <= |s|
    requires forall i :: k <= i < |s| ==> s[i] != "("
    ensures Opens(s) == Opens(s[..k])
  {
    assert s == s[..k] + s[k..];
    assert "(" !in s[k..];
  }

  lemma OperatorStepOpens(m: Shunting, token: string)
    requires IsOperator(token)
    ensures Step(m, token).Ok? && Opens(Step(m, token).value.stack) == Opens(m.stack)
  {
    var base, moved := OperatorStepSplit(m, token);
    OperatorIsNotParen(token);
    OperatorsHaveNoOpens(moved);
    assert multiset(base + [token])["("] == multiset(base)["("];
    assert multiset(base + moved) == multiset(base) + multiset(moved);
  }

  lemma CloseStepOpens(m: Shunting)
    ensures Step(m, ")").Err? <==> Opens(m.stack) == 0
    ensures Step(m, ")").Ok? ==> Opens(Step(m, ")").value.stack) + 1 == Opens(m.stack)
  {
    var p := PopToOpen(m);
    assert !IsNumber(")") && !IsOperator(")");
    PopToOpenMoves(m);
    PopToOpenStops(m);
    StackableSuffixOpens(m.stack, |p.stack|);
    if p.stack != [] {
      assert Step(m, ")") == Ok(Shunting(p.output, p.stack[..|p.stack| - 1]));
      assert p.stack == p.stack[..|p.stack| - 1] + ["("];
    } else {
      assert Step(m, ")") == Err(EmptyStack);
    }
  }

  lemma StepOpens(m: Shunting, token: string)
    ensures Step(m, token).Err? <==> token == ")" && Opens(m.stack) == 0
    ensures Step(m, token).Ok? ==>
      Opens(Step(m, token).value.stack) + (if token == ")" then 1 else 0)
        == Opens(m.stack) + (if token == "(" then 1 else 0)
  {
    if IsNumber(token) {
      NumberShape(token);
    } else if IsOperator(token) {
      OperatorStepOpens(m, token);
    } else if token == ")" {
      CloseStepOpens(m);
    }
  }

  lemma {:induction false} ShuntFailsIffUnderflow(tokens: seq<string>, m: Shunting)
    requires AllStackable(m.stack)
    ensures Shunt(tokens, m).Err? <==> Underflows(tokens, Opens(m.stack))
    decreases |tokens|
  {
    if tokens != [] {
      StepOpens(m, tokens[0]);
      if Step(m, tokens[0]).Ok? {
        StepKeepsNumbers(m, tokens[0]);
        ShuntFailsIffUnderflow(tokens[1..], Step(m, tokens[0]).value);
      }
    }
  }

  /** The conversion fails, always by popping an empty stack, exactly when some ")" has no
      "(" left open before it. */
  lemma ConversionFailsIffUnmatchedClose(tokens: seq<string>)
    ensures ToPostfix(tokens).Err? <==> Underflows(tokens, 0)
    ensures ToPostfix(tokens).Err? ==> ToPostfix(tokens).error == EmptyStack
  {
    ShuntFailsIffUnderflow(tokens, Shunting([], []));
  }

  // ---------------------------------------------------------------------------
  // What the output holds after the final drain (lines 40-44)
  // ---------------------------------------------------------------------------

  /** The number of ")" in `ts`. */
  function Closes(ts: seq<string>): nat {
    multiset(ts)[")"]
  }

  /** An operator token moves a top part `moved` of the stack, all operators, to the output. */
  lemma OperatorStepSplit(m: Shunting, token: string) returns (base: seq<string>, moved: seq<string>)
    requires IsOperator(token)
    ensures m.stack == base + moved
    ensures forall x :: x in moved ==> IsOperator(x)
    ensures base == [] || !IsOperator(base[|base| - 1]) || Precedence[base[|base| - 1]] < Precedence[token]
    ensures Step(m, token) == Ok(Shunting(m.output + Reversed(moved), base + [token]))
  {
    StackableIsNotNumber(token);
    var p := PopAtLeast(m, Precedence[token]);
    assert Step(m, token) == Ok(Shunting(p.output, p.stack + [token]));
    PopAtLeastMoves(m, Precedence[token]);
    PopAtLeastStops(m, Precedence[token]);
    base, moved := p.stack, m.stack[|p.stack|..];
    assert m.stack == base + moved;
  }

  /** A ")" that succeeds moves the part of the stack above the nearest "(" to the output and
      drops that "(". */
  lemma CloseStepSplit(m: Shunting) returns (base: seq<string>, moved: seq<string>)
    requires Step(m, ")").Ok?
    ensures m.stack == base + ["("] + moved
    ensures "(" !in moved
    ensures Step(m, ")") == Ok(Shunting(m.output + Reversed(moved), base))
  {
    var p := PopToOpen(m);
    assert !IsNumber(")") && !IsOperator(")");
    assert Step(m, ")") == Ok(Shunting(p.output, p.stack[..|p.stack| - 1]));
    PopToOpenMoves(m);
    PopToOpenStops(m);
    var k := |p.stack|;
    base, moved := p.stack[..k - 1], m.stack[k..];
    assert m.stack == p.stack + moved && p.stack == base + ["("];
  }

  lemma KeptSingle(t: string)
    ensures Kept([t]) == if IsNumber(t) || IsOperator(t) then [t] else []
  {
    assert Kept([t]) == Kept([]) + (if IsNumber(t) || IsOperator(t) then [t] else []);
  }

  lemma MovedToOutput(out: seq<string>, moved: seq<string>)
    requires AllStackable(moved)
    ensures ")" !in Reversed(moved)
    ensures multiset(Kept(out + Reversed(moved))) == multiset(Kept(out)) + multiset(Kept(moved))
    ensures Opens(out + Reversed(moved)) == Opens(out) + Opens(moved)
  {
    ReversedSameElements(moved);
    forall x | x in moved ensures x != ")" { StackableIsNotNumber(x); }
    KeptAppend(out, Reversed(moved));
    KeptReversed(moved);
  }

  /** Only numbers, operators and "(" are in `s`. */
  predicate AllAdmitted(s: seq<string>) {
    forall i :: 0 <= i < |s| ==> IsNumber(s[i]) || Stackable(s[i])
  }

  /** Moving operators and "(" from the stack keeps the output to admitted tokens. */
  lemma AdmittedMoved(out: seq<string>, moved: seq<string>)
    requires AllAdmitted(out) && AllStackable(moved)
    ensures AllAdmitted(out + Reversed(moved))
  {
    ReversedSameElements(moved);
    var r := out + Reversed(moved);
    forall i | |out| <= i < |r| ensures Stackable(r[i]) {
      assert r[i] == Reversed(moved)[i - |out|];
      assert r[i] in Reversed(moved);
      var j :| 0 <= j < |moved| && moved[j] == r[i];
    }
  }

  /** A step keeps the stack to operators and "(", and the output to numbers,
      operators and "(": a token outside these is dropped. */
  lemma StepAdmits(m: Shunting, token: string)
    requires AllStackable(m.stack) && AllAdmitted(m.output) && Step(m, token).Ok?
    ensures AllStackable(Step(m, token).value.stack) && AllAdmitted(Step(m, token).value.output)
  {
    if IsNumber(token) {
    } else if IsOperator(token) {
      var base, moved := OperatorStepSplit(m, token);
      AllStackableSplit(base, moved);
      AdmittedMoved(m.output, moved);
    } else if token == ")" {
      var base, moved := CloseStepSplit(m);
      AllStackableSplit(base + ["("], moved);
      AllStackableSplit(base, ["("]);
      AdmittedMoved(m.output, moved);
    }
  }

  lemma OperatorStepKept(m: Shunting, token: string)
    requires AllStackable(m.stack) && IsOperator(token)
    ensures var r := Step(m, token).value;
      multiset(Kept(r.output)) + multiset(Kept(r.stack))
        == multiset(Kept(m.output)) + multiset(Kept(m.stack)) + multiset{token}
  {
    var base, moved := OperatorStepSplit(m, token);
    AllStackableSplit(base, moved);
    MovedToOutput(m.output, moved);
    KeptAppend(base, moved);
    KeptAppend(base, [token]);
    KeptSingle(token);
  }

  lemma KeptOpen()
    ensures Kept(["("]) == []
  {
    KeptSingle("(");
    StackableIsNotNumber("(");
  }

  lemma KeptDropOpen(base: seq<string>, moved: seq<string>)
    ensures Kept(base + ["("] + moved) == Kept(base) + Kept(moved)
  {
    var withOpen := base + ["("];
    KeptAppend(withOpen, moved);
    KeptAppend(base, ["("]);
    KeptOpen();
    assert Kept(withOpen) == Kept(base) + [] == Kept(base);
  }

  lemma CloseKept(out: seq<string>, base: seq<string>, moved: seq<string>)
    requires AllStackable(moved)
    ensures multiset(Kept(out + Reversed(moved))) + multiset(Kept(base))
      == multiset(Kept(out)) + multiset(Kept(base + ["("] + moved))
  {
    MovedToOutput(out, moved);
    KeptDropOpen(base, moved);
  }

  lemma CloseStepKept(m: Shunting)
    requires AllStackable(m.stack) && Step(m, ")").Ok?
    ensures var r := Step(m, ")").value;
      multiset(Kept(r.output)) + multiset(Kept(r.stack))
        == multiset(Kept(m.output)) + multiset(Kept(m.stack))
  {
    var base, moved := CloseStepSplit(m);
    AllStackableSplit(base + ["("], moved);
    CloseKept(m.output, base, moved);
  }

  /** A step moves number and operator tokens between input, stack and output, losing none. */
  lemma StepKept(m: Shunting, token: string)
    requires AllStackable(m.stack) && Step(m, token).Ok?
    ensures var r := Step(m, token).value;
      multiset(Kept(r.output)) + multiset(Kept(r.stack))
        == multiset(Kept(m.output)) + multiset(Kept(m.stack)) + multiset(Kept([token]))
  {
    KeptSingle(token);
    if IsNumber(token) {
      KeptAppend(m.output, [token]);
    } else if IsOperator(token) {
      OperatorStepKept(m, token);
    } else if token == "(" {
      KeptAppend(m.stack, ["("]);
      KeptSingle("(");
    } else if token == ")" {
      CloseStepKept(m);
    }
  }

  /** During the conversion loop no "(" reaches the output. */
  lemma StepOutputOpens(m: Shunting, token: string)
    requires AllStackable(m.stack) && Step(m, token).Ok?
    ensures Opens(Step(m, token).value.output) == Opens(m.output)
  {
    if IsNumber(token) {
      NumberShape(token);
    } else if IsOperator(token) {
      var base, moved := OperatorStepSplit(m, token);
      OperatorsHaveNoOpens(moved);
      AllStackableSplit(base, moved);
      MovedToOutput(m.output, moved);
    } else if token == ")" {
      var base, moved := CloseStepSplit(m);
      AllStackableSplit(base + ["("], moved);
      MovedToOutput(m.output, moved);
    }
  }

  lemma {:induction false} ShuntAdmits(tokens: seq<string>, m: Shunting)
    requires AllStackable(m.stack) && AllAdmitted(m.output) && Shunt(tokens, m).Ok?
    ensures AllStackable(Shunt(tokens, m).value.stack) && AllAdmitted(Shunt(tokens, m).value.output)
  {
    if tokens != [] {
      StepAdmits(m, tokens[0]);
      ShuntAdmits(tokens[1..], Step(m, tokens[0]).value);
    }
  }

  lemma KeptCons(tokens: seq<string>)
    requires tokens != []
    ensures multiset(Kept(tokens)) == multiset(Kept([tokens[0]])) + multiset(Kept(tokens[1..]))
  {
    assert tokens == [tokens[0]] + tokens[1..];
    KeptAppend([tokens[0]], tokens[1..]);
  }

  lemma Regroup(total: multiset<string>, mid: multiset<string>, start: multiset<string>,
                first: multiset<string>, rest: multiset<string>)
    requires total == mid + rest && mid == start + first
    ensures total == start + (first + rest)
  {
  }

  lemma {:induction false} ShuntKept(tokens: seq<string>, m: Shunting)
    requires AllStackable(m.stack) && Shunt(tokens, m).Ok?
    ensures var r := Shunt(tokens, m).value;
      multiset(Kept(r.output)) + multiset(Kept(r.stack))
        == multiset(Kept(m.output)) + multiset(Kept(m.stack)) + multiset(Kept(tokens))
  {
    if tokens == [] {
      assert Kept(tokens) == [];
    } else {
      var m' := Step(m, tokens[0]).value;
      StepKept(m, tokens[0]);
      StepKeepsNumbers(m, tokens[0]);
      assert Shunt(tokens, m) == Shunt(tokens[1..], m');
      ShuntKept(tokens[1..], m');
      KeptCons(tokens);
      var r := Shunt(tokens, m).value;
      Regroup(multiset(Kept(r.output)) + multiset(Kept(r.stack)),
              multiset(Kept(m'.output)) + multiset(Kept(m'.stack)),
              multiset(Kept(m.output)) + multiset(Kept(m.stack)),
              multiset(Kept([tokens[0]])), multiset(Kept(tokens[1..])));
    }
  }

  lemma {:induction false} ShuntOutputOpens(tokens: seq<string>, m: Shunting)
    requires AllStackable(m.stack) && Shunt(tokens, m).Ok?
    ensures Opens(Shunt(tokens, m).value.output) == Opens(m.output)
  {
    if tokens != [] {
      StepOutputOpens(m, tokens[0]);
      StepKeepsNumbers(m, tokens[0]);
      ShuntOutputOpens(tokens[1..], Step(m, tokens[0]).value);
    }
  }

  lemma {:induction false} ShuntOpens(tokens: seq<string>, m: Shunting)
    requires Shunt(tokens, m).Ok?
    ensures Opens(Shunt(tokens, m).value.stack) + Closes(tokens) == Opens(m.stack) + Opens(tokens)
  {
    if tokens != [] {
      StepOpens(m, tokens[0]);
      ShuntOpens(tokens[1..], Step(m, tokens[0]).value);
      assert tokens == [tokens[0]] + tokens[1..];
    }
  }

  /** After the drain the output holds only numbers, operators and "(" (any other
      token of the input is dropped, and never a ")"), every number and operator
      token of the input (as a multiset: operators are reordered), and one "(" per
      unmatched "(". */
  lemma PostfixContents(tokens: seq<string>)
    requires ToPostfix(tokens).Ok?
    ensures var postfix := ToPostfix(tokens).value;
      && (forall t :: t in postfix ==> IsNumber(t) || IsOperator(t) || t == "(")
      && ")" !in postfix
      && multiset(Kept(postfix)) == multiset(Kept(tokens))
      && Opens(postfix) + Closes(tokens) == Opens(tokens)
  {
    var m0 := Shunting([], []);
    ShuntAdmits(tokens, m0);
    ShuntKept(tokens, m0);
    ShuntOutputOpens(tokens, m0);
    ShuntOpens(tokens, m0);
    var m := Shunt(tokens, m0).value;
    DrainAdmitted(m);
    MovedToOutput(m.output, m.stack);
    assert Kept(m0.output) == [] && Kept(m0.stack) == [];
  }

  /** The drain of lines 40-42 puts only operators and "(" after the output. */
  lemma DrainAdmitted(m: Shunting)
    requires AllStackable(m.stack) && AllAdmitted(m.output)
    ensures forall t :: t in Drain(m) ==> IsNumber(t) || IsOperator(t) || t == "("
    ensures ")" !in Drain(m)
  {
    AdmittedMoved(m.output, m.stack);
    var postfix := Drain(m);
    forall t | t in postfix ensures IsNumber(t) || IsOperator(t) || t == "(" {
      var j :| 0 <= j < |postfix| && postfix[j] == t;
    }
    forall t | t in postfix ensures t != ")" {
      if IsNumber(t) { NumberShape(t); }
    }
  }

  // ---------------------------------------------------------------------------
  // evaluatePostfix: when the value stack runs dry
  // ---------------------------------------------------------------------------

  /** Lines 50-69 pop an empty stack: some token outside the number pattern finds
      fewer than two values, or no value is left for the final pop. `depth` is the
      number of values: a number adds one, an operator takes two and gives one
      back, any other token takes two and gives none. */
  predicate Starves(postfix: seq<string>, depth: nat)
    decreases |postfix|
  {
    if postfix == [] then depth == 0
    else if IsNumber(postfix[0]) then Starves(postfix[1..], depth + 1)
    else depth < 2 || Starves(postfix[1..], depth - 2 + if IsOperator(postfix[0]) then 1 else 0)
  }

  /** The value stack fails with EmptyStack only when it starves, and starving
      always ends the run with a failure (a division by zero may come first);
      without "/" it fails exactly when it starves. Values left below the top are
      never looked at, so they cause no failure. */
  lemma EmptyStackIffStarves(postfix: seq<string>, values: seq<real>)
    ensures Starves(postfix, |values|) ==> EvalRpn(postfix, values).Err?
    ensures EvalRpn(postfix, values) == Err(EmptyStack) ==> Starves(postfix, |values|)
    ensures "/" !in postfix ==> (EvalRpn(postfix, values).Err? <==> Starves(postfix, |values|))
  {
    StarvingFails(postfix, values);
    EmptyStackStarves(postfix, values);
    if "/" !in postfix {
      FedSucceeds(postfix, values);
    }
  }

  lemma {:induction false} StarvingFails(postfix: seq<string>, values: seq<real>)
    ensures Starves(postfix, |values|) ==> EvalRpn(postfix, values).Err?
    decreases |postfix|
  {
    if postfix != [] {
      var token := postfix[0];
      if IsNumber(token) {
        StarvingFails(postfix[1..], values + [DecimalValue(token)]);
      } else if |values| >= 2 {
        var pushed := Apply(token, values[|values| - 2], values[|values| - 1]);
        if pushed.Ok? {
          StarvingFails(postfix[1..], values[..|values| - 2] + pushed.value);
        }
      }
    }
  }

  lemma {:induction false} EmptyStackStarves(postfix: seq<string>, values: seq<real>)
    ensures EvalRpn(postfix, values) == Err(EmptyStack) ==> Starves(postfix, |values|)
    decreases |postfix|
  {
    if postfix != [] {
      var token := postfix[0];
      if IsNumber(token) {
        EmptyStackStarves(postfix[1..], values + [DecimalValue(token)]);
      } else if |values| >= 2 {
        var pushed := Apply(token, values[|values| - 2], values[|values| - 1]);
        if pushed.Ok? {
          EmptyStackStarves(postfix[1..], values[..|values| - 2] + pushed.value);
        }
      }
    }
  }

  lemma {:induction false} FedSucceeds(postfix: seq<string>, values: seq<real>)
    requires "/" !in postfix
    ensures !Starves(postfix, |values|) ==> EvalRpn(postfix, values).Ok?
    decreases |postfix|
  {
    if postfix != [] {
      var token := postfix[0];
      assert "/" !in postfix[1..] && token != "/";
      if IsNumber(token) {
        FedSucceeds(postfix[1..], values + [DecimalValue(token)]);
      } else if |values| >= 2 {
        var pushed := Apply(token, values[|values| - 2], values[|values| - 1]);
        FedSucceeds(postfix[1..], values[..|values| - 2] + pushed.value);
      }
    }
  }
}
