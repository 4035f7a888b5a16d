/**
 * What Calculator.java computes on a well-formed expression: the infix text of
 * an expression tree, written with single spaces between tokens, evaluates to
 * the value of the tree read with the usual precedence ("*" and "/" bind
 * tighter than "+" and "-") and left associativity. The tree, its precedence
 * reading `Eval` and its postfix form `Postfix` are reference definitions,
 * independent of the stack machines they are compared with.
 */
module CalculatorProofs {
  import opened Outcomes
  import opened Text
  import opened Calculator

  /** An expression as the calculator's input writes it. */
  datatype Expr =
    | Num(literal: string)
    | Bin(op: string, left: Expr, right: Expr)
    | Group(inner: Expr)

  /** How tightly the root of `e` binds: its operator's precedence, or 3 for a number or a group. */
  function Level(e: Expr): nat {
    if e.Bin? && IsOperator(e.op) then Precedence[e.op] else 3
  }

  /** A tree whose text reads back as the same tree: numbers are number tokens, and a left
      operand binds at least as tightly as its operator, a right operand strictly more tightly
      (anything else is written as a `Group`). */
  predicate WellFormed(e: Expr) {
    match e
    case Num(t) => IsNumber(t)
    case Group(inner) => WellFormed(inner)
    case Bin(op, l, r) =>
      IsOperator(op) && WellFormed(l) && WellFormed(r)
      && Level(l) >= Precedence[op] && Level(r) > Precedence[op]
  }

  /** The infix tokens of `e`. */
  function Tokens(e: Expr): seq<string> {
    match e
    case Num(t) => [t]
    case Group(inner) => ["("] + Tokens(inner) + [")"]
    case Bin(op, l, r) => Tokens(l) + [op] + Tokens(r)
  }

  /** The postfix (reverse Polish) tokens of `e`: operands first, then the operator. */
  function Postfix(e: Expr): seq<string> {
    match e
    case Num(t) => [t]
    case Group(inner) => Postfix(inner)
    case Bin(op, l, r) => Postfix(l) + Postfix(r) + [op]
  }

  /** One binary operation on reals; division by zero fails. */
  function Arith(op: string, a: real, b: real): Result<real> {
    match op
    case "+" => Ok(a + b)
    case "-" => Ok(a - b)
    case "*" => Ok(a * b)
    case _ => if b == 0.0 then Err(DivisionByZero) else Ok(a / b)
  }

  /** The value of `e`, left operand first. */
  function Eval(e: Expr): Result<real>
    requires WellFormed(e)
  {
    match e
    case Num(t) => Ok(DecimalValue(t))
    case Group(inner) => Eval(inner)
    case Bin(op, l, r) =>
      var a :- Eval(l);
      var b :- Eval(r);
      Arith(op, a, b)
  }

  // ---------------------------------------------------------------------------
  // What the conversion has done after reading the tokens of a subexpression
  // ---------------------------------------------------------------------------

  /** The part of `Postfix(e)` already in the output once the tokens of `e` have been read. */
  function Emitted(e: Expr): seq<string> {
    match e
    case Num(t) => [t]
    case Group(inner) => Postfix(inner)
    case Bin(op, l, r) => Postfix(l) + Emitted(r)
  }

  /** The operators of `e` still on the stack once its tokens have been read, bottom first. */
  function Pending(e: Expr): seq<string> {
    match e
    case Num(_) => []
    case Group(_) => []
    case Bin(op, _, r) => [op] + Pending(r)
  }

  /** The top of `st`, if an operator, binds less tightly than `p`. */
  predicate TopBelow(st: seq<string>, p: nat) {
    st == [] || !IsOperator(st[|st| - 1]) || Precedence[st[|st| - 1]] < p
  }

  lemma {:induction false} EmittedThenPending(e: Expr)
    ensures Emitted(e) + Reversed(Pending(e)) == Postfix(e)
  {
    match e
    case Num(t) =>
      assert Reversed(Pending(e)) == [];
    case Group(inner) =>
      assert Reversed(Pending(e)) == [];
    case Bin(op, l, r) =>
      EmittedThenPending(r);
      assert Pending(e) == [op] + Pending(r);
      assert Reversed(Pending(e)) == Reversed(Pending(r)) + [op] by {
        ReversedCons(op, Pending(r));
      }
  }

  lemma {:induction false} ReversedCons(x: string, s: seq<string>)
    ensures Reversed([x] + s) == Reversed(s) + [x]
    decreases |s|
  {
    if s == [] {
      assert Reversed([x]) == Reversed([x][..0]) + [x] by {
        ReversedSnoc([], x);
      }
    } else {
      var init, last := s[..|s| - 1], s[|s| - 1];
      assert [x] + s == ([x] + init) + [last];
      ReversedSnoc([x] + init, last);
      ReversedCons(x, init);
      ReversedSnoc(init, last);
      assert s == init + [last];
    }
  }

  /** Every operator pending after `e` binds at least as tightly as `e` itself. */
  lemma {:induction false} PendingAtLeast(e: Expr)
    requires WellFormed(e)
    ensures forall x :: x in Pending(e) ==> IsOperator(x) && Precedence[x] >= Level(e)
  {
    match e
    case Num(_) =>
    case Group(_) =>
    case Bin(op, l, r) =>
      PendingAtLeast(r);
  }

  /** Popping operators that all bind at least as tightly as `p` stops exactly below them. */
  lemma PopPending(out: seq<string>, st: seq<string>, pending: seq<string>, p: nat)
    requires forall x :: x in pending ==> IsOperator(x) && Precedence[x] >= p
    requires TopBelow(st, p)
    ensures PopAtLeast(Shunting(out, st + pending), p) == Shunting(out + Reversed(pending), st)
  {
    var m := Shunting(out, st + pending);
    PopAtLeastMoves(m, p);
    PopAtLeastStops(m, p);
    var k := |PopAtLeast(m, p).stack|;
    assert st != [] ==> m.stack[|st| - 1] == st[|st| - 1];
    assert m.stack[..k] == st && m.stack[k..] == pending;
  }

  /** Popping operators down to a "(" stops on it. */
  lemma {:induction false} PopPendingToOpen(out: seq<string>, st: seq<string>, pending: seq<string>)
    requires forall x :: x in pending ==> IsOperator(x)
    ensures PopToOpen(Shunting(out, st + ["("] + pending)) == Shunting(out + Reversed(pending), st + ["("])
    decreases |pending|
  {
    if pending == [] {
      assert st + ["("] + pending == st + ["("];
      assert out + Reversed(pending) == out;
    } else {
      var init, top := pending[..|pending| - 1], pending[|pending| - 1];
      var whole := st + ["("] + pending;
      assert whole[|whole| - 1] == top && whole[..|whole| - 1] == st + ["("] + init;
      assert top in pending;
      OperatorShape(top);
      forall x | x in init ensures IsOperator(x) {
        assert x in pending;
      }
      PopPendingToOpen(out + [top], st, init);
      assert pending == init + [top];
      ReversedSnoc(init, top);
    }
  }

  lemma OperatorShape(t: string)
    requires IsOperator(t)
    ensures t != "(" && t != ")" && !IsNumber(t)
  {
    assert t == "+" || t == "-" || t == "*" || t == "/";
    if IsNumber(t) { NumberShape(t); }
  }

  /** Reading one token is one `Step`. */
  lemma ShuntFirst(t: string, rest: seq<string>, m: Shunting, m': Shunting)
    requires Step(m, t) == Ok(m')
    ensures Shunt([t] + rest, m) == Shunt(rest, m')
  {
    assert ([t] + rest)[1..] == rest;
  }

  /** A ")" above operators and a "(" outputs the operators, top first, and drops the "(". */
  lemma CloseGroup(out: seq<string>, st: seq<string>, pending: seq<string>)
    requires forall x :: x in pending ==> IsOperator(x)
    ensures Step(Shunting(out, st + ["("] + pending), ")") == Ok(Shunting(out + Reversed(pending), st))
  {
    PopPendingToOpen(out, st, pending);
    CloseShape();
    assert (st + ["("])[..|st + ["("]| - 1] == st;
  }

  /** An operator above operators that bind at least as tightly outputs them, top first, and is
      pushed. */
  lemma PushOperator(out: seq<string>, st: seq<string>, op: string, pending: seq<string>)
    requires IsOperator(op) && TopBelow(st, Precedence[op])
    requires forall x :: x in pending ==> IsOperator(x) && Precedence[x] >= Precedence[op]
    ensures Step(Shunting(out, st + pending), op) == Ok(Shunting(out + Reversed(pending), st + [op]))
  {
    PopPending(out, st, pending, Precedence[op]);
    OperatorShape(op);
  }

  /** Reading the tokens of a well-formed `e` outputs `Emitted(e)` and leaves `Pending(e)` on
      the stack, above an untouched stack whose top binds less tightly than `e`. */
  lemma {:induction false} ShuntExpr(e: Expr, rest: seq<string>, out: seq<string>, st: seq<string>)
    requires WellFormed(e) && TopBelow(st, Level(e))
    ensures Shunt(Tokens(e) + rest, Shunting(out, st))
      == Shunt(rest, Shunting(out + Emitted(e), st + Pending(e)))
    decreases e, 1
  {
    match e
    case Num(t) =>
      ShuntNum(t, rest, out, st);
    case Group(inner) =>
      ShuntGroup(inner, rest, out, st);
    case Bin(op, l, r) =>
      ShuntBin(op, l, r, rest, out, st);
  }

  lemma ShuntNum(t: string, rest: seq<string>, out: seq<string>, st: seq<string>)
    requires IsNumber(t)
    ensures Shunt(Tokens(Num(t)) + rest, Shunting(out, st))
      == Shunt(rest, Shunting(out + Emitted(Num(t)), st + Pending(Num(t))))
  {
    assert Step(Shunting(out, st), t) == Ok(Shunting(out + [t], st));
    ShuntFirst(t, rest, Shunting(out, st), Shunting(out + [t], st));
    assert st + [] == st;
  }

  /** Reading a "(" and the tokens of the group's inner expression. */
  lemma {:induction false} ShuntOpen(inner: Expr, after: seq<string>, out: seq<string>, st: seq<string>)
    requires WellFormed(inner)
    ensures Shunt(["("] + (Tokens(inner) + after), Shunting(out, st))
      == Shunt(after, Shunting(out + Emitted(inner), st + ["("] + Pending(inner)))
    decreases inner, 2
  {
    OpenShape();
    assert Step(Shunting(out, st), "(") == Ok(Shunting(out, st + ["("]));
    ShuntFirst("(", Tokens(inner) + after, Shunting(out, st), Shunting(out, st + ["("]));
    ShuntExpr(inner, after, out, st + ["("]);
  }

  /** The ")" of a group outputs what its inner expression left pending. */
  lemma ShuntClose(inner: Expr, rest: seq<string>, out: seq<string>, st: seq<string>)
    requires WellFormed(inner)
    ensures Shunt([")"] + rest, Shunting(out + Emitted(inner), st + ["("] + Pending(inner)))
      == Shunt(rest, Shunting(out + Postfix(inner), st))
  {
    PendingAtLeast(inner);
    EmittedThenPending(inner);
    CloseStep(rest, out, st, Emitted(inner), Pending(inner), Postfix(inner));
  }

  lemma CloseStep(rest: seq<string>, out: seq<string>, st: seq<string>,
                  emitted: seq<string>, pending: seq<string>, postfix: seq<string>)
    requires forall x :: x in pending ==> IsOperator(x)
    requires emitted + Reversed(pending) == postfix
    ensures Shunt([")"] + rest, Shunting(out + emitted, st + ["("] + pending))
      == Shunt(rest, Shunting(out + postfix, st))
  {
    CloseGroup(out + emitted, st, pending);
    Associative(out, emitted, Reversed(pending));
    ShuntFirst(")", rest, Shunting(out + emitted, st + ["("] + pending), Shunting(out + postfix, st));
  }

  lemma Associative(a: seq<string>, b: seq<string>, c: seq<string>)
    ensures a + b + c == a + (b + c)
  {
  }

  lemma {:induction false} ShuntGroup(inner: Expr, rest: seq<string>, out: seq<string>, st: seq<string>)
    requires WellFormed(inner)
    ensures Shunt(Tokens(Group(inner)) + rest, Shunting(out, st))
      == Shunt(rest, Shunting(out + Emitted(Group(inner)), st + Pending(Group(inner))))
    decreases Group(inner), 0
  {
    assert Tokens(Group(inner)) + rest == ["("] + (Tokens(inner) + ([")"] + rest));
    assert st + Pending(Group(inner)) == st;
    ShuntOpen(inner, [")"] + rest, out, st);
    ShuntClose(inner, rest, out, st);
  }

  /** After the tokens of a left operand `l`, its operator outputs what `l` left pending. */
  lemma OperatorAfterLeft(op: string, l: Expr, after: seq<string>, out: seq<string>, st: seq<string>)
    requires WellFormed(l) && IsOperator(op) && Level(l) >= Precedence[op]
    requires TopBelow(st, Precedence[op])
    ensures Shunt([op] + after, Shunting(out + Emitted(l), st + Pending(l)))
      == Shunt(after, Shunting(out + Postfix(l), st + [op]))
  {
    PendingAtLeast(l);
    EmittedThenPending(l);
    OperatorStep(op, after, out, st, Emitted(l), Pending(l), Postfix(l));
  }

  lemma OperatorStep(op: string, after: seq<string>, out: seq<string>, st: seq<string>,
                     emitted: seq<string>, pending: seq<string>, postfix: seq<string>)
    requires IsOperator(op) && TopBelow(st, Precedence[op])
    requires forall x :: x in pending ==> IsOperator(x) && Precedence[x] >= Precedence[op]
    requires emitted + Reversed(pending) == postfix
    ensures Shunt([op] + after, Shunting(out + emitted, st + pending))
      == Shunt(after, Shunting(out + postfix, st + [op]))
  {
    PushOperator(out + emitted, st, op, pending);
    Associative(out, emitted, Reversed(pending));
    ShuntFirst(op, after, Shunting(out + emitted, st + pending), Shunting(out + postfix, st + [op]));
  }

  /** Reading a left operand and its operator. */
  lemma {:induction false} ShuntLeft(op: string, l: Expr, after: seq<string>, out: seq<string>, st: seq<string>)
    requires WellFormed(l) && IsOperator(op) && Level(l) >= Precedence[op]
    requires TopBelow(st, Precedence[op])
    ensures Shunt(Tokens(l) + ([op] + after), Shunting(out, st))
      == Shunt(after, Shunting(out + Postfix(l), st + [op]))
    decreases l, 2
  {
    ShuntExpr(l, [op] + after, out, st);
    OperatorAfterLeft(op, l, after, out, st);
  }

  lemma BinShape(op: string, l: Expr, r: Expr, rest: seq<string>, out: seq<string>, st: seq<string>)
    ensures Tokens(Bin(op, l, r)) + rest == Tokens(l) + ([op] + (Tokens(r) + rest))
    ensures out + Postfix(l) + Emitted(r) == out + Emitted(Bin(op, l, r))
    ensures st + [op] + Pending(r) == st + Pending(Bin(op, l, r))
  {
  }

  lemma {:induction false} ShuntBin(op: string, l: Expr, r: Expr, rest: seq<string>, out: seq<string>, st: seq<string>)
    requires WellFormed(Bin(op, l, r)) && TopBelow(st, Precedence[op])
    ensures Shunt(Tokens(Bin(op, l, r)) + rest, Shunting(out, st))
      == Shunt(rest, Shunting(out + Emitted(Bin(op, l, r)), st + Pending(Bin(op, l, r))))
    decreases Bin(op, l, r), 0
  {
    BinShape(op, l, r, rest, out, st);
    ShuntLeft(op, l, Tokens(r) + rest, out, st);
    ShuntExpr(r, rest, out + Postfix(l), st + [op]);
  }

  lemma OpenShape()
    ensures !IsNumber("(") && !IsOperator("(")
  {
    if IsNumber("(") { NumberShape("("); }
  }

  lemma CloseShape()
    ensures !IsNumber(")") && !IsOperator(")")
  {
    if IsNumber(")") { NumberShape(")"); }
  }

  /** The conversion turns the infix tokens of a well-formed expression into its postfix form. */
  lemma ConversionIsPostfix(e: Expr)
    requires WellFormed(e)
    ensures ToPostfix(Tokens(e)) == Ok(Postfix(e))
  {
    ShuntExpr(e, [], [], []);
    assert Tokens(e) + [] == Tokens(e);
    assert [] + Emitted(e) == Emitted(e) && [] + Pending(e) == Pending(e);
    EmittedThenPending(e);
  }

  // ---------------------------------------------------------------------------
  // The value stack on a postfix form
  // ---------------------------------------------------------------------------

  /** Pushing the outcome `v` of a subcomputation and running `rest`; a failure stops the run. */
  function RunAfter(v: Result<real>, rest: seq<string>, values: seq<real>): Result<real> {
    if v.Ok? then EvalRpn(rest, values + [v.value]) else Err(v.error)
  }

  /** An operator token on a stack holding `a` and then `b` applies the operation. */
  lemma RunOperator(op: string, rest: seq<string>, values: seq<real>, a: real, b: real)
    requires IsOperator(op)
    ensures EvalRpn([op] + rest, values + [a] + [b]) == RunAfter(Arith(op, a, b), rest, values)
  {
    var vs := values + [a] + [b];
    OperatorShape(op);
    ApplyIsArith(op, a, b);
    assert vs[|vs| - 2] == a && vs[|vs| - 1] == b && vs[..|vs| - 2] == values;
    assert ([op] + rest)[1..] == rest;
  }

  /** The calculator's operator switch agrees with `Arith` on the four operators. */
  lemma ApplyIsArith(op: string, a: real, b: real)
    requires IsOperator(op)
    ensures Apply(op, a, b).Ok? <==> Arith(op, a, b).Ok?
    ensures Apply(op, a, b).Ok? ==> Apply(op, a, b).value == [Arith(op, a, b).value]
    ensures Apply(op, a, b).Err? ==> Apply(op, a, b).error == Arith(op, a, b).error
  {
    assert op == "+" || op == "-" || op == "*" || op == "/";
  }

  /** Running the postfix form of `e` pushes the value of `e`, or fails as `Eval` does. */
  lemma {:induction false} RunPostfix(e: Expr, rest: seq<string>, values: seq<real>)
    requires WellFormed(e)
    ensures EvalRpn(Postfix(e) + rest, values) == RunAfter(Eval(e), rest, values)
  {
    match e
    case Num(t) =>
      assert ([t] + rest)[1..] == rest;
    case Group(inner) =>
      RunPostfix(inner, rest, values);
    case Bin(op, l, r) =>
      assert Postfix(e) + rest == Postfix(l) + (Postfix(r) + ([op] + rest));
      RunPostfix(l, Postfix(r) + ([op] + rest), values);
      if Eval(l).Ok? {
        var a := Eval(l).value;
        RunPostfix(r, [op] + rest, values + [a]);
        if Eval(r).Ok? {
          RunOperator(op, rest, values, a, Eval(r).value);
        }
      }
  }

  lemma ValueOfPostfix(e: Expr)
    requires WellFormed(e)
    ensures EvalRpn(Postfix(e), []) == Eval(e)
  {
    RunPostfix(e, [], []);
    assert Postfix(e) + [] == Postfix(e);
    if Eval(e).Ok? {
      assert [] + [Eval(e).value] == [Eval(e).value];
    }
  }

  /** Line 69 pops only the top: after a first expression has left its value on the
      stack, the postfix form of a second one evaluates to the second's value, and the
      value below it is ignored. */
  lemma LeftoverIgnored(first: Expr, second: Expr)
    requires WellFormed(first) && WellFormed(second) && Eval(first).Ok?
    ensures EvalRpn(Postfix(first) + Postfix(second), []) == Eval(second)
  {
    var v := Eval(first).value;
    RunPostfix(first, Postfix(second), []);
    RunPostfix(second, [], [] + [v]);
    assert Postfix(second) + [] == Postfix(second);
  }

  // ---------------------------------------------------------------------------
  // calculate on the text of an expression
  // ---------------------------------------------------------------------------

  /** Every token of `e` is non-empty and holds no space. */
  lemma {:induction false} TokensAreWords(e: Expr)
    requires WellFormed(e)
    ensures |Tokens(e)| >= 1
    ensures forall i :: 0 <= i < |Tokens(e)| ==> Tokens(e)[i] != [] && ' ' !in Tokens(e)[i]
  {
    match e
    case Num(t) =>
      NumberShape(t);
    case Group(inner) =>
      TokensAreWords(inner);
      forall i | 0 <= i < |Tokens(e)| ensures Tokens(e)[i] != [] && ' ' !in Tokens(e)[i] {
        if 0 < i < |Tokens(e)| - 1 { assert Tokens(e)[i] == Tokens(inner)[i - 1]; }
      }
    case Bin(op, l, r) =>
      TokensAreWords(l);
      TokensAreWords(r);
      OperatorShape(op);
      assert op == "+" || op == "-" || op == "*" || op == "/";
      var n := |Tokens(l)|;
      forall i | 0 <= i < |Tokens(e)| ensures Tokens(e)[i] != [] && ' ' !in Tokens(e)[i] {
        if i < n { assert Tokens(e)[i] == Tokens(l)[i]; }
        else if i > n { assert Tokens(e)[i] == Tokens(r)[i - n - 1]; }
      }
  }

  /** `calculate` on the space-separated text of a well-formed expression returns its value,
      and fails only on a division by zero. */
  lemma CalculatesPrecedence(e: Expr)
    requires WellFormed(e)
    ensures Calculation(Join(Tokens(e), " ")) == Eval(e)
    ensures Eval(e).Err? ==> Eval(e).error == DivisionByZero
  {
    TokensAreWords(e);
    SplitJoin(Tokens(e), ' ');
    assert Tokenize(Join(Tokens(e), " ")) == Tokens(e);
    ConversionIsPostfix(e);
    ValueOfPostfix(e);
    EvalFailsOnlyByZero(e);
  }

  lemma {:induction false} EvalFailsOnlyByZero(e: Expr)
    requires WellFormed(e)
    ensures Eval(e).Err? ==> Eval(e).error == DivisionByZero
  {
    match e
    case Num(_) =>
    case Group(inner) =>
      EvalFailsOnlyByZero(inner);
    case Bin(op, l, r) =>
      EvalFailsOnlyByZero(l);
      EvalFailsOnlyByZero(r);
  }

  /** 2 + 3 * 4 */
  function ProductTree(): Expr {
    Bin("+", Num("2"), Bin("*", Num("3"), Num("4")))
  }

  /** 8 - 3 - 2 */
  function DifferenceTree(): Expr {
    Bin("-", Bin("-", Num("8"), Num("3")), Num("2"))
  }

  lemma SmallNumbers()
    ensures IsNumber("2") && IsNumber("3") && IsNumber("4") && IsNumber("8")
    ensures DecimalValue("2") == 2.0 && DecimalValue("3") == 3.0
    ensures DecimalValue("4") == 4.0 && DecimalValue("8") == 8.0
  {
  }

  lemma JoinFive(t: seq<string>)
    requires |t| == 5
    ensures Join(t, " ") == t[0] + " " + t[1] + " " + t[2] + " " + t[3] + " " + t[4]
  {
    assert Join(t[4..], " ") == t[4];
    assert Join(t[3..], " ") == t[3] + " " + t[4];
    assert Join(t[2..], " ") == t[2] + " " + Join(t[3..], " ");
    assert Join(t[1..], " ") == t[1] + " " + Join(t[2..], " ");
  }

  lemma ProductTreeText()
    ensures Join(Tokens(ProductTree()), " ") == "2 + 3 * 4"
  {
    assert Tokens(ProductTree()) == ["2", "+", "3", "*", "4"];
    JoinFive(Tokens(ProductTree()));
  }

  lemma ProductTreeFacts()
    ensures WellFormed(ProductTree()) && Eval(ProductTree()) == Ok(14.0)
    ensures Join(Tokens(ProductTree()), " ") == "2 + 3 * 4"
  {
    SmallNumbers();
    assert WellFormed(ProductTree());
    assert Eval(ProductTree()) == Ok(14.0) by {
      assert Eval(Bin("*", Num("3"), Num("4"))) == Ok(12.0);
    }
    ProductTreeText();
  }

  lemma DifferenceTreeText()
    ensures Join(Tokens(DifferenceTree()), " ") == "8 - 3 - 2"
  {
    assert Tokens(DifferenceTree()) == ["8", "-", "3", "-", "2"];
    JoinFive(Tokens(DifferenceTree()));
  }

  lemma DifferenceTreeFacts()
    ensures WellFormed(DifferenceTree()) && Eval(DifferenceTree()) == Ok(3.0)
    ensures Join(Tokens(DifferenceTree()), " ") == "8 - 3 - 2"
  {
    SmallNumbers();
    assert WellFormed(DifferenceTree());
    assert Eval(DifferenceTree()) == Ok(3.0) by {
      assert Eval(Bin("-", Num("8"), Num("3"))) == Ok(5.0);
    }
    DifferenceTreeText();
  }

  /** "2 + 3 * 4" is 14: the product is taken first. */
  lemma ProductFirst()
    ensures Calculation("2 + 3 * 4") == Ok(14.0)
  {
    ProductTreeFacts();
    CalculatesPrecedence(ProductTree());
  }

  /** "8 - 3 - 2" is 3: operators of equal precedence apply from the left. */
  lemma LeftAssociative()
    ensures Calculation("8 - 3 - 2") == Ok(3.0)
  {
    DifferenceTreeFacts();
    CalculatesPrecedence(DifferenceTree());
  }
}
