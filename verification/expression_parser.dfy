/**
 * ExpressionParser.java: the evaluator behind the interpreter. `Parse` removes
 * whitespace, expands function calls, rewrites unary minus, substitutes the
 * constants pi and e, then replaces the innermost parenthesised group by its
 * value until no '(' is left; `ParseOps` evaluates the parenthesis-free rest by
 * splitting at the loosest operators first (`+ -`, then `* /`, then `^`).
 *
 * The JDK routines whose results depend on binary floating point
 * (Double.parseDouble, String.valueOf(double), Math.pow) and the expansion of
 * function calls (processFunctions) are fields of an `Env`.
 *
 * Two lines of the parser do not do what its tests expect; `Reading` selects
 * the code as written or the evidently intended code (see `UnaryMinus` and the
 * '^' branch of `ParseOps`).
 */
module ExpressionParser {
  import opened Outcomes
  import opened Text

  /** The routines the parser calls but whose results are not modelled exactly. */
  datatype Env = Env(
    parseDouble: string -> Option<real>,   // Double.parseDouble, None where it throws
    render: real -> string,                // String.valueOf(double), used by `"" + result`
    pow: (real, real) -> real,             // Math.pow
    functions: string -> Result<string>,   // processFunctions
    piText: string,                        // String.valueOf(Math.PI)
    eText: string)                         // String.valueOf(Math.E)
  {
    /** What the model relies on: the decimal form of a double never holds '(',
        processFunctions leaves text without '(' unchanged (each of its loops looks
        for a name followed by '('), and neither constant holds '('. */
    ghost predicate Valid() {
      && (forall x :: '(' !in render(x))
      && (forall s :: '(' !in s ==> functions(s) == Ok(s))
      && '(' !in piText && '(' !in eText
    }
  }

  /** Which version of the two faulty lines to follow. */
  datatype Reading = AsWritten | Intended

  // ---------------------------------------------------------------------------
  // splitByOperators
  // ---------------------------------------------------------------------------

  /** The characters after which an operator character is a sign, not an operator. */
  const SignContext := "+-*/^("

  /** Lines 128-129: position `i` holds one of `ops` and is not in sign position. */
  predicate IsSplitPoint(expr: string, ops: string, i: nat)
    requires i < |expr|
  {
    expr[i] in ops && i > 0 && expr[i - 1] !in SignContext
  }

  /** The pieces written one after the other. */
  function Concat(parts: seq<string>): string {
    if parts == [] then [] else parts[0] + Concat(parts[1..])
  }

  /** The pieces splitByOperators produces for `expr[start..]`, having scanned
      `expr[start..i]` without meeting a split point: operand, operator, operand, ... */
  function SplitAt(expr: string, ops: string, start: nat, i: nat): seq<string>
    requires start <= i <= |expr|
    decreases |expr| - i
  {
    if i == |expr| then
      [expr[start..]]
    else if IsSplitPoint(expr, ops, i) then
      [expr[start..i], expr[i..i + 1]] + SplitAt(expr, ops, i + 1, i + 1)
    else
      SplitAt(expr, ops, start, i + 1)
  }

  /** The pieces spell `expr[start..]`, operand first and operand last. */
  lemma {:induction false} SplitAtSpells(expr: string, ops: string, start: nat, i: nat)
    requires start <= i <= |expr|
    ensures var r := SplitAt(expr, ops, start, i);
            |r| % 2 == 1 && Concat(r) == expr[start..]
    decreases |expr| - i
  {
    if i == |expr| {
    } else if IsSplitPoint(expr, ops, i) {
      SplitAtSpells(expr, ops, i + 1, i + 1);
      var rest := SplitAt(expr, ops, i + 1, i + 1);
      var r := [expr[start..i], expr[i..i + 1]] + rest;
      assert r[1..] == [expr[i..i + 1]] + rest && r[1..][1..] == rest;
      assert expr[start..] == expr[start..i] + (expr[i..i + 1] + expr[i + 1..]);
    } else {
      SplitAtSpells(expr, ops, start, i + 1);
    }
  }

  /** Every odd piece is a one-character operator from `ops`. */
  predicate OperatorsAtOdd(r: seq<string>, ops: string) {
    forall k :: 0 <= k < |r| && k % 2 == 1 ==> |r[k]| == 1 && r[k][0] in ops
  }

  /** Every piece is shorter than `n`. */
  predicate PiecesShorter(r: seq<string>, n: int) {
    forall k :: 0 <= k < |r| ==> |r[k]| < n
  }

  /** Every odd piece is a one-character operator, and once a split point is met
      every piece is shorter than what is being split. */
  lemma {:induction false} SplitAtPieces(expr: string, ops: string, start: nat, i: nat)
    requires start <= i <= |expr|
    ensures OperatorsAtOdd(SplitAt(expr, ops, start, i), ops)
    ensures PiecesShorter(SplitAt(expr, ops, start, i), |expr| - start + 1)
    ensures |SplitAt(expr, ops, start, i)| > 1 && start < i ==> PiecesShorter(SplitAt(expr, ops, start, i), |expr| - start)
    decreases |expr| - i
  {
    if i == |expr| {
    } else if IsSplitPoint(expr, ops, i) {
      SplitAtPieces(expr, ops, i + 1, i + 1);
      var rest := SplitAt(expr, ops, i + 1, i + 1);
      var r := [expr[start..i], expr[i..i + 1]] + rest;
      assert SplitAt(expr, ops, start, i) == r;
      forall k | 0 <= k < |r|
        ensures k % 2 == 1 ==> |r[k]| == 1 && r[k][0] in ops
        ensures |r[k]| <= |expr| - start
        ensures start < i ==> |r[k]| < |expr| - start
      {
        if k >= 2 {
          assert r[k] == rest[k - 2] && (k - 2) % 2 == k % 2;
        }
      }
    } else {
      SplitAtPieces(expr, ops, start, i + 1);
    }
  }

  /** splitByOperators(expr, ops): the pieces between the split points, with each
      split point's operator as a piece of its own. */
  function Split(expr: string, ops: string): (r: seq<string>)
    ensures |r| % 2 == 1
    ensures Concat(r) == expr
    ensures forall k :: 0 <= k < |r| && k % 2 == 1 ==> |r[k]| == 1 && r[k][0] in ops
    ensures |r| > 1 ==> forall k :: 0 <= k < |r| ==> |r[k]| < |expr|
  {
    if expr == [] then [expr]
    else
      SplitAtSpells(expr, ops, 0, 1);
      SplitAtPieces(expr, ops, 0, 1);
      SplitAt(expr, ops, 0, 1)
  }

  method SplitByOperators(expr: string, ops: string) returns (parts: seq<string>)
    ensures parts == Split(expr, ops)
  {
    parts := [];
    var start := 0;
    var i := 0;
    while i < |expr|
      invariant start <= i <= |expr|
      invariant i == 0 ==> start == 0
      invariant parts + SplitAt(expr, ops, start, i) == Split(expr, ops)
    {
      if expr[i] in ops {
        if i == 0 || expr[i - 1] in SignContext {
          assert !IsSplitPoint(expr, ops, i);
          i := i + 1;
          continue;
        }
        assert IsSplitPoint(expr, ops, i);
        parts := parts + [expr[start..i], expr[i..i + 1]];
        start := i + 1;
      } else {
        assert !IsSplitPoint(expr, ops, i);
      }
      i := i + 1;
    }
    parts := parts + [expr[start..]];
  }

  // ---------------------------------------------------------------------------
  // findMatchingParenthesis
  // ---------------------------------------------------------------------------

  function Delta(c: char): int {
    if c == '(' then 1 else if c == ')' then -1 else 0
  }

  /** The nesting depth after reading `expr[start + 1..j]`, starting from 1 for
      the parenthesis at `start`. */
  function Depth(expr: string, start: nat, j: nat): int
    requires start < j <= |expr|
    decreases j
  {
    if j == start + 1 then 1 else Depth(expr, start, j - 1) + Delta(expr[j - 1])
  }

  /** The position of the parenthesis that closes the one at `start`: the first
      position after `start` where the depth drops to 0. */
  method FindMatchingParenthesis(expr: string, start: nat) returns (r: Result<nat>)
    ensures r.Ok? ==> start < r.value < |expr| && expr[r.value] == ')'
    ensures r.Ok? ==> Depth(expr, start, r.value + 1) == 0
    ensures r.Ok? ==> forall j :: start < j <= r.value ==> Depth(expr, start, j) > 0
    ensures r.Err? ==> r.error == UnmatchedParenthesis(expr)
    ensures r.Err? ==> forall j :: start < j <= |expr| ==> Depth(expr, start, j) > 0
  {
    var count := 1;
    var i := start + 1;
    while i < |expr|
      invariant start < i
      invariant i <= |expr| ==> count == Depth(expr, start, i)
      invariant forall j :: start < j <= i && j <= |expr| ==> Depth(expr, start, j) > 0
    {
      if expr[i] == '(' {
        count := count + 1;
      } else if expr[i] == ')' {
        count := count - 1;
      }
      if count == 0 {
        return Ok(i);
      }
      i := i + 1;
    }
    return Err(UnmatchedParenthesis(expr));
  }

  // ---------------------------------------------------------------------------
  // parseOperations
  // ---------------------------------------------------------------------------

  /** The two levels that fold left to right. */
  datatype Level = Additive | Multiplicative {
    function Operators(): string {
      match this
      case Additive => "+-"
      case Multiplicative => "*/"
    }
  }

  /** One turn of the loop at lines 86-91 or 98-106: `acc op next`. An operator
      the level does not know leaves `acc` as it is. */
  function Combine(level: Level, op: string, acc: real, next: real): (r: Result<real>)
    ensures r.Err? <==> level == Multiplicative && op == "/" && next == 0.0
    ensures r.Err? ==> r.error == DivisionByZero
  {
    match level
    case Additive =>
      Ok(if op == "+" then acc + next else if op == "-" then acc - next else acc)
    case Multiplicative =>
      if op == "*" then Ok(acc * next)
      else if op != "/" then Ok(acc)
      else if next == 0.0 then Err(DivisionByZero)
      else Ok(acc / next)
  }

  /** Which piece of the '^' split line 112 raises to: the code passes piece 1,
      which is the "^" itself; the operand after it is piece 2. */
  function ExponentPiece(reading: Reading): nat {
    match reading
    case AsWritten => 1
    case Intended => 2
  }

  /** A failure parseOperations can raise. */
  predicate IsParseFailure(e: Error) {
    e.DivisionByZero? || e.StackOverflow? || e.InvalidExpression?
  }

  /** parseOperations(expr). A '^' split into one piece recurses on `expr` itself
      without end, which the model reports as StackOverflow. */
  function ParseOps(env: Env, reading: Reading, expr: string): (r: Result<real>)
    ensures r.Err? ==> IsParseFailure(r.error)
    decreases |expr|, 1
  {
    var sums := Split(expr, Additive.Operators());
    if |sums| > 1 then
      Chain(env, reading, Additive, sums, |expr|)
    else
      var products := Split(expr, Multiplicative.Operators());
      if |products| > 1 then
        Chain(env, reading, Multiplicative, products, |expr|)
      else if '^' in expr then
        var powers := Split(expr, "^");
        if |powers| == 1 then
          Err(StackOverflow)
        else
          var base :- ParseOps(env, reading, powers[0]);
          var exponent :- ParseOps(env, reading, powers[ExponentPiece(reading)]);
          Ok(env.pow(base, exponent))
      else
        match env.parseDouble(expr)
        case Some(v) => Ok(v)
        case None => Err(InvalidExpression(expr))
  }

  /** The loop over operand, operator, operand, ... at one level, as a left fold:
      the pieces before the last operator, combined with the last piece.
      Pieces are evaluated left to right, as the loop does. */
  function Chain(env: Env, reading: Reading, level: Level, parts: seq<string>, bound: nat): (r: Result<real>)
    requires |parts| % 2 == 1
    requires forall k :: 0 <= k < |parts| ==> |parts[k]| < bound
    ensures r.Err? ==> IsParseFailure(r.error)
    decreases bound, 0, |parts|
  {
    if |parts| == 1 then
      ParseOps(env, reading, parts[0])
    else
      var acc :- Chain(env, reading, level, parts[..|parts| - 2], bound);
      var next :- ParseOps(env, reading, parts[|parts| - 1]);
      Combine(level, parts[|parts| - 2], acc, next)
  }

  // ---------------------------------------------------------------------------
  // parse: the rewrites before the groups are evaluated
  // ---------------------------------------------------------------------------

  /** The '-' at `i` is rewritten to "0-". As written (line 10, the pattern
      `(?<![0-9)])-`), every minus not after a digit or ')' is; the intended
      rewrite touches only a minus that opens the text or a group, and leaves a
      minus after an operator to splitByOperators, which reads it as a sign. */
  predicate IsUnaryMinus(s: string, i: nat, reading: Reading)
    requires i < |s|
  {
    s[i] == '-' &&
    (i == 0 ||
     match reading
     case AsWritten => !(IsDigit(s[i - 1]) || s[i - 1] == ')')
     case Intended => s[i - 1] == '(')
  }

  /** `s` with "0" written before each unary minus: afterwards no minus is unary. */
  function UnaryMinus(s: string, reading: Reading): (r: string)
    ensures |r| >= |s|
    ensures s != [] ==> r != [] && r[|r| - 1] == s[|s| - 1]
    ensures forall c :: c in r ==> c in s || c == '0'
    ensures forall j :: 0 <= j < |r| ==> !IsUnaryMinus(r, j, reading)
    decreases |s|
  {
    if s == [] then []
    else
      var n := |s| - 1;
      var head := UnaryMinus(s[..n], reading);
      var piece := if IsUnaryMinus(s, n, reading) then "0-" else [s[n]];
      var r := head + piece;
      assert forall j :: 0 <= j < |head| ==> r[j] == head[j];
      assert forall j :: 0 <= j < |head| ==> !IsUnaryMinus(r, j, reading) by {
        forall j | 0 <= j < |head| ensures !IsUnaryMinus(r, j, reading) {
          assert !IsUnaryMinus(head, j, reading);
          assert j > 0 ==> r[j - 1] == head[j - 1];
        }
      }
      assert n > 0 ==> head != [] && head[|head| - 1] == s[n - 1];
      r
  }

  /** The number of unary minuses before position `i`: how far the rewrite has
      shifted the character at `i`. */
  function Inserted(s: string, i: nat, reading: Reading): nat
    requires i <= |s|
  {
    if i == 0 then 0
    else Inserted(s, i - 1, reading) + if IsUnaryMinus(s, i - 1, reading) then 1 else 0
  }

  /** Cutting the text after position `n` changes neither the unary minuses nor their count before it. */
  lemma {:induction false} InsertedPrefix(s: string, n: nat, i: nat, reading: Reading)
    requires i <= n <= |s|
    ensures Inserted(s[..n], i, reading) == Inserted(s, i, reading)
    decreases i
  {
    if i > 0 {
      InsertedPrefix(s, n, i - 1, reading);
      assert s[..n][i - 1] == s[i - 1];
      assert i > 1 ==> s[..n][i - 2] == s[i - 2];
    }
  }

  /** The character at `i` of `s` sits in `r` shifted right by the unary minuses
      up to and including it, and a unary minus has "0" just before it. */
  predicate Placed(s: string, r: string, i: nat, reading: Reading)
    requires i < |s|
  {
    && i + Inserted(s, i + 1, reading) < |r|
    && r[i + Inserted(s, i + 1, reading)] == s[i]
    && (IsUnaryMinus(s, i, reading) ==> i + Inserted(s, i, reading) < |r| && r[i + Inserted(s, i, reading)] == '0')
  }

  /** Where the rewrite puts each character: every character of `s` is kept, in
      order, each unary minus gets a "0" just before it, and the length grows by
      the number of unary minuses, so nothing else is written. */
  lemma {:induction false} UnaryMinusPlaces(s: string, reading: Reading)
    ensures var r := UnaryMinus(s, reading);
            && |r| == |s| + Inserted(s, |s|, reading)
            && forall i :: 0 <= i < |s| ==> Placed(s, r, i, reading)
    decreases |s|
  {
    if s != [] {
      var n := |s| - 1;
      var t := s[..n];
      var head := UnaryMinus(t, reading);
      var r := UnaryMinus(s, reading);
      UnaryMinusPlaces(t, reading);
      assert r == head + (if IsUnaryMinus(s, n, reading) then "0-" else [s[n]]);
      assert r[..|head|] == head;
      InsertedPrefix(s, n, n, reading);
      assert |r| == |s| + Inserted(s, |s|, reading) by {
        assert |s| == n + 1;
      }
      forall i | 0 <= i < |s|
        ensures Placed(s, r, i, reading)
      {
        if i < n {
          InsertedPrefix(s, n, i, reading);
          InsertedPrefix(s, n, i + 1, reading);
          HeadPlaced(s, t, head, r, i, reading);
        } else {
          assert Inserted(s, i + 1, reading) == Inserted(s, n, reading) + if IsUnaryMinus(s, n, reading) then 1 else 0;
        }
      }
    }
  }

  /** A character before the last keeps its place when the last one is rewritten. */
  lemma HeadPlaced(s: string, t: string, head: string, r: string, i: nat, reading: Reading)
    requires |s| > 0 && t == s[..|s| - 1] && i < |t| && |head| <= |r| && r[..|head|] == head
    requires |head| == |t| + Inserted(t, |t|, reading) && Placed(t, head, i, reading)
    requires Inserted(t, i, reading) == Inserted(s, i, reading) && Inserted(t, i + 1, reading) == Inserted(s, i + 1, reading)
    ensures Placed(s, r, i, reading)
  {
    assert t[i] == s[i];
    assert IsUnaryMinus(t, i, reading) == IsUnaryMinus(s, i, reading) by {
      assert i > 0 ==> t[i - 1] == s[i - 1];
    }
    assert r[i + Inserted(s, i + 1, reading)] == head[i + Inserted(s, i + 1, reading)];
    assert IsUnaryMinus(s, i, reading) ==> r[i + Inserted(s, i, reading)] == head[i + Inserted(s, i, reading)];
  }

  /** Lines 6-13: whitespace removed, functions expanded, unary minus rewritten,
      then "pi" and "e" replaced by the decimal forms of the constants. */
  function Prepare(env: Env, reading: Reading, expression: string): (r: Result<string>)
    requires env.Valid()
    ensures '(' !in expression ==> r.Ok? && '(' !in r.value
  {
    var compact := RemoveWhitespace(expression);
    var expanded :- env.functions(compact);
    var signed := UnaryMinus(expanded, reading);
    Ok(Replace(Replace(signed, "pi", env.piText), "e", env.eText))
  }

  // ---------------------------------------------------------------------------
  // parse: the innermost groups first
  // ---------------------------------------------------------------------------

  /** 1 for text that still holds a group, 0 otherwise: a nested parse of a
      group's contents never meets another group. */
  function Rank(s: string): nat {
    if '(' in s then 1 else 0
  }

  /** parse(expression). */
  function Evaluate(env: Env, reading: Reading, expression: string): (r: Result<real>)
    requires env.Valid()
    decreases Rank(expression), 1
  {
    var prepared :- Prepare(env, reading, expression);
    Flatten(env, reading, prepared, Rank(expression))
  }

  /** Past the last '(' there is none. */
  lemma NoOpenAfter(t: string, start: int, from: int, to: int)
    requires start == LastIndexOf(t, '(') && start < from <= to <= |t|
    ensures '(' !in t[from..to]
  {
    var piece := t[from..to];
    forall k | 0 <= k < |piece| ensures piece[k] != '(' {
      assert piece[k] == t[from + k];
    }
  }

  /** The ')' found from a '(' comes after it. */
  lemma CloseAfterOpen(t: string, start: nat, end: int)
    requires start < |t| && t[start] == '(' && end == IndexOfFrom(t, ")", start) && end >= 0
    ensures start < end < |t| && t[end] == ')'
  {
    var close := t[end..end + 1];
    assert close == ")" && close[0] == t[end];
  }

  /** The group lines 16-18 pick, the last '(' and the first ')' after it, holds
      no '(', and no '(' follows it. */
  lemma InnermostGroup(t: string, start: int, end: int)
    requires '(' in t && start == LastIndexOf(t, '(') && end == IndexOfFrom(t, ")", start)
    ensures 0 <= start < |t| && t[start] == '('
    ensures end >= 0 ==> start < end < |t| && '(' !in t[start + 1..end] && '(' !in t[end + 1..]
  {
    if end >= 0 {
      CloseAfterOpen(t, start, end);
      NoOpenAfter(t, start, start + 1, end);
      NoOpenAfter(t, start, end + 1, |t|);
    }
  }

  /** Putting text without '(' in place of a group leaves one '(' fewer. */
  lemma FewerOpens(t: string, start: nat, end: nat, value: string)
    requires start < end < |t| && t[start] == '('
    requires '(' !in t[end + 1..] && '(' !in value
    ensures Count(t[..start] + value + t[end + 1..], '(') < Count(t, '(')
  {
    assert t == t[..start] + t[start..end + 1] + t[end + 1..];
    assert t[start..end + 1][0] == '(';
  }

  /** Lines 16-18: the text between the last '(' and the first ')' after it;
      substring throws when there is no such ')'. */
  function InnerGroup(t: string): (r: Result<string>)
    requires '(' in t
    ensures var start := LastIndexOf(t, '(');
            var end := IndexOfFrom(t, ")", start);
            && (r.Ok? <==> end >= 0)
            && (r.Ok? ==> start < end && r.value == t[start + 1..end] && '(' !in r.value)
    ensures r.Err? ==> r.error == IndexOutOfBounds
  {
    var start := LastIndexOf(t, '(');
    var end := IndexOfFrom(t, ")", start);
    InnermostGroup(t, start, end);
    Substring(t, start + 1, end)
  }

  /** Line 20: the group, parentheses included, replaced by `text`. */
  function Substitute(t: string, text: string): (r: string)
    requires '(' in t && IndexOfFrom(t, ")", LastIndexOf(t, '(')) >= 0
    ensures '(' !in text ==> Count(r, '(') < Count(t, '(')
  {
    var start := LastIndexOf(t, '(');
    var end := IndexOfFrom(t, ")", start);
    InnermostGroup(t, start, end);
    if '(' !in text then FewerOpens(t, start, end, text); t[..start] + text + t[end + 1..]
    else t[..start] + text + t[end + 1..]
  }

  /** Lines 15-23: while a '(' is left, the innermost group is parsed on its own
      and the decimal form of its value takes its place; then the remaining text
      goes to parseOperations. */
  function Flatten(env: Env, reading: Reading, t: string, rank: nat): (r: Result<real>)
    requires env.Valid()
    requires rank == 1 || '(' !in t
    decreases rank, 0, Count(t, '(')
  {
    if '(' !in t then
      ParseOps(env, reading, t)
    else
      var inner :- InnerGroup(t);
      var value :- Evaluate(env, reading, inner);
      Flatten(env, reading, Substitute(t, env.render(value)), rank)
  }

  /** One turn of the loop at lines 15-21, for a group whose contents parse to `value`. */
  lemma FlattenGroup(env: Env, reading: Reading, t: string, inner: string, value: real)
    requires env.Valid() && '(' in t
    requires InnerGroup(t) == Ok(inner) && Evaluate(env, reading, inner) == Ok(value)
    ensures Flatten(env, reading, t, 1) == Flatten(env, reading, Substitute(t, env.render(value)), 1)
  {
  }

  /** A group that cannot be cut out, or whose contents fail to parse, ends the parse
      with that failure. */
  lemma FlattenGroupFails(env: Env, reading: Reading, t: string, e: Error)
    requires env.Valid() && '(' in t
    requires InnerGroup(t) == Err(e) || (InnerGroup(t).Ok? && Evaluate(env, reading, InnerGroup(t).value) == Err(e))
    ensures Flatten(env, reading, t, 1) == Err(e)
  {
  }

  method Parse(env: Env, reading: Reading, expression: string) returns (r: Result<real>)
    requires env.Valid()
    ensures r == Evaluate(env, reading, expression)
    decreases Rank(expression), 2
  {
    var prepared := Prepare(env, reading, expression);
    if prepared.Err? {
      return Err(prepared.error);
    }
    r := ParseGroups(env, reading, prepared.value, Rank(expression));
  }

  /** The loop at lines 15-21 and the call at line 23. */
  method ParseGroups(env: Env, reading: Reading, t: string, rank: nat) returns (r: Result<real>)
    requires env.Valid()
    requires rank == 1 || '(' !in t
    ensures r == Flatten(env, reading, t, rank)
    decreases rank, 1
  {
    var s := t;
    while '(' in s
      invariant rank == 1 || '(' !in s
      invariant Flatten(env, reading, s, rank) == Flatten(env, reading, t, rank)
      decreases Count(s, '(')
    {
      var next := ReplaceGroup(env, reading, s);
      if next.Err? {
        return Err(next.error);
      }
      s := next.value;
    }
    r := ParseOps(env, reading, s);
  }

  /** One turn of the loop at lines 15-21: the innermost group cut out, parsed on
      its own, and the decimal form of its value put in its place. */
  method ReplaceGroup(env: Env, reading: Reading, s: string) returns (next: Result<string>)
    requires env.Valid() && '(' in s
    ensures next.Err? ==> Flatten(env, reading, s, 1) == Err(next.error)
    ensures next.Ok? ==> Flatten(env, reading, next.value, 1) == Flatten(env, reading, s, 1)
    ensures next.Ok? ==> Count(next.value, '(') < Count(s, '(')
    decreases 1, 0
  {
    var start := LastIndexOf(s, '(');
    var end := IndexOfFrom(s, ")", start);
    var cut := Substring(s, start + 1, end);
    assert InnerGroup(s) == cut;
    if cut.Err? {
      FlattenGroupFails(env, reading, s, cut.error);
      return Err(cut.error);
    }
    var inner := cut.value;
    var parsed := Parse(env, reading, inner);
    if parsed.Err? {
      FlattenGroupFails(env, reading, s, parsed.error);
      return Err(parsed.error);
    }
    var text := Substitute(s, env.render(parsed.value));
    FlattenGroup(env, reading, s, inner, parsed.value);
    next := Ok(text);
  }
}
