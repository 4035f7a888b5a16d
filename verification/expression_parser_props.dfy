/**
 * Properties of the ExpressionParser model: what splitByOperators returns,
 * exactly; that the unary-minus rewrite leaves no unary minus behind; and what
 * the '^' branch of parseOperations does as written and as intended.
 */
module ExpressionParserProperties {
  import opened Outcomes
  import opened Text
  import opened ExpressionParser

  // ---------------------------------------------------------------------------
  // splitByOperators, characterised
  // ---------------------------------------------------------------------------

  /** Every operator set the parser splits by (the sums, the products, the powers) is made of sign-context characters. */
  predicate SignOperators(ops: string) {
    forall c :: c in ops ==> c in SignContext
  }

  predicate NoSplitPoint(s: string, ops: string) {
    forall j :: 0 <= j < |s| ==> !IsSplitPoint(s, ops, j)
  }

  /** The shape of what splitByOperators returns: operands and one-character
      operators alternate; no operand holds a split point of its own; every
      operand before an operator is non-empty and ends outside sign position,
      so that the operator after it does split. */
  predicate WellSplit(parts: seq<string>, ops: string) {
    && |parts| % 2 == 1
    && (forall k :: 0 <= k < |parts| && k % 2 == 1 ==> |parts[k]| == 1 && parts[k][0] in ops)
    && (forall k :: 0 <= k < |parts| && k % 2 == 0 ==> NoSplitPoint(parts[k], ops))
    && (forall k :: 0 <= k < |parts| - 1 && k % 2 == 0 ==> parts[k] != [] && parts[k][|parts[k]| - 1] !in SignContext)
  }

  lemma WellSplitCons(a: string, o: string, rest: seq<string>, ops: string)
    requires WellSplit(rest, ops) && NoSplitPoint(a, ops)
    requires a != [] && a[|a| - 1] !in SignContext && |o| == 1 && o[0] in ops
    ensures WellSplit([a, o] + rest, ops)
  {
    var parts := [a, o] + rest;
    forall k | 2 <= k < |parts| ensures parts[k] == rest[k - 2] { }
  }

  lemma WellSplitTail(parts: seq<string>, ops: string)
    requires WellSplit(parts, ops) && |parts| > 1
    ensures WellSplit(parts[2..], ops)
    ensures parts == [parts[0], parts[1]] + parts[2..]
  {
    var rest := parts[2..];
    forall k | 0 <= k < |rest| ensures rest[k] == parts[k + 2] { }
  }

  /** Scanning past positions that are not split points changes nothing. */
  lemma {:induction false} SplitAtWalk(expr: string, ops: string, start: nat, i: nat, k: nat)
    requires start <= i <= k <= |expr|
    requires forall j :: i <= j < k ==> !IsSplitPoint(expr, ops, j)
    ensures SplitAt(expr, ops, start, i) == SplitAt(expr, ops, start, k)
    decreases k - i
  {
    if i < k {
      SplitAtWalk(expr, ops, start, i + 1, k);
    }
  }

  /** Past the first position, a suffix has the split points of the whole text;
      at its first position, neither has one when a sign-context character precedes it. */
  lemma ShiftSplitPoint(expr: string, ops: string, d: nat, i: nat)
    requires d <= i < |expr|
    requires d == 0 || expr[d - 1] in SignContext
    ensures IsSplitPoint(expr, ops, i) == IsSplitPoint(expr[d..], ops, i - d)
  {
    if i > d {
      assert expr[d..][i - d] == expr[i] && expr[d..][i - d - 1] == expr[i - 1];
    }
  }

  /** After a sign-context character the scan proceeds as on the text that follows it. */
  lemma {:induction false} SplitAtShift(expr: string, ops: string, d: nat, start: nat, i: nat)
    requires d <= start <= i <= |expr|
    requires d == 0 || expr[d - 1] in SignContext
    ensures SplitAt(expr, ops, start, i) == SplitAt(expr[d..], ops, start - d, i - d)
    decreases |expr| - i
  {
    var suffix := expr[d..];
    if i == |expr| {
      assert expr[start..] == suffix[start - d..];
    } else {
      ShiftSplitPoint(expr, ops, d, i);
      if IsSplitPoint(expr, ops, i) {
        var next := i + 1;
        SplitAtShift(expr, ops, d, next, next);
        var tail := SplitAt(expr, ops, next, next);
        var a, o := expr[start..i], expr[i..next];
        assert tail == SplitAt(suffix, ops, next - d, next - d);
        assert a == suffix[start - d..i - d];
        assert o == suffix[i - d..i - d + 1];
      } else {
        var next := i + 1;
        SplitAtShift(expr, ops, d, start, next);
        assert SplitAt(suffix, ops, start - d, i - d) == SplitAt(suffix, ops, start - d, next - d);
      }
    }
  }

  /** A prefix has the split points of the whole text below its length. */
  lemma PrefixSplitPoints(p: string, expr: string, ops: string)
    requires |p| <= |expr| && expr[..|p|] == p && NoSplitPoint(p, ops)
    ensures forall j :: 0 <= j < |p| ==> !IsSplitPoint(expr, ops, j)
  {
    forall j | 0 <= j < |p| ensures !IsSplitPoint(expr, ops, j) {
      assert !IsSplitPoint(p, ops, j);
      assert expr[j] == p[j];
      assert j > 0 ==> expr[j - 1] == p[j - 1];
    }
  }

  /** The pieces, written back to back, split into themselves. */
  lemma {:induction false} SplitConcat(parts: seq<string>, ops: string)
    requires SignOperators(ops) && WellSplit(parts, ops)
    ensures Split(Concat(parts), ops) == parts
    decreases |parts|
  {
    var expr := Concat(parts);
    var p := parts[0];
    assert NoSplitPoint(p, ops);
    if |parts| == 1 {
      assert parts[1..] == [];
      if p != [] {
        PrefixSplitPoints(p, expr, ops);
        SplitAtWalk(expr, ops, 0, 1, |p|);
      }
    } else {
      WellSplitTail(parts, ops);
      SplitFirstOperator(parts, ops);
      SplitConcat(parts[2..], ops);
    }
  }

  /** The first operand and operator come off the front; the scan then proceeds on
      the rest as on a text of its own. */
  lemma SplitFirstOperator(parts: seq<string>, ops: string)
    requires SignOperators(ops) && WellSplit(parts, ops) && |parts| > 1
    ensures Split(Concat(parts), ops) == [parts[0], parts[1]] + Split(Concat(parts[2..]), ops)
  {
    var expr := Concat(parts);
    var p, o, rest := parts[0], parts[1], parts[2..];
    assert NoSplitPoint(p, ops) && p != [] && p[|p| - 1] !in SignContext by {
      assert 0 < |parts| - 1;
    }
    assert |o| == 1 && o[0] in ops && o[0] in SignContext;
    assert expr == p + (o + Concat(rest)) by {
      assert parts[1..][1..] == rest;
      assert Concat(parts[1..]) == o + Concat(rest);
    }
    FirstSplitPoint(expr, p, o + Concat(rest), ops);
    SplitAtShift(expr, ops, |p| + 1, |p| + 1, |p| + 1);
    assert expr[|p| + 1..] == Concat(rest);
    SplitFromStart(Concat(rest), ops);
    assert Split(expr, ops) == SplitAt(expr, ops, 0, 1);
  }

  /** A scan that starts before the first character splits the same way. */
  lemma SplitFromStart(x: string, ops: string)
    ensures SplitAt(x, ops, 0, 0) == Split(x, ops)
  {
  }

  /** An operand with no split point of its own, ending outside sign position,
      followed by an operator: the scan stops right after it. */
  lemma FirstSplitPoint(expr: string, p: string, tail: string, ops: string)
    requires expr == p + tail && NoSplitPoint(p, ops)
    requires p != [] && p[|p| - 1] !in SignContext && tail != [] && tail[0] in ops
    ensures SplitAt(expr, ops, 0, 1) == [p, tail[..1]] + SplitAt(expr, ops, |p| + 1, |p| + 1)
  {
    assert expr[..|p|] == p;
    PrefixSplitPoints(p, expr, ops);
    SplitAtWalk(expr, ops, 0, 1, |p|);
    assert expr[|p|] == tail[0] && expr[|p| - 1] == p[|p| - 1];
    assert IsSplitPoint(expr, ops, |p|);
    assert expr[0..|p|] == p && expr[|p|..|p| + 1] == tail[..1];
  }

  /** A piece that starts the text or follows a sign-context character, scanned
      without meeting a split point, holds no split point of its own. */
  lemma PieceNoSplitPoint(expr: string, ops: string, start: nat, i: nat)
    requires start <= i <= |expr|
    requires start == 0 || expr[start - 1] in SignContext
    requires forall j :: start <= j < i ==> !IsSplitPoint(expr, ops, j)
    ensures NoSplitPoint(expr[start..i], ops)
  {
    var a := expr[start..i];
    forall j | 0 <= j < |a| ensures !IsSplitPoint(a, ops, j) {
      if j > 0 { assert !IsSplitPoint(expr, ops, start + j); }
      assert a[j] == expr[start + j];
      assert j > 0 ==> a[j - 1] == expr[start + j - 1];
    }
  }

  lemma {:induction false} SplitAtWell(expr: string, ops: string, start: nat, i: nat)
    requires SignOperators(ops) && start <= i <= |expr|
    requires start == 0 || expr[start - 1] in SignContext
    requires forall j :: start <= j < i ==> !IsSplitPoint(expr, ops, j)
    ensures WellSplit(SplitAt(expr, ops, start, i), ops)
    decreases |expr| - i
  {
    if i == |expr| {
      PieceNoSplitPoint(expr, ops, start, i);
      assert expr[start..] == expr[start..i];
    } else if IsSplitPoint(expr, ops, i) {
      PieceNoSplitPoint(expr, ops, start, i);
      SplitAtWell(expr, ops, i + 1, i + 1);
      var a := expr[start..i];
      assert a != [] && a[|a| - 1] == expr[i - 1];
      WellSplitCons(a, expr[i..i + 1], SplitAt(expr, ops, i + 1, i + 1), ops);
    } else {
      SplitAtWell(expr, ops, start, i + 1);
    }
  }

  /** splitByOperators returns the one alternation of operands and operators
      that spells `expr` and has the shape `WellSplit` describes. */
  lemma SplitCharacterized(expr: string, ops: string, parts: seq<string>)
    requires SignOperators(ops)
    ensures Split(expr, ops) == parts <==> WellSplit(parts, ops) && Concat(parts) == expr
  {
    if Split(expr, ops) == parts {
      if expr == [] {
        assert parts == [[]];
      } else {
        SplitAtWell(expr, ops, 0, 1);
      }
    }
    if WellSplit(parts, ops) && Concat(parts) == expr {
      SplitConcat(parts, ops);
    }
  }

  /** Text without a split point is one piece. */
  lemma SplitWhole(expr: string, ops: string)
    requires SignOperators(ops) && NoSplitPoint(expr, ops)
    ensures Split(expr, ops) == [expr]
  {
    assert Concat([expr]) == expr + Concat([]);
    SplitCharacterized(expr, ops, [expr]);
  }

  /** Text with no character of `ops` past its first is one piece. */
  lemma SplitWithout(expr: string, ops: string)
    requires SignOperators(ops) && forall j :: 0 < j < |expr| ==> expr[j] !in ops
    ensures Split(expr, ops) == [expr]
  {
    assert NoSplitPoint(expr, ops);
    SplitWhole(expr, ops);
  }

  /** One operator between two operands without split points of their own, the
      left one ending outside sign position, splits the text in three. */
  lemma SplitBinary(a: string, op: char, b: string, ops: string)
    requires SignOperators(ops) && op in ops
    requires a != [] && a[|a| - 1] !in SignContext
    requires NoSplitPoint(a, ops) && NoSplitPoint(b, ops)
    ensures Split(a + [op] + b, ops) == [a, [op], b]
  {
    var parts := [a, [op], b];
    assert parts[1..] == [[op], b] && [[op], b][1..] == [b] && [b][1..] == [];
    assert Concat([b]) == b;
    assert Concat([[op], b]) == [op] + b;
    assert Concat(parts) == a + [op] + b;
    SplitCharacterized(a + [op] + b, ops, parts);
  }

  // ---------------------------------------------------------------------------
  // parseOperations, one level at a time
  // ---------------------------------------------------------------------------

  /** Text that splits at a sum is the fold over the sum's pieces. */
  lemma ParseSum(env: Env, reading: Reading, expr: string, parts: seq<string>)
    requires Split(expr, "+-") == parts && |parts| > 1
    ensures ParseOps(env, reading, expr) == Chain(env, reading, Additive, parts, |expr|)
  {
  }

  /** Text that splits at a product but not at a sum is the fold over the product's pieces. */
  lemma ParseProduct(env: Env, reading: Reading, expr: string, parts: seq<string>)
    requires Split(expr, "+-") == [expr] && Split(expr, "*/") == parts && |parts| > 1
    ensures ParseOps(env, reading, expr) == Chain(env, reading, Multiplicative, parts, |expr|)
  {
  }

  /** The fold over one operator: both operands, left first, then the operator. */
  lemma ChainOfTwo(env: Env, reading: Reading, level: Level, a: string, op: string, b: string, bound: nat)
    requires |a| < bound && |op| < bound && |b| < bound
    ensures var x := ParseOps(env, reading, a);
            var y := ParseOps(env, reading, b);
            Chain(env, reading, level, [a, op, b], bound) ==
              if x.Err? then x else if y.Err? then y else Combine(level, op, x.value, y.value)
  {
    assert [a, op, b][..1] == [a];
  }

  // ---------------------------------------------------------------------------
  // The unary-minus rewrite
  // ---------------------------------------------------------------------------

  /** Text with no unary minus is left as it is. */
  lemma {:induction false} UnaryMinusKeeps(s: string, reading: Reading)
    requires forall j :: 0 <= j < |s| ==> !IsUnaryMinus(s, j, reading)
    ensures UnaryMinus(s, reading) == s
    decreases |s|
  {
    if s != [] {
      var n := |s| - 1;
      forall j | 0 <= j < n ensures !IsUnaryMinus(s[..n], j, reading) {
        assert !IsUnaryMinus(s, j, reading);
        assert s[..n][j] == s[j] && (j > 0 ==> s[..n][j - 1] == s[j - 1]);
      }
      UnaryMinusKeeps(s[..n], reading);
      assert s[..n] + [s[n]] == s;
    }
  }

  /** Rewriting twice is rewriting once. */
  lemma UnaryMinusIdempotent(s: string, reading: Reading)
    ensures UnaryMinus(UnaryMinus(s, reading), reading) == UnaryMinus(s, reading)
  {
    UnaryMinusKeeps(UnaryMinus(s, reading), reading);
  }

  // ---------------------------------------------------------------------------
  // The '^' branch of parseOperations
  // ---------------------------------------------------------------------------

  /** "^" alone is a '^' split into one piece: parseOperations calls itself on it again. */
  lemma CaretAlone(env: Env, reading: Reading)
    ensures ParseOps(env, reading, "^") == Err(StackOverflow)
  {
    assert Split("^", "+-") == ["^"];
    assert Split("^", "*/") == ["^"];
    assert Split("^", "^") == ["^"];
  }

  /** As written, text that reaches the '^' branch never yields a value: piece 1
      of the split is the "^" itself, and parsing it recurses without end. */
  lemma PowerAsWrittenFails(env: Env, expr: string)
    requires |Split(expr, "+-")| == 1 && |Split(expr, "*/")| == 1 && '^' in expr
    ensures ParseOps(env, AsWritten, expr).Err?
    ensures |Split(expr, "^")| == 1 || ParseOps(env, AsWritten, Split(expr, "^")[0]).Ok? ==>
              ParseOps(env, AsWritten, expr) == Err(StackOverflow)
  {
    var powers := Split(expr, "^");
    if |powers| > 1 {
      assert powers[1] == "^";
      CaretAlone(env, AsWritten);
    }
  }

  /** `a ^ b` with operands holding no operator character splits into a, "^", b
      at the powers and into one piece at the sums and the products. */
  lemma PowerPieces(a: string, b: string)
    requires a != [] && a[|a| - 1] !in SignContext
    requires forall j :: 0 <= j < |a| ==> a[j] !in "+-*/^"
    requires forall j :: 0 <= j < |b| ==> b[j] !in "+-*/^"
    ensures var expr := a + "^" + b;
            Split(expr, "+-") == [expr] && Split(expr, "*/") == [expr] && '^' in expr
            && Split(expr, "^") == [a, "^", b]
  {
    var expr := a + "^" + b;
    forall j | 0 <= j < |expr| ensures expr[j] !in "+-*/" {
      if j < |a| { assert expr[j] == a[j]; }
      else if j > |a| { assert expr[j] == b[j - |a| - 1]; }
    }
    SplitWithout(expr, "+-");
    SplitWithout(expr, "*/");
    assert expr[|a|] == '^';
    assert NoSplitPoint(a, "^") && NoSplitPoint(b, "^");
    SplitBinary(a, '^', b, "^");
  }

  /** `a ^ b` for operands holding no operator character: as intended it is
      pow(a, b), the operands parsed left to right. */
  lemma PowerIntended(env: Env, a: string, b: string)
    requires a != [] && a[|a| - 1] !in SignContext
    requires forall j :: 0 <= j < |a| ==> a[j] !in "+-*/^"
    requires forall j :: 0 <= j < |b| ==> b[j] !in "+-*/^"
    ensures var x := ParseOps(env, Intended, a);
            var y := ParseOps(env, Intended, b);
            ParseOps(env, Intended, a + "^" + b) ==
              if x.Err? then x else if y.Err? then y else Ok(env.pow(x.value, y.value))
  {
    PowerPieces(a, b);
  }

  /** The same text as written: whatever `a` is, it never yields a value. */
  lemma PowerAsWritten(env: Env, a: string, b: string)
    requires a != [] && a[|a| - 1] !in SignContext
    requires forall j :: 0 <= j < |a| ==> a[j] !in "+-*/^"
    requires forall j :: 0 <= j < |b| ==> b[j] !in "+-*/^"
    ensures var x := ParseOps(env, AsWritten, a);
            ParseOps(env, AsWritten, a + "^" + b) == if x.Err? then x else Err(StackOverflow)
  {
    PowerPieces(a, b);
    CaretAlone(env, AsWritten);
  }
}
