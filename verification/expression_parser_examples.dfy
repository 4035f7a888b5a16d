/**
 * The parser on inputs from its tests: a group evaluated first
 * (CalculatorIdeTest.java line 34), a product with a negative factor (line 40),
 * a power of e (line 62) and a group left open (line 155), each under both
 * readings where they differ. The JDK
 * routines keep their abstract form; each lemma names the few values of them
 * it needs.
 */
module ExpressionParserExamples {
  import opened Outcomes
  import opened Text
  import opened ExpressionParser
  import opened ExpressionParserProperties

  /** Lines 6-13 on text holding no group and no letter of "pi" or "e": only the
      whitespace and the unary minus change. */
  lemma PrepareWithoutNames(env: Env, reading: Reading, s: string)
    requires env.Valid() && '(' !in s && 'p' !in s && 'e' !in s
    ensures Prepare(env, reading, s) == Ok(UnaryMinus(RemoveWhitespace(s), reading))
  {
    var signed := UnaryMinus(RemoveWhitespace(s), reading);
    NotContains(signed, "pi");
    NotContains(signed, "e");
  }

  /** Text with no operator character past its first, and no '^' at all, goes
      straight to Double.parseDouble. */
  lemma Leaf(env: Env, reading: Reading, t: string)
    requires forall j :: 0 < j < |t| ==> t[j] !in "+-*/^"
    requires t == [] || t[0] != '^'
    ensures ParseOps(env, reading, t) ==
              if env.parseDouble(t).Some? then Ok(env.parseDouble(t).value) else Err(InvalidExpression(t))
  {
    SplitWithout(t, "+-");
    SplitWithout(t, "*/");
  }

  lemma RemoveSpaces()
    ensures RemoveWhitespace("2 * -3") == "2*-3"
  {
    assert RemoveWhitespace("3") == "3";
    assert RemoveWhitespace("-3") == "-3";
    assert RemoveWhitespace(" -3") == "-3";
    assert RemoveWhitespace("* -3") == "*-3";
    assert RemoveWhitespace(" * -3") == "*-3";
  }

  lemma SpacesInGroup()
    ensures RemoveWhitespace("(2 + 3") == "(2+3"
  {
    assert RemoveWhitespace("3") == "3";
    assert RemoveWhitespace(" 3") == "3";
    assert RemoveWhitespace("+ 3") == "+3";
    assert RemoveWhitespace(" + 3") == "+3";
  }

  lemma SpacesInQuotient()
    ensures RemoveWhitespace("5 / 0") == "5/0"
  {
    assert RemoveWhitespace("0") == "0";
    assert RemoveWhitespace(" 0") == "0";
    assert RemoveWhitespace("/ 0") == "/0";
    assert RemoveWhitespace(" / 0") == "/0";
  }

  lemma ZeroInsertedAsWritten()
    ensures UnaryMinus("2*-3", AsWritten) == "2*0-3"
  {
    assert "2*-3"[..3] == "2*-" && "2*-"[..2] == "2*" && "2*"[..1] == "2" && "2"[..0] == "";
    assert UnaryMinus("2", AsWritten) == "2";
    assert UnaryMinus("2*", AsWritten) == "2*";
    assert IsUnaryMinus("2*-", 2, AsWritten);
    assert UnaryMinus("2*-", AsWritten) == "2*0-";
  }

  /** A number as parseOperations meets it: a sign at most in front, no other
      operator character, and an end outside sign position. */
  predicate Operand(t: string) {
    t != [] && t[0] !in "*/^" && t[|t| - 1] !in SignContext &&
    forall j :: 0 < j < |t| ==> t[j] !in "+-*/^"
  }

  /** A sign in front of the second factor of a product or quotient is no
      split point. */
  lemma ProductHasNoSum(a: string, op: string, b: string)
    requires Operand(a) && Operand(b) && (op == "*" || op == "/")
    ensures NoSplitPoint(a + op + b, "+-")
  {
    var expr := a + op + b;
    forall j | 0 <= j < |expr| ensures !IsSplitPoint(expr, "+-", j) {
      if 0 < j < |a| {
        assert expr[j] == a[j];
      } else if j == |a| + 1 {
        assert expr[j - 1] == op[0];
      } else if j > |a| + 1 {
        assert expr[j] == b[j - |a| - 1];
      }
    }
  }

  /** The product of two numbers: a sign in front of the second one stays a sign. */
  lemma Product(env: Env, reading: Reading, a: string, b: string, x: real, y: real)
    requires Operand(a) && Operand(b)
    requires env.parseDouble(a) == Some(x) && env.parseDouble(b) == Some(y)
    ensures ParseOps(env, reading, a + "*" + b) == Ok(x * y)
  {
    var expr := a + "*" + b;
    ProductHasNoSum(a, "*", b);
    SplitWhole(expr, "+-");
    SplitBinary(a, '*', b, "*/");
    ParseProduct(env, reading, expr, [a, "*", b]);
    ChainOfTwo(env, reading, Multiplicative, a, "*", b, |expr|);
    Leaf(env, reading, a);
    Leaf(env, reading, b);
  }

  /** A difference whose right operand is a number. */
  lemma Difference(env: Env, reading: Reading, p: string, c: string, x: real, y: real)
    requires p != [] && p[|p| - 1] !in SignContext && NoSplitPoint(p, "+-")
    requires Operand(c) && ParseOps(env, reading, p) == Ok(x) && env.parseDouble(c) == Some(y)
    ensures ParseOps(env, reading, p + "-" + c) == Ok(x - y)
  {
    var expr := p + "-" + c;
    assert Split(expr, "+-") == [p, "-", c] by {
      assert NoSplitPoint(c, "+-");
      SplitBinary(p, '-', c, "+-");
    }
    assert ParseOps(env, reading, c) == Ok(y) by {
      Leaf(env, reading, c);
    }
    ParseSum(env, reading, expr, [p, "-", c]);
    ChainOfTwo(env, reading, Additive, p, "-", c, |expr|);
  }

  lemma ProductAsWritten(env: Env)
    requires env.parseDouble("2") == Some(2.0) && env.parseDouble("0") == Some(0.0)
    requires env.parseDouble("3") == Some(3.0)
    ensures ParseOps(env, AsWritten, "2*0-3") == Ok(-3.0)
  {
    var p := "2" + "*" + "0";
    assert ParseOps(env, AsWritten, p) == Ok(0.0) && NoSplitPoint(p, "+-") by {
      Product(env, AsWritten, "2", "0", 2.0, 0.0);
      ProductHasNoSum("2", "*", "0");
    }
    Difference(env, AsWritten, p, "3", 0.0, 3.0);
    assert p + "-" + "3" == "2*0-3";
  }

  lemma ProductIntended(env: Env)
    requires env.parseDouble("2") == Some(2.0) && env.parseDouble("-3") == Some(-3.0)
    ensures ParseOps(env, Intended, "2*-3") == Ok(-6.0)
  {
    var q := "2" + "*" + "-3";
    assert ParseOps(env, Intended, q) == Ok(-6.0) by {
      Product(env, Intended, "2", "-3", 2.0, -3.0);
    }
    assert q == "2*-3";
  }

  lemma PrepareUnclosed(env: Env, reading: Reading)
    requires env.Valid() && env.functions("(2+3") == Ok("(2+3")
    ensures Prepare(env, reading, "(2 + 3") == Ok("(2+3")
  {
    SpacesInGroup();
    PrepareSimple(env, reading, "(2 + 3");
  }

  /** "(2 + 3": the group never closes, so `indexOf(")", start)` is -1 and
      `substring(start + 1, -1)` throws, the StringIndexOutOfBoundsException
      CalculatorIdeTest.java lines 153-159 accept. processFunctions finds no
      function name in the text and returns it unchanged. */
  lemma UnclosedGroup(env: Env, reading: Reading)
    requires env.Valid() && env.functions("(2+3") == Ok("(2+3")
    ensures Evaluate(env, reading, "(2 + 3") == Err(IndexOutOfBounds)
  {
    PrepareUnclosed(env, reading);
    assert InnerGroup("(2+3") == Err(IndexOutOfBounds) by {
      NotContains("(2+3", ")");
    }
  }

  /** The sum of two numbers. */
  lemma Sum(env: Env, reading: Reading, a: string, b: string, x: real, y: real)
    requires Operand(a) && Operand(b)
    requires env.parseDouble(a) == Some(x) && env.parseDouble(b) == Some(y)
    ensures ParseOps(env, reading, a + "+" + b) == Ok(x + y)
  {
    var expr := a + "+" + b;
    assert Split(expr, "+-") == [a, "+", b] by {
      assert NoSplitPoint(a, "+-") && NoSplitPoint(b, "+-");
      SplitBinary(a, '+', b, "+-");
    }
    ParseSum(env, reading, expr, [a, "+", b]);
    ChainOfTwo(env, reading, Additive, a, "+", b, |expr|);
    Leaf(env, reading, a);
    Leaf(env, reading, b);
  }

  lemma SpacesInClosedGroup()
    ensures RemoveWhitespace("(2 + 3)") == "(2+3)"
  {
    assert RemoveWhitespace(")") == ")";
    assert RemoveWhitespace("3)") == "3)";
    assert RemoveWhitespace(" 3)") == "3)";
    assert RemoveWhitespace("+ 3)") == "+3)";
    assert RemoveWhitespace(" + 3)") == "+3)";
    assert RemoveWhitespace("2 + 3)") == "2+3)";
  }

  lemma SpacesInFactor()
    ensures RemoveWhitespace(" * 4") == "*4"
  {
    assert RemoveWhitespace("4") == "4";
    assert RemoveWhitespace(" 4") == "4";
    assert RemoveWhitespace("* 4") == "*4";
  }

  lemma SpacesAroundGroup()
    ensures RemoveWhitespace("(2 + 3) * 4") == "(2+3)*4"
  {
    SpacesInClosedGroup();
    SpacesInFactor();
    RemoveWhitespaceAppend("(2 + 3)", " * 4");
    assert "(2 + 3)" + " * 4" == "(2 + 3) * 4";
    assert "(2+3)" + "*4" == "(2+3)*4";
  }

  /** Lines 16-18 on "(2+3)*4": the group is "2+3". */
  lemma GroupOfSum()
    ensures LastIndexOf("(2+3)*4", '(') == 0 && IndexOfFrom("(2+3)*4", ")", 0) == 4
    ensures InnerGroup("(2+3)*4") == Ok("2+3")
  {
    var t := "(2+3)*4";
    assert t[0] == '(' && forall i :: 0 < i < |t| ==> t[i] != '(';
    assert LastIndexOf(t, '(') == 0;
    IndexOfFromFirst(t, ")", 0);
    assert OccursAt(t, ")", 4) by {
      assert t[4..5] == ")";
    }
    var end := IndexOfFrom(t, ")", 0);
    assert end == 4 by {
      forall i | 0 <= i < 4 ensures !OccursAt(t, ")", i) {
        assert t[i..i + 1][0] == t[i] != ')';
      }
    }
    assert t[1..4] == "2+3";
  }

  lemma PrepareGroup(env: Env, reading: Reading)
    requires env.Valid() && env.functions("(2+3)*4") == Ok("(2+3)*4")
    ensures Prepare(env, reading, "(2 + 3) * 4") == Ok("(2+3)*4")
  {
    SpacesAroundGroup();
    BareGroup("(2 + 3) * 4");
    PrepareSimple(env, reading, "(2 + 3) * 4");
  }

  lemma BareGroup(s: string)
    requires s == "(2 + 3) * 4"
    ensures forall j :: 0 <= j < |s| ==> Bare(s[j])
  {
    forall j | 0 <= j < |s| ensures Bare(s[j]) {
      assert s[j] in ['(', '2', ' ', '+', '3', ')', '*', '4'];
    }
  }

  lemma TwoPlusThreeOps(env: Env, reading: Reading)
    requires env.parseDouble("2") == Some(2.0) && env.parseDouble("3") == Some(3.0)
    ensures ParseOps(env, reading, "2+3") == Ok(5.0)
  {
    var q := "2" + "+" + "3";
    assert ParseOps(env, reading, q) == Ok(5.0) by {
      Sum(env, reading, "2", "3", 2.0, 3.0);
    }
    assert q == "2+3";
  }

  lemma PrepareSum(env: Env, reading: Reading)
    requires env.Valid()
    ensures Prepare(env, reading, "2+3") == Ok("2+3")
  {
    assert RemoveWhitespace("2+3") == "2+3";
    assert '(' !in "2+3";
    PrepareSimple(env, reading, "2+3");
  }

  /** The group's contents: a nested parse of "2+3" gives 5. */
  lemma TwoPlusThree(env: Env, reading: Reading)
    requires env.Valid() && env.parseDouble("2") == Some(2.0) && env.parseDouble("3") == Some(3.0)
    ensures Evaluate(env, reading, "2+3") == Ok(5.0)
  {
    PrepareSum(env, reading);
    TwoPlusThreeOps(env, reading);
    EvaluateFlat(env, reading, "2+3", "2+3");
  }

  lemma FiveTimesFour(env: Env, reading: Reading)
    requires env.parseDouble("4") == Some(4.0) && env.parseDouble("5.0") == Some(5.0)
    ensures ParseOps(env, reading, "5.0*4") == Ok(20.0)
  {
    var q := "5.0" + "*" + "4";
    assert ParseOps(env, reading, q) == Ok(20.0) by {
      Product(env, reading, "5.0", "4", 5.0, 4.0);
    }
    assert q == "5.0*4";
  }

  /** Text left without a group goes to parseOperations. */
  lemma FlatText(env: Env, reading: Reading, t: string)
    requires env.Valid() && '(' !in t
    ensures Flatten(env, reading, t, 1) == ParseOps(env, reading, t)
  {
  }

  /** Line 20 writes the group's value back in its place. */
  lemma SubstituteGroup()
    ensures Substitute("(2+3)*4", "5.0") == "5.0*4"
  {
    GroupOfSum();
    var t := "(2+3)*4";
    assert Substitute(t, "5.0") == t[..0] + "5.0" + t[5..];
    assert t[..0] + "5.0" + t[5..] == "5.0*4";
  }

  /** "(2 + 3) * 4": the group is evaluated first, its value written back as
      text, and the product of that text and 4 is 20, under either reading, as
      CalculatorIdeTest.java line 34 expects. processFunctions finds no function
      name in the text and returns it unchanged; the value 5 is written "5.0". */
  lemma GroupFirst(env: Env, reading: Reading)
    requires env.Valid() && env.functions("(2+3)*4") == Ok("(2+3)*4")
    requires env.parseDouble("2") == Some(2.0) && env.parseDouble("3") == Some(3.0)
    requires env.parseDouble("4") == Some(4.0)
    requires env.render(5.0) == "5.0" && env.parseDouble("5.0") == Some(5.0)
    ensures Evaluate(env, reading, "(2 + 3) * 4") == Ok(20.0)
  {
    PrepareGroup(env, reading);
    TwoPlusThree(env, reading);
    GroupOfSum();
    FlattenGroup(env, reading, "(2+3)*4", "2+3", 5.0);
    SubstituteGroup();
    FlatText(env, reading, "5.0*4");
    FiveTimesFour(env, reading);
    assert Rank("(2 + 3) * 4") == 1 by {
      assert "(2 + 3) * 4"[0] == '(';
    }
  }

  /** A quotient whose divisor reads as zero fails, whatever the dividend. */
  lemma QuotientByZero(env: Env, reading: Reading, a: string, b: string, x: real)
    requires Operand(a) && Operand(b)
    requires env.parseDouble(a) == Some(x) && env.parseDouble(b) == Some(0.0)
    ensures ParseOps(env, reading, a + "/" + b) == Err(DivisionByZero)
  {
    var expr := a + "/" + b;
    ProductHasNoSum(a, "/", b);
    SplitWhole(expr, "+-");
    SplitBinary(a, '/', b, "*/");
    ParseProduct(env, reading, expr, [a, "/", b]);
    ChainOfTwo(env, reading, Multiplicative, a, "/", b, |expr|);
    Leaf(env, reading, a);
    Leaf(env, reading, b);
  }

  /** A character that none of lines 10-13 reacts to, whatever its neighbours:
      no minus and no lower-case letter, which both constant names start with. */
  predicate Bare(c: char) {
    c != '-' && !('a' <= c <= 'z')
  }

  /** Lines 10-13 leave text of bare characters as it is. */
  lemma BareUnchanged(env: Env, reading: Reading, t: string)
    requires forall j :: 0 <= j < |t| ==> Bare(t[j])
    ensures Replace(Replace(UnaryMinus(t, reading), "pi", env.piText), "e", env.eText) == t
  {
    assert UnaryMinus(t, reading) == t by {
      forall j | 0 <= j < |t| ensures !IsUnaryMinus(t, j, reading) {
        assert Bare(t[j]);
      }
      UnaryMinusKeeps(t, reading);
    }
    assert 'p' !in t && 'e' !in t;
    NotContains(t, "pi");
    NotContains(t, "e");
  }

  /** Lines 6-13 on text of bare characters in which processFunctions finds no
      call: only the whitespace goes. */
  lemma PrepareSimple(env: Env, reading: Reading, s: string)
    requires forall j :: 0 <= j < |s| ==> Bare(s[j])
    requires env.Valid() && env.functions(RemoveWhitespace(s)) == Ok(RemoveWhitespace(s))
    ensures Prepare(env, reading, s) == Ok(RemoveWhitespace(s))
  {
    var t := RemoveWhitespace(s);
    forall j | 0 <= j < |t| ensures Bare(t[j]) {
      assert t[j] in s;
    }
    BareUnchanged(env, reading, t);
  }

  lemma PrepareQuotient(env: Env, reading: Reading)
    requires env.Valid()
    ensures Prepare(env, reading, "5 / 0") == Ok("5/0")
  {
    SpacesInQuotient();
    assert '(' !in "5/0";
    PrepareSimple(env, reading, "5 / 0");
  }

  lemma FiveByZero(env: Env, reading: Reading)
    requires env.parseDouble("5") == Some(5.0) && env.parseDouble("0") == Some(0.0)
    ensures ParseOps(env, reading, "5/0") == Err(DivisionByZero)
  {
    var q := "5" + "/" + "0";
    assert ParseOps(env, reading, q) == Err(DivisionByZero) by {
      QuotientByZero(env, reading, "5", "0", 5.0);
    }
    assert q == "5/0";
  }

  /** "5 / 0" fails with the division-by-zero error under either reading, as
      CalculatorIdeTest.java lines 137-142 expect. */
  lemma DivideFiveByZero(env: Env, reading: Reading)
    requires env.Valid()
    requires env.parseDouble("5") == Some(5.0) && env.parseDouble("0") == Some(0.0)
    ensures Evaluate(env, reading, "5 / 0") == Err(DivisionByZero)
  {
    PrepareQuotient(env, reading);
    FiveByZero(env, reading);
    EvaluateFlat(env, reading, "5 / 0", "5/0");
  }

  /** Lines 6-13 on "2 * -3" as written: the whitespace goes and the minus
      after '*' becomes "0-". */
  lemma PrepareProductAsWritten(env: Env)
    requires env.Valid()
    ensures Prepare(env, AsWritten, "2 * -3") == Ok("2*0-3")
  {
    RemoveSpaces();
    PrepareWithoutNames(env, AsWritten, "2 * -3");
    ZeroInsertedAsWritten();
  }

  /** Lines 6-13 on "2 * -3" as intended: only the whitespace goes. */
  lemma PrepareProductIntended(env: Env)
    requires env.Valid()
    ensures Prepare(env, Intended, "2 * -3") == Ok("2*-3")
  {
    RemoveSpaces();
    PrepareWithoutNames(env, Intended, "2 * -3");
    UnaryMinusKeeps("2*-3", Intended);
  }

  /** "2 * -3": as written the minus becomes "0-" and the product binds first,
      giving 2 * 0 - 3 = -3; as intended the minus stays a sign and the value
      is -6, the value CalculatorIdeTest.java line 40 expects. */
  lemma ProductOfNegative(env: Env)
    requires env.Valid()
    requires env.parseDouble("2") == Some(2.0) && env.parseDouble("0") == Some(0.0)
    requires env.parseDouble("3") == Some(3.0) && env.parseDouble("-3") == Some(-3.0)
    ensures Evaluate(env, AsWritten, "2 * -3") == Ok(-3.0)
    ensures Evaluate(env, Intended, "2 * -3") == Ok(-6.0)
  {
    PrepareProductAsWritten(env);
    PrepareProductIntended(env);
    ProductAsWritten(env);
    ProductIntended(env);
    EvaluateFlat(env, AsWritten, "2 * -3", "2*0-3");
    EvaluateFlat(env, Intended, "2 * -3", "2*-3");
  }

  /** Text without a group: parse is parseOperations on the prepared text. */
  lemma EvaluateFlat(env: Env, reading: Reading, expression: string, t: string)
    requires env.Valid() && '(' !in expression && Prepare(env, reading, expression) == Ok(t)
    ensures Evaluate(env, reading, expression) == ParseOps(env, reading, t)
  {
  }

  lemma ReplaceE(t: string)
    requires 'e' !in t
    ensures Replace("e^0", "e", t) == t + "^0"
  {
    NotContains("^0", "e");
  }

  /** Lines 6-13 on text with no space, group, minus or letter of "pi": only
      the letter e changes. */
  lemma PrepareConstants(env: Env, reading: Reading, s: string)
    requires env.Valid()
    requires forall j :: 0 <= j < |s| ==> !IsWhitespace(s[j]) && s[j] != '(' && s[j] != '-' && s[j] != 'p'
    ensures Prepare(env, reading, s) == Ok(Replace(s, "e", env.eText))
  {
    assert RemoveWhitespace(s) == s;
    assert env.functions(s) == Ok(s) by {
      assert '(' !in s;
    }
    assert UnaryMinus(s, reading) == s by {
      forall j | 0 <= j < |s| ensures !IsUnaryMinus(s, j, reading) {
        assert s[j] != '-';
      }
      UnaryMinusKeeps(s, reading);
    }
    assert Replace(s, "pi", env.piText) == s by {
      assert 'p' !in s;
      NotContains(s, "pi");
    }
  }

  /** Lines 6-13 on "e^0": the constant's decimal text takes the place of the
      letter. */
  lemma PrepareE(env: Env, reading: Reading)
    requires env.Valid() && 'e' !in env.eText
    ensures Prepare(env, reading, "e^0") == Ok(env.eText + "^0")
  {
    PrepareConstants(env, reading, "e^0");
    ReplaceE(env.eText);
  }

  /** "e^0": as written the exponent piece handed to parseOperations is "^"
      itself and the recursion never ends; as intended the value is
      Math.pow(e, 0), the 1.0 CalculatorIdeTest.java line 62 expects. */
  lemma PowerOfE(env: Env, e: real)
    requires env.Valid() && env.eText != [] && env.eText[|env.eText| - 1] !in SignContext
    requires forall j :: 0 <= j < |env.eText| ==> env.eText[j] !in "+-*/^e"
    requires env.parseDouble(env.eText) == Some(e) && env.parseDouble("0") == Some(0.0)
    ensures Evaluate(env, AsWritten, "e^0") == Err(StackOverflow)
    ensures Evaluate(env, Intended, "e^0") == Ok(env.pow(e, 0.0))
  {
    var a := env.eText;
    assert 'e' !in a;
    assert a + "^" + "0" == a + "^0";
    assert ParseOps(env, AsWritten, a + "^0") == Err(StackOverflow) by {
      Leaf(env, AsWritten, a);
      PowerAsWritten(env, a, "0");
    }
    assert ParseOps(env, Intended, a + "^0") == Ok(env.pow(e, 0.0)) by {
      Leaf(env, Intended, a);
      Leaf(env, Intended, "0");
      PowerIntended(env, a, "0");
    }
    PrepareE(env, AsWritten);
    PrepareE(env, Intended);
    EvaluateFlat(env, AsWritten, "e^0", a + "^0");
    EvaluateFlat(env, Intended, "e^0", a + "^0");
  }
}
