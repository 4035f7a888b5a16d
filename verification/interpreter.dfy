/**
 * Interpreter.java: runs a script line by line. Each line is trimmed; blank
 * lines and `//` comments are skipped; a line starting with "if" opens a
 * conditional block whose then-lines and else-lines are collected by counting
 * braces; a line with a single `=` assigns a variable; any other line is an
 * expression whose value is printed. An exception on a top-level line is
 * written to the output and the run goes on with the next line.
 *
 * The specification functions (`Execution`, `Run`, `LineStep`, `IfStep`,
 * `BlockStep`, `Scan`, `Condition`) describe what the code computes on a
 * `State` value; the class `Interpreter` keeps the four fields of the Java
 * class and its methods are proved to follow them.
 *
 * evaluateExpression (lines 94-100) stays abstract: the textual substitution
 * of variables, which walks a HashMap in no fixed order, and the call to the
 * expression parser are fields of a `Host`, as are the two ways text is made
 * from a double and from an exception.
 */
module Interpreter {
  import opened Outcomes
  import opened Text

  /** The routines the interpreter calls but whose results are not modelled here. */
  datatype Host = Host(
    substitute: (map<string, real>, string) -> string,  // the loops at lines 95-97 and 105-107
    parse: string -> Result<real>,                      // new ExpressionParser().parse(expr)
    show: real -> string,                               // StringBuilder.append(double)
    message: Error -> string)                           // Throwable.getMessage()

  /** One piece of output, in the order it is appended. */
  datatype Record =
    | Assigned(name: string, value: real)   // line 44
    | Printed(value: real)                  // line 50
    | Failed(line: string, error: Error)    // line 25

  /** The fields of the Java object: variables, output, lines, currentLine. */
  datatype State = State(vars: map<string, real>, out: seq<Record>, lines: seq<string>, cursor: nat)
  {
    predicate Valid() { cursor <= |lines| }
  }

  /** The state after a call and the exception it threw, if any. Changes made
      before the exception stay, as they do on the Java object. */
  datatype Step = Step(state: State, failure: Option<Error>)

  // ---------------------------------------------------------------------------
  // evaluateExpression and evaluateCondition
  // ---------------------------------------------------------------------------

  /** evaluateExpression(expr), lines 94-100. */
  function Evaluation(host: Host, vars: map<string, real>, expr: string): Result<real> {
    host.parse(host.substitute(vars, expr))
  }

  /** The largest difference `==` still treats as equal, lines 123 and 126. */
  const Tolerance: real := 0.0001

  function Abs(x: real): real { if x < 0.0 then -x else x }

  /** The relation each comparison operator tests. */
  function Holds(op: string, a: real, b: real): bool {
    if op == ">=" then a >= b
    else if op == "<=" then a <= b
    else if op == ">" then a > b
    else if op == "<" then a < b
    else if op == "==" then Abs(a - b) < Tolerance
    else Abs(a - b) >= Tolerance
  }

  /** `parts = condition.split(op)` and the comparison of `parts[0]` with
      `parts[1]`: left operand first, and an index error where a part is missing. */
  function Relate(host: Host, vars: map<string, real>, op: string, condition: string): Result<bool>
    requires op != []
  {
    var parts := JavaSplit(condition, op);
    if |parts| == 0 then Err(IndexOutOfBounds)
    else
      var a :- Evaluation(host, vars, parts[0]);
      if |parts| < 2 then Err(IndexOutOfBounds)
      else
        var b :- Evaluation(host, vars, parts[1]);
        Ok(Holds(op, a, b))
  }

  /** Lines 109-129 on the condition once its variables are substituted: the
      first operator found, in the order >=, <=, >, <, ==, !=, decides; with none,
      a value other than zero is true. */
  function Judge(host: Host, vars: map<string, real>, condition: string): Result<bool> {
    if Contains(condition, ">=") then Relate(host, vars, ">=", condition)
    else if Contains(condition, "<=") then Relate(host, vars, "<=", condition)
    else if Contains(condition, ">") then Relate(host, vars, ">", condition)
    else if Contains(condition, "<") then Relate(host, vars, "<", condition)
    else if Contains(condition, "==") then Relate(host, vars, "==", condition)
    else if Contains(condition, "!=") then Relate(host, vars, "!=", condition)
    else
      var v :- Evaluation(host, vars, condition);
      Ok(v != 0.0)
  }

  /** evaluateCondition(condition), lines 102-130. */
  function Condition(host: Host, vars: map<string, real>, condition: string): Result<bool> {
    Judge(host, vars, host.substitute(vars, Trim(condition)))
  }

  // ---------------------------------------------------------------------------
  // Line kinds
  // ---------------------------------------------------------------------------

  /** Line 20: a line that produces nothing. */
  predicate IsSkipped(line: string) {
    line == [] || StartsWith(line, "//")
  }

  /** Lines 38-40: a line taken as an assignment. */
  predicate IsAssignment(line: string) {
    && Contains(line, "=") && !Contains(line, "==") && !Contains(line, ">=") && !Contains(line, "<=")
    && |JavaSplit(line, "=")| == 2
  }

  // ---------------------------------------------------------------------------
  // The brace-counting scan of processIfBlock
  // ---------------------------------------------------------------------------

  /** The locals of the loop at lines 62-79 together with currentLine. */
  datatype Partition = Partition(
    cursor: nat, braces: int, inElse: bool, thenBlock: seq<string>, elseBlock: seq<string>)

  /** One pass of the loop at lines 62-79 over the trimmed line `line`. */
  function Advance(p: Partition, line: string): Partition {
    var next := p.(cursor := p.cursor + 1);
    if line == "}" then next.(braces := p.braces - 1)
    else if line == "} else {" then next.(inElse := true)
    else if line == "{" then next.(braces := p.braces + 1)
    else if IsSkipped(line) then next
    else if p.inElse then next.(elseBlock := p.elseBlock + [line])
    else next.(thenBlock := p.thenBlock + [line])
  }

  /** The loop at lines 62-79, from partition `p` on. */
  function Scan(lines: seq<string>, p: Partition): (r: Partition)
    requires p.cursor <= |lines|
    ensures p.cursor <= r.cursor <= |lines|
    ensures r.cursor == p.cursor ==> r == p
    decreases |lines| - p.cursor
  {
    if p.cursor < |lines| && p.braces > 0 then Scan(lines, Advance(p, Trim(lines[p.cursor]))) else p
  }

  /** The scan as processIfBlock starts it: one open brace, then-list first. */
  function Opening(cursor: nat): Partition {
    Partition(cursor, 1, false, [], [])
  }

  // ---------------------------------------------------------------------------
  // processLine, processIfBlock, executeBlock
  // ---------------------------------------------------------------------------

  /** processLine(line), lines 32-51. A nested "if" scans on from wherever the
      cursor stands, which inside a block is past the enclosing block. */
  function LineStep(host: Host, s: State, line: string): (r: Step)
    requires s.Valid()
    ensures r.state.Valid() && r.state.lines == s.lines && s.cursor <= r.state.cursor
    decreases |s.lines| - s.cursor, 1, 3
  {
    if StartsWith(line, "if") then
      IfStep(host, s, line)
    else if IsAssignment(line) then
      var parts := JavaSplit(line, "=");
      var name := Trim(parts[0]);
      match Evaluation(host, s.vars, Trim(parts[1]))
      case Ok(v) => Step(s.(vars := s.vars[name := v], out := s.out + [Assigned(name, v)]), None)
      case Err(e) => Step(s, Some(e))
    else
      match Evaluation(host, s.vars, line)
      case Ok(v) => Step(s.(out := s.out + [Printed(v)]), None)
      case Err(e) => Step(s, Some(e))
  }

  /** The condition of an if-line, line 54: the text between its first '(' and
      its first ')', or the exception `substring` throws when those do not bound one. */
  function ConditionText(firstLine: string): Result<string> {
    Substring(firstLine, IndexOfFrom(firstLine, "(", 0) + 1, IndexOfFrom(firstLine, ")", 0))
  }

  /** processIfBlock(firstLine), lines 53-59. The condition is the text between
      the first '(' and the first ')'; it is judged before any line is consumed. */
  function IfStep(host: Host, s: State, firstLine: string): (r: Step)
    requires s.Valid()
    ensures r.state.Valid() && r.state.lines == s.lines && s.cursor <= r.state.cursor
    decreases |s.lines| - s.cursor, 1, 2
  {
    match ConditionText(firstLine)
    case Err(e) => Step(s, Some(e))
    case Ok(condition) =>
      match Condition(host, s.vars, condition)
      case Err(e) => Step(s, Some(e))
      case Ok(holds) => IfBlock(host, s, holds)
  }

  /** processIfBlock, lines 60-85, once the condition is judged: the scan from the
      line after the if-line, then the list the condition picks. */
  function IfBlock(host: Host, s: State, holds: bool): (r: Step)
    requires s.Valid()
    ensures r.state.Valid() && r.state.lines == s.lines && s.cursor <= r.state.cursor
    decreases |s.lines| - s.cursor, 1, 1
  {
    var p := Scan(s.lines, Opening(s.cursor));
    BlockStep(host, s.(cursor := p.cursor), if holds then p.thenBlock else p.elseBlock)
  }

  /** executeBlock(block), lines 88-92: the lines in order, up to the first that throws. */
  function BlockStep(host: Host, s: State, block: seq<string>): (r: Step)
    requires s.Valid()
    ensures r.state.Valid() && r.state.lines == s.lines && s.cursor <= r.state.cursor
    decreases |s.lines| - s.cursor, |block| + 1, 0
  {
    if block == [] then
      Step(s, None)
    else
      var first := LineStep(host, s, block[0]);
      if first.failure.Some? then first else BlockStep(host, first.state, block[1..])
  }

  // ---------------------------------------------------------------------------
  // execute
  // ---------------------------------------------------------------------------

  /** The loop at lines 16-27: a failing line adds one record and the run goes
      on, except for an error `catch (Exception e)` does not catch. */
  function Run(host: Host, s: State): Result<State>
    requires s.Valid()
    decreases |s.lines| - s.cursor
  {
    if s.cursor == |s.lines| then
      Ok(s)
    else
      var line := Trim(s.lines[s.cursor]);
      var next := s.(cursor := s.cursor + 1);
      if IsSkipped(line) then
        Run(host, next)
      else
        var step := LineStep(host, next, line);
        match step.failure
        case None => Run(host, step.state)
        case Some(e) =>
          if e.IsFatal() then Err(e)
          else Run(host, step.state.(out := step.state.out + [Failed(line, e)]))
  }

  /** The text one record appends to the output buffer. */
  function RenderRecord(host: Host, record: Record): string {
    match record
    case Assigned(name, value) => name + " = " + host.show(value) + "\n"
    case Printed(value) => "→ " + host.show(value) + "\n"
    case Failed(line, error) => "Ошибка в строке '" + line + "': " + host.message(error) + "\n"
  }

  /** output.toString(). */
  function Render(host: Host, out: seq<Record>): string {
    if out == [] then [] else RenderRecord(host, out[0]) + Render(host, out[1..])
  }

  /** The run a fresh start gives the script's lines. */
  function Start(code: string): State {
    State(map[], [], JavaSplit(code, "\n"), 0)
  }

  /** execute(code), lines 9-30: empty variables and output, then every line. */
  function Execution(host: Host, code: string): Result<string> {
    var final :- Run(host, Start(code));
    Ok(Render(host, final.out))
  }

  /** The variables the assignment records among `out` leave behind, starting from `vars`. */
  function Bindings(vars: map<string, real>, out: seq<Record>): map<string, real>
    decreases |out|
  {
    if out == [] then vars
    else Bindings(if out[0].Assigned? then vars[out[0].name := out[0].value] else vars, out[1..])
  }

  // ---------------------------------------------------------------------------
  // The Java object
  // ---------------------------------------------------------------------------

  class Interpreter {
    const host: Host
    var variables: map<string, real>
    var output: seq<Record>
    var lines: seq<string>
    var currentLine: nat

    constructor (host: Host)
      ensures this.host == host
      ensures variables == map[] && output == [] && lines == [] && currentLine == 0
    {
      this.host := host;
      variables := map[];
      output := [];
      lines := [];
      currentLine := 0;
    }

    /** The fields as a value. */
    function Snapshot(): State
      reads this
    {
      State(variables, output, lines, currentLine)
    }

    /** execute(code), lines 9-30. The result depends on `code` alone: nothing
        from an earlier run survives. */
    method Execute(code: string) returns (r: Result<string>)
      modifies this
      ensures r == Execution(host, code)
      ensures r.Ok? ==> r.value == Render(host, output)
    {
      variables := map[];
      output := [];
      lines := JavaSplit(code, "\n");
      currentLine := 0;
      assert Snapshot() == Start(code);
      var fatal := RunLines();
      if fatal.Some? {
        return Err(fatal.value);
      }
      r := Ok(Render(host, output));
    }

    /** The loop at lines 16-27 from the current line on: a fatal error ends it,
        any other failure becomes a record. */
    method RunLines() returns (fatal: Option<Error>)
      requires currentLine <= |lines|
      modifies this
      ensures match Run(host, old(Snapshot()))
              case Ok(final) => fatal.None? && Snapshot() == final
              case Err(e) => fatal == Some(e)
    {
      while currentLine < |lines|
        invariant currentLine <= |lines| && lines == old(lines)
        invariant Run(host, Snapshot()) == Run(host, old(Snapshot()))
        decreases |lines| - currentLine
      {
        fatal := NextLine();
        if fatal.Some? {
          return;
        }
      }
      fatal := None;
    }

    /** One turn of the loop at lines 16-27: the current line, trimmed, is
        skipped, or run with a non-fatal failure recorded. */
    method NextLine() returns (fatal: Option<Error>)
      requires currentLine < |lines|
      modifies this
      ensures lines == old(lines) && old(currentLine) < currentLine <= |lines|
      ensures fatal.None? ==> Run(host, Snapshot()) == Run(host, old(Snapshot()))
      ensures fatal.Some? ==> Run(host, old(Snapshot())) == Err(fatal.value)
    {
      ghost var before := Snapshot();
      var line := Trim(lines[currentLine]);
      currentLine := currentLine + 1;
      ghost var next := Snapshot();
      assert next == before.(cursor := before.cursor + 1);
      if IsSkipped(line) {
        assert Run(host, before) == Run(host, next);
        return None;
      }
      var failure := ProcessLine(line);
      ghost var step := LineStep(host, next, line);
      assert Step(Snapshot(), failure) == step;
      assert Run(host, before) == match failure
        case None => Run(host, step.state)
        case Some(e) => if e.IsFatal() then Err(e) else Run(host, step.state.(out := step.state.out + [Failed(line, e)]));
      if failure.Some? {
        if failure.value.IsFatal() {
          return failure;
        }
        output := output + [Failed(line, failure.value)];
      }
      fatal := None;
    }

    /** processLine(line), lines 32-51. */
    method ProcessLine(line: string) returns (failure: Option<Error>)
      requires currentLine <= |lines|
      modifies this
      ensures Step(Snapshot(), failure) == LineStep(host, old(Snapshot()), line)
      decreases |lines| - currentLine, 1, 2
    {
      ghost var before := Snapshot();
      if StartsWith(line, "if") {
        failure := ProcessIfBlock(line);
        return;
      }
      if Contains(line, "=") && !Contains(line, "==") && !Contains(line, ">=") && !Contains(line, "<=") {
        var parts := JavaSplit(line, "=");
        if |parts| == 2 {
          assert IsAssignment(line);
          var varName := Trim(parts[0]);
          var value := Evaluation(host, variables, Trim(parts[1]));
          if value.Err? {
            return Some(value.error);
          }
          variables := variables[varName := value.value];
          output := output + [Assigned(varName, value.value)];
          return None;
        }
      }
      assert !IsAssignment(line);
      var result := Evaluation(host, variables, line);
      if result.Err? {
        return Some(result.error);
      }
      output := output + [Printed(result.value)];
      assert Snapshot() == before.(out := before.out + [Printed(result.value)]);
      failure := None;
    }

    /** processIfBlock(firstLine), lines 53-86. */
    method ProcessIfBlock(firstLine: string) returns (failure: Option<Error>)
      requires currentLine <= |lines|
      modifies this
      ensures Step(Snapshot(), failure) == IfStep(host, old(Snapshot()), firstLine)
      decreases |lines| - currentLine, 1, 1
    {
      ghost var before := Snapshot();
      var conditionStr := ConditionText(firstLine);
      if conditionStr.Err? {
        assert IfStep(host, before, firstLine) == Step(before, Some(conditionStr.error));
        return Some(conditionStr.error);
      }
      var conditionResult := Condition(host, variables, conditionStr.value);
      if conditionResult.Err? {
        assert IfStep(host, before, firstLine) == Step(before, Some(conditionResult.error));
        return Some(conditionResult.error);
      }
      var ifBlock, elseBlock := CollectBlocks();
      var block := if conditionResult.value then ifBlock else elseBlock;
      assert IfStep(host, before, firstLine) == BlockStep(host, Snapshot(), block);
      failure := ExecuteBlock(block);
    }

    /** The loop at lines 57-79 of processIfBlock: consumes the lines of the
        block and sorts them into the then-list and the else-list. */
    method CollectBlocks() returns (ifBlock: seq<string>, elseBlock: seq<string>)
      requires currentLine <= |lines|
      modifies this
      ensures variables == old(variables) && output == old(output) && lines == old(lines)
      ensures var p := Scan(lines, Opening(old(currentLine)));
              currentLine == p.cursor && ifBlock == p.thenBlock && elseBlock == p.elseBlock
    {
      ifBlock := [];
      elseBlock := [];
      var inElse := false;
      var braceCount := 1;
      ghost var first := currentLine;
      while currentLine < |lines| && braceCount > 0
        invariant first <= currentLine <= |lines|
        invariant variables == old(variables) && output == old(output) && lines == old(lines)
        invariant Scan(lines, Partition(currentLine, braceCount, inElse, ifBlock, elseBlock))
               == Scan(lines, Opening(first))
        decreases |lines| - currentLine
      {
        ghost var p := Partition(currentLine, braceCount, inElse, ifBlock, elseBlock);
        var line := Trim(lines[currentLine]);
        currentLine := currentLine + 1;
        if line == "}" {
          braceCount := braceCount - 1;
        } else if line == "} else {" {
          inElse := true;
        } else if line == "{" {
          braceCount := braceCount + 1;
        } else if line != [] && !StartsWith(line, "//") {
          if inElse {
            elseBlock := elseBlock + [line];
          } else {
            ifBlock := ifBlock + [line];
          }
        }
        assert Partition(currentLine, braceCount, inElse, ifBlock, elseBlock) == Advance(p, line);
      }
    }

    /** executeBlock(block), lines 88-92. */
    method ExecuteBlock(block: seq<string>) returns (failure: Option<Error>)
      requires currentLine <= |lines|
      modifies this
      ensures Step(Snapshot(), failure) == BlockStep(host, old(Snapshot()), block)
      decreases |lines| - currentLine, |block| + 1, 0
    {
      var i := 0;
      while i < |block|
        invariant i <= |block|
        invariant old(currentLine) <= currentLine <= |lines| && lines == old(lines)
        invariant BlockStep(host, old(Snapshot()), block) == BlockStep(host, Snapshot(), block[i..])
        decreases |block| - i
      {
        failure := ProcessLine(block[i]);
        if failure.Some? {
          return;
        }
        i := i + 1;
      }
      failure := None;
    }
  }
}
