/**
 * What Interpreter.java promises about a run, proved on the specification
 * functions: variables always agree with the assignment records, only a fatal
 * error ends a run early, blank and comment lines leave no trace, the brace
 * scan splits a block into its then-lines and else-lines in order, a block runs
 * its lines in sequence, and the condition and assignment rules pick out the
 * operator the line is written with.
 */
module InterpreterProperties {
  import opened Outcomes
  import opened Text
  import opened Interpreter

  // ---------------------------------------------------------------------------
  // Variables follow the assignment records
  // ---------------------------------------------------------------------------

  lemma {:induction false} BindingsAppend(vars: map<string, real>, a: seq<Record>, b: seq<Record>)
    ensures Bindings(vars, a + b) == Bindings(Bindings(vars, a), b)
    decreases |a|
  {
    if a == [] {
      assert a + b == b;
    } else {
      var first := if a[0].Assigned? then vars[a[0].name := a[0].value] else vars;
      assert (a + b)[0] == a[0] && (a + b)[1..] == a[1..] + b;
      assert Bindings(vars, a + b) == Bindings(first, a[1..] + b);
      assert Bindings(vars, a) == Bindings(first, a[1..]);
      BindingsAppend(first, a[1..], b);
    }
  }

  /** `t` comes from `s` by appending records whose assignments turn the
      variables of `s` into those of `t`. */
  ghost predicate Follows(s: State, t: State) {
    s.out <= t.out && t.vars == Bindings(s.vars, t.out[|s.out|..])
  }

  lemma FollowsTransitive(s: State, t: State, u: State)
    requires Follows(s, t) && Follows(t, u)
    ensures Follows(s, u)
  {
    var a := t.out[|s.out|..];
    var b := u.out[|t.out|..];
    assert u.out[|s.out|..] == a + b;
    BindingsAppend(s.vars, a, b);
  }

  /** Follows, and none of the appended records is a failure. */
  ghost predicate Extends(s: State, t: State) {
    Follows(s, t) && forall k :: |s.out| <= k < |t.out| ==> !t.out[k].Failed?
  }

  lemma ExtendsItself(s: State)
    ensures Extends(s, s)
  {
    assert s.out[|s.out|..] == [];
  }

  lemma ExtendsTransitive(s: State, t: State, u: State)
    requires Extends(s, t) && Extends(t, u)
    ensures Extends(s, u)
  {
    FollowsTransitive(s, t, u);
  }

  /** processLine: the variables change exactly as the records it appends say. */
  lemma {:induction false} LineRecords(host: Host, s: State, line: string)
    requires s.Valid()
    ensures Extends(s, LineStep(host, s, line).state)
    decreases |s.lines| - s.cursor, 1, 3
  {
    if StartsWith(line, "if") {
      IfRecords(host, s, line);
    } else {
      var r := LineStep(host, s, line).state;
      if r.out == s.out {
        assert r == s;
        ExtendsItself(s);
      } else {
        var added := r.out[|s.out|..];
        assert |added| == 1 && added[0] == r.out[|s.out|];
        assert Bindings(s.vars, added) == Bindings(
          if added[0].Assigned? then s.vars[added[0].name := added[0].value] else s.vars, []);
      }
    }
  }

  lemma {:induction false} IfRecords(host: Host, s: State, firstLine: string)
    requires s.Valid()
    ensures Extends(s, IfStep(host, s, firstLine).state)
    decreases |s.lines| - s.cursor, 1, 2
  {
    var cut := ConditionText(firstLine);
    if cut.Err? || Condition(host, s.vars, cut.value).Err? {
      ExtendsItself(s);
    } else {
      var holds := Condition(host, s.vars, cut.value).value;
      assert IfStep(host, s, firstLine) == IfBlock(host, s, holds);
      IfBlockRecords(host, s, holds);
    }
  }

  lemma {:induction false} IfBlockRecords(host: Host, s: State, holds: bool)
    requires s.Valid()
    ensures Extends(s, IfBlock(host, s, holds).state)
    decreases |s.lines| - s.cursor, 1, 1
  {
    var p := Scan(s.lines, Opening(s.cursor));
    var moved := s.(cursor := p.cursor);
    BlockRecords(host, moved, if holds then p.thenBlock else p.elseBlock);
  }

  lemma {:induction false} BlockRecords(host: Host, s: State, block: seq<string>)
    requires s.Valid()
    ensures Extends(s, BlockStep(host, s, block).state)
    decreases |s.lines| - s.cursor, |block| + 1, 0
  {
    if block == [] {
      ExtendsItself(s);
    } else {
      var first := LineStep(host, s, block[0]);
      LineRecords(host, s, block[0]);
      if first.failure.None? {
        BlockRecords(host, first.state, block[1..]);
        ExtendsTransitive(s, first.state, BlockStep(host, first.state, block[1..]).state);
      }
    }
  }

  /** A failure record leaves the variables alone. */
  lemma FollowsFailure(t: State, line: string, e: Error)
    ensures Follows(t, t.(out := t.out + [Failed(line, e)]))
  {
    var u := t.(out := t.out + [Failed(line, e)]);
    assert u.out[|t.out|..] == [Failed(line, e)];
  }

  /** Over a whole run, failure records aside, the variables are what the
      assignment records make of the variables at the start. */
  lemma {:induction false} RunRecords(host: Host, s: State)
    requires s.Valid()
    ensures Run(host, s).Ok? ==> Follows(s, Run(host, s).value)
    decreases |s.lines| - s.cursor
  {
    if s.cursor < |s.lines| {
      var line := Trim(s.lines[s.cursor]);
      var next := s.(cursor := s.cursor + 1);
      assert next.out[|s.out|..] == [];
      if IsSkipped(line) {
        RunRecords(host, next);
      } else {
        var step := LineStep(host, next, line);
        LineRecords(host, next, line);
        var t := step.state;
        assert Follows(s, t);
        if step.failure.None? {
          RunRecords(host, t);
          if Run(host, t).Ok? {
            FollowsTransitive(s, t, Run(host, t).value);
          }
        } else if !step.failure.value.IsFatal() {
          var u := t.(out := t.out + [Failed(line, step.failure.value)]);
          FollowsFailure(t, line, step.failure.value);
          FollowsTransitive(s, t, u);
          RunRecords(host, u);
          if Run(host, u).Ok? {
            FollowsTransitive(s, u, Run(host, u).value);
          }
        }
      }
    } else {
      assert s.out[|s.out|..] == [];
    }
  }

  /** At the end of execute, every variable holds the value of its last
      assignment record, and no variable exists without one. */
  lemma ExecutionRecords(host: Host, code: string)
    ensures Run(host, Start(code)).Ok? ==>
              var f := Run(host, Start(code)).value;
              f.vars == Bindings(map[], f.out)
  {
    RunRecords(host, Start(code));
    if Run(host, Start(code)).Ok? {
      var f := Run(host, Start(code)).value;
      assert f.out[0..] == f.out;
    }
  }

  // ---------------------------------------------------------------------------
  // Errors are contained per line
  // ---------------------------------------------------------------------------

  /** The loop of execute catches every exception; only an error escapes it. */
  lemma {:induction false} RunFailsOnlyFatally(host: Host, s: State)
    requires s.Valid()
    ensures Run(host, s).Err? ==> Run(host, s).error.IsFatal()
    decreases |s.lines| - s.cursor
  {
    if s.cursor < |s.lines| {
      var line := Trim(s.lines[s.cursor]);
      var next := s.(cursor := s.cursor + 1);
      if IsSkipped(line) {
        RunFailsOnlyFatally(host, next);
      } else {
        var step := LineStep(host, next, line);
        if step.failure.None? {
          RunFailsOnlyFatally(host, step.state);
        } else if !step.failure.value.IsFatal() {
          RunFailsOnlyFatally(host, step.state.(out := step.state.out + [Failed(line, step.failure.value)]));
        }
      }
    }
  }

  lemma ExecutionFailsOnlyFatally(host: Host, code: string)
    ensures Execution(host, code).Err? ==> Execution(host, code).error.IsFatal()
  {
    RunFailsOnlyFatally(host, Start(code));
  }

  /** A failing top-level line adds one failure record naming the trimmed line,
      after what the line changed before it threw, and a run that ends normally
      keeps that record in its output. */
  lemma FailureRecorded(host: Host, s: State, e: Error)
    requires s.Valid() && s.cursor < |s.lines|
    requires !IsSkipped(Trim(s.lines[s.cursor]))
    requires LineStep(host, s.(cursor := s.cursor + 1), Trim(s.lines[s.cursor])).failure == Some(e)
    requires !e.IsFatal()
    ensures var line := Trim(s.lines[s.cursor]);
            var t := LineStep(host, s.(cursor := s.cursor + 1), line).state;
            Run(host, s).Ok? ==> t.out + [Failed(line, e)] <= Run(host, s).value.out
  {
    var line := Trim(s.lines[s.cursor]);
    var t := LineStep(host, s.(cursor := s.cursor + 1), line).state;
    var u := t.(out := t.out + [Failed(line, e)]);
    FailureResumes(host, s, e);
    RunRecords(host, u);
  }

  lemma FailureResumes(host: Host, s: State, e: Error)
    requires s.Valid() && s.cursor < |s.lines|
    requires !IsSkipped(Trim(s.lines[s.cursor]))
    requires LineStep(host, s.(cursor := s.cursor + 1), Trim(s.lines[s.cursor])).failure == Some(e)
    requires !e.IsFatal()
    ensures var line := Trim(s.lines[s.cursor]);
            var t := LineStep(host, s.(cursor := s.cursor + 1), line).state;
            Run(host, s) == Run(host, t.(out := t.out + [Failed(line, e)]))
  {
  }

  // ---------------------------------------------------------------------------
  // Blank lines and comments
  // ---------------------------------------------------------------------------

  /** Lines that are blank or comments once trimmed leave no record and no variable. */
  lemma {:induction false} QuietLines(host: Host, s: State)
    requires s.Valid()
    requires forall k :: s.cursor <= k < |s.lines| ==> IsSkipped(Trim(s.lines[k]))
    ensures Run(host, s) == Ok(s.(cursor := |s.lines|))
    decreases |s.lines| - s.cursor
  {
    if s.cursor < |s.lines| {
      assert IsSkipped(Trim(s.lines[s.cursor]));
      QuietLines(host, s.(cursor := s.cursor + 1));
    }
  }

  /** A script of blank lines and comments prints nothing. */
  lemma QuietScript(host: Host, code: string)
    requires forall k :: 0 <= k < |JavaSplit(code, "\n")| ==> IsSkipped(Trim(JavaSplit(code, "\n")[k]))
    ensures Execution(host, code) == Ok([])
  {
    QuietLines(host, Start(code));
  }

  // ---------------------------------------------------------------------------
  // The brace scan of processIfBlock
  // ---------------------------------------------------------------------------

  predicate IsMarker(line: string) {
    line == "}" || line == "} else {" || line == "{"
  }

  /** What the scan keeps of one trimmed line. */
  function KeptOf(line: string): seq<string> {
    if IsMarker(line) || IsSkipped(line) then [] else [line]
  }

  /** What one trimmed line adds to the brace count. */
  function BraceDelta(line: string): (d: int)
    ensures -1 <= d <= 1
  {
    if line == "{" then 1 else if line == "}" then -1 else 0
  }

  /** The trimmed lines the scan keeps: neither brace markers, blank nor comments. */
  function Kept(lines: seq<string>): seq<string> {
    if |lines| == 0 then [] else KeptOf(Trim(lines[0])) + Kept(lines[1..])
  }

  /** Opening minus closing brace lines. */
  function Balance(lines: seq<string>): int {
    if |lines| == 0 then 0 else BraceDelta(Trim(lines[0])) + Balance(lines[1..])
  }

  lemma KeptSnoc(lines: seq<string>, c: nat, e: nat)
    requires c <= e < |lines|
    ensures Kept(lines[c..e + 1]) == Kept(lines[c..e]) + KeptOf(Trim(lines[e]))
    decreases e - c
  {
    if c < e {
      assert lines[c..e + 1][1..] == lines[c + 1..e + 1];
      assert lines[c..e][1..] == lines[c + 1..e];
      KeptSnoc(lines, c + 1, e);
    } else {
      assert lines[c..e + 1] == [lines[e]];
    }
  }

  /** `Kept(lines[a..b])` built from the end, one line at a time, as the scan builds it. */
  function KeptUpTo(lines: seq<string>, a: nat, b: nat): seq<string>
    requires a <= b <= |lines|
    decreases b
  {
    if b == a then [] else KeptUpTo(lines, a, b - 1) + KeptOf(Trim(lines[b - 1]))
  }

  lemma KeptUpToLast(lines: seq<string>, a: nat, n: nat)
    requires a <= n < |lines|
    ensures KeptUpTo(lines, a, n + 1) == KeptUpTo(lines, a, n) + KeptOf(Trim(lines[n]))
  {
  }

  /** `KeptSnoc` with the range ending at `b`. */
  lemma {:induction false} KeptLast(lines: seq<string>, a: nat, b: nat)
    requires a < b <= |lines|
    ensures Kept(lines[a..b]) == Kept(lines[a..b - 1]) + KeptOf(Trim(lines[b - 1]))
    decreases b - a
  {
    if a + 1 < b {
      assert lines[a..b][1..] == lines[a + 1..b];
      assert lines[a..b - 1][1..] == lines[a + 1..b - 1];
      KeptLast(lines, a + 1, b);
    } else {
      assert lines[a..b] == [lines[a]];
      assert lines[a..b - 1] == [];
    }
  }

  lemma {:induction false} KeptUpToIsKept(lines: seq<string>, a: nat, b: nat)
    requires a <= b <= |lines|
    ensures KeptUpTo(lines, a, b) == Kept(lines[a..b])
    decreases b
  {
    if b == a {
      assert |lines[a..b]| == 0;
    } else {
      KeptUpToIsKept(lines, a, b - 1);
      KeptLast(lines, a, b);
    }
  }


  lemma BalanceSnoc(lines: seq<string>, c: nat, e: nat)
    requires c <= e < |lines|
    ensures Balance(lines[c..e + 1]) == Balance(lines[c..e]) + BraceDelta(Trim(lines[e]))
    decreases e - c
  {
    if c < e {
      assert lines[c..e + 1][1..] == lines[c + 1..e + 1];
      assert lines[c..e][1..] == lines[c + 1..e];
      BalanceSnoc(lines, c + 1, e);
    } else {
      assert lines[c..e + 1] == [lines[e]];
    }
  }

  /** What the scan from `p` at the start `c` keeps: the then- and else-lists
      together are the kept lines in order, the else-list stays empty until
      else-mode is on, the count is the brace balance, and the scan stops at
      the first line that brings the count to zero or at the end. */
  ghost predicate ScanFacts(lines: seq<string>, c: nat, p: Partition)
    requires c <= p.cursor <= |lines|
  {
    && p.thenBlock + p.elseBlock == Kept(lines[c..p.cursor])
    && (!p.inElse ==> p.elseBlock == [])
    && p.braces == 1 + Balance(lines[c..p.cursor])
    && forall m :: c <= m < p.cursor ==> 1 + Balance(lines[c..m]) > 0
  }

  lemma {:induction false} ScanInvariant(lines: seq<string>, c: nat, p: Partition)
    requires c <= p.cursor <= |lines| && ScanFacts(lines, c, p)
    ensures var r := Scan(lines, p);
            c <= r.cursor && ScanFacts(lines, c, r) && (r.cursor == |lines| || r.braces <= 0)
    decreases |lines| - p.cursor
  {
    if p.cursor < |lines| && p.braces > 0 {
      var q := Advance(p, Trim(lines[p.cursor]));
      AdvanceKeepsFacts(lines, c, p);
      ScanInvariant(lines, c, q);
    }
  }

  /** One pass of the scan: the cursor moves by one, the count by the line's
      brace, the else-mode turns on at "} else {", and the kept line, if any,
      goes to the end of the lists. */
  lemma AdvanceShape(p: Partition, line: string)
    requires !p.inElse ==> p.elseBlock == []
    ensures var q := Advance(p, line);
            && q.cursor == p.cursor + 1
            && q.braces == p.braces + BraceDelta(line)
            && q.inElse == (p.inElse || line == "} else {")
            && q.thenBlock + q.elseBlock == p.thenBlock + p.elseBlock + KeptOf(line)
            && (!q.inElse ==> q.elseBlock == [])
  {
  }

  /** One pass of the scan keeps the facts. */
  lemma AdvanceKeepsFacts(lines: seq<string>, c: nat, p: Partition)
    requires c <= p.cursor < |lines| && p.braces > 0 && ScanFacts(lines, c, p)
    ensures var q := Advance(p, Trim(lines[p.cursor]));
            q.cursor == p.cursor + 1 && ScanFacts(lines, c, q)
  {
    var line := Trim(lines[p.cursor]);
    AdvanceShape(p, line);
    AdvanceKeepsKept(lines, c, p, Advance(p, line));
    BalanceSnoc(lines, c, p.cursor);
    AdvanceKeepsPositive(lines, c, p.cursor);
  }

  lemma AdvanceKeepsKept(lines: seq<string>, c: nat, p: Partition, q: Partition)
    requires c <= p.cursor < |lines| && p.thenBlock + p.elseBlock == Kept(lines[c..p.cursor])
    requires q.cursor == p.cursor + 1
    requires q.thenBlock + q.elseBlock == p.thenBlock + p.elseBlock + KeptOf(Trim(lines[p.cursor]))
    ensures q.thenBlock + q.elseBlock == Kept(lines[c..q.cursor])
  {
    KeptSnoc(lines, c, p.cursor);
  }

  lemma AdvanceKeepsPositive(lines: seq<string>, c: nat, n: nat)
    requires c <= n < |lines| && 1 + Balance(lines[c..n]) > 0
    requires forall m :: c <= m < n ==> 1 + Balance(lines[c..m]) > 0
    ensures forall m :: c <= m < n + 1 ==> 1 + Balance(lines[c..m]) > 0
  {
  }

  /** The first line in `lines[c..n]` that reads "} else {" once trimmed, or `n`
      when there is none (`ElseLineFirst`). */
  function ElseLine(lines: seq<string>, c: nat, n: nat): (k: nat)
    requires c <= n <= |lines|
    ensures c <= k <= n
    decreases n
  {
    if n == c then c
    else
      var k := ElseLine(lines, c, n - 1);
      if k < n - 1 then k else if Trim(lines[n - 1]) == "} else {" then n - 1 else n
  }

  /** `ElseLine` finds the first "} else {": the line it names reads so, and none before it does. */
  lemma {:induction false} ElseLineFirst(lines: seq<string>, c: nat, n: nat)
    requires c <= n <= |lines|
    ensures var k := ElseLine(lines, c, n);
            && (k < n ==> Trim(lines[k]) == "} else {")
            && forall j :: c <= j < k ==> Trim(lines[j]) != "} else {"
    decreases n
  {
    if n > c {
      ElseLineFirst(lines, c, n - 1);
    }
  }

  /** The two lists of the scan from `c`: the then-list is the kept lines before the
      first "} else {", the else-list those after it, and else-mode is on once it
      has been passed. */
  ghost predicate ElseFacts(lines: seq<string>, c: nat, p: Partition)
    requires c <= p.cursor <= |lines|
  {
    var k := ElseLine(lines, c, p.cursor);
    && p.inElse == (k < p.cursor)
    && p.thenBlock == KeptUpTo(lines, c, k)
    && p.elseBlock == KeptAfter(lines, k, p.cursor)
  }

  /** The kept lines after line `k` up to `n`; none when `k` is not before `n`. */
  function KeptAfter(lines: seq<string>, k: nat, n: nat): seq<string>
    requires k <= n <= |lines|
  {
    if k < n then KeptUpTo(lines, k + 1, n) else []
  }

  lemma KeptAfterLast(lines: seq<string>, k: nat, n: nat)
    requires k < n < |lines|
    ensures KeptAfter(lines, k, n + 1) == KeptAfter(lines, k, n) + KeptOf(Trim(lines[n]))
  {
    KeptUpToLast(lines, k + 1, n);
  }

  /** Where one pass of the scan puts the line it reads. */
  lemma AdvanceLists(p: Partition, line: string)
    ensures var q := Advance(p, line);
            && q.cursor == p.cursor + 1
            && q.inElse == (p.inElse || line == "} else {")
            && (p.inElse ==> q.thenBlock == p.thenBlock && q.elseBlock == p.elseBlock + KeptOf(line))
            && (!p.inElse ==> q.elseBlock == p.elseBlock && q.thenBlock == p.thenBlock + KeptOf(line))
  {
  }

  /** Once found, the first "} else {" stays the first. */
  lemma ElseLineStays(lines: seq<string>, c: nat, n: nat)
    requires c <= n < |lines| && ElseLine(lines, c, n) < n
    ensures ElseLine(lines, c, n + 1) == ElseLine(lines, c, n)
  {
  }

  /** Before any "} else {", the next line is the first one when it reads so. */
  lemma ElseLineNext(lines: seq<string>, c: nat, n: nat)
    requires c <= n < |lines| && ElseLine(lines, c, n) == n
    ensures ElseLine(lines, c, n + 1) == if Trim(lines[n]) == "} else {" then n else n + 1
  {
  }

  /** One pass of the scan keeps the two lists split at the first "} else {". */
  lemma AdvanceKeepsElse(lines: seq<string>, c: nat, p: Partition)
    requires c <= p.cursor < |lines| && ElseFacts(lines, c, p)
    ensures var q := Advance(p, Trim(lines[p.cursor]));
            q.cursor == p.cursor + 1 && ElseFacts(lines, c, q)
  {
    var line := Trim(lines[p.cursor]);
    AdvanceLists(p, line);
    ElseStep(lines, c, p, Advance(p, line), line);
  }

  /** The same for any partition `q` that the pass produces from `p`. */
  lemma ElseStep(lines: seq<string>, c: nat, p: Partition, q: Partition, line: string)
    requires c <= p.cursor < |lines| && ElseFacts(lines, c, p) && line == Trim(lines[p.cursor])
    requires q.cursor == p.cursor + 1 && q.inElse == (p.inElse || line == "} else {")
    requires p.inElse ==> q.thenBlock == p.thenBlock && q.elseBlock == p.elseBlock + KeptOf(line)
    requires !p.inElse ==> q.elseBlock == p.elseBlock && q.thenBlock == p.thenBlock + KeptOf(line)
    ensures ElseFacts(lines, c, q)
  {
    if p.inElse {
      ElseKept(lines, c, p, q, line);
    } else if line == "} else {" {
      ElseFound(lines, c, p, q, line);
    } else {
      ElseNotYet(lines, c, p, q, line);
    }
  }

  /** Past the first "} else {", the line read goes to the else-list. */
  lemma ElseKept(lines: seq<string>, c: nat, p: Partition, q: Partition, line: string)
    requires c <= p.cursor < |lines| && ElseFacts(lines, c, p) && line == Trim(lines[p.cursor])
    requires p.inElse && q.cursor == p.cursor + 1 && q.inElse
    requires q.thenBlock == p.thenBlock && q.elseBlock == p.elseBlock + KeptOf(line)
    ensures ElseFacts(lines, c, q)
  {
    var n := p.cursor;
    var k := ElseLine(lines, c, n);
    ElseLineStays(lines, c, n);
    KeptAfterLast(lines, k, n);
  }

  /** At the first "} else {" the then-list is complete and the else-list starts empty. */
  lemma ElseFound(lines: seq<string>, c: nat, p: Partition, q: Partition, line: string)
    requires c <= p.cursor < |lines| && ElseFacts(lines, c, p) && line == Trim(lines[p.cursor])
    requires !p.inElse && line == "} else {" && q.cursor == p.cursor + 1 && q.inElse
    requires q.thenBlock == p.thenBlock && q.elseBlock == p.elseBlock
    ensures ElseFacts(lines, c, q)
  {
    var n := p.cursor;
    ElseLineNext(lines, c, n);
  }

  /** Before any "} else {", the line read goes to the then-list. */
  lemma ElseNotYet(lines: seq<string>, c: nat, p: Partition, q: Partition, line: string)
    requires c <= p.cursor < |lines| && ElseFacts(lines, c, p) && line == Trim(lines[p.cursor])
    requires !p.inElse && line != "} else {" && q.cursor == p.cursor + 1 && !q.inElse
    requires q.elseBlock == p.elseBlock && q.thenBlock == p.thenBlock + KeptOf(line)
    ensures ElseFacts(lines, c, q)
  {
    var n := p.cursor;
    ElseLineNext(lines, c, n);
    KeptUpToLast(lines, c, n);
  }

  lemma {:induction false} ScanSplits(lines: seq<string>, c: nat, p: Partition)
    requires c <= p.cursor <= |lines| && ElseFacts(lines, c, p)
    ensures ElseFacts(lines, c, Scan(lines, p))
    decreases |lines| - p.cursor
  {
    if p.cursor < |lines| && p.braces > 0 {
      AdvanceKeepsElse(lines, c, p);
      ScanSplits(lines, c, Advance(p, Trim(lines[p.cursor])));
    }
  }

  /** processIfBlock's scan from line `c`: every kept line of the block lands in
      exactly one list, in order, then-lines before the first "} else {" and
      else-lines after it; the block ends at the line that closes the opening
      brace, or at the end of the script when none does. */
  lemma ScanPartition(lines: seq<string>, c: nat)
    requires c <= |lines|
    ensures var r := Scan(lines, Opening(c));
            var k := ElseLine(lines, c, r.cursor);
            && r.thenBlock == Kept(lines[c..k])
            && r.elseBlock == (if k < r.cursor then Kept(lines[k + 1..r.cursor]) else [])
            && r.thenBlock + r.elseBlock == Kept(lines[c..r.cursor])
            && r.braces == 1 + Balance(lines[c..r.cursor])
            && (r.cursor == |lines| || r.braces == 0)
            && forall m :: c <= m < r.cursor ==> 1 + Balance(lines[c..m]) > 0
  {
    ScanLists(lines, c);
    ScanExtent(lines, c);
  }

  /** `ElseFacts` with the lists written as `Kept` of slices. */
  lemma ElseFactsKept(lines: seq<string>, c: nat, r: Partition)
    requires c <= r.cursor <= |lines| && ElseFacts(lines, c, r)
    ensures var k := ElseLine(lines, c, r.cursor);
            && r.thenBlock == Kept(lines[c..k])
            && r.elseBlock == (if k < r.cursor then Kept(lines[k + 1..r.cursor]) else [])
  {
    var k := ElseLine(lines, c, r.cursor);
    KeptUpToIsKept(lines, c, k);
    if k < r.cursor {
      KeptUpToIsKept(lines, k + 1, r.cursor);
    }
  }

  /** The two lists of the scan from `c`, split at the first "} else {". */
  lemma ScanLists(lines: seq<string>, c: nat)
    requires c <= |lines|
    ensures var r := Scan(lines, Opening(c));
            var k := ElseLine(lines, c, r.cursor);
            && r.thenBlock == Kept(lines[c..k])
            && r.elseBlock == (if k < r.cursor then Kept(lines[k + 1..r.cursor]) else [])
  {
    ScanSplitsKept(lines, c, Opening(c));
  }

  lemma ScanSplitsKept(lines: seq<string>, c: nat, p: Partition)
    requires c <= p.cursor <= |lines| && ElseFacts(lines, c, p)
    ensures var r := Scan(lines, p);
            var k := ElseLine(lines, c, r.cursor);
            && r.thenBlock == Kept(lines[c..k])
            && r.elseBlock == (if k < r.cursor then Kept(lines[k + 1..r.cursor]) else [])
  {
    ScanSplits(lines, c, p);
    ElseFactsKept(lines, c, Scan(lines, p));
  }

  /** The kept lines, the brace count and where the scan from `c` stops. */
  lemma ScanExtent(lines: seq<string>, c: nat)
    requires c <= |lines|
    ensures var r := Scan(lines, Opening(c));
            && r.thenBlock + r.elseBlock == Kept(lines[c..r.cursor])
            && r.braces == 1 + Balance(lines[c..r.cursor])
            && (r.cursor == |lines| || r.braces == 0)
            && forall m :: c <= m < r.cursor ==> 1 + Balance(lines[c..m]) > 0
  {
    assert lines[c..c] == [];
    ScanInvariant(lines, c, Opening(c));
    var r := Scan(lines, Opening(c));
    if r.cursor < |lines| {
      assert r.braces <= 0;
      assert r != Opening(c);
      ScanEndsClosed(lines, c, r);
    }
  }

  /** A scan that stopped early, past its first line, stopped at a count of zero. */
  lemma ScanEndsClosed(lines: seq<string>, c: nat, r: Partition)
    requires c < r.cursor <= |lines| && ScanFacts(lines, c, r) && r.braces <= 0
    ensures r.braces == 0
  {
    var e := r.cursor - 1;
    BalanceSnoc(lines, c, e);
    assert lines[c..e + 1] == lines[c..r.cursor];
    assert 1 + Balance(lines[c..e]) > 0;
  }

  // ---------------------------------------------------------------------------
  // executeBlock and processIfBlock
  // ---------------------------------------------------------------------------

  /** executeBlock is sequential composition: a block split in two runs the
      first part, and the second only if the first threw nothing. */
  lemma {:induction false} BlockSequence(host: Host, s: State, first: seq<string>, second: seq<string>)
    requires s.Valid()
    ensures var r := BlockStep(host, s, first);
            BlockStep(host, s, first + second) ==
              if r.failure.Some? then r else BlockStep(host, r.state, second)
    decreases |first|
  {
    if first == [] {
      assert first + second == second;
    } else {
      assert (first + second)[0] == first[0] && (first + second)[1..] == first[1..] + second;
      var step := LineStep(host, s, first[0]);
      if step.failure.None? {
        BlockSequence(host, step.state, first[1..], second);
      }
    }
  }

  /** A condition that cannot be cut out or judged throws before the scan: only
      the if-line is consumed, so after its failure record the lines of the block
      are read as top-level lines, "{", "}" and "} else {" among them. */
  lemma IfFailureFallsThrough(host: Host, s: State)
    requires s.Valid() && s.cursor < |s.lines| && StartsWith(Trim(s.lines[s.cursor]), "if")
    requires var line := Trim(s.lines[s.cursor]);
             var cut := ConditionText(line);
             cut.Err? || Condition(host, s.vars, cut.value).Err?
    ensures var line := Trim(s.lines[s.cursor]);
            var cut := ConditionText(line);
            var e := if cut.Err? then cut.error else Condition(host, s.vars, cut.value).error;
            Run(host, s) ==
              if e.IsFatal() then Err(e)
              else Run(host, s.(cursor := s.cursor + 1, out := s.out + [Failed(line, e)]))
  {
    var line := Trim(s.lines[s.cursor]);
    var next := s.(cursor := s.cursor + 1);
    assert line[0] == "if"[0];
    assert !IsSkipped(line) by {
      assert "//"[0] == '/';
    }
    assert LineStep(host, next, line) == IfStep(host, next, line);
    assert IfStep(host, next, line).state == next;
  }

  /** The lines processIfBlock runs for the block opened at `c` whose scan ended
      in `r`: the kept lines before the first "} else {" when the condition holds,
      the kept lines after it when it does not, and none when it does not and
      there is no "} else {". */
  ghost function ChosenLines(lines: seq<string>, c: nat, r: Partition, holds: bool): seq<string>
    requires c <= r.cursor <= |lines|
  {
    var k := ElseLine(lines, c, r.cursor);
    if holds then Kept(lines[c..k])
    else if k < r.cursor then Kept(lines[k + 1..r.cursor]) else []
  }

  /** Once the condition is judged, processIfBlock runs `ChosenLines` and the run
      goes on from the line after the closing brace. */
  lemma IfRunsChosenList(host: Host, s: State, firstLine: string, condition: string, holds: bool)
    requires s.Valid()
    requires ConditionText(firstLine) == Ok(condition)
    requires Condition(host, s.vars, condition) == Ok(holds)
    ensures var r := Scan(s.lines, Opening(s.cursor));
            IfStep(host, s, firstLine) == BlockStep(host, s.(cursor := r.cursor), ChosenLines(s.lines, s.cursor, r, holds))
  {
    IfStepJudged(host, s, firstLine, condition, holds);
    IfBlockChosen(host, s, holds);
  }

  lemma IfStepJudged(host: Host, s: State, firstLine: string, condition: string, holds: bool)
    requires s.Valid()
    requires ConditionText(firstLine) == Ok(condition)
    requires Condition(host, s.vars, condition) == Ok(holds)
    ensures IfStep(host, s, firstLine) == IfBlock(host, s, holds)
  {
  }

  lemma IfBlockChosen(host: Host, s: State, holds: bool)
    requires s.Valid()
    ensures var r := Scan(s.lines, Opening(s.cursor));
            IfBlock(host, s, holds) == BlockStep(host, s.(cursor := r.cursor), ChosenLines(s.lines, s.cursor, r, holds))
  {
    OpeningElseFacts(s.lines, s.cursor);
    ChosenIsScanned(s.lines, s.cursor, Opening(s.cursor));
  }

  lemma OpeningElseFacts(lines: seq<string>, c: nat)
    requires c <= |lines|
    ensures ElseFacts(lines, c, Opening(c))
  {
  }

  lemma ChosenIsScanned(lines: seq<string>, c: nat, p: Partition)
    requires c <= p.cursor <= |lines| && ElseFacts(lines, c, p)
    ensures var r := Scan(lines, p);
            ChosenLines(lines, c, r, true) == r.thenBlock && ChosenLines(lines, c, r, false) == r.elseBlock
  {
    ScanSplitsKept(lines, c, p);
  }


  // ---------------------------------------------------------------------------
  // Conditions
  // ---------------------------------------------------------------------------

  /** Text holding no character of a comparison operator. */
  predicate Plain(s: string) {
    forall i :: 0 <= i < |s| ==> s[i] != '<' && s[i] != '>' && s[i] != '=' && s[i] != '!'
  }

  predicate IsComparison(op: string) {
    op == ">=" || op == "<=" || op == ">" || op == "<" || op == "==" || op == "!="
  }

  /** Both operands evaluated, left first, and compared with `op`. */
  function Compared(host: Host, vars: map<string, real>, op: string, a: string, b: string): Result<bool> {
    var x :- Evaluation(host, vars, a);
    var y :- Evaluation(host, vars, b);
    Ok(Holds(op, x, y))
  }

  /** In `a + [x] + b`, with `x` in neither part, `x` stands only between them. */
  lemma {:induction false} SoleSymbol(a: string, x: char, b: string, i: nat)
    requires x !in a && x !in b && i < |a| + 1 + |b|
    ensures (a + [x] + b)[i] == x <==> i == |a|
  {
    var c := a + [x] + b;
    if i < |a| {
      assert c[i] == a[i];
    } else if i > |a| {
      assert c[i] == b[i - |a| - 1];
    }
  }

  /** A two-character operator occurs nowhere its first character is not
      followed by its second. */
  lemma Absent2(c: string, op: string)
    requires |op| == 2
    requires forall i :: 0 <= i < |c| - 1 ==> c[i] != op[0] || c[i + 1] != op[1]
    ensures !Contains(c, op)
  {
    forall i: nat ensures !OccursAt(c, op, i) {
      if i + 2 <= |c| {
        assert c[i..i + 2][0] == c[i] && c[i..i + 2][1] == c[i + 1];
      }
    }
  }

  /** `op` stands at position |a| of `a + op + b`. */
  lemma OperatorPresent(a: string, op: string, b: string)
    ensures Contains(a + op + b, op)
  {
    var c := a + op + b;
    assert c[|a|..|a| + |op|] == op;
    OccursContains(c, op, |a|);
  }

  /** The operators that Judge tries before `op` are absent from `a op b`. */
  lemma EarlierAbsent(a: string, op: string, b: string)
    requires IsComparison(op) && Plain(a) && Plain(b)
    ensures op != ">=" ==> !Contains(a + op + b, ">=")
    ensures op != ">=" && op != "<=" ==> !Contains(a + op + b, "<=")
    ensures (op == "<" || op == "==" || op == "!=") ==> !Contains(a + op + b, ">")
    ensures (op == "==" || op == "!=") ==> !Contains(a + op + b, "<")
    ensures op == "!=" ==> !Contains(a + op + b, "==")
  {
    var c := a + op + b;
    assert '>' !in a && '<' !in a && '=' !in a && '!' !in a;
    assert '>' !in b && '<' !in b && '=' !in b && '!' !in b;
    if op == "<=" || op == "<" || op == "==" || op == "!=" {
      NotContainsAt(c, ">=", 0);
      NotContainsAt(c, ">", 0);
    }
    if op == ">" {
      NotContainsAt(c, ">=", 1);
      NotContainsAt(c, "<=", 0);
    }
    if op == "<" {
      NotContainsAt(c, "<=", 1);
    }
    if op == "==" || op == "!=" {
      NotContainsAt(c, "<=", 0);
      NotContainsAt(c, "<", 0);
    }
    if op == "!=" {
      var a' := a + ['!'];
      assert c == a' + ['='] + b;
      forall i | 0 <= i < |c| - 1 ensures c[i] != '=' || c[i + 1] != '=' {
        SoleSymbol(a', '=', b, i);
        SoleSymbol(a', '=', b, i + 1);
      }
      Absent2(c, "==");
    }
  }

  /** The split at `op` and the comparison of the two parts. */
  lemma RelateAround(host: Host, vars: map<string, real>, a: string, op: string, b: string)
    requires IsComparison(op) && Plain(a) && Plain(b) && b != []
    ensures Relate(host, vars, op, a + op + b) == Compared(host, vars, op, a, b)
  {
    assert op[0] !in a && op[0] !in b;
    SplitAround(a, op, b);
  }

  /** A condition written `a op b` with plain operands is judged by `op` on
      `a` and `b`: earlier operators in the order >=, <=, >, <, ==, != are
      absent, and the split yields exactly the two operands. */
  lemma Comparison(host: Host, vars: map<string, real>, a: string, op: string, b: string)
    requires IsComparison(op) && Plain(a) && Plain(b) && b != []
    ensures Judge(host, vars, a + op + b) == Compared(host, vars, op, a, b)
  {
    OperatorPresent(a, op, b);
    EarlierAbsent(a, op, b);
    RelateAround(host, vars, a, op, b);
  }

  function Negated(r: Result<bool>): Result<bool> {
    if r.Ok? then Ok(!r.value) else r
  }

  /** The three pairs of opposite operators. */
  predicate Opposite(op: string, negated: string) {
    || (op == "!=" && negated == "==")
    || (op == "<" && negated == ">=")
    || (op == ">" && negated == "<=")
  }

  /** `!=`, `<` and `>` judge the opposite of `==`, `>=` and `<=` on the same operands. */
  lemma Negation(host: Host, vars: map<string, real>, a: string, op: string, negated: string, b: string)
    requires Plain(a) && Plain(b) && b != [] && Opposite(op, negated)
    ensures Judge(host, vars, a + op + b) == Negated(Judge(host, vars, a + negated + b))
  {
    Comparison(host, vars, a, op, b);
    Comparison(host, vars, a, negated, b);
  }

  /** Without a comparison operator a condition holds when its value is not zero. */
  lemma Truthiness(host: Host, vars: map<string, real>, c: string)
    requires Plain(c)
    ensures Judge(host, vars, c) ==
              match Evaluation(host, vars, c)
              case Ok(v) => Ok(v != 0.0)
              case Err(e) => Err(e)
  {
    assert '>' !in c && '<' !in c && '=' !in c && '!' !in c;
    NotContains(c, ">=");
    NotContains(c, "<=");
    NotContains(c, ">");
    NotContains(c, "<");
    NotContains(c, "==");
    NotContains(c, "!=");
  }

  // ---------------------------------------------------------------------------
  // Assignments
  // ---------------------------------------------------------------------------

  /** `name=expression` with no other '=' and no '<' or '>' right before it
      passes every test of an assignment. */
  lemma AssignmentShape(name: string, expression: string)
    requires name != [] && expression != []
    requires '=' !in name && '=' !in expression
    requires name[|name| - 1] != '<' && name[|name| - 1] != '>'
    ensures IsAssignment(name + "=" + expression)
    ensures JavaSplit(name + "=" + expression, "=") == [name, expression]
  {
    var line := name + "=" + expression;
    assert line == name + ['='] + expression;
    OperatorPresent(name, "=", expression);
    forall i | 0 <= i < |line| - 1
      ensures line[i] != '=' || line[i + 1] != '='
      ensures line[i] != '>' || line[i + 1] != '='
      ensures line[i] != '<' || line[i + 1] != '='
    {
      SoleSymbol(name, '=', expression, i);
      SoleSymbol(name, '=', expression, i + 1);
      if i + 1 == |name| {
        assert line[i] == name[i];
      }
    }
    Absent2(line, "==");
    Absent2(line, ">=");
    Absent2(line, "<=");
    SplitAround(name, "=", expression);
  }

  /** `name = expression` with one '=' not preceded by '<' or '>' is an
      assignment: the value of the trimmed right side is stored under the
      trimmed name, replacing any earlier value, and recorded. */
  lemma Assignment(host: Host, s: State, name: string, expression: string)
    requires s.Valid() && name != [] && expression != []
    requires '=' !in name && '=' !in expression
    requires name[|name| - 1] != '<' && name[|name| - 1] != '>'
    requires !StartsWith(name + "=" + expression, "if")
    ensures LineStep(host, s, name + "=" + expression) ==
              match Evaluation(host, s.vars, Trim(expression))
              case Ok(v) => Step(s.(vars := s.vars[Trim(name) := v], out := s.out + [Assigned(Trim(name), v)]), None)
              case Err(e) => Step(s, Some(e))
  {
    AssignmentShape(name, expression);
  }

  /** A line holding "==" is never an assignment: it leaves the variables and the
      cursor alone, and either prints the value of the whole line or throws. */
  lemma EqualityIsExpression(host: Host, s: State, line: string)
    requires s.Valid() && !StartsWith(line, "if") && Contains(line, "==")
    ensures var r := LineStep(host, s, line);
            && r.state.vars == s.vars && r.state.cursor == s.cursor
            && (r.failure.None? <==> Evaluation(host, s.vars, line).Ok?)
            && (r.failure.None? ==> r.state.out == s.out + [Printed(Evaluation(host, s.vars, line).value)])
            && (r.failure.Some? ==> r.state == s)
  {
  }
}
