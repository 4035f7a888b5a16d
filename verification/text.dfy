/**
 * The java.lang.String operations the three components rely on, with the
 * JDK's edge cases written out: `trim` strips every character up to U+0020,
 * `split` drops trailing empty pieces, `substring` throws on a bad range.
 */
module Text {
  import opened Outcomes

  /** The characters matched by the regular-expression class `\s`. */
  predicate IsWhitespace(c: char) {
    c == ' ' || c == '\t' || c == '\n' || c == '\U{B}' || c == '\U{C}' || c == '\r'
  }

  predicate IsDigit(c: char) { '0' <= c <= '9' }

  /** `s.replaceAll("\\s+", "")`: every whitespace character removed, the rest kept in order. */
  function RemoveWhitespace(s: string): (r: string)
    ensures forall i :: 0 <= i < |r| ==> !IsWhitespace(r[i])
    ensures |r| <= |s|
    ensures (forall i :: 0 <= i < |s| ==> !IsWhitespace(s[i])) ==> r == s
    ensures forall c :: c in r ==> c in s
  {
    if s == [] then []
    else if IsWhitespace(s[0]) then RemoveWhitespace(s[1..])
    else [s[0]] + RemoveWhitespace(s[1..])
  }

  /** One character: a whitespace character goes, any other stays. */
  lemma RemoveWhitespaceOne(c: char)
    ensures RemoveWhitespace([c]) == if IsWhitespace(c) then [] else [c]
  {
    assert [c][1..] == [];
  }

  /** Removing whitespace works piece by piece: with `RemoveWhitespaceOne`, this
      fixes the result of every text, character by character and in order. */
  lemma {:induction false} RemoveWhitespaceAppend(a: string, b: string)
    ensures RemoveWhitespace(a + b) == RemoveWhitespace(a) + RemoveWhitespace(b)
    decreases |a|
  {
    if a != [] {
      assert (a + b)[0] == a[0] && (a + b)[1..] == a[1..] + b;
      RemoveWhitespaceAppend(a[1..], b);
    } else {
      assert a + b == b;
    }
  }

  /** The characters `String.trim` removes: every code point up to the space. */
  predicate IsTrimmed(c: char) { c <= ' ' }

  /** `trim`'s first half: the leading characters up to the space dropped. */
  function TrimStart(s: string): string {
    if s != [] && IsTrimmed(s[0]) then TrimStart(s[1..]) else s
  }

  /** `trim`'s second half: the trailing characters up to the space dropped. */
  function TrimEnd(s: string): string {
    if s != [] && IsTrimmed(s[|s| - 1]) then TrimEnd(s[..|s| - 1]) else s
  }

  /** `s.trim()`. Its properties are stated by `TrimmedSlice`, apart from the
      function, so that a line's trimmed form costs nothing where they are not needed. */
  function Trim(s: string): string {
    TrimEnd(TrimStart(s))
  }

  lemma {:induction false} TrimStartDrops(s: string)
    ensures var r := TrimStart(s);
            && |r| <= |s| && r == s[|s| - |r|..]
            && (forall i :: 0 <= i < |s| - |r| ==> IsTrimmed(s[i]))
            && (r == [] || !IsTrimmed(r[0]))
    decreases |s|
  {
    if s != [] && IsTrimmed(s[0]) {
      TrimStartDrops(s[1..]);
    }
  }

  lemma {:induction false} TrimEndDrops(s: string)
    ensures var r := TrimEnd(s);
            && |r| <= |s| && r == s[..|r|]
            && (forall i :: |r| <= i < |s| ==> IsTrimmed(s[i]))
            && (r == [] || !IsTrimmed(r[|r| - 1]))
    decreases |s|
  {
    if s != [] && IsTrimmed(s[|s| - 1]) {
      TrimEndDrops(s[..|s| - 1]);
    }
  }

  /** `trim` keeps one slice of the string, drops only characters up to the
      space, keeps none at either end, and leaves a string without them alone. */
  lemma TrimmedSlice(s: string)
    ensures var r := Trim(s);
            && (exists i :: 0 <= i <= |s| - |r| && r == s[i..][..|r|])
            && (r == [] || (!IsTrimmed(r[0]) && !IsTrimmed(r[|r| - 1])))
            && ((s == [] || (!IsTrimmed(s[0]) && !IsTrimmed(s[|s| - 1]))) ==> r == s)
  {
    var t := TrimStart(s);
    var r := TrimEnd(t);
    TrimStartDrops(s);
    TrimEndDrops(t);
    var k := |s| - |t|;
    assert r == s[k..][..|r|] by {
      assert t == s[k..] && r == t[..|r|];
    }
    assert r != [] ==> r[0] == t[0];
    assert Trim(s) == r && 0 <= k <= |s| - |r|;
  }

  /** `s.startsWith(p)`. */
  predicate StartsWith(s: string, p: string) {
    |p| <= |s| && forall i :: 0 <= i < |p| ==> s[i] == p[i]
  }

  /** `sub` occurs in `s` starting at position `i`. */
  predicate OccursAt(s: string, sub: string, i: nat) {
    i + |sub| <= |s| && s[i..i + |sub|] == sub
  }

  /** `s.indexOf(sub, from)`: an occurrence at or after `from`, or -1; that it is
      the first one is `IndexOfFromFirst`. */
  function IndexOfFrom(s: string, sub: string, from: nat): (r: int)
    ensures r == -1 || (from <= r && OccursAt(s, sub, r))
    decreases |s| - from
  {
    if from + |sub| > |s| then -1
    else if s[from..from + |sub|] == sub then from
    else IndexOfFrom(s, sub, from + 1)
  }

  /** No occurrence of `sub` lies between `from` and the one `IndexOfFrom` finds,
      and none at all lies after `from` when it finds none. */
  lemma {:induction false} IndexOfFromFirst(s: string, sub: string, from: nat)
    ensures var r := IndexOfFrom(s, sub, from);
            && (r >= 0 ==> forall i :: from <= i < r ==> !OccursAt(s, sub, i))
            && (r == -1 ==> forall i :: from <= i ==> !OccursAt(s, sub, i))
    decreases |s| - from
  {
    if from + |sub| <= |s| && s[from..from + |sub|] != sub {
      IndexOfFromFirst(s, sub, from + 1);
    }
  }

  /** `s.contains(sub)`. */
  predicate Contains(s: string, sub: string) {
    IndexOfFrom(s, sub, 0) >= 0
  }

  lemma ContainsChar(s: string, c: char)
    ensures Contains(s, [c]) <==> c in s
  {
    if c in s {
      var i :| 0 <= i < |s| && s[i] == c;
      assert OccursAt(s, [c], i);
      OccursContains(s, [c], i);
    }
    if Contains(s, [c]) {
      var i := IndexOfFrom(s, [c], 0);
      assert s[i..i + 1] == [c];
      assert s[i] == c;
    }
  }

  /** Text without the first character of `target` does not contain it. */
  lemma NotContains(s: string, target: string)
    requires target != [] && target[0] !in s
    ensures !Contains(s, target)
  {
  }

  /** Text lacking one of the characters of `target` does not contain it. */
  lemma NotContainsAt(s: string, target: string, k: nat)
    requires k < |target| && target[k] !in s
    ensures !Contains(s, target)
  {
  }

  /** An occurrence of `sub` makes `s.contains(sub)` true. */
  lemma OccursContains(s: string, sub: string, i: nat)
    requires OccursAt(s, sub, i)
    ensures Contains(s, sub)
  {
    IndexOfFromFirst(s, sub, 0);
  }

  /** `s.lastIndexOf(c)`: the last position holding `c`, or -1. */
  function LastIndexOf(s: string, c: char): (r: int)
    ensures -1 <= r < |s|
    ensures r >= 0 ==> s[r] == c && forall i :: r < i < |s| ==> s[i] != c
    ensures r == -1 ==> c !in s
  {
    if s == [] then -1
    else if s[|s| - 1] == c then |s| - 1
    else LastIndexOf(s[..|s| - 1], c)
  }

  /** The number of occurrences of `c` in `s`. */
  function Count(s: string, c: char): nat {
    multiset(s)[c]
  }

  /** `s.substring(b, e)`, which throws unless 0 <= b <= e <= length. */
  function Substring(s: string, b: int, e: int): (r: Result<string>)
    ensures r.Ok? <==> 0 <= b <= e <= |s|
    ensures r.Ok? ==> r.value == s[b..e]
    ensures r.Err? ==> r.error == IndexOutOfBounds
  {
    if 0 <= b <= e <= |s| then Ok(s[b..e]) else Err(IndexOutOfBounds)
  }

  /** `s.replace(target, repl)`: occurrences replaced left to right, never overlapping. */
  function Replace(s: string, target: string, repl: string): (r: string)
    requires target != []
    ensures !Contains(s, target) ==> r == s
    ensures forall c :: c in r ==> c in s || c in repl
    decreases |s|
  {
    if |s| < |target| then s
    else if s[..|target|] == target then
      assert s[0..|target|] == target;
      repl + Replace(s[|target|..], target, repl)
    else
      var r := [s[0]] + Replace(s[1..], target, repl);
      assert !Contains(s, target) ==> !Contains(s[1..], target) by {
        if Contains(s[1..], target) {
          var k := IndexOfFrom(s[1..], target, 0);
          assert s[k + 1..k + 1 + |target|] == s[1..][k..k + |target|];
          assert OccursAt(s, target, k + 1);
          OccursContains(s, target, k + 1);
        }
      }
      r
  }

  /** The pieces of `s` between the occurrences of `sep`, found left to right; `cur` is the piece begun so far. */
  function SplitFrom(s: string, sep: string, cur: string): (r: seq<string>)
    requires sep != []
    ensures |r| >= 1
    decreases |s|
  {
    if s == [] then [cur]
    else if |sep| <= |s| && s[..|sep|] == sep then [cur] + SplitFrom(s[|sep|..], sep, [])
    else SplitFrom(s[1..], sep, cur + [s[0]])
  }

  function DropTrailingEmpty(parts: seq<string>): (r: seq<string>)
    ensures |r| <= |parts| && r == parts[..|r|]
    ensures r == [] || r[|r| - 1] != []
    ensures forall i :: |r| <= i < |parts| ==> parts[i] == []
  {
    if parts != [] && parts[|parts| - 1] == [] then DropTrailingEmpty(parts[..|parts| - 1]) else parts
  }

  /** `s.split(sep)` for a separator with no regular-expression meta-characters:
      trailing empty pieces are dropped, but the empty string splits into one empty piece. */
  function JavaSplit(s: string, sep: string): (r: seq<string>)
    requires sep != []
    ensures r == [] || r[|r| - 1] != [] || s == []
  {
    if s == [] then [[]] else DropTrailingEmpty(SplitFrom(s, sep, []))
  }

  /** The pieces joined with `sep` between consecutive pieces. */
  function Join(parts: seq<string>, sep: string): (r: string)
    ensures parts == [] ==> r == []
    ensures |parts| == 1 ==> r == parts[0]
  {
    if parts == [] then []
    else if |parts| == 1 then parts[0]
    else parts[0] + sep + Join(parts[1..], sep)
  }

  /** Splitting a piece without the separator character, followed by the separator, closes that piece. */
  lemma {:induction false} SplitFromPiece(t: string, c: char, rest: string, cur: string)
    requires c !in t
    ensures SplitFrom(t + [c] + rest, [c], cur) == [cur + t] + SplitFrom(rest, [c], [])
    decreases |t|
  {
    var s := t + [c] + rest;
    if t == [] {
      assert s[..1] == [c] && s[1..] == rest;
      assert cur + t == cur;
    } else {
      assert s[..1] == [t[0]] && s[0] == t[0] && s[1..] == t[1..] + [c] + rest;
      SplitFromPiece(t[1..], c, rest, cur + [t[0]]);
      assert cur + [t[0]] + t[1..] == cur + t;
    }
  }

  /** The same for a separator of any length whose first character is not in the piece. */
  lemma {:induction false} SplitFromPieceSep(t: string, sep: string, rest: string, cur: string)
    requires sep != [] && sep[0] !in t
    ensures SplitFrom(t + sep + rest, sep, cur) == [cur + t] + SplitFrom(rest, sep, [])
    decreases |t|
  {
    var s := t + sep + rest;
    if t == [] {
      assert s[..|sep|] == sep && s[|sep|..] == rest;
      assert cur + t == cur;
    } else {
      assert s[0] == t[0] && s[1..] == t[1..] + sep + rest;
      assert s[..|sep|] != sep by {
        assert s[..|sep|][0] == t[0];
      }
      SplitFromPieceSep(t[1..], sep, rest, cur + [t[0]]);
      assert cur + [t[0]] + t[1..] == cur + t;
    }
  }

  lemma {:induction false} SplitFromLastSep(t: string, sep: string, cur: string)
    requires sep != [] && sep[0] !in t
    ensures SplitFrom(t, sep, cur) == [cur + t]
    decreases |t|
  {
    if t == [] {
      assert cur + t == cur;
    } else {
      assert |sep| <= |t| ==> t[..|sep|] != sep by {
        if |sep| <= |t| {
          assert t[..|sep|][0] == t[0];
        }
      }
      SplitFromLastSep(t[1..], sep, cur + [t[0]]);
      assert cur + [t[0]] + t[1..] == cur + t;
    }
  }

  /** Text with one separator between two pieces that do not start one splits
      back into those pieces, as long as the second is not empty. */
  lemma SplitAround(a: string, sep: string, b: string)
    requires sep != [] && sep[0] !in a && sep[0] !in b && b != []
    ensures JavaSplit(a + sep + b, sep) == [a, b]
  {
    SplitFromPieceSep(a, sep, b, []);
    SplitFromLastSep(b, sep, []);
    assert [] + a == a && [] + b == b;
    assert (a + sep + b)[|a| + |sep|..] == b;
  }

  lemma {:induction false} SplitFromLast(t: string, c: char, cur: string)
    requires c !in t
    ensures SplitFrom(t, [c], cur) == [cur + t]
    decreases |t|
  {
    if t == [] {
      assert cur + t == cur;
    } else {
      assert t[..1] == [t[0]];
      SplitFromLast(t[1..], c, cur + [t[0]]);
      assert cur + [t[0]] + t[1..] == cur + t;
    }
  }

  /** Splitting at a one-character separator undoes joining with it, when no piece is empty
      or contains the separator. */
  lemma {:induction false} SplitJoin(parts: seq<string>, c: char)
    requires |parts| >= 1
    requires forall i :: 0 <= i < |parts| ==> parts[i] != [] && c !in parts[i]
    ensures JavaSplit(Join(parts, [c]), [c]) == parts
  {
    SplitFromJoin(parts, c);
    var joined := Join(parts, [c]);
    assert joined != [] by { JoinNonEmpty(parts, [c]); }
  }

  lemma {:induction false} JoinNonEmpty(parts: seq<string>, sep: string)
    requires |parts| >= 1 && parts[0] != []
    ensures Join(parts, sep) != []
  {
    if |parts| > 1 {
      assert Join(parts, sep) == parts[0] + sep + Join(parts[1..], sep);
    }
  }

  lemma {:induction false} SplitFromJoin(parts: seq<string>, c: char)
    requires |parts| >= 1
    requires forall i :: 0 <= i < |parts| ==> parts[i] != [] && c !in parts[i]
    ensures SplitFrom(Join(parts, [c]), [c], []) == parts
    decreases |parts|
  {
    if |parts| == 1 {
      SplitFromLast(parts[0], c, []);
      assert [] + parts[0] == parts[0] && parts == [parts[0]];
    } else {
      SplitFromPiece(parts[0], c, Join(parts[1..], [c]), []);
      SplitFromJoin(parts[1..], c);
      assert [] + parts[0] == parts[0];
      assert parts == [parts[0]] + parts[1..];
    }
  }
}
