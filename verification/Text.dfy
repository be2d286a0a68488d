/** The std::string operations the parsers use. npos is None. */
module Text {
  import opened Wrappers

  const LF := '\n'

  /** s.find(c, from) */
  function Find(s: string, c: char, from: nat): (r: Option<nat>)
    ensures r.Some? ==> from <= r.value < |s| && s[r.value] == c
    decreases |s| - from
  {
    if from >= |s| then None else if s[from] == c then Some(from) else Find(s, c, from + 1)
  }

  /** s.find_first_not_of(cs, from) */
  function FindNotOf(s: string, cs: set<char>, from: nat): (r: Option<nat>)
    ensures r.Some? ==> from <= r.value < |s| && s[r.value] !in cs
    decreases |s| - from
  {
    if from >= |s| then None else if s[from] !in cs then Some(from) else FindNotOf(s, cs, from + 1)
  }

  /** s.substr(pos, count): a count that reaches past the end, or npos, means the rest. */
  function Substr(s: string, pos: nat, count: Option<nat>): string
    requires pos <= |s|
  {
    if count.None? || pos + count.value > |s| then s[pos..] else s[pos..pos + count.value]
  }

  /** find returns the first occurrence. */
  lemma {:induction false} FindIs(s: string, c: char, from: nat, i: nat)
    requires from <= i < |s| && s[i] == c && forall j :: from <= j < i ==> s[j] != c
    ensures Find(s, c, from) == Some(i)
    decreases i - from
  {
    if from < i {
      FindIs(s, c, from + 1, i);
    }
  }

  /** Nothing before the place found is the character. */
  lemma {:induction false} FindFirst(s: string, c: char, from: nat)
    ensures var i := Find(s, c, from);
      forall j :: from <= j < (if i.Some? then i.value else |s|) ==> s[j] != c
    decreases |s| - from
  {
    if from < |s| {
      FindFirst(s, c, from + 1);
    }
  }

  lemma {:induction false} FindNotOfFirst(s: string, cs: set<char>, from: nat)
    ensures var i := FindNotOf(s, cs, from);
      forall j :: from <= j < (if i.Some? then i.value else |s|) ==> s[j] in cs
    decreases |s| - from
  {
    if from < |s| {
      FindNotOfFirst(s, cs, from + 1);
    }
  }

  lemma {:induction false} FindNone(s: string, c: char, from: nat)
    requires forall j :: from <= j < |s| ==> s[j] != c
    ensures Find(s, c, from) == None
    decreases |s| - from
  {
    if from < |s| {
      FindNone(s, c, from + 1);
    }
  }

  lemma {:induction false} FindNotOfIs(s: string, cs: set<char>, from: nat, i: nat)
    requires from <= i < |s| && s[i] !in cs && forall j :: from <= j < i ==> s[j] in cs
    ensures FindNotOf(s, cs, from) == Some(i)
    decreases i - from
  {
    if from < i {
      FindNotOfIs(s, cs, from + 1, i);
    }
  }

  lemma FindAtMost(s: string, c: char, from: nat, i: nat)
    requires from <= i < |s| && s[i] == c
    ensures Find(s, c, from).Some? && Find(s, c, from).value <= i
  {
    FindFirst(s, c, from);
  }

  lemma FindNotOfAtMost(s: string, cs: set<char>, from: nat, i: nat)
    requires from <= i < |s| && s[i] !in cs
    ensures FindNotOf(s, cs, from).Some? && FindNotOf(s, cs, from).value <= i
  {
    FindNotOfFirst(s, cs, from);
  }

  lemma FindAfter(s: string, c: char, from: nat, to: nat)
    requires from <= to < |s| && s[to] == c && c !in s[from..to]
    ensures Find(s, c, from) == Some(to)
  {
    forall j | from <= j < to ensures s[j] != c {
      assert s[j] == s[from..to][j - from];
    }
    FindIs(s, c, from, to);
  }

  lemma FindNoneIn(s: string, c: char, from: nat)
    requires from <= |s| && c !in s[from..]
    ensures Find(s, c, from) == None
  {
    forall j | from <= j < |s| ensures s[j] != c {
      assert s[j] == s[from..][j - from];
    }
    FindNone(s, c, from);
  }

  // ----- lines

  /** The lines, each followed by its line feed. */
  function Terminated(lines: seq<string>): string
  {
    if lines == [] then "" else Terminated(lines[..|lines| - 1]) + (lines[|lines| - 1] + [LF])
  }

  /** The complete lines of a text; what follows the last line feed is no line. */
  function LinesOf(text: string): seq<string>
    decreases |text|
  {
    var n := FirstLF(text);
    if n == |text| then [] else [text[..n]] + LinesOf(text[n + 1..])
  }

  lemma FirstLine(text: string)
    ensures var n := FirstLF(text);
      LinesOf(text) == if n == |text| then [] else [text[..n]] + LinesOf(text[n + 1..])
  {
    hide FirstLF;
  }

  function FirstLF(text: string): (n: nat)
    ensures n <= |text| && LF !in text[..n] && (n < |text| ==> text[n] == LF)
  {
    if text == "" || text[0] == LF then 0
    else
      var n := 1 + FirstLF(text[1..]);
      assert text[..n] == [text[0]] + text[1..][..n - 1];
      n
  }

  ghost predicate NoLF(lines: seq<string>)
  {
    forall i :: 0 <= i < |lines| ==> LF !in lines[i]
  }

  lemma MoreLines(lines: seq<string>, line: string)
    requires NoLF(lines) && LF !in line
    ensures NoLF(lines + [line])
  {}

  lemma FirstLFIs(text: string, n: nat)
    requires n < |text| && text[n] == LF && LF !in text[..n]
    ensures FirstLF(text) == n
  {
    var m := FirstLF(text);
    assert forall i :: 0 <= i < n ==> text[..n][i] == text[i];
    assert forall i :: 0 <= i < m ==> text[..m][i] == text[i];
  }

  lemma Regroup<T>(a: seq<T>, b: seq<T>, c: seq<T>)
    ensures a + b + c == a + (b + c)
  {}

  lemma FirstOfTail(line: string, rest: string)
    requires LF !in line
    ensures LinesOf(line + [LF] + rest) == [line] + LinesOf(rest)
  {
    var tail := line + [LF] + rest;
    assert tail[..|line|] == line && tail[|line| + 1..] == rest;
    FirstLFIs(tail, |line|);
  }

  /** Taking the text apart again finds the lines it was put together from. */
  lemma {:induction false} LinesOfTerminated(lines: seq<string>, rest: string)
    requires NoLF(lines)
    ensures LinesOf(Terminated(lines) + rest) == lines + LinesOf(rest)
  {
    hide LinesOf;
    if lines == [] {
      assert Terminated(lines) + rest == rest;
    } else {
      var before, last := lines[..|lines| - 1], lines[|lines| - 1];
      Regroup(Terminated(before), last + [LF], rest);
      LinesOfTerminated(before, last + [LF] + rest);
      FirstOfTail(last, rest);
      Regroup(before, [last], LinesOf(rest));
      assert before + [last] == lines;
    }
  }

  /** Lines are found in two texts one after the other, if the first ends where a line ends. */
  lemma {:induction false} LinesOfConcat(a: string, b: string)
    requires a == "" || a[|a| - 1] == LF
    ensures LinesOf(a + b) == LinesOf(a) + LinesOf(b)
    decreases |a|
  {
    if a == "" {
      assert a + b == b;
    } else {
      var n := FirstLF(a);
      assert forall i :: 0 <= i < n ==> a[..n][i] == a[i];
      var line, rest := a[..n], a[n + 1..];
      assert a == line + [LF] + rest;
      assert rest != "" ==> rest[|rest| - 1] == a[|a| - 1];
      LinesOfConcat(rest, b);
      FirstOfTail(line, rest);
      FirstOfTail(line, rest + b);
      hide LinesOf;
      Regroup(line + [LF], rest, b);
      Regroup([line], LinesOf(rest), LinesOf(b));
    }
  }

  /** What comes after the last line feed adds no line. */
  lemma {:induction false} LinesOfUnterminated(a: string, t: string)
    requires LF !in t
    ensures LinesOf(a + t) == LinesOf(a)
    decreases |a|
  {
    var n, text := FirstLF(a), a + t;
    if n == |a| {
      assert forall i :: 0 <= i < |text| ==> text[i] == if i < |a| then a[..n][i] else t[i - |a|];
      assert LF !in text;
    } else {
      var line, rest := a[..n], a[n + 1..];
      assert a == line + [LF] + rest;
      LinesOfUnterminated(rest, t);
      FirstOfTail(line, rest);
      FirstOfTail(line, rest + t);
      hide LinesOf;
      Regroup(line + [LF], rest, t);
    }
  }
}
