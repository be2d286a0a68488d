/** The parser of the Prometheus text format in libraries/bb_monitor_client_utils/prometheus_utils.cpp. */
module PrometheusText {
  import opened Labels
  import opened PrometheusLabels
  import opened Text
  import opened Wrappers

  /** What the parser takes from outside: the two ids, one reading of the clock, and the C conversions. */
  datatype Env<D> = Env(jobId: string, instanceId: string, now: int, atof: string -> D, atoll: string -> int)

  datatype Metric<D> = Metric(ns: string, name: string, labels: seq<Label>, timestamp: int, value: D)

  /** The metric of a line whose name and labels are known, from the given position on. */
  function WithSample<D>(env: Env<D>, line: string, name: string, labels: seq<Label>, valueBegin: nat): Metric<D>
    requires valueBegin <= |line|
  {
    var valueEnd := Find(line, ' ', valueBegin);
    var value := Substr(line, valueBegin, if valueEnd.None? then None else Some(valueEnd.value - valueBegin));
    var ts :=
      if valueEnd.None? then ""
      else
        var tsBegin := FindNotOf(line, {' '}, valueEnd.value + 1);
        if tsBegin.None? then "" else Substr(line, tsBegin.value, None);
    Metric(env.jobId, name, labels, if |ts| > 0 then env.atoll(ts) else env.now, env.atof(value))
  }

  /** The metric of one line; comments, empty lines and lines without a value have none. */
  function ParseLine<D>(env: Env<D>, line: string): Option<Metric<D>>
  {
    if line == "" || line[0] == '#' then None
    else
      var open := Find(line, '{', 0);
      if open.Some? then
        var close := Find(line, '}', open.value + 1);
        if close.None? then None
        else
          var tags := Substr(line, open.value + 1, Some(close.value - (open.value + 1)));
          var valueBegin := FindNotOf(line, {' '}, close.value + 1);
          if valueBegin.None? then None
          else
            var labels := LabelsOf(env.jobId, env.instanceId, tags);
            Some(WithSample(env, line, Substr(line, 0, open), labels, valueBegin.value))
      else
        var space := Find(line, ' ', 0);
        if space.None? then None
        else
          var valueBegin := FindNotOf(line, {' '}, space.value + 1);
          if valueBegin.None? then None
          else Some(WithSample(env, line, Substr(line, 0, space), [], valueBegin.value))
  }

  function ListOf<T>(o: Option<T>): seq<T> { if o.Some? then [o.value] else [] }

  function MetricsOf<D>(env: Env<D>, lines: seq<string>): seq<Metric<D>>
  {
    if lines == [] then [] else ListOf(ParseLine(env, lines[0])) + MetricsOf(env, lines[1..])
  }

  /** What a text means: the metrics of its complete lines, in order. */
  function Parse<D>(env: Env<D>, s: string): seq<Metric<D>>
  {
    MetricsOf(env, LinesOf(s))
  }

  lemma {:induction false} MetricsOfConcat<D>(env: Env<D>, a: seq<string>, b: seq<string>)
    ensures MetricsOf(env, a + b) == MetricsOf(env, a) + MetricsOf(env, b)
  {
    hide ParseLine;
    if a == [] {
      assert a + b == b;
    } else {
      assert (a + b)[1..] == a[1..] + b;
      MetricsOfConcat(env, a[1..], b);
      Regroup(ListOf(ParseLine(env, a[0])), MetricsOf(env, a[1..]), MetricsOf(env, b));
    }
  }

  /** Two texts one after the other mean what they mean one by one, if the first is empty or ends in a line feed. */
  lemma ParseIsHomomorphic<D>(env: Env<D>, a: string, b: string)
    requires a == "" || a[|a| - 1] == LF
    ensures Parse(env, a + b) == Parse(env, a) + Parse(env, b)
  {
    LinesOfConcat(a, b);
    MetricsOfConcat(env, LinesOf(a), LinesOf(b));
  }

  /** A last line without line feed contributes nothing. */
  lemma UnterminatedLineIgnored<D>(env: Env<D>, a: string, t: string)
    requires LF !in t
    ensures Parse(env, a + t) == Parse(env, a)
  {
    LinesOfUnterminated(a, t);
  }

  /** parse_prometheus_line_format_2_bb_metrics; its cursor is an int, so the text has to be shorter than 2^31. */
  method ParseText<D>(env: Env<D>, s: string) returns (result: seq<Metric<D>>)
    requires |s| < 0x8000_0000
    ensures result == Parse(env, s)
  {
    hide ParseLine, Parse, Find, ListOf;
    result := [];
    var lineCursor := 0;
    assert s[0..] == s;
    ParseNothing(env);
    while lineCursor < |s|
      invariant lineCursor <= |s|
      invariant result + Parse(env, s[lineCursor..]) == Parse(env, s)
      decreases |s| - lineCursor
    {
      ParseStep(env, s, lineCursor);
      var nextLf := Find(s, LF, lineCursor);
      if nextLf.None? {
        return;
      }
      var lf := nextLf.value;
      if lineCursor == lf || s[lineCursor] == '#' {
        Skipped(env, s[lineCursor..lf]);
        lineCursor := lf + 1;
        continue;
      }
      var line := Substr(s, lineCursor, Some(lf - lineCursor));
      var metric := ParseLine(env, line);
      Regroup(result, ListOf(metric), Parse(env, s[lf + 1..]));
      assert line == s[lineCursor..lf];
      ghost var before := result;
      if metric.Some? {
        result := result + [metric.value];
      }
      ListOfIs(metric);
      lineCursor := lf + 1;
    }
    assert s[lineCursor..] == "";
  }

  lemma ListOfIs<T>(o: Option<T>)
    ensures ListOf(o) == if o.Some? then [o.value] else []
  {}

  lemma ParseNothing<D>(env: Env<D>)
    ensures Parse(env, "") == []
  {}

  lemma Skipped<D>(env: Env<D>, line: string)
    requires line == "" || line[0] == '#'
    ensures ListOf(ParseLine(env, line)) == []
  {}

  lemma ParseStep<D>(env: Env<D>, s: string, cursor: nat)
    requires cursor <= |s|
    ensures
      var lf := Find(s, LF, cursor);
      Parse(env, s[cursor..]) == if lf.None? then []
        else ListOf(ParseLine(env, s[cursor..lf.value])) + Parse(env, s[lf.value + 1..])
  {
    hide Find, LinesOf, ParseLine, Parse, ListOf;
    NextLine(s, cursor);
    if Find(s, LF, cursor).Some? {
      var lf := Find(s, LF, cursor).value;
      PassLine(env, s[cursor..lf], s[lf + 1..]);
    }
    ParseIs(env, s[cursor..]);
  }

  lemma ParseIs<D>(env: Env<D>, s: string)
    ensures Parse(env, s) == MetricsOf(env, LinesOf(s)) && MetricsOf(env, []) == []
  {
    hide LinesOf;
  }

  lemma NextLine(s: string, cursor: nat)
    requires cursor <= |s|
    ensures
      var lf := Find(s, LF, cursor);
      LinesOf(s[cursor..]) == if lf.None? then [] else [s[cursor..lf.value]] + LinesOf(s[lf.value + 1..])
  {
    hide LinesOf, FirstLF, Find;
    var t := s[cursor..];
    var n := FirstLF(t);
    FirstLine(t);
    if n == |t| {
      assert t[..n] == t;
      FindNoneIn(s, LF, cursor);
    } else {
      SliceParts(s, cursor, n);
      FindAfter(s, LF, cursor, cursor + n);
    }
  }

  lemma SliceParts(s: string, cursor: nat, n: nat)
    requires cursor + n < |s|
    ensures s[cursor..][..n] == s[cursor..cursor + n] && s[cursor..][n + 1..] == s[cursor + n + 1..]
    ensures s[cursor..][n] == s[cursor + n]
  {}

  lemma PassLine<D>(env: Env<D>, line: string, rest: string)
    ensures MetricsOf(env, [line] + LinesOf(rest)) == ListOf(ParseLine(env, line)) + Parse(env, rest)
  {
    hide ParseLine, LinesOf;
  }

  // ----- which lines have a metric

  /** The first brace opens at a and is closed first at b, and something stands at v behind it. */
  predicate ValueBehindBraces(line: string, a: nat, b: nat, v: nat)
  {
    && a < b < v < |line| && line[a] == '{' && line[b] == '}' && line[v] != ' '
    && '{' !in line[..a] && '}' !in line[a + 1..b]
  }

  /** There is no brace; the first space is at a, and something stands at v behind it. */
  predicate ValueBehindSpace(line: string, a: nat, v: nat)
  {
    a < v < |line| && line[a] == ' ' && line[v] != ' ' && '{' !in line && ' ' !in line[..a]
  }

  lemma BracesFound(line: string, a: nat, b: nat, v: nat)
    ensures ValueBehindBraces(line, a, b, v) ==> Find(line, '{', 0) == Some(a) && Find(line, '}', a + 1) == Some(b)
    ensures ValueBehindBraces(line, a, b, v) ==> FindNotOf(line, {' '}, b + 1) != None
  {
    if ValueBehindBraces(line, a, b, v) {
      FindAfter(line, '{', 0, a);
      FindAfter(line, '}', a + 1, b);
      FindNotOfAtMost(line, {' '}, b + 1, v);
    }
  }

  lemma SpaceFound(line: string, a: nat, v: nat)
    ensures ValueBehindSpace(line, a, v) ==> Find(line, '{', 0) == None && Find(line, ' ', 0) == Some(a)
    ensures ValueBehindSpace(line, a, v) ==> FindNotOf(line, {' '}, a + 1) != None
  {
    if ValueBehindSpace(line, a, v) {
      FindNoneIn(line, '{', 0);
      FindAfter(line, ' ', 0, a);
      FindNotOfAtMost(line, {' '}, a + 1, v);
    }
  }

  /** Some metric stands in the line, behind braces or behind a space. */
  ghost predicate HasValue(line: string)
  {
    || (exists a: nat, b: nat, v: nat :: ValueBehindBraces(line, a, b, v))
    || (exists a: nat, v: nat :: ValueBehindSpace(line, a, v))
  }

  /** A line has a metric exactly if it is not empty and no comment, and has something other than spaces behind its
      label list, or, if there is no brace in it, behind its first space. A list that is not closed costs the line. */
  lemma HasMetricExactly<D>(env: Env<D>, line: string)
    ensures ParseLine(env, line) != None <==> line != "" && line[0] != '#' && HasValue(line)
  {
    hide WithSample, LabelsOf, Find, FindNotOf;
    FindFirst(line, '{', 0);
    forall a: nat, b: nat, v: nat {
      BracesFound(line, a, b, v);
    }
    forall a: nat, v: nat {
      SpaceFound(line, a, v);
    }
    if ParseLine(env, line) != None {
      if Find(line, '{', 0) != None {
        var a := Find(line, '{', 0).value;
        FindFirst(line, '}', a + 1);
        var b := Find(line, '}', a + 1).value;
        assert ValueBehindBraces(line, a, b, FindNotOf(line, {' '}, b + 1).value);
      } else {
        FindFirst(line, ' ', 0);
        var a := Find(line, ' ', 0).value;
        assert ValueBehindSpace(line, a, FindNotOf(line, {' '}, a + 1).value);
      }
    }
  }

  // ----- printed lines

  /** A line to print: a metric may have no label list, and no timestamp. */
  datatype Printed = Printed(name: string, labels: Option<seq<Label>>, value: string, ts: Option<string>)

  function Tags(labels: Option<seq<Label>>): string
  {
    if labels.Some? then "{" + PrintLabels(labels.value) + "}" else ""
  }

  function Stamp(ts: Option<string>): string { if ts.Some? then " " + ts.value else "" }

  function Head(m: Printed): string { m.name + Tags(m.labels) }

  function PrintLine(m: Printed): string { Head(m) + (" " + (m.value + Stamp(m.ts))) }

  predicate Clean(s: string) { '}' !in s && LF !in s }

  /** A line whose parts can be told apart. Without a label list the name ends at the first space, and no brace may
      follow; with one the name ends at the brace. */
  predicate LinePrintable(m: Printed)
  {
    && (m.name == "" || m.name[0] != '#') && LF !in m.name && '{' !in m.name
    && m.value != "" && ' ' !in m.value && LF !in m.value
    && (m.ts.Some? ==> m.ts.value != "" && m.ts.value[0] != ' ' && LF !in m.ts.value)
    && if m.labels.Some? then
         NoCommas(m.labels.value) && forall l <- m.labels.value :: Clean(l.key) && Clean(l.value)
       else
         ' ' !in m.name && '{' !in m.value && '{' !in Stamp(m.ts)
  }

  /** The labels a printed line stands for; without a label list not even the job is added. */
  function LabelsMeant<D>(env: Env<D>, labels: Option<seq<Label>>): seq<Label>
  {
    if labels.Some? then SortByKey(WithJob(env.jobId, env.instanceId, labels.value)) else []
  }

  function TimeMeant<D>(env: Env<D>, ts: Option<string>): int { if ts.Some? then env.atoll(ts.value) else env.now }

  /** What a printed line stands for. */
  function Meaning<D>(env: Env<D>, m: Printed): Metric<D>
  {
    Metric(env.jobId, m.name, LabelsMeant(env, m.labels), TimeMeant(env, m.ts), env.atof(m.value))
  }

  /** Whether the labels of the line can be read where they are printed. */
  predicate LabelsRead(labels: Option<seq<Label>>) { labels.Some? ==> AllRead(0, labels.value) }

  lemma {:induction false} CleanLabels(ls: seq<Label>)
    requires forall l <- ls :: Clean(l.key) && Clean(l.value)
    ensures Clean(PrintLabels(ls))
  {
    if |ls| > 1 {
      CleanLabels(ls[1..]);
    }
  }

  /** The value and the time of a line whose head is known. */
  lemma SampleRead<D>(env: Env<D>, head: string, m: Printed, labels: seq<Label>)
    requires m.value != "" && ' ' !in m.value && (m.ts.Some? ==> m.ts.value != "" && m.ts.value[0] != ' ')
    ensures
      var line := head + (" " + (m.value + Stamp(m.ts)));
      WithSample(env, line, m.name, labels, |head| + 1)
        == Metric(env.jobId, m.name, labels, TimeMeant(env, m.ts), env.atof(m.value))
  {
    hide WithSample, Find, FindNotOf;
    var line, b := head + (" " + (m.value + Stamp(m.ts))), |head| + 1;
    SampleLayout(head, m.value, Stamp(m.ts));
    if m.ts.Some? {
      assert line[b + |m.value| + 1..] == line[b + |m.value|..][1..];
      SampleAndTime(env, line, m.name, labels, b, b + |m.value|);
    } else {
      assert m.value + "" == m.value;
      SampleOnly(env, line, m.name, labels, b);
    }
  }

  lemma SampleAndTime<D>(env: Env<D>, line: string, name: string, labels: seq<Label>, b: nat, c: nat)
    requires b <= c && c + 1 < |line| && line[c] == ' ' && ' ' !in line[b..c] && line[c + 1] != ' '
    ensures WithSample(env, line, name, labels, b)
         == Metric(env.jobId, name, labels, env.atoll(line[c + 1..]), env.atof(line[b..c]))
  {
    FindAfter(line, ' ', b, c);
    FindNotOfIs(line, {' '}, c + 1, c + 1);
    hide Find, FindNotOf;
  }

  lemma SampleOnly<D>(env: Env<D>, line: string, name: string, labels: seq<Label>, b: nat)
    requires b <= |line| && ' ' !in line[b..]
    ensures WithSample(env, line, name, labels, b) == Metric(env.jobId, name, labels, env.now, env.atof(line[b..]))
  {
    FindNoneIn(line, ' ', b);
    hide Find, FindNotOf;
  }

  lemma SampleLayout(head: string, value: string, stamp: string)
    ensures
      var line, b := head + (" " + (value + stamp)), |head| + 1;
      && |line| == b + |value| + |stamp| && line[|head|] == ' ' && line[..|head|] == head
      && line[b..b + |value|] == value && line[b + |value|..] == stamp && line[b..] == value + stamp
  {}

  lemma TaggedLine<D>(env: Env<D>, line: string, a: nat, b: nat, v: nat)
    requires line != "" && line[0] != '#' && a < b < v <= |line|
    requires Find(line, '{', 0) == Some(a) && Find(line, '}', a + 1) == Some(b)
    requires FindNotOf(line, {' '}, b + 1) == Some(v)
    ensures ParseLine(env, line)
         == Some(WithSample(env, line, line[..a], LabelsOf(env.jobId, env.instanceId, line[a + 1..b]), v))
  {
    hide Find, FindNotOf, WithSample, LabelsOf, Substr;
    SubstrIs(line, 0, a);
    SubstrIs(line, a + 1, b - (a + 1));
  }

  lemma PlainLine<D>(env: Env<D>, line: string, a: nat, v: nat)
    requires line != "" && line[0] != '#' && a < v <= |line|
    requires Find(line, '{', 0) == None && Find(line, ' ', 0) == Some(a) && FindNotOf(line, {' '}, a + 1) == Some(v)
    ensures ParseLine(env, line) == Some(WithSample(env, line, line[..a], [], v))
  {
    hide Find, FindNotOf, WithSample, LabelsOf, Substr;
    SubstrIs(line, 0, a);
  }

  lemma SubstrIs(s: string, pos: nat, n: nat)
    requires pos + n <= |s|
    ensures Substr(s, pos, Some(n)) == s[pos..pos + n]
    ensures pos == 0 ==> Substr(s, pos, Some(n)) == s[..n]
  {}

  /** A line with a label list, up to its labels. */
  lemma ReadTagged<D>(env: Env<D>, m: Printed)
    requires LinePrintable(m) && m.labels.Some?
    ensures ParseLine(env, PrintLine(m)) == Some(Metric(env.jobId, m.name,
      LabelsOf(env.jobId, env.instanceId, PrintLabels(m.labels.value)), TimeMeant(env, m.ts), env.atof(m.value)))
  {
    hide PrintLabels, ParseLine, WithSample, LabelsOf, NoCommas, Find, FindNotOf, Stamp, TimeMeant;
    var tags, rest := PrintLabels(m.labels.value), " " + (m.value + Stamp(m.ts));
    var line, a := PrintLine(m), |m.name|;
    var b := a + 1 + |tags|;
    CleanLabels(m.labels.value);
    HeadLayout(m.name, tags, rest);
    FindAfter(line, '{', 0, a);
    FindAfter(line, '}', a + 1, b);
    SampleLayout(Head(m), m.value, Stamp(m.ts));
    FindNotOfIs(line, {' '}, b + 1, b + 2);
    TaggedLine(env, line, a, b, b + 2);
    SampleRead(env, Head(m), m, LabelsOf(env.jobId, env.instanceId, tags));
  }

  lemma HeadLayout(name: string, tags: string, rest: string)
    requires rest != ""
    ensures
      var line, a := name + ("{" + tags + "}") + rest, |name|;
      var b := a + 1 + |tags|;
      && b + 1 < |line| && line[a] == '{' && line[b] == '}' && line[b + 1] == rest[0]
      && line[..a] == name && line[0..a] == name && line[a + 1..b] == tags && (a > 0 ==> line[0] == name[0])
  {}

  /** A line without a label list. */
  lemma ReadPlain<D>(env: Env<D>, m: Printed)
    requires LinePrintable(m) && m.labels.None?
    ensures ParseLine(env, PrintLine(m)) == Some(Meaning(env, m))
  {
    hide ParseLine, WithSample, Find, FindNotOf, Stamp, TimeMeant;
    var line, a := PrintLine(m), |m.name|;
    assert Head(m) == m.name;
    SampleLayout(m.name, m.value, Stamp(m.ts));
    NoBrace(m.name, m.value, Stamp(m.ts));
    FindNone(line, '{', 0);
    assert line[0..a] == m.name;
    FindAfter(line, ' ', 0, a);
    FindNotOfIs(line, {' '}, a + 1, a + 1);
    PlainLine(env, line, a, a + 1);
    SampleRead(env, m.name, m, []);
  }

  lemma NoBrace(name: string, value: string, stamp: string)
    requires '{' !in name && '{' !in value && '{' !in stamp
    ensures var line := name + (" " + (value + stamp)); forall j :: 0 <= j < |line| ==> line[j] != '{'
  {}

  /** A printed line is read back, with its name, labels, time and value, exactly if its labels can be read where they
      are printed. */
  lemma LineRoundTripExactly<D>(env: Env<D>, m: Printed)
    requires LinePrintable(m)
    ensures ParseLine(env, PrintLine(m)).Some?
    ensures ParseLine(env, PrintLine(m)) == Some(Meaning(env, m)) <==> LabelsRead(m.labels)
  {
    if m.labels.Some? {
      ReadTagged(env, m);
      LabelsRoundTripExactly(env.jobId, env.instanceId, m.labels.value);
    } else {
      ReadPlain(env, m);
    }
    hide ParseLine, PrintLine, LabelsOf, SortByKey, WithJob, AllRead, TimeMeant;
  }

  /** A line of the documentation in the source, with its labels, a value and a time. */
  lemma DocumentedLine<D>(env: Env<D>)
    requires env.instanceId == ""
    ensures
      var line := "http_requests_total" + "{method=\"post\",code=\"200\"}" + " 1027" + " 1395066363000";
      var labels := [Label("code", "200"), Label("job", env.jobId), Label("method", "post")];
      ParseLine(env, line)
        == Some(Metric(env.jobId, "http_requests_total", labels, env.atoll("1395066363000"), env.atof("1027")))
  {
    var m := Documented();
    DocumentedText();
    DocumentedIsPrintable();
    DocumentedLabels(env.jobId);
    hide ParseLine, PrintLine, SortByKey, WithJob, LabelsRead, LinePrintable;
    LineRoundTripExactly(env, m);
  }

  function Documented(): Printed
  {
    Printed("http_requests_total", Some([Label("method", "post"), Label("code", "200")]), "1027", Some("1395066363000"))
  }

  lemma DocumentedText()
    ensures PrintLine(Documented())
         == "http_requests_total" + "{method=\"post\",code=\"200\"}" + " 1027" + " 1395066363000"
  {
    PrintedTwo(Label("method", "post"), Label("code", "200"));
    assert PrintLabel(Label("method", "post")) == "method=\"post\"";
    assert PrintLabel(Label("code", "200")) == "code=\"200\"";
    hide PrintLabels, PrintLabel;
    assert "{" + ("method=\"post\"" + "," + "code=\"200\"") + "}" == "{method=\"post\",code=\"200\"}";
    assert " " + "1027" == " 1027" && " " + "1395066363000" == " 1395066363000";
    JoinParts("http_requests_total", "{method=\"post\",code=\"200\"}", "1027", " 1395066363000");
  }

  predicate IsWord(s: string) { forall c <- s :: c == '_' || 'a' <= c <= 'z' || '0' <= c <= '9' }

  lemma TaggedIsPrintable(m: Printed)
    requires m.name != "" && IsWord(m.name) && m.value != "" && IsWord(m.value)
    requires m.ts.Some? && m.ts.value != "" && IsWord(m.ts.value)
    requires m.labels.Some? && NoCommas(m.labels.value)
    requires forall l <- m.labels.value :: IsWord(l.key) && IsWord(l.value)
    ensures LinePrintable(m)
  {
    hide NoCommas;
    assert m.name[0] in m.name && m.ts.value[0] in m.ts.value;
  }

  lemma DocumentedIsPrintable()
    ensures LinePrintable(Documented()) && LabelsRead(Documented().labels)
  {
    TwoRead(Label("method", "post"), Label("code", "200"));
    DocumentedWords();
    hide IsWord, LinePrintable, NoCommas, AllRead;
    TaggedIsPrintable(Documented());
  }

  lemma DocumentedWords()
    ensures IsWord("http_requests_total") && IsWord("1027") && IsWord("1395066363000")
    ensures IsWord("method") && IsWord("post") && IsWord("code") && IsWord("200")
  {}

  lemma JoinParts(name: string, tags: string, value: string, stamp: string)
    ensures name + tags + (" " + (value + stamp)) == name + tags + (" " + value) + stamp
  {}

  /** The shortest of the examples there: no labels and no time; not even the job is added. */
  lemma MinimalLine<D>(env: Env<D>)
    ensures ParseLine(env, "metric_without_timestamp_and_labels" + " 12.47")
         == Some(Metric(env.jobId, "metric_without_timestamp_and_labels", [], env.now, env.atof("12.47")))
  {
    var m := Minimal();
    MinimalText();
    MinimalIsPrintable();
    hide ParseLine, PrintLine, LinePrintable;
    LineRoundTripExactly(env, m);
  }

  function Minimal(): Printed { Printed("metric_without_timestamp_and_labels", None, "12.47", None) }

  lemma MinimalText()
    ensures PrintLine(Minimal()) == "metric_without_timestamp_and_labels" + " 12.47"
  {
    assert " " + ("12.47" + "") == " 12.47";
    JoinParts("metric_without_timestamp_and_labels", "", "12.47", "");
  }

  lemma MinimalIsPrintable()
    ensures LinePrintable(Minimal())
  {
    assert IsWord("metric_without_timestamp_and_labels");
    hide IsWord, LinePrintable;
    PlainIsPrintable(Minimal());
  }

  lemma PlainIsPrintable(m: Printed)
    requires m.name != "" && IsWord(m.name) && m.value == "12.47" && m.labels.None? && m.ts.None?
    ensures LinePrintable(m)
  {
    assert m.name[0] in m.name;
  }

  function PrintAll(ms: seq<Printed>): string
  {
    if ms == [] then "" else PrintLine(ms[0]) + [LF] + PrintAll(ms[1..])
  }

  function Meanings<D>(env: Env<D>, ms: seq<Printed>): seq<Metric<D>>
  {
    if ms == [] then [] else [Meaning(env, ms[0])] + Meanings(env, ms[1..])
  }

  lemma OneLine(m: Printed)
    requires LinePrintable(m)
    ensures LF !in PrintLine(m)
  {
    if m.labels.Some? {
      CleanLabels(m.labels.value);
    }
    hide PrintLabels, NoCommas;
  }

  /** A printed text is read back line by line exactly if the labels of every line can be read where they are
      printed. */
  lemma {:induction false} TextRoundTripExactly<D>(env: Env<D>, ms: seq<Printed>)
    requires forall m <- ms :: LinePrintable(m)
    ensures Parse(env, PrintAll(ms)) == Meanings(env, ms) <==> forall m <- ms :: LabelsRead(m.labels)
  {
    hide ParseLine, PrintLine, Meaning, LinePrintable, LabelsRead;
    if ms != [] {
      hide LinesOf;
      var m := ms[0];
      var line, rest := PrintLine(m), PrintAll(ms[1..]);
      OneLine(m);
      FirstOfTail(line, rest);
      PassLine(env, line, rest);
      LineRoundTripExactly(env, m);
      TextRoundTripExactly(env, ms[1..]);
      SameFirst(ParseLine(env, line).value, Parse(env, rest), Meaning(env, m), Meanings(env, ms[1..]));
      assert ms == [m] + ms[1..];
    }
  }

  lemma SameFirst<T>(x: T, xs: seq<T>, y: T, ys: seq<T>)
    ensures [x] + xs == [y] + ys <==> x == y && xs == ys
  {
    assert ([x] + xs)[0] == x && ([y] + ys)[0] == y;
    assert ([x] + xs)[1..] == xs && ([y] + ys)[1..] == ys;
  }
}
