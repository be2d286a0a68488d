/** The label lists of the Prometheus text format as libraries/bb_monitor_client_utils/prometheus_utils.cpp parses
    them. */
module PrometheusLabels {
  import opened Labels
  import opened Text
  import opened Wrappers

  // ----- one label

  /** The value that parse_bb_metrics_label finds behind the separator. */
  function ValueAfter(s: string, separator: nat): string
  {
    var begin := FindNotOf(s, {'"', ' '}, separator + 1);
    if begin.None? then ""
    else
      var end := Find(s, '"', begin.value + 1);
      if end.None? then "" else Substr(s, begin.value, Some(end.value - begin.value))
  }

  /** parse_bb_metrics_label */
  function ParseLabel(s: string): Label
  {
    var separator := Find(s, '=', 0);
    Label(Substr(s, 0, separator), if separator.None? then "" else ValueAfter(s, separator.value))
  }

  function PrintLabel(l: Label): string { l.key + "=\"" + l.value + "\"" }

  function Kept(l: Label): seq<Label> { if |l.key| > 0 then [l] else [] }

  /** When a printed label is read back, if its slice brings along the text behind it. */
  predicate Reads(l: Label, behind: string)
  {
    && l.key != "" && '=' !in l.key && '"' !in l.value
    && if l.value == "" then '"' !in behind else l.value[0] != ' '
  }

  /** Where the parts of a printed label are. */
  lemma LabelLayout(l: Label, behind: string)
    ensures
      var s, k, v := PrintLabel(l) + behind, |l.key|, |l.value|;
      && |s| == k + 3 + v + |behind| && s[k] == '=' && s[k + 1] == '"' && s[k + 2 + v] == '"'
      && (forall j :: 0 <= j < k ==> s[j] == l.key[j])
      && (forall j :: k + 2 <= j < k + 2 + v ==> s[j] == l.value[j - (k + 2)])
      && (forall j :: k + 3 + v <= j < |s| ==> s[j] == behind[j - (k + 3 + v)])
  {}

  /** The value is read back exactly under the conditions on it, when the key is. */
  lemma ValueExactly(l: Label, behind: string)
    requires behind == "" || behind[0] == ','
    ensures ValueAfter(PrintLabel(l) + behind, |l.key|) == l.value
       <==> '"' !in l.value && if l.value == "" then '"' !in behind else l.value[0] != ' '
  {
    var s, k, v := PrintLabel(l) + behind, |l.key|, |l.value|;
    LabelLayout(l, behind);
    hide PrintLabel;
    if v == 0 {
      EmptyValue(s, k, behind);
    } else if l.value[0] == '"' || l.value[0] == ' ' {
      ValueStart(s, k);
      hide ValueAfter;
    } else {
      PlainStart(s, k, l.value);
      hide ValueAfter;
    }
  }

  /** A value that starts with neither quote nor space is cut at its first quote. */
  lemma PlainStart(s: string, k: nat, value: string)
    requires value != "" && value[0] != '"' && value[0] != ' ' && k + 2 + |value| < |s|
    requires s[k + 1] == '"' && s[k + 2 + |value|] == '"'
    requires forall j :: k + 2 <= j < k + 2 + |value| ==> s[j] == value[j - (k + 2)]
    ensures ValueAfter(s, k) == value <==> '"' !in value
  {
    var end := k + 2 + |value|;
    FindNotOfIs(s, {'"', ' '}, k + 1, k + 2);
    FindFirst(s, '"', k + 3);
    hide Find, FindNotOf;
    var i := Find(s, '"', k + 3);
    CutAt(s, k, k + 2, i);
    hide ValueAfter;
    if '"' !in value {
      FindIs(s, '"', k + 3, end);
      assert s[k + 2..end] == value;
    } else {
      var j :| 0 <= j < |value| && value[j] == '"';
      assert s[k + 2 + j] == '"';
      assert i.value < end;
    }
  }

  lemma CutAt(s: string, k: nat, begin: nat, end: Option<nat>)
    requires FindNotOf(s, {'"', ' '}, k + 1) == Some(begin) && Find(s, '"', begin + 1) == end
    ensures ValueAfter(s, k) == if end.Some? then s[begin..end.value] else ""
  {
    hide Find, FindNotOf;
  }

  /** An empty value stays empty if there is no quote behind it, not even the one of the next label. */
  lemma EmptyValue(s: string, k: nat, behind: string)
    requires |s| == k + 3 + |behind| && s[k + 1] == '"' && s[k + 2] == '"' && (behind == "" || behind[0] == ',')
    requires forall j :: k + 3 <= j < |s| ==> s[j] == behind[j - (k + 3)]
    ensures ValueAfter(s, k) == "" <==> '"' !in behind
  {
    if behind == "" {
      FindNotOfFirst(s, {'"', ' '}, k + 1);
      hide Find, FindNotOf;
    } else {
      FindNotOfIs(s, {'"', ' '}, k + 1, k + 3);
      FindFirst(s, '"', k + 4);
      hide Find, FindNotOf;
      assert forall j :: 0 <= j < |behind| ==> behind[j] == s[k + 3 + j];
    }
  }

  /** A value never starts with a quote or a space. */
  lemma ValueStart(s: string, separator: nat)
    ensures var v := ValueAfter(s, separator); v == "" || (v[0] != '"' && v[0] != ' ')
  {
    hide Find, FindNotOf;
  }

  /** A printed label is read back, whatever its slice brings along, exactly under Reads. */
  lemma LabelReadExactly(l: Label, behind: string)
    requires behind == "" || behind[0] == ','
    ensures Kept(ParseLabel(PrintLabel(l) + behind)) == [l] <==> Reads(l, behind)
  {
    var s, k := PrintLabel(l) + behind, |l.key|;
    LabelLayout(l, behind);
    ValueExactly(l, behind);
    FindFirst(s, '=', 0);
    hide PrintLabel, ValueAfter;
    if '=' !in l.key {
      FindIs(s, '=', 0, k);
      assert s[..k] == l.key;
    } else {
      var j :| 0 <= j < k && l.key[j] == '=';
      assert s[j] == '=';
    }
    hide Find;
  }

  // ----- the label list

  /** The labels from cursor on. The position of the next comma is passed as the length of the slice, which is
      too long for every label but the first. */
  function LabelsFrom(s: string, cursor: nat): seq<Label>
    requires cursor <= |s|
    decreases |s| - cursor
  {
    if cursor == |s| then []
    else
      var separator := Find(s, ',', cursor);
      var first := Kept(ParseLabel(Substr(s, cursor, separator)));
      if separator.None? then first else first + LabelsFrom(s, separator.value + 1)
  }

  function PrintLabels(ls: seq<Label>): string
  {
    if ls == [] then ""
    else if |ls| == 1 then PrintLabel(ls[0])
    else PrintLabel(ls[0]) + "," + PrintLabels(ls[1..])
  }

  predicate NoComma(l: Label) { ',' !in l.key && ',' !in l.value }

  predicate NoCommas(ls: seq<Label>) { forall l <- ls :: NoComma(l) }

  function AtMost(n: nat, s: string): string { if n <= |s| then s[..n] else s }

  /** What the slice of the first label brings along behind it, if the label is printed at the given offset: as many
      characters as stand before it. */
  function Behind(offset: nat, ls: seq<Label>): string
  {
    if |ls| <= 1 then "" else AtMost(offset, "," + PrintLabels(ls[1..]))
  }

  /** Each label can be read where it is printed. */
  predicate AllRead(offset: nat, ls: seq<Label>)
    decreases |ls|
  {
    ls == [] || (Reads(ls[0], Behind(offset, ls)) && AllRead(offset + |PrintLabel(ls[0])| + 1, ls[1..]))
  }

  /** One pass through the loop. */
  lemma NextEntry(s: string, cursor: nat)
    requires cursor < |s|
    ensures
      var separator := Find(s, ',', cursor);
      var entry := ParseLabel(Substr(s, cursor, separator));
      LabelsFrom(s, cursor)
        == if separator.None? then Kept(entry) else Kept(entry) + LabelsFrom(s, separator.value + 1)
  {
    hide ParseLabel, Find, Substr;
  }

  /** The slice of the entry p with the position of its comma for a length. */
  lemma LongSlice(s: string, cursor: nat, p: string, rest: string)
    requires cursor < |s| && s[cursor..] == p + "," + rest && ',' !in p
    ensures Find(s, ',', cursor) == Some(cursor + |p|)
    ensures Substr(s, cursor, Some(cursor + |p|)) == p + AtMost(cursor, "," + rest)
    ensures s[cursor + |p| + 1..] == rest
  {
    HeadOf(p, rest);
    var t, m := s[cursor..], cursor + |p|;
    assert forall j :: cursor <= j < |s| ==> s[j] == t[j - cursor];
    FindIs(s, ',', cursor, m);
    assert s[m + 1..] == t[|p| + 1..];
    hide Find;
    assert t == p + ("," + rest);
    if cursor <= 1 + |rest| {
      assert Substr(s, cursor, Some(m)) == t[..m];
      assert t[..m] == p + ("," + rest)[..cursor];
    }
  }

  lemma HeadOf(p: string, rest: string)
    ensures var t := p + "," + rest;
      t[..|p|] == p && t[|p|] == ',' && t[|p| + 1..] == rest && forall j :: 0 <= j < |p| ==> t[j] == p[j]
  {}

  lemma LastSlice(s: string, cursor: nat)
    requires cursor <= |s| && ',' !in s[cursor..]
    ensures Find(s, ',', cursor) == None && Substr(s, cursor, None) == s[cursor..]
  {
    FindNoneIn(s, ',', cursor);
  }

  lemma PlainLabel(l: Label)
    requires NoComma(l)
    ensures ',' !in PrintLabel(l) && PrintLabel(l) != ""
  {}

  /** The entry printed at the cursor, and where the loop goes on. */
  lemma EntryAt(s: string, cursor: nat, ls: seq<Label>)
    requires ls != [] && NoComma(ls[0])
    requires cursor <= |s| && s[cursor..] == PrintLabels(ls)
    ensures
      var n := cursor + |PrintLabel(ls[0])| + 1;
      && (|ls| > 1 ==> n <= |s| && s[n..] == PrintLabels(ls[1..]))
      && LabelsFrom(s, cursor) == Kept(ParseLabel(PrintLabel(ls[0]) + Behind(cursor, ls)))
           + if |ls| > 1 then LabelsFrom(s, n) else []
  {
    hide ParseLabel, PrintLabel, Find, Substr, Kept, LabelsFrom, AtMost;
    var p := PrintLabel(ls[0]);
    PlainLabel(ls[0]);
    NextEntry(s, cursor);
    if |ls| == 1 {
      LastSlice(s, cursor);
      assert p + "" == p;
    } else {
      LongSlice(s, cursor, p, PrintLabels(ls[1..]));
    }
  }

  lemma BehindStart(offset: nat, ls: seq<Label>)
    ensures var b := Behind(offset, ls); b == "" || b[0] == ','
  {}

  /** The whole list comes back, in order, exactly if each label can be read where it is printed. */
  lemma {:induction false} ReadExactlyFrom(s: string, cursor: nat, ls: seq<Label>)
    requires NoCommas(ls) && cursor <= |s| && s[cursor..] == PrintLabels(ls)
    ensures LabelsFrom(s, cursor) == ls <==> AllRead(cursor, ls)
    ensures |LabelsFrom(s, cursor)| <= |ls|
    decreases |ls|
  {
    hide ParseLabel, PrintLabel, PrintLabels, Behind, Reads, LabelsFrom, NoComma, AllRead, Kept;
    if ls == [] {
      NothingPrinted(s, cursor);
    } else {
      var l, behind := ls[0], Behind(cursor, ls);
      var n := cursor + |PrintLabel(l)| + 1;
      var head := Kept(ParseLabel(PrintLabel(l) + behind));
      EntryAt(s, cursor, ls);
      BehindStart(cursor, ls);
      LabelReadExactly(l, behind);
      AllReadIs(cursor, ls);
      KeptIs(ParseLabel(PrintLabel(l) + behind));
      if |ls| > 1 {
        ReadExactlyFrom(s, n, ls[1..]);
        SameHead(head, l, LabelsFrom(s, n), ls);
      } else {
        SameHead(head, l, [], ls);
        assert head + [] == head;
      }
    }
  }

  lemma NothingPrinted(s: string, cursor: nat)
    requires cursor <= |s| && s[cursor..] == PrintLabels([])
    ensures LabelsFrom(s, cursor) == [] && AllRead(cursor, [])
  {
    assert |s[cursor..]| == 0;
  }

  lemma AllReadIs(offset: nat, ls: seq<Label>)
    requires ls != []
    ensures AllRead(offset, ls)
       <==> Reads(ls[0], Behind(offset, ls)) && (|ls| > 1 ==> AllRead(offset + |PrintLabel(ls[0])| + 1, ls[1..]))
  {
    hide Reads, Behind, PrintLabel;
  }

  lemma SameHead(head: seq<Label>, l: Label, tail: seq<Label>, ls: seq<Label>)
    requires ls != [] && ls[0] == l && |head| <= 1 && |tail| <= |ls| - 1
    ensures head + tail == ls <==> head == [l] && tail == ls[1..]
  {
    assert ls == [l] + ls[1..];
    if head == [] {
      assert |head + tail| < |ls|;
    } else {
      assert (head + tail)[0] == head[0] && (head + tail)[1..] == tail;
    }
  }

  lemma LabelsReadExactly(ls: seq<Label>)
    requires NoCommas(ls)
    ensures LabelsFrom(PrintLabels(ls), 0) == ls <==> AllRead(0, ls)
  {
    ReadExactlyFrom(PrintLabels(ls), 0, ls);
  }

  /** std::string order: lexicographic. */
  predicate Less(a: string, b: string)
  {
    if b == "" then false
    else if a == "" then true
    else if a[0] != b[0] then a[0] < b[0]
    else Less(a[1..], b[1..])
  }

  /** The first n characters are the same, and then a ends or has the smaller character. */
  predicate LessAt(a: string, b: string, n: nat)
  {
    n <= |a| && n < |b| && a[..n] == b[..n] && (n == |a| || a[n] < b[n])
  }

  /** A proper prefix comes first, and otherwise the smaller character at the first difference. */
  lemma {:induction false} LessExactly(a: string, b: string)
    ensures Less(a, b) <==> exists n: nat :: LessAt(a, b, n)
  {
    if b != "" {
      if a == "" || a[0] < b[0] {
        assert LessAt(a, b, 0);
      } else if a[0] == b[0] {
        LessExactly(a[1..], b[1..]);
        assert a == [a[0]] + a[1..] && b == [b[0]] + b[1..];
        if n: nat :| LessAt(a[1..], b[1..], n) {
          assert a[..n + 1] == [a[0]] + a[1..][..n] && b[..n + 1] == [b[0]] + b[1..][..n];
          assert LessAt(a, b, n + 1);
        }
        if n: nat :| LessAt(a, b, n) {
          assert n > 0;
          assert a[1..][..n - 1] == a[..n][1..] && b[1..][..n - 1] == b[..n][1..];
          assert LessAt(a[1..], b[1..], n - 1);
        }
      } else {
        forall n: nat ensures !LessAt(a, b, n) {
          if n > 0 && n <= |a| && n < |b| {
            assert a[..n][0] != b[..n][0];
          }
        }
      }
    }
  }

  lemma {:induction false} LessTransitive(a: string, b: string, c: string)
    requires !Less(b, a) && !Less(c, b)
    ensures !Less(c, a)
  {
    if a != "" && b != "" && c != "" && a[0] == b[0] == c[0] {
      LessTransitive(a[1..], b[1..], c[1..]);
    }
  }

  lemma {:induction false} LessAsymmetric(a: string, b: string)
    ensures !(Less(a, b) && Less(b, a))
  {
    if a != "" && b != "" {
      LessAsymmetric(a[1..], b[1..]);
    }
  }

  ghost predicate SortedByKey(ls: seq<Label>)
  {
    forall i, j :: 0 <= i < j < |ls| ==> !Less(ls[j].key, ls[i].key)
  }

  function Insert(l: Label, ls: seq<Label>): (r: seq<Label>)
    ensures multiset(r) == multiset(ls) + multiset{l}
  {
    if ls == [] then [l]
    else if Less(l.key, ls[0].key) then [l] + ls
    else
      assert ls == [ls[0]] + ls[1..];
      [ls[0]] + Insert(l, ls[1..])
  }

  /** std::sort by key; the order it leaves equal keys in is one of those the standard allows. */
  function SortByKey(ls: seq<Label>): (r: seq<Label>)
    ensures multiset(r) == multiset(ls)
  {
    if ls == [] then []
    else
      assert ls == ls[..|ls| - 1] + [ls[|ls| - 1]];
      Insert(ls[|ls| - 1], SortByKey(ls[..|ls| - 1]))
  }

  lemma {:induction false} InsertSorted(l: Label, ls: seq<Label>)
    requires SortedByKey(ls)
    ensures SortedByKey(Insert(l, ls))
  {
    if ls != [] {
      if Less(l.key, ls[0].key) {
        LessAsymmetric(l.key, ls[0].key);
        forall j | 0 <= j < |ls| ensures !Less(ls[j].key, l.key) {
          if j > 0 {
            LessTransitive(l.key, ls[0].key, ls[j].key);
          }
        }
      } else {
        InsertSorted(l, ls[1..]);
        var tail := Insert(l, ls[1..]);
        forall j | 0 <= j < |tail| ensures !Less(tail[j].key, ls[0].key) {
          assert tail[j] in multiset(tail);
          assert tail[j] == l || tail[j] in ls[1..];
        }
      }
    }
  }

  lemma {:induction false} SortSorted(ls: seq<Label>)
    ensures SortedByKey(SortByKey(ls))
  {
    if ls != [] {
      SortSorted(ls[..|ls| - 1]);
      InsertSorted(ls[|ls| - 1], SortByKey(ls[..|ls| - 1]));
    }
  }

  function WithJob(jobId: string, instanceId: string, ls: seq<Label>): seq<Label>
  {
    ls + [Label("job", jobId)] + if |instanceId| > 0 then [Label("instance", instanceId)] else []
  }

  function LabelsOf(jobId: string, instanceId: string, s: string): seq<Label>
  {
    SortByKey(WithJob(jobId, instanceId, LabelsFrom(s, 0)))
  }

  // ----- misread lists

  function Size(l: Label): nat { 2 * |l.key| + |l.value| + 1 }

  function Weight(ls: seq<Label>): nat
  {
    if ls == [] then 0 else Size(ls[0]) + Weight(ls[1..])
  }

  predicate Foreign(l: Label) { ',' in l.value }

  predicate AnyForeign(ls: seq<Label>) { exists l <- ls :: Foreign(l) }

  /** A value cut out of a printed label is the value, or shorter than what it was cut out of, or starts with the
      comma behind the label. */
  lemma ValueBound(l: Label, behind: string, i: nat)
    requires behind == "" || behind[0] == ','
    requires i <= |l.key|
    ensures
      var v := ValueAfter(PrintLabel(l) + behind, i);
      || (i == |l.key| && v == l.value)
      || (v != "" && v[0] == ',')
      || 2 * i + |v| < 2 * |l.key| + |l.value|
  {
    hide PrintLabel, ValueAfter, Find, FindNotOf;
    var s, k, n := PrintLabel(l) + behind, |l.key|, |l.value|;
    LabelParts(l, behind);
    var begin := FindNotOf(s, {'"', ' '}, i + 1);
    if begin.None? {
      CutNone(s, i);
    } else {
      var b := begin.value;
      if b <= k {
        CutBefore(s, i, b, k + 1);
      } else if b < k + 2 + n {
        CutBefore(s, i, b, k + 2 + n);
        if b == k + 2 && |ValueAfter(s, i)| == n {
          assert ValueAfter(s, i) == s[k + 2..k + 2 + n];
        }
      } else {
        FindNotOfAtMost(s, {'"', ' '}, i + 1, k + 3 + n);
        CutStart(s, i, b);
      }
    }
  }

  lemma CutBefore(s: string, i: nat, b: nat, quote: nat)
    requires FindNotOf(s, {'"', ' '}, i + 1) == Some(b) && b < quote < |s| && s[quote] == '"'
    ensures var v := ValueAfter(s, i); |v| <= quote - b && v == s[b..b + |v|]
  {
    hide Find, FindNotOf, ValueAfter;
    FindAtMost(s, '"', b + 1, quote);
    CutAt(s, i, b, Find(s, '"', b + 1));
  }

  lemma CutStart(s: string, i: nat, b: nat)
    requires FindNotOf(s, {'"', ' '}, i + 1) == Some(b)
    ensures var v := ValueAfter(s, i); v == "" || v[0] == s[b]
  {
    hide Find, FindNotOf, ValueAfter;
    CutAt(s, i, b, Find(s, '"', b + 1));
  }

  lemma LabelParts(l: Label, behind: string)
    ensures
      var s, k, n := PrintLabel(l) + behind, |l.key|, |l.value|;
      && |s| == k + 3 + n + |behind| && s[k] == '=' && s[k + 1] == '"' && s[k + 2 + n] == '"'
      && s[..k] == l.key && s[k + 2..k + 2 + n] == l.value && (behind != "" ==> s[k + 3 + n] == behind[0])
  {}

  lemma CutNone(s: string, k: nat)
    requires FindNotOf(s, {'"', ' '}, k + 1) == None
    ensures ValueAfter(s, k) == ""
  {
    hide Find, FindNotOf;
  }

  /** A label read is the one printed, or smaller, or picked up the text behind it. */
  lemma LabelBound(l: Label, behind: string)
    requires behind == "" || behind[0] == ','
    ensures var r := ParseLabel(PrintLabel(l) + behind);
      r == l || Foreign(r) || Size(r) < Size(l)
  {
    var s, k := PrintLabel(l) + behind, |l.key|;
    hide PrintLabel, ValueAfter, Find;
    LabelParts(l, behind);
    FindAtMost(s, '=', 0, k);
    var i := Find(s, '=', 0).value;
    ValueBound(l, behind, i);
    assert l.key[..k] == l.key;
  }

  lemma WeightAppend(head: seq<Label>, tail: seq<Label>)
    requires |head| <= 1
    ensures Weight(head + tail) == Weight(head) + Weight(tail)
  {
    if head == [] {
      assert head + tail == tail;
    } else {
      assert (head + tail)[1..] == tail && head[1..] == [];
    }
  }

  /** A list that does not come back as it is weighs less, or has picked up a comma. */
  lemma {:induction false} ListBound(s: string, cursor: nat, ls: seq<Label>)
    requires NoCommas(ls) && cursor <= |s| && s[cursor..] == PrintLabels(ls)
    ensures var r := LabelsFrom(s, cursor); r == ls || AnyForeign(r) || Weight(r) < Weight(ls)
    decreases |ls|
  {
    hide ParseLabel, PrintLabel, PrintLabels, Behind, LabelsFrom, NoComma, Kept, Foreign, Size, Weight;
    if ls == [] {
      NothingPrinted(s, cursor);
    } else {
      var l, behind := ls[0], Behind(cursor, ls);
      var n := cursor + |PrintLabel(l)| + 1;
      var entry := ParseLabel(PrintLabel(l) + behind);
      EntryAt(s, cursor, ls);
      BehindStart(cursor, ls);
      LabelBound(l, behind);
      KeptIs(entry);
      var tail := if |ls| > 1 then LabelsFrom(s, n) else [];
      if |ls| > 1 {
        ListBound(s, n, ls[1..]);
      }
      PartsBound(Kept(entry), entry, tail, ls);
    }
  }

  lemma PartsBound(head: seq<Label>, entry: Label, tail: seq<Label>, ls: seq<Label>)
    requires ls != [] && head == if |entry.key| > 0 then [entry] else []
    requires entry == ls[0] || Foreign(entry) || Size(entry) < Size(ls[0])
    requires tail == ls[1..] || AnyForeign(tail) || Weight(tail) < Weight(ls[1..])
    ensures head + tail == ls || AnyForeign(head + tail) || Weight(head + tail) < Weight(ls)
  {
    WeightAppend(head, tail);
    assert ls == [ls[0]] + ls[1..];
    assert Weight(head) == if |entry.key| > 0 then Size(entry) else 0;
    hide Foreign, Size, Weight;
    if AnyForeign(tail) {
      var l :| l in tail && Foreign(l);
      assert l in head + tail;
    } else if head != [] && Foreign(entry) {
      assert entry in head + tail;
    }
  }

  lemma {:induction false} WeightOfPermutation(a: seq<Label>, b: seq<Label>)
    requires multiset(a) == multiset(b)
    ensures Weight(a) == Weight(b)
  {
    hide Size;
    if a == [] {
      assert |multiset(b)| == 0;
    } else {
      var i := TakeSame(a, b);
      WeightOfPermutation(a[1..], b[..i] + b[i + 1..]);
      WeightWithout(b, i);
    }
  }

  lemma TakeSame(a: seq<Label>, b: seq<Label>) returns (i: nat)
    requires a != [] && multiset(a) == multiset(b)
    ensures i < |b| && b[i] == a[0] && multiset(a[1..]) == multiset(b[..i] + b[i + 1..])
  {
    i := Occurrence(a[0], a, b);
    WithoutFirst(a);
    Without(b, i);
  }

  lemma Occurrence(l: Label, a: seq<Label>, b: seq<Label>) returns (i: nat)
    requires l in a && multiset(a) == multiset(b)
    ensures i < |b| && b[i] == l
  {
    assert l in multiset(b);
    i :| i < |b| && b[i] == l;
  }

  lemma WithoutFirst(ls: seq<Label>)
    requires ls != []
    ensures multiset(ls[1..]) == multiset(ls) - multiset{ls[0]}
  {
    assert ls == [ls[0]] + ls[1..];
  }

  lemma Without(ls: seq<Label>, i: nat)
    requires i < |ls|
    ensures multiset(ls[..i] + ls[i + 1..]) == multiset(ls) - multiset{ls[i]}
  {
    assert ls == ls[..i] + [ls[i]] + ls[i + 1..];
  }

  lemma {:induction false} WeightWithout(ls: seq<Label>, i: nat)
    requires i < |ls|
    ensures Weight(ls) == Size(ls[i]) + Weight(ls[..i] + ls[i + 1..])
  {
    hide Size;
    var rest := ls[..i] + ls[i + 1..];
    if i > 0 {
      WeightWithout(ls[1..], i - 1);
      assert rest[1..] == ls[1..][..i - 1] + ls[1..][i..];
    } else {
      assert rest == ls[1..];
    }
  }

  /** A list that is read as a permutation of itself is read as it is. */
  lemma PermutationIsSame(ls: seq<Label>)
    requires NoCommas(ls) && multiset(LabelsFrom(PrintLabels(ls), 0)) == multiset(ls)
    ensures LabelsFrom(PrintLabels(ls), 0) == ls
  {
    hide LabelsFrom, PrintLabels, Weight, AnyForeign, NoCommas;
    var r := LabelsFrom(PrintLabels(ls), 0);
    ListBound(PrintLabels(ls), 0, ls);
    WeightOfPermutation(r, ls);
    NoForeign(r, ls);
  }

  lemma NoForeign(r: seq<Label>, ls: seq<Label>)
    requires NoCommas(ls) && multiset(r) == multiset(ls)
    ensures !AnyForeign(r)
  {
    forall l | l in r ensures !Foreign(l) {
      assert l in multiset(r);
      assert l in ls;
    }
  }

  // ----- with job and instance

  lemma SameExtras(jobId: string, instanceId: string, a: seq<Label>, b: seq<Label>)
    ensures multiset(WithJob(jobId, instanceId, a)) == multiset(WithJob(jobId, instanceId, b))
       <==> multiset(a) == multiset(b)
  {
    var extras := WithJob(jobId, instanceId, []);
    assert WithJob(jobId, instanceId, a) == a + extras && WithJob(jobId, instanceId, b) == b + extras;
    hide WithJob;
    if multiset(a) + multiset(extras) == multiset(b) + multiset(extras) {
      assert multiset(a) == multiset(a) + multiset(extras) - multiset(extras);
    }
  }

  /** The round trip, for every list without commas in its keys and values: what is read back is sorted by key, and is
      the labels together with job and, if there is one, instance, exactly if each label can be read where it is
      printed. */
  lemma LabelsRoundTripExactly(jobId: string, instanceId: string, ls: seq<Label>)
    requires NoCommas(ls)
    ensures SortedByKey(LabelsOf(jobId, instanceId, PrintLabels(ls)))
    ensures multiset(LabelsOf(jobId, instanceId, PrintLabels(ls))) == multiset(WithJob(jobId, instanceId, ls))
       <==> AllRead(0, ls)
    ensures LabelsOf(jobId, instanceId, PrintLabels(ls)) == SortByKey(WithJob(jobId, instanceId, ls))
       <==> AllRead(0, ls)
  {
    hide LabelsFrom, PrintLabels, SortByKey, SortedByKey, WithJob, NoCommas, AllRead;
    var r := LabelsFrom(PrintLabels(ls), 0);
    LabelsReadExactly(ls);
    SortSorted(WithJob(jobId, instanceId, r));
    SameExtras(jobId, instanceId, r, ls);
    if multiset(r) == multiset(ls) {
      PermutationIsSame(ls);
    }
  }

  predicate Printable(l: Label)
  {
    && l.key != "" && '=' !in l.key && ',' !in l.key
    && l.value != "" && '"' !in l.value && ',' !in l.value && l.value[0] != ' '
  }

  /** Labels with a value can be read wherever they are printed. */
  lemma {:induction false} PrintableRead(offset: nat, ls: seq<Label>)
    requires forall l <- ls :: Printable(l)
    ensures NoCommas(ls) && AllRead(offset, ls)
    decreases |ls|
  {
    hide Behind, PrintLabel;
    if ls != [] {
      PrintableRead(offset + |PrintLabel(ls[0])| + 1, ls[1..]);
      assert Printable(ls[0]);
    }
  }

  /** A list of labels with values is read back as its labels together with job and, if there is one, instance,
      sorted by key. */
  lemma LabelsRoundTrip(jobId: string, instanceId: string, ls: seq<Label>)
    requires forall l <- ls :: Printable(l)
    ensures
      var r := LabelsOf(jobId, instanceId, PrintLabels(ls));
      multiset(r) == multiset(WithJob(jobId, instanceId, ls)) && SortedByKey(r)
  {
    hide LabelsOf, PrintLabels, Printable, SortedByKey, WithJob, NoCommas, AllRead;
    PrintableRead(0, ls);
    LabelsRoundTripExactly(jobId, instanceId, ls);
  }

  lemma ThreeLabels(a: Label, b: Label, c: Label)
    requires NoComma(a) && NoComma(b) && NoComma(c)
    ensures
      var ls, n := [a, b, c], |PrintLabel(a)| + 1;
      LabelsFrom(PrintLabels(ls), 0) == Kept(ParseLabel(PrintLabel(a)))
        + (Kept(ParseLabel(PrintLabel(b) + AtMost(n, "," + PrintLabel(c)))) + Kept(ParseLabel(PrintLabel(c))))
  {
    hide ParseLabel, PrintLabel, LabelsFrom, NoComma, Kept, AtMost;
    var ls := [a, b, c];
    var s, n := PrintLabels(ls), |PrintLabel(a)| + 1;
    var m := n + |PrintLabel(b)| + 1;
    assert ls[1..] == [b, c] && [b, c][1..] == [c];
    EntryAt(s, 0, ls);
    AtMostNothing("," + PrintLabels([b, c]));
    assert PrintLabel(a) + "" == PrintLabel(a) && PrintLabel(c) + "" == PrintLabel(c);
    EntryAt(s, n, [b, c]);
    EntryAt(s, m, [c]);
  }

  lemma AtMostNothing(s: string)
    ensures AtMost(0, s) == ""
  {}

  /** Where the long slice does show: an empty value in the middle of the list picks up what follows it. */
  lemma EmptyValueInTheMiddle()
    ensures LabelsFrom(PrintLabels([Label("a", "1"), Label("b", ""), Label("c", "3")]), 0)
         == [Label("a", "1"), Label("b", ",c="), Label("c", "3")]
  {
    hide ParseLabel, LabelsFrom, PrintLabels, Kept;
    var a, b, c := Label("a", "1"), Label("b", ""), Label("c", "3");
    ThreeLabels(a, b, c);
    ReadAlone(a);
    ReadAlone(c);
    MiddleLabel(PrintLabel(b) + AtMost(6, "," + PrintLabel(c)));
    KeptIs(Label("b", ",c="));
  }

  lemma ReadAlone(l: Label)
    requires Printable(l)
    ensures Kept(ParseLabel(PrintLabel(l))) == [l]
  {
    LabelReadExactly(l, "");
    assert PrintLabel(l) + "" == PrintLabel(l);
  }

  lemma MiddleLabel(s: string)
    requires s == "b=\"\",c=\"3\""
    ensures ParseLabel(s) == Label("b", ",c=")
  {
    FindIs(s, '=', 0, 1);
    FindNotOfIs(s, {'"', ' '}, 2, 4);
    FindIs(s, '"', 5, 7);
    hide Find, FindNotOf;
  }

  /** A key as long as the text before the empty value keeps the quotes that follow out of the slice. */
  lemma LongKeyProtects()
    ensures AllRead(0, [Label("a", "1"), Label("b", ""), Label("long_key", "3")])
  {
    var a, b, c := Label("a", "1"), Label("b", ""), Label("long_key", "3");
    var ls := [a, b, c];
    assert ls[1..] == [b, c] && [b, c][1..] == [c] && [c][1..] == [];
    hide AllRead;
    AllReadIs(0, ls);
    AllReadIs(6, [b, c]);
    AllReadIs(11, [c]);
  }

  /** A comma in a value need not show either: here the value is read whole from the long slice, and what is cut off
      behind the comma has no key and is dropped. */
  lemma CommaByAccident()
    ensures LabelsFrom(PrintLabels([Label("a", "1"), Label("b", "x,=y")]), 0) == [Label("a", "1"), Label("b", "x,=y")]
  {
    hide LabelsFrom, ParseLabel, Kept, PrintLabel, PrintLabels, Find;
    var a, b := Label("a", "1"), Label("b", "x,=y");
    var s := PrintLabels([a, b]);
    AccidentalText();
    AtMostNothing("," + PrintLabels([b]));
    EntryAt(s, 0, [a, b]);
    ReadAlone(a);
    NextEntry(s, 6);
    LabelReadExactly(b, "");
    NextEntry(s, 11);
    NoKey(s[11..]);
    KeptIs(ParseLabel(s[11..]));
  }

  lemma PrintedTwo(a: Label, b: Label)
    ensures PrintLabels([a, b]) == PrintLabel(a) + "," + PrintLabel(b) && [a, b][1..] == [b]
  {
    assert [a, b][1..] == [b];
    assert PrintLabels([b]) == PrintLabel(b);
  }

  lemma TwoRead(a: Label, b: Label)
    requires a == Label("method", "post") && b == Label("code", "200")
    ensures NoCommas([a, b]) && AllRead(0, [a, b])
  {}

  lemma SortOne(m: Label)
    ensures SortByKey([m]) == [m]
  {
    assert [m][..0] == [];
  }

  lemma SortTwo(m: Label, c: Label)
    requires Less(c.key, m.key)
    ensures SortByKey([m, c]) == [c, m]
  {
    hide Less;
    SortOne(m);
    assert [m, c][..1] == [m];
  }

  lemma SortThree(m: Label, c: Label, j: Label)
    requires Less(c.key, m.key) && !Less(j.key, c.key) && Less(j.key, m.key)
    ensures SortByKey([m, c, j]) == [c, j, m]
  {
    SortTwo(m, c);
    hide Less;
    assert [m, c, j][..2] == [m, c] && [c, m][1..] == [m];
    assert Insert(j, [m]) == [j, m];
  }

  /** The labels of a documented line in the order they are left in. */
  lemma DocumentedLabels(jobId: string)
    ensures SortByKey(WithJob(jobId, "", [Label("method", "post"), Label("code", "200")]))
         == [Label("code", "200"), Label("job", jobId), Label("method", "post")]
  {
    DocumentedOrder();
    hide Less, SortByKey, Insert;
    var m, c, j := Label("method", "post"), Label("code", "200"), Label("job", jobId);
    assert WithJob(jobId, "", [m, c]) == [m, c, j];
    SortThree(m, c, j);
  }

  /** An empty list gets the job, and in front of it the instance, if there is one. */
  lemma EmptyList(jobId: string, instanceId: string)
    ensures LabelsOf(jobId, instanceId, "")
         == (if instanceId == "" then [] else [Label("instance", instanceId)]) + [Label("job", jobId)]
  {
    DocumentedOrder();
    LabelsFromEnd("");
    hide Less, SortByKey, Insert, LabelsFrom;
    var j, i := Label("job", jobId), Label("instance", instanceId);
    assert WithJob(jobId, instanceId, []) == if instanceId == "" then [j] else [j, i];
    SortOne(j);
    SortTwo(j, i);
  }

  lemma DocumentedOrder()
    ensures Less("code", "method") && !Less("job", "code") && Less("job", "method") && Less("instance", "job")
  {}

  lemma AccidentalText()
    ensures
      var a, b := Label("a", "1"), Label("b", "x,=y");
      var s := PrintLabels([a, b]);
      && |s| == 14 && |PrintLabel(a)| == 5 && [a, b][1..] == [b] && s[11] == '=' && s[6..] == PrintLabel(b) + ""
      && Find(s, ',', 6) == Some(10) && Find(s, ',', 11) == None && PrintLabel(a) + "" == PrintLabel(a)
  {
    var a, b := Label("a", "1"), Label("b", "x,=y");
    PrintedTwo(a, b);
    hide PrintLabels;
    var s := PrintLabels([a, b]);
    assert s == "a=\"1\"" + "," + "b=\"x,=y\"";
    FindIs(s, ',', 6, 10);
    FindNone(s, ',', 11);
  }

  lemma NoKey(s: string)
    requires s != "" && s[0] == '='
    ensures ParseLabel(s).key == ""
  {
    FindIs(s, '=', 0, 0);
  }

  lemma AddJob(jobId: string, instanceId: string, ls: seq<Label>)
    ensures
      var withJob := ls + [Label("job", jobId)];
      WithJob(jobId, instanceId, ls) == if |instanceId| > 0 then withJob + [Label("instance", instanceId)] else withJob
  {}

  lemma LabelsFromEnd(s: string)
    ensures LabelsFrom(s, |s|) == []
  {}

  lemma KeptIs(l: Label)
    ensures Kept(l) == if |l.key| > 0 then [l] else []
  {}

  /** parse_bb_metrics_labels */
  method ParseLabels(jobId: string, instanceId: string, s: string) returns (result: seq<Label>)
    ensures result == LabelsOf(jobId, instanceId, s)
  {
    hide ParseLabel, Find, Substr, SortByKey, WithJob, LabelsFrom, Kept;
    LabelsFromEnd(s);
    var cursor := 0;
    result := [];
    while cursor != |s|
      invariant cursor <= |s|
      invariant result + LabelsFrom(s, cursor) == LabelsFrom(s, 0)
      decreases |s| - cursor
    {
      NextEntry(s, cursor);
      var separator := Find(s, ',', cursor);
      var entry := ParseLabel(Substr(s, cursor, separator));
      ghost var before := result;
      if |entry.key| > 0 {
        result := result + [entry];
      }
      KeptIs(entry);
      if separator.None? {
        break;
      }
      Regroup(before, Kept(entry), LabelsFrom(s, separator.value + 1));
      cursor := separator.value + 1;
    }
    assert result == LabelsFrom(s, 0);
    AddJob(jobId, instanceId, result);
    result := result + [Label("job", jobId)];
    if |instanceId| > 0 {
      result := result + [Label("instance", instanceId)];
    }
    result := SortByKey(result);
  }
}
