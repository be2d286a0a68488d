/** The hstore text of libraries/bb_monitor_utils/grpc_utils.cpp: to_pg prints a string map, pg2proto reads
    one back. */
module Hstore {
  import opened Wrappers
  import opened Text

  datatype Entry = Entry(key: string, value: string)

  function MapOf(es: seq<Entry>): map<string, string>
  {
    if es == [] then map[] else MapOf(es[..|es| - 1])[es[|es| - 1].key := es[|es| - 1].value]
  }

  /** The entries of a map in some iteration order. */
  ghost predicate Iteration(m: map<string, string>, es: seq<Entry>)
  {
    && m == MapOf(es)
    && forall i, j :: 0 <= i < j < |es| ==> es[i].key != es[j].key
  }

  // ----- printing

  function Quoted(s: string): string { "\"" + s + "\"" }

  function Item(e: Entry): string { Quoted(e.key) + "=>" + Quoted(e.value) }

  function Items(es: seq<Entry>): string
  {
    if es == [] then ""
    else Items(es[..|es| - 1]) + (if |es| == 1 then "" else ", ") + Item(es[|es| - 1])
  }

  function ToPg(es: seq<Entry>): string { "'" + Items(es) + "'" }

  // ----- reading

  predicate IsSpace(c: char) { c == ' ' || '\t' <= c <= '\r' }

  function LTrim(s: string): string
  {
    if s != "" && IsSpace(s[0]) then LTrim(s[1..]) else s
  }

  function RTrim(s: string): string
  {
    if s != "" && IsSpace(s[|s| - 1]) then RTrim(s[..|s| - 1]) else s
  }

  function Trim(s: string): string { RTrim(LTrim(s)) }

  function Unquote(s: string): string
  {
    if s == "" then "" else Unquote(s[..|s| - 1]) + if s[|s| - 1] == '"' then "" else [s[|s| - 1]]
  }

  predicate ArrowAt(s: string, i: nat) { i + 1 < |s| && s[i] == '=' && s[i + 1] == '>' }

  ghost predicate NoArrow(s: string) { forall i: nat :: !ArrowAt(s, i) }

  /** s.find("=>", from) */
  function FindArrow(s: string, from: nat): (r: Option<nat>)
    ensures r.Some? ==> from <= r.value && ArrowAt(s, r.value)
    decreases |s| - from
  {
    if from + 1 >= |s| then None else if ArrowAt(s, from) then Some(from) else FindArrow(s, from + 1)
  }

  /** split_key_val, trim and the removal of the quotes. */
  function ReadSegment(s: string): Entry
  {
    var i := FindArrow(s, 0);
    if i.None? then Entry("", "")
    else Entry(Unquote(Trim(s[..i.value])), Unquote(Trim(s[i.value + 2..])))
  }

  /** boost::split on commas */
  function Split(s: string): (segments: seq<string>)
    ensures |segments| > 0
    decreases |s|
  {
    var i := Find(s, ',', 0);
    if i.None? then [s] else [s[..i.value]] + Split(s[i.value + 1..])
  }

  function ReadSegments(segments: seq<string>, p: map<string, string>): map<string, string>
  {
    if segments == [] then p
    else
      var e := ReadSegment(segments[0]);
      ReadSegments(segments[1..], if |e.key| > 0 then p[e.key := e.value] else p)
  }

  function Pg2Proto(s: string): map<string, string> { ReadSegments(Split(s), map[]) }

  // ----- one entry

  /** What a caller can check of an entry: a non-empty key, no comma or quote, no arrow in the key. */
  ghost predicate Good(e: Entry)
  {
    Plain(e) && e.key != "" && NoArrow(e.key)
  }

  predicate Plain(e: Entry)
  {
    '"' !in e.key && ',' !in e.key && '"' !in e.value && ',' !in e.value
  }

  lemma {:induction false} FindArrowIs(s: string, from: nat, i: nat)
    requires from <= i && ArrowAt(s, i) && forall j: nat :: from <= j < i ==> !ArrowAt(s, j)
    ensures FindArrow(s, from) == Some(i)
    decreases i - from
  {
    if from < i {
      FindArrowIs(s, from + 1, i);
    }
  }

  lemma {:induction false} FirstArrow(s: string, from: nat)
    ensures var r := FindArrow(s, from);
      if r.Some? then from <= r.value && ArrowAt(s, r.value) && forall j: nat :: from <= j < r.value ==> !ArrowAt(s, j)
      else forall j: nat :: from <= j ==> !ArrowAt(s, j)
    decreases |s| - from
  {
    if from + 1 < |s| {
      FirstArrow(s, from + 1);
    }
  }

  lemma {:induction false} UnquotePlain(s: string)
    requires '"' !in s
    ensures Unquote(s) == s
  {
    if s != "" {
      assert s == s[..|s| - 1] + [s[|s| - 1]];
      UnquotePlain(s[..|s| - 1]);
    }
  }

  lemma {:induction false} UnquoteConcat(a: string, b: string)
    ensures Unquote(a + b) == Unquote(a) + Unquote(b)
  {
    if b == "" {
      assert a + b == a;
    } else {
      UnquoteConcat(a, b[..|b| - 1]);
      assert (a + b)[..|a + b| - 1] == a + b[..|b| - 1];
    }
  }

  lemma {:induction false} UnquoteRemoves(s: string)
    ensures '"' !in Unquote(s)
    ensures ',' !in s ==> ',' !in Unquote(s)
  {
    if s != "" {
      UnquoteRemoves(s[..|s| - 1]);
    }
  }

  lemma UnquoteQuoted(k: string)
    requires '"' !in k
    ensures Unquote(Quoted(k)) == k && Unquote("\"" + k) == k
  {
    UnquotePlain(k);
    UnquoteConcat("\"", k);
    UnquoteConcat("\"" + k, "\"");
    assert Unquote("\"") == "" by {
      assert "\""[..0] == "";
    }
  }

  /** The text before or after the arrow is trimmed down to what is between its quotes. */
  lemma TrimQuoted(lead: string, k: string)
    requires lead == "" || lead == " "
    ensures Trim(lead + Quoted(k)) == Quoted(k)
  {
    var q := Quoted(k);
    LTrimLead(lead, q);
    assert q[|q| - 1] == '"';
  }

  lemma LTrimLead(lead: string, q: string)
    requires (lead == "" || lead == " ") && q != "" && !IsSpace(q[0])
    ensures LTrim(lead + q) == q
  {
    if lead == "" {
      assert lead + q == q;
    } else {
      assert (lead + q)[1..] == q;
    }
  }

  lemma {:induction false} RTrimPrefix(s: string)
    ensures RTrim(s) <= s
  {
    if s != "" && IsSpace(s[|s| - 1]) {
      RTrimPrefix(s[..|s| - 1]);
    }
  }

  lemma ArrowLayout(lead: string, k: string, v: string)
    ensures
      var s, n := lead + (k + "=>" + v), |lead| + |k|;
      && |s| == n + 2 + |v| && s[n] == '=' && s[n + 1] == '>'
      && s[..n] == lead + k && s[n + 2..] == v
  {}

  lemma KeyLayout(lead: string, k: string)
    requires lead == "" || lead == " "
    ensures
      var t, n := lead + Quoted(k), |lead| + 1;
      && |t| == n + |k| + 1 && t[n + |k|] == '"'
      && (forall j :: 0 <= j < n ==> t[j] != '=')
      && (forall j :: n <= j < n + |k| ==> t[j] == k[j - n])
  {}

  lemma CutLayout(lead: string, k: string, q: nat)
    requires q <= |k|
    ensures (lead + Quoted(k))[..|lead| + 1 + q] == lead + ("\"" + k[..q])
  {}

  lemma ItemLayout(lead: string, e: Entry)
    requires lead == "" || lead == " "
    ensures
      var s, n, k := lead + Item(e), |lead| + 1, |e.key|;
      && |s| == n + k + 3 + |Quoted(e.value)|
      && (forall j :: 0 <= j < n ==> s[j] != '=')
      && (forall j :: n <= j < n + k ==> s[j] == e.key[j - n])
      && s[n + k] == '"' && s[n + k + 1] == '=' && s[n + k + 2] == '>'
      && s[..n + k + 1] == lead + Quoted(e.key) && s[n + k + 3..] == Quoted(e.value)
  {
    ArrowLayout(lead, Quoted(e.key), Quoted(e.value));
    KeyLayout(lead, e.key);
    hide Quoted;
    var s, t := lead + Item(e), lead + Quoted(e.key);
    assert forall j :: 0 <= j < |t| ==> s[j] == s[..|t|][j];
  }

  /** Where the first arrow of a printed entry is. */
  lemma ArrowOfItem(lead: string, e: Entry)
    requires lead == "" || lead == " "
    ensures
      var s, n, first := lead + Item(e), |lead| + 1, FindArrow(e.key, 0);
      FindArrow(s, 0) == Some(n + if first.Some? then first.value else |e.key| + 1)
  {
    var s, n, k := lead + Item(e), |lead| + 1, |e.key|;
    ItemLayout(lead, e);
    hide Item;
    FirstArrow(e.key, 0);
    var first := FindArrow(e.key, 0);
    var at := n + if first.Some? then first.value else k + 1;
    forall j: nat | j < at ensures !ArrowAt(s, j) {
      if n <= j < n + k {
        assert !ArrowAt(e.key, j - n);
      }
    }
    FindArrowIs(s, 0, at);
  }

  /** A good entry is read back, leading and trailing spaces inside the quotes included. */
  lemma ReadGood(lead: string, e: Entry)
    requires (lead == "" || lead == " ") && Good(e)
    ensures ReadSegment(lead + Item(e)) == e
  {
    hide Trim, Unquote, Item, FindArrow;
    SplitAtArrow(lead, e);
    TrimQuoted(lead, e.key);
    TrimValue(e.value);
    UnquoteQuoted(e.key);
    UnquoteQuoted(e.value);
  }

  /** The arrow of a good entry is the one between key and value. */
  lemma SplitAtArrow(lead: string, e: Entry)
    requires (lead == "" || lead == " ") && Good(e)
    ensures
      var s, i := lead + Item(e), FindArrow(lead + Item(e), 0);
      i.Some? && i.value + 2 <= |s| && s[..i.value] == lead + Quoted(e.key) && s[i.value + 2..] == Quoted(e.value)
  {
    hide Item, FindArrow;
    ItemLayout(lead, e);
    ArrowOfItem(lead, e);
    FirstArrow(e.key, 0);
  }

  lemma TrimValue(v: string)
    ensures Trim(Quoted(v)) == Quoted(v)
  {
    assert "" + Quoted(v) == Quoted(v);
    TrimQuoted("", v);
  }

  lemma {:induction false} RTrimKeeps(s: string)
    requires s != "" && !IsSpace(s[0])
    ensures RTrim(s) != ""
  {
    if IsSpace(s[|s| - 1]) {
      RTrimKeeps(s[..|s| - 1]);
    }
  }

  /** A key cut off at its first arrow stays without arrow when it is trimmed. */
  lemma CutKey(lead: string, k: string, q: nat)
    requires (lead == "" || lead == " ") && '"' !in k && q <= |k| && forall j: nat :: j < q ==> !ArrowAt(k, j)
    ensures NoArrow(Unquote(Trim(lead + ("\"" + k[..q]))))
  {
    var quoted := "\"" + k[..q];
    LTrimLead(lead, quoted);
    RTrimPrefix(quoted);
    RTrimKeeps(quoted);
    var r := RTrim(quoted);
    var cut := k[..|r| - 1];
    assert r == "\"" + cut by { hide Unquote; }
    UnquoteQuoted(cut);
    forall i: nat ensures !ArrowAt(cut, i) {
      assert ArrowAt(cut, i) ==> ArrowAt(k, i);
    }
  }

  /** The key read back from any printed entry, before it is trimmed and unquoted. */
  lemma ReadKey(lead: string, e: Entry)
    requires lead == "" || lead == " "
    ensures
      var first := FindArrow(e.key, 0);
      ReadSegment(lead + Item(e)).key
        == Unquote(Trim(if first.Some? then lead + ("\"" + e.key[..first.value]) else lead + Quoted(e.key)))
  {
    hide Trim, Unquote, Item, FindArrow, Quoted;
    ItemLayout(lead, e);
    ArrowOfItem(lead, e);
    var s, n, first := lead + Item(e), |lead| + 1, FindArrow(e.key, 0);
    if first.Some? {
      CutLayout(lead, e.key, first.value);
      assert s[..n + first.value] == s[..n + |e.key| + 1][..n + first.value];
    }
  }

  /** Whatever the key was, the one read back has no arrow in it. */
  lemma ReadKeyHasNoArrow(lead: string, e: Entry)
    requires (lead == "" || lead == " ") && Plain(e)
    ensures NoArrow(ReadSegment(lead + Item(e)).key)
  {
    hide Trim, Unquote, Item, FindArrow, Quoted, ReadSegment;
    ReadKey(lead, e);
    FirstArrow(e.key, 0);
    var first := FindArrow(e.key, 0);
    if first.Some? {
      CutKey(lead, e.key, first.value);
    } else {
      TrimQuoted(lead, e.key);
      UnquoteQuoted(e.key);
    }
  }

  // ----- the whole map

  lemma {:induction false} SplitAppend(a: string, b: string)
    requires ',' !in b
    ensures Split(a + "," + b) == Split(a) + [b]
    decreases |a|
  {
    var s, i := a + "," + b, Find(a, ',', 0);
    if i.None? {
      NoneFound(a);
      assert forall j :: 0 <= j < |a| ==> s[j] == a[j];
      FindIs(s, ',', 0, |a|);
      assert s[..|a|] == a && s[|a| + 1..] == b;
      FindNone(b, ',', 0);
    } else {
      FirstFound(a);
      assert forall j :: 0 <= j < |a| ==> s[j] == a[j];
      FindIs(s, ',', 0, i.value);
      assert s[..i.value] == a[..i.value] && s[i.value + 1..] == a[i.value + 1..] + "," + b;
      SplitAppend(a[i.value + 1..], b);
      hide Split, Find;
      Regroup([a[..i.value]], Split(a[i.value + 1..]), [b]);
    }
  }

  lemma FirstFound(s: string)
    requires Find(s, ',', 0).Some?
    ensures var i := Find(s, ',', 0).value; ',' !in s[..i] && forall j :: 0 <= j < i ==> s[j] != ','
  {
    FindFirst(s, ',', 0);
  }

  lemma NoneFound(s: string)
    requires Find(s, ',', 0).None?
    ensures ',' !in s && forall j :: 0 <= j < |s| ==> s[j] != ','
  {
    FindFirst(s, ',', 0);
  }

  lemma {:induction false} SplitHasNoComma(s: string)
    ensures forall i :: 0 <= i < |Split(s)| ==> ',' !in Split(s)[i]
    decreases |s|
  {
    if Find(s, ',', 0).None? {
      NoneFound(s);
    } else {
      FirstFound(s);
      SplitHasNoComma(s[Find(s, ',', 0).value + 1..]);
    }
  }

  lemma {:induction false} ReadSegmentsAppend(a: seq<string>, b: string, p: map<string, string>)
    ensures ReadSegments(a + [b], p) == ReadSegments([b], ReadSegments(a, p))
  {
    hide ReadSegment;
    if a == [] {
      assert a + [b] == [b];
    } else {
      assert (a + [b])[1..] == a[1..] + [b];
      var e := ReadSegment(a[0]);
      ReadSegmentsAppend(a[1..], b, if |e.key| > 0 then p[e.key := e.value] else p);
    }
  }

  function Lead(i: nat): string { if i == 0 then "" else " " }

  function Put(p: map<string, string>, e: Entry): map<string, string>
  {
    if |e.key| > 0 then p[e.key := e.value] else p
  }

  /** Reading a printed list is reading all but its last entry, and then the last. */
  lemma ReadLast(es: seq<Entry>)
    requires es != [] && forall e :: e in es ==> Plain(e)
    ensures
      var n := |es| - 1;
      Pg2Proto(Items(es)) == Put(Pg2Proto(Items(es[..n])), ReadSegment(Lead(n) + Item(es[n])))
  {
    var n := |es| - 1;
    var segment := Lead(n) + Item(es[n]);
    PlainItem(es[n]);
    ItemsSplit(es);
    NothingRead();
    hide Item, Items, Plain, Lead, ReadSegment, ReadSegments, Split;
    if n == 0 {
      ReadOne(segment, map[]);
    } else {
      ReadSegmentsAppend(Split(Items(es[..n])), segment, map[]);
      ReadOne(segment, Pg2Proto(Items(es[..n])));
    }
  }

  /** The printed list falls apart at its commas into the printed entries. */
  lemma ItemsSplit(es: seq<Entry>)
    requires es != [] && ',' !in Item(es[|es| - 1])
    ensures
      var n := |es| - 1;
      var segment := Lead(n) + Item(es[n]);
      if n == 0 then Split(Items(es)) == [segment] && Items(es[..n]) == Items([])
      else Split(Items(es)) == Split(Items(es[..n])) + [segment]
  {
    var n := |es| - 1;
    var before, item := es[..n], Item(es[n]);
    hide Item, Split;
    if n == 0 {
      assert before == [];
      assert Items(es) == "" + "" + item;
      assert "" + "" + item == "" + item;
      SplitOne("" + item);
    } else {
      var last := " " + item;
      JoinAt(Items(before), item);
      hide Items;
      SplitAppend(Items(before), last);
    }
  }

  lemma JoinAt(a: string, item: string)
    ensures a + ", " + item == a + "," + (" " + item)
  {}

  lemma SplitOne(s: string)
    requires ',' !in s
    ensures Split(s) == [s]
  {
    FindNone(s, ',', 0);
  }

  lemma ReadOne(segment: string, p: map<string, string>)
    ensures ReadSegments([segment], p) == Put(p, ReadSegment(segment))
  {
    hide ReadSegment;
    assert [segment][1..] == [];
  }

  lemma PlainItem(e: Entry)
    requires Plain(e)
    ensures ',' !in Item(e)
  {}

  lemma NothingRead()
    ensures Pg2Proto(Items([])) == map[]
  {
    assert Split("") == [""];
    assert FindArrow("", 0) == None;
  }

  lemma {:induction false} GoodIsRead(es: seq<Entry>)
    requires forall e :: e in es ==> Good(e)
    ensures Pg2Proto(Items(es)) == MapOf(es)
  {
    if es == [] {
      NothingRead();
    } else {
      var n := |es| - 1;
      assert es[n] in es && forall e :: e in es[..n] ==> e in es;
      GoodIsRead(es[..n]);
      ReadLast(es);
      ReadGood(Lead(n), es[n]);
      hide Items, Pg2Proto, ReadSegment, Item;
    }
  }

  ghost predicate PlainMap(m: map<string, string>)
  {
    forall k :: k in m ==> k != "" && Plain(Entry(k, m[k]))
  }

  lemma {:induction false} TrimWithin(s: string)
    ensures forall c :: c in Trim(s) ==> c in s
  {
    LTrimWithin(s);
    RTrimPrefix(LTrim(s));
  }

  lemma {:induction false} LTrimWithin(s: string)
    ensures forall c :: c in LTrim(s) ==> c in s
  {
    if s != "" && IsSpace(s[0]) {
      LTrimWithin(s[1..]);
    }
  }

  lemma SegmentPlain(s: string)
    requires ',' !in s
    ensures Plain(ReadSegment(s))
  {
    var i := FindArrow(s, 0);
    if i.Some? {
      var a, b := s[..i.value], s[i.value + 2..];
      TrimWithin(a);
      TrimWithin(b);
      UnquoteRemoves(Trim(a));
      UnquoteRemoves(Trim(b));
      hide Trim, Unquote;
    }
  }

  /** Nothing that is read has a comma or a quote, or an empty key. */
  lemma {:induction false} ReadIsPlain(segments: seq<string>, p: map<string, string>)
    requires PlainMap(p) && forall i :: 0 <= i < |segments| ==> ',' !in segments[i]
    ensures PlainMap(ReadSegments(segments, p))
  {
    if segments != [] {
      SegmentPlain(segments[0]);
      hide ReadSegment;
      var e := ReadSegment(segments[0]);
      ReadIsPlain(segments[1..], if |e.key| > 0 then p[e.key := e.value] else p);
    }
  }

  lemma ReadPlainMap(s: string)
    ensures PlainMap(Pg2Proto(s))
  {
    SplitHasNoComma(s);
    ReadIsPlain(Split(s), map[]);
  }

  lemma {:induction false} ReadHasNoArrow(es: seq<Entry>)
    requires forall e :: e in es ==> Plain(e)
    ensures forall k :: k in Pg2Proto(Items(es)) ==> NoArrow(k)
  {
    if es == [] {
      NothingRead();
    } else {
      var n := |es| - 1;
      ReadHasNoArrow(es[..n]);
      ReadLast(es);
      ReadKeyHasNoArrow(Lead(n), es[n]);
      hide Items, Pg2Proto, ReadSegment, Item, NoArrow;
    }
  }

  lemma {:induction false} InMap(es: seq<Entry>, i: nat)
    requires i < |es| && forall i, j :: 0 <= i < j < |es| ==> es[i].key != es[j].key
    ensures es[i].key in MapOf(es) && MapOf(es)[es[i].key] == es[i].value
  {
    var n := |es| - 1;
    if i < n {
      InMap(es[..n], i);
      assert es[..n][i] == es[i];
    }
  }

  /** The round trip, for every map and every iteration order: what to_pg prints is read back as the same map
      if and only if every key is non-empty and has no arrow, and no key or value has a comma or a quote. */
  lemma RoundTripExactly(m: map<string, string>, es: seq<Entry>)
    requires Iteration(m, es)
    ensures Pg2Proto(Items(es)) == m <==> forall e :: e in es ==> Good(e)
    ensures ToPg(es)[1..|ToPg(es)| - 1] == Items(es)
  {
    hide Plain, Pg2Proto, Items, NoArrow;
    if forall e :: e in es ==> Good(e) {
      GoodIsRead(es);
    }
    if Pg2Proto(Items(es)) == m {
      ReadPlainMap(Items(es));
      forall e | e in es ensures Plain(e) && e.key in m && e.key != "" {
        var i :| 0 <= i < |es| && es[i] == e;
        InMap(es, i);
        assert e == Entry(e.key, m[e.key]);
      }
      ReadHasNoArrow(es);
    }
  }

  // ----- the texts themselves

  /** Entries are printed with quotes and an arrow, and separated by a comma and a space. */
  lemma PrintedText(k: string, v: string, k': string, v': string)
    ensures
      var first, second := "\"" + k + "\"=>\"" + v + "\"", "\"" + k' + "\"=>\"" + v' + "\"";
      && ToPg([]) == "''" && ToPg([Entry(k, v)]) == "'" + first + "'"
      && ToPg([Entry(k, v), Entry(k', v')]) == "'" + (first + ", " + second) + "'"
  {
    var e, e' := Entry(k, v), Entry(k', v');
    ItemText(e);
    ItemText(e');
    ItemsOfTwo(e, e');
    hide Item, Items;
    assert "'" + "" + "'" == "''";
  }

  lemma ItemsOfTwo(e: Entry, e': Entry)
    ensures Items([]) == "" && Items([e]) == Item(e) && Items([e, e']) == Item(e) + ", " + Item(e')
  {
    hide Item;
    assert [e][..0] == [] && [e, e'][..1] == [e];
    assert "" + "" + Item(e) == Item(e);
  }

  /** The six characters that isspace accepts. */
  predicate Blank(c: char)
  {
    c == ' ' || c == '\t' || c == '\n' || c == '\U{000b}' || c == '\U{000c}' || c == '\r'
  }

  predicate IsBlank(s: string) { forall c <- s :: Blank(c) }

  /** Something to keep: nothing at all, or a text that has other characters at both ends. */
  predicate IsCore(s: string) { s == "" || (!Blank(s[0]) && !Blank(s[|s| - 1])) }

  /** Trimming takes off such characters at both ends, and no others. */
  lemma TrimExactly(lead: string, core: string, trail: string)
    requires IsBlank(lead) && IsBlank(trail) && IsCore(core)
    ensures Trim(lead + core + trail) == core
  {
    if core == "" {
      LTrimBlank(lead + trail, "");
      assert lead + core + trail == lead + trail + "";
    } else {
      assert (core + trail)[0] == core[0];
      LTrimBlank(lead, core + trail);
      assert lead + core + trail == lead + (core + trail);
      RTrimBlank(core, trail);
    }
  }

  lemma {:induction false} LTrimBlank(lead: string, s: string)
    requires IsBlank(lead) && (s == "" || !IsSpace(s[0]))
    ensures LTrim(lead + s) == s
  {
    if lead == "" {
      assert lead + s == s;
    } else {
      assert lead[0] in lead && (lead + s)[1..] == lead[1..] + s;
      LTrimBlank(lead[1..], s);
    }
  }

  lemma {:induction false} RTrimBlank(s: string, trail: string)
    requires IsBlank(trail) && s != "" && !IsSpace(s[|s| - 1])
    ensures RTrim(s + trail) == s
  {
    if trail == "" {
      assert s + trail == s;
    } else {
      var n := |trail| - 1;
      assert trail[n] in trail && (s + trail)[..|s + trail| - 1] == s + trail[..n];
      RTrimBlank(s, trail[..n]);
    }
  }

  /** A segment that to_pg did not print: blanks around key and value are dropped, and so are all quotes. */
  lemma ReadSpaced(lead: string, k: string, mid: string, mid': string, v: string, trail: string)
    requires IsBlank(lead) && IsBlank(mid) && IsBlank(mid') && IsBlank(trail) && IsCore(k) && IsCore(v) && NoArrow(k)
    ensures ReadSegment(lead + k + mid + ("=>" + (mid' + v + trail))) == Entry(Unquote(k), Unquote(v))
  {
    var key, value := lead + k + mid, mid' + v + trail;
    var s := key + ("=>" + value);
    forall j: nat | j < |key| ensures !ArrowAt(s, j) {
      NoArrowBefore(lead, k, mid, value, j);
    }
    FindArrowIs(s, 0, |key|);
    TrimExactly(lead, k, mid);
    TrimExactly(mid', v, trail);
    hide FindArrow, Trim, Unquote;
    assert s[..|key|] == key && s[|key| + 2..] == value;
  }

  lemma NoArrowBefore(lead: string, k: string, mid: string, value: string, j: nat)
    requires IsBlank(lead) && IsBlank(mid) && NoArrow(k) && j < |lead + k + mid|
    ensures !ArrowAt(lead + k + mid + ("=>" + value), j)
  {
    var s, a, b := lead + k + mid + ("=>" + value), |lead|, |lead + k|;
    if j < a {
      assert s[j] in lead;
    } else if j < b {
      assert s[j] == k[j - a];
      if j + 1 < b {
        assert s[j + 1] == k[j + 1 - a] && !ArrowAt(k, j - a);
      } else if mid != "" {
        assert s[b] == mid[0] && mid[0] in mid;
      } else {
        assert s[b] == '=';
      }
    } else {
      assert s[j] == mid[j - b] && mid[j - b] in mid;
    }
  }

  // ----- the loops

  lemma ItemText(e: Entry)
    ensures Item(e) == "\"" + e.key + "\"=>\"" + e.value + "\""
  {}

  /** to_pg */
  method Print(es: seq<Entry>) returns (result: string)
    ensures result == ToPg(es)
  {
    result := "'";
    var first := true;
    for i := 0 to |es|
      invariant result == "'" + Items(es[..i]) && (first <==> i == 0)
    {
      assert es[..i + 1][..i] == es[..i];
      ItemText(es[i]);
      if !first {
        result := result + ", ";
      }
      result := result + "\"" + es[i].key + "\"=>\"" + es[i].value + "\"";
      first := false;
    }
    assert es[..|es|] == es;
    result := result + "'";
  }

  /** pg2proto: adds what it reads to the map it is given. */
  method ReadInto(s: string, p: map<string, string>) returns (r: map<string, string>)
    ensures r == ReadSegments(Split(s), p)
  {
    hide ReadSegment, Split;
    var v := Split(s);
    r := p;
    for i := 0 to |v|
      invariant ReadSegments(v[i..], r) == ReadSegments(v, p)
    {
      var e := ReadSegment(v[i]);
      if |e.key| > 0 {
        r := r[e.key := e.value];
      }
    }
  }
}
