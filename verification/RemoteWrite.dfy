/** Prometheus remote write in both directions: the exporter (prometheus_sink2.cpp in
    libraries/bb_monitor_client_utils) turns queued metrics into a write request, and the write proxy
    (programs/client-proxies/bb-monitor-promstore-write-proxy/main.cpp) turns a write request into metrics. */
module RemoteWrite {
  import opened Labels
  import opened Wrappers

  const NAME_LABEL := "__name__"
  const REPLICA_LABEL := "prometheus_replica"

  datatype Double = Finite(r: real) | NaN | Infinite(positive: bool)

  datatype Value = Null | Long(l: int) | Dbl(d: Double) | Position

  datatype AvroMetric = AvroMetric(ns: string, name: string, labels: seq<Label>, timestamp: int, value: Value)

  datatype Sample = Sample(timestamp: int, value: Double)

  datatype TimeSeries = TimeSeries(labels: seq<Label>, samples: seq<Sample>)

  datatype Metric = Metric(ns: string, name: string, labels: seq<Label>, timestamp: int, value: Double)

  /** Conversion of a 64-bit integer to the nearest double, which is finite. */
  type LongToDouble = int -> real

  // ----- the exporter

  function Number(toDouble: LongToDouble, v: Value): Double
  {
    match v
    case Null => NaN
    case Long(l) => Finite(toDouble(l))
    case Dbl(d) => d
    case Position => NaN
  }

  function Joined(m: AvroMetric): string { if m.ns == "" then m.name else m.ns + "_" + m.name }

  /** The messages that are exported: not null, young enough, and with a finite number. */
  predicate Exported(toDouble: LongToDouble, minTs: int, msg: Option<AvroMetric>)
  {
    msg.Some? && msg.value.timestamp > minTs && Number(toDouble, msg.value.value).Finite?
  }

  function SeriesOf(toDouble: LongToDouble, m: AvroMetric): TimeSeries
  {
    TimeSeries([Label(NAME_LABEL, Joined(m))] + m.labels, [Sample(m.timestamp, Number(toDouble, m.value))])
  }

  function Export(toDouble: LongToDouble, minTs: int, batch: seq<Option<AvroMetric>>): seq<TimeSeries>
  {
    if batch == [] then []
    else
      var msg := batch[|batch| - 1];
      Export(toDouble, minTs, batch[..|batch| - 1])
        + if Exported(toDouble, minTs, msg) then [SeriesOf(toDouble, msg.value)] else []
  }

  lemma {:induction false} ExportConcat(toDouble: LongToDouble, minTs: int, a: seq<Option<AvroMetric>>,
                                        b: seq<Option<AvroMetric>>)
    ensures Export(toDouble, minTs, a + b) == Export(toDouble, minTs, a) + Export(toDouble, minTs, b)
  {
    hide Exported, SeriesOf;
    if b == [] {
      assert a + b == a;
    } else {
      var n := |b| - 1;
      ExportConcat(toDouble, minTs, a, b[..n]);
      assert (a + b)[..|a + b| - 1] == a + b[..n];
    }
  }

  /** What becomes of one message. A long or a finite double that is younger than the limit gives one series with one
      sample, under the namespace and the name joined by an underscore, or the name alone; nothing else gives any. */
  lemma ExportOfOne(toDouble: LongToDouble, minTs: int, ns: string, name: string, labels: seq<Label>, timestamp: int)
    ensures
      var m := AvroMetric(ns, name, labels, timestamp, Null);
      var all := [Label("__name__", if ns == "" then name else ns + "_" + name)] + labels;
      && (forall l: int ::
           Export(toDouble, minTs, [Some(m.(value := Long(l)))])
             == if timestamp > minTs then [TimeSeries(all, [Sample(timestamp, Finite(toDouble(l)))])] else [])
      && (forall x: real ::
           Export(toDouble, minTs, [Some(m.(value := Dbl(Finite(x))))])
             == if timestamp > minTs then [TimeSeries(all, [Sample(timestamp, Finite(x))])] else [])
      && (forall positive: bool :: Export(toDouble, minTs, [Some(m.(value := Dbl(Infinite(positive))))]) == [])
      && Export(toDouble, minTs, [Some(m.(value := Dbl(NaN)))]) == []
      && Export(toDouble, minTs, [Some(m)]) == [] && Export(toDouble, minTs, [Some(m.(value := Position))]) == []
      && Export(toDouble, minTs, [None]) == []
  {
    hide Exported, SeriesOf, Export;
    forall msg: Option<AvroMetric> {
      ExportOfMessage(toDouble, minTs, msg);
    }
    ExportedAre(toDouble, minTs, ns, name, labels, timestamp);
  }

  lemma ExportOfMessage(toDouble: LongToDouble, minTs: int, msg: Option<AvroMetric>)
    ensures Export(toDouble, minTs, [msg])
         == if Exported(toDouble, minTs, msg) then [SeriesOf(toDouble, msg.value)] else []
  {
    assert [msg][..0] == [];
  }

  lemma ExportedAre(toDouble: LongToDouble, minTs: int, ns: string, name: string, labels: seq<Label>, timestamp: int)
    ensures
      var m := AvroMetric(ns, name, labels, timestamp, Null);
      var all := [Label("__name__", if ns == "" then name else ns + "_" + name)] + labels;
      && (forall l: int :: var msg := m.(value := Long(l));
           && (Exported(toDouble, minTs, Some(msg)) <==> timestamp > minTs)
           && SeriesOf(toDouble, msg) == TimeSeries(all, [Sample(timestamp, Finite(toDouble(l)))]))
      && (forall x: real :: var msg := m.(value := Dbl(Finite(x)));
           && (Exported(toDouble, minTs, Some(msg)) <==> timestamp > minTs)
           && SeriesOf(toDouble, msg) == TimeSeries(all, [Sample(timestamp, Finite(x))]))
      && (forall positive: bool :: !Exported(toDouble, minTs, Some(m.(value := Dbl(Infinite(positive))))))
      && !Exported(toDouble, minTs, Some(m.(value := Dbl(NaN)))) && !Exported(toDouble, minTs, Some(m))
      && !Exported(toDouble, minTs, Some(m.(value := Position))) && !Exported(toDouble, minTs, None)
  {}

  // ----- the write proxy

  /** The labels of one pass over a series: the name, and the labels added to those the metric has already. */
  function AddLabels(m: Metric, labels: seq<Label>): Metric
  {
    if labels == [] then m
    else
      var m' := AddLabels(m, labels[..|labels| - 1]);
      var l := labels[|labels| - 1];
      if l.key == NAME_LABEL then m'.(ns := "", name := l.value)
      else if l.key == REPLICA_LABEL then m'
      else m'.(labels := m'.labels + [l])
  }

  const BLANK := Metric("", "", [], 0, Finite(0.0))

  /** The metric after the first n samples of a series; it is not reset from sample to sample. */
  function AfterSamples(series: TimeSeries, n: nat): Metric
    requires n <= |series.samples|
  {
    if n == 0 then BLANK
    else
      var s := series.samples[n - 1];
      AddLabels(AfterSamples(series, n - 1), series.labels).(timestamp := s.timestamp, value := s.value)
  }

  function Kept(m: Metric): seq<Metric> { if m.name != "" then [m] else [] }

  function ReadSamples(series: TimeSeries, n: nat): seq<Metric>
    requires n <= |series.samples|
  {
    if n == 0 then [] else ReadSamples(series, n - 1) + Kept(AfterSamples(series, n))
  }

  function ReadBack(request: seq<TimeSeries>): seq<Metric>
  {
    if request == [] then []
    else
      var series := request[|request| - 1];
      ReadBack(request[..|request| - 1]) + ReadSamples(series, |series.samples|)
  }

  // ----- round trip

  /** The metric as it should arrive: ns and name joined, everything else as it was. */
  function Expected(toDouble: LongToDouble, m: AvroMetric): Metric
  {
    Metric("", Joined(m), m.labels, m.timestamp, Number(toDouble, m.value))
  }

  function ExpectedAll(toDouble: LongToDouble, minTs: int, batch: seq<Option<AvroMetric>>): seq<Metric>
  {
    if batch == [] then []
    else
      var msg := batch[|batch| - 1];
      ExpectedAll(toDouble, minTs, batch[..|batch| - 1])
        + if Exported(toDouble, minTs, msg) then [Expected(toDouble, msg.value)] else []
  }

  predicate Unreserved(labels: seq<Label>)
  {
    forall l <- labels :: l.key != NAME_LABEL && l.key != REPLICA_LABEL
  }

  /** What survives the trip: a non-empty joined name and no reserved label key. */
  predicate Survives(m: AvroMetric) { Joined(m) != "" && Unreserved(m.labels) }

  /** Labels are added in order; a reserved one is not added. */
  lemma {:induction false} LabelsAdded(m: Metric, labels: seq<Label>)
    ensures
      var r := AddLabels(m, labels);
      && r.timestamp == m.timestamp && r.value == m.value
      && |r.labels| <= |m.labels| + |labels|
      && (|r.labels| == |m.labels| + |labels| <==> Unreserved(labels))
      && (Unreserved(labels) ==> r.labels == m.labels + labels && r.name == m.name && r.ns == m.ns)
  {
    if labels != [] {
      var n := |labels| - 1;
      LabelsAdded(m, labels[..n]);
      assert labels == labels[..n] + [labels[n]];
    }
  }

  lemma {:induction false} NameFirst(m: Metric, name: string, labels: seq<Label>)
    ensures AddLabels(m, [Label(NAME_LABEL, name)] + labels) == AddLabels(m.(ns := "", name := name), labels)
  {
    var all := [Label(NAME_LABEL, name)] + labels;
    if labels == [] {
      assert all[..0] == [] && all[0] == Label(NAME_LABEL, name);
    } else {
      var n := |labels| - 1;
      assert all[..|all| - 1] == [Label(NAME_LABEL, name)] + labels[..n];
      NameFirst(m, name, labels[..n]);
    }
  }

  /** One exported series is read back as the metric exactly if the metric survives, and as one metric at most. */
  lemma OneSeries(toDouble: LongToDouble, m: AvroMetric)
    ensures
      var series := SeriesOf(toDouble, m);
      var r := ReadSamples(series, |series.samples|);
      |r| <= 1 && (r == [Expected(toDouble, m)] <==> Survives(m))
  {
    var series := SeriesOf(toDouble, m);
    var labelled := AddLabels(BLANK, series.labels);
    NameFirst(BLANK, Joined(m), m.labels);
    LabelsAdded(BLANK.(name := Joined(m)), m.labels);
    assert AfterSamples(series, 0) == BLANK;
    var r := labelled.(timestamp := m.timestamp, value := Number(toDouble, m.value));
    assert AfterSamples(series, 1) == r;
    assert ReadSamples(series, 0) == [];
    assert ReadSamples(series, 1) == [] + Kept(r);
    assert ReadSamples(series, 1) == Kept(r);
    assert BLANK.labels + m.labels == m.labels;
    assert Kept(r) != [] ==> Kept(r)[0] == r;
    assert r == Expected(toDouble, m) ==> |r.labels| == |m.labels|;
  }

  /** A series of one sample: it becomes one metric under its name label, without a namespace, with its other labels in
      order; the replica label is dropped, and without a name there is no metric. */
  lemma ReadOfOne(name: string, replica: string, labels: seq<Label>, timestamp: int, value: Double)
    requires forall l :: l in labels ==> l.key != "__name__" && l.key != "prometheus_replica"
    ensures
      var sample := [Sample(timestamp, value)];
      var expected := if name != "" then [Metric("", name, labels, timestamp, value)] else [];
      && ReadBack([TimeSeries([Label("__name__", name)] + labels, sample)]) == expected
      && ReadBack([TimeSeries([Label("__name__", name)] + labels + [Label("prometheus_replica", replica)], sample)])
         == expected
      && ReadBack([TimeSeries(labels, sample)]) == []
  {
    var named := [Label("__name__", name)] + labels;
    var copied := named + [Label("prometheus_replica", replica)];
    NameFirst(BLANK, name, labels);
    LabelsAdded(BLANK.(ns := "", name := name), labels);
    LabelsAdded(BLANK, labels);
    assert copied[..|copied| - 1] == named;
    assert [] + labels == labels;
    OneSample(named, timestamp, value);
    OneSample(copied, timestamp, value);
    OneSample(labels, timestamp, value);
  }

  lemma OneSample(labels: seq<Label>, timestamp: int, value: Double)
    ensures ReadBack([TimeSeries(labels, [Sample(timestamp, value)])])
         == Kept(AddLabels(BLANK, labels).(timestamp := timestamp, value := value))
  {
    hide AddLabels, Kept;
    var series := TimeSeries(labels, [Sample(timestamp, value)]);
    assert AfterSamples(series, 0) == BLANK;
    assert ReadSamples(series, 0) == [];
    assert [series][..0] == [] && ReadBack([]) == [];
  }

  /** The metric is not reset between the samples of a series: its labels pile up. */
  lemma LabelsPileUp(name: string, x: Label, timestamp: int, timestamp': int, value: Double, value': Double)
    requires name != "" && x.key != "__name__" && x.key != "prometheus_replica"
    ensures ReadBack([TimeSeries([Label("__name__", name), x], [Sample(timestamp, value), Sample(timestamp', value')])])
         == [Metric("", name, [x], timestamp, value), Metric("", name, [x, x], timestamp', value')]
  {
    var labels := [Label("__name__", name), x];
    var series := TimeSeries(labels, [Sample(timestamp, value), Sample(timestamp', value')]);
    assert labels == [Label("__name__", name)] + [x];
    var m1 := Metric("", name, [x], timestamp, value);
    NameFirst(BLANK, name, [x]);
    LabelsAdded(BLANK.(ns := "", name := name), [x]);
    NameFirst(m1, name, [x]);
    LabelsAdded(m1, [x]);
    hide AddLabels;
    assert AfterSamples(series, 0) == BLANK;
    assert AfterSamples(series, 1) == m1;
    assert AfterSamples(series, 2) == Metric("", name, [x, x], timestamp', value');
    assert ReadSamples(series, 0) == [] && ReadSamples(series, 1) == [m1];
    assert [series][..0] == [] && ReadBack([]) == [];
  }

  lemma {:induction false} ReadAtMost(toDouble: LongToDouble, minTs: int, batch: seq<Option<AvroMetric>>)
    ensures |ReadBack(Export(toDouble, minTs, batch))| <= |ExpectedAll(toDouble, minTs, batch)|
  {
    if batch != [] {
      var n := |batch| - 1;
      ReadAtMost(toDouble, minTs, batch[..n]);
      ReadLast(toDouble, minTs, batch);
      if Exported(toDouble, minTs, batch[n]) {
        OneSeries(toDouble, batch[n].value);
      }
      hide ReadSamples, SeriesOf, ReadBack, Export;
    }
  }

  lemma ReadLast(toDouble: LongToDouble, minTs: int, batch: seq<Option<AvroMetric>>)
    requires batch != []
    ensures
      var n := |batch| - 1;
      ReadBack(Export(toDouble, minTs, batch)) == ReadBack(Export(toDouble, minTs, batch[..n]))
        + if Exported(toDouble, minTs, batch[n])
          then ReadSamples(SeriesOf(toDouble, batch[n].value), |SeriesOf(toDouble, batch[n].value).samples|) else []
  {
    hide ReadSamples, SeriesOf, Exported;
    var n := |batch| - 1;
    var before, all := Export(toDouble, minTs, batch[..n]), Export(toDouble, minTs, batch);
    if Exported(toDouble, minTs, batch[n]) {
      assert all[..|all| - 1] == before;
    } else {
      assert all == before;
    }
  }

  /** A batch written by the exporter and read by the proxy yields, in order, exactly the exported metrics, if and
      only if each of them has a non-empty joined name and no reserved label key. */
  lemma {:induction false} RoundTripExactly(toDouble: LongToDouble, minTs: int, batch: seq<Option<AvroMetric>>)
    ensures ReadBack(Export(toDouble, minTs, batch)) == ExpectedAll(toDouble, minTs, batch)
      <==> forall i :: 0 <= i < |batch| && Exported(toDouble, minTs, batch[i]) ==> Survives(batch[i].value)
  {
    if batch != [] {
      var n := |batch| - 1;
      var before := batch[..n];
      RoundTripExactly(toDouble, minTs, before);
      ReadAtMost(toDouble, minTs, before);
      ReadLast(toDouble, minTs, batch);
      if Exported(toDouble, minTs, batch[n]) {
        OneSeries(toDouble, batch[n].value);
        var series := SeriesOf(toDouble, batch[n].value);
        hide ReadSamples, SeriesOf, ReadBack, Export, Survives, Expected, Exported;
        SameEnds(ReadBack(Export(toDouble, minTs, before)), ReadSamples(series, |series.samples|),
                 ExpectedAll(toDouble, minTs, before), Expected(toDouble, batch[n].value));
      } else {
        hide ReadSamples, SeriesOf, ReadBack, Export, Survives, Expected, Exported;
        assert ReadBack(Export(toDouble, minTs, batch)) == ReadBack(Export(toDouble, minTs, before));
      }
      assert forall i :: 0 <= i < n ==> batch[i] == before[i];
    }
  }

  lemma SameEnds(a: seq<Metric>, b: seq<Metric>, a': seq<Metric>, x: Metric)
    requires |a| <= |a'| && |b| <= 1
    ensures a + b == a' + [x] <==> a == a' && b == [x]
  {
    if a + b == a' + [x] {
      assert |a + b| == |a' + [x]|;
      assert a == (a + b)[..|a|] && a' == (a' + [x])[..|a'|];
      assert b[0] == (a + b)[|a|];
    }
  }

  // ----- the loops

  /** The labels of an exported series: the joined name, and the metric's own. */
  method SeriesLabels(m: AvroMetric) returns (labels: seq<Label>)
    ensures labels == [Label(NAME_LABEL, Joined(m))] + m.labels
    ensures labels == [Label("__name__", if m.ns == "" then m.name else m.ns + "_" + m.name)] + m.labels
  {
    labels := [Label(NAME_LABEL, if m.ns == "" then m.name else m.ns + "_" + m.name)];
    for i := 0 to |m.labels|
      invariant labels == [Label(NAME_LABEL, Joined(m))] + m.labels[..i]
    {
      labels := labels + [m.labels[i]];
    }
    assert m.labels[..|m.labels|] == m.labels;
  }

  /** The three nested loops of the proxy. */
  method ReadRequest(request: seq<TimeSeries>) returns (stream: seq<Metric>)
    ensures stream == ReadBack(request)
  {
    stream := [];
    for i := 0 to |request|
      invariant stream == ReadBack(request[..i])
    {
      assert request[..i + 1][..i] == request[..i];
      var series := request[i];
      var metric := BLANK;
      for j := 0 to |series.samples|
        invariant metric == AfterSamples(series, j)
        invariant stream == ReadBack(request[..i]) + ReadSamples(series, j)
      {
        var sample := series.samples[j];
        ghost var before := metric;
        for k := 0 to |series.labels|
          invariant metric == AddLabels(before, series.labels[..k])
        {
          assert series.labels[..k + 1][..k] == series.labels[..k];
          var l := series.labels[k];
          if l.key == NAME_LABEL {
            metric := metric.(ns := "", name := l.value);
          } else if l.key == REPLICA_LABEL {
          } else {
            metric := metric.(labels := metric.labels + [l]);
          }
        }
        assert series.labels[..|series.labels|] == series.labels;
        metric := metric.(timestamp := sample.timestamp, value := sample.value);
        if metric.name != "" {
          stream := stream + [metric];
        }
      }
    }
    assert request[..|request|] == request;
  }
}
