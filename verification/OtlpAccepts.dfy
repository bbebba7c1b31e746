/** Which bodies the decoder of OpenTelemetry metrics accepts: those of requests, and no others. */
module OtlpAccepts {
  import opened Basics
  import opened Protobuf
  import opened Otlp
  import opened OtlpRoundTrip

  // ---------------------------------------------------------------- points

  lemma {:induction false} StepKeepsKind(p: Point, f: Field)
    ensures PointStep(p, f).Some? ==> PointStep(p, f).value.HistogramPoint? == p.HistogramPoint?
    ensures PointStep(p, f).Some? && f.number in FieldsRead(p) ==> f.payload.Fixed64P?
  {}

  lemma {:induction false} WordsSnoc(fs: seq<Field>, numbers: set<nat>)
    requires fs != [] && Words(fs[..|fs| - 1], numbers)
    requires fs[|fs| - 1].number in numbers ==> fs[|fs| - 1].payload.Fixed64P?
    ensures Words(fs, numbers)
  {
    forall i | 0 <= i < |fs| && fs[i].number in numbers ensures fs[i].payload.Fixed64P? {
      if i < |fs| - 1 {
        assert fs[..|fs| - 1][i] == fs[i];
      }
    }
  }

  /** Fields that fold to a point are words where the decoder reads them. */
  lemma {:induction false} PointFoldMeans(fs: seq<Field>, histogram: bool)
    requires Fold(fs, EmptyPoint(histogram), POINT).Some?
    ensures Words(fs, FieldsRead(EmptyPoint(histogram)))
    ensures Fold(fs, EmptyPoint(histogram), POINT).value.HistogramPoint? == histogram
    decreases |fs|
  {
    if fs != [] {
      FoldSnoc(fs, EmptyPoint(histogram), POINT);
      var front := fs[..|fs| - 1];
      PointFoldMeans(front, histogram);
      StepKeepsKind(Fold(front, EmptyPoint(histogram), POINT).value, fs[|fs| - 1]);
      WordsSnoc(fs, FieldsRead(EmptyPoint(histogram)));
    }
  }

  lemma {:induction false} PointIff(s: seq<byte>, histogram: bool, p: Point)
    ensures PointOf(s, histogram) == Some(p) <==> EncodesPoint(s, p) && p.HistogramPoint? == histogram
  {
    if PointOf(s, histogram) == Some(p) {
      FoldIsRead(s, EmptyPoint(histogram), POINT);
      var fs := FieldsOf(s).value;
      PointFoldMeans(fs, histogram);
      PointIsShown(fs, histogram);
      assert EncodesPointBy(s, p, fs);
    }
    if EncodesPoint(s, p) && p.HistogramPoint? == histogram {
      PointDecodes(s, p);
    }
  }

  // ---------------------------------------------------------------- series

  lemma {:induction false} SeriesStepMeans(before: Series, f: Field, histogram: bool)
    requires SeriesStep(before, f, histogram).Some?
    ensures SeriesField(f)
    ensures
      var after := SeriesStep(before, f, histogram).value;
      if f.number == 1 then
        exists p :: EncodesPoint(f.payload.octets, p) && p.HistogramPoint? == histogram && after.points == before.points + [p]
      else after.points == before.points
  {
    if f.number == 1 {
      var p := PointOf(f.payload.octets, histogram).value;
      PointIff(f.payload.octets, histogram, p);
    }
  }

  lemma {:induction false} PointsSnoc(
      payloads: seq<seq<byte>>, points: seq<Point>, payload: seq<byte>, p: Point, histogram: bool)
    requires EncodesPoints(payloads, points, histogram) && EncodesPoint(payload, p) && p.HistogramPoint? == histogram
    ensures EncodesPoints(payloads + [payload], points + [p], histogram)
  {}

  lemma {:induction false} SeriesFieldsSnoc(fs: seq<Field>)
    requires fs != [] && SeriesFields(fs[..|fs| - 1]) && SeriesField(fs[|fs| - 1])
    ensures SeriesFields(fs)
  {
    forall i | 0 <= i < |fs| ensures SeriesField(fs[i]) {
      if i < |fs| - 1 {
        assert fs[..|fs| - 1][i] == fs[i];
      }
    }
  }

  /** Fields that fold to a series have the wire types the decoder reads, and its points. */
  lemma {:induction false} SeriesFoldMeans(fs: seq<Field>, histogram: bool)
    requires Fold(fs, NO_SERIES, SeriesHandler(histogram)).Some?
    ensures SeriesFields(fs)
    ensures EncodesPoints(Payloads(fs, 1), Fold(fs, NO_SERIES, SeriesHandler(histogram)).value.points, histogram)
    decreases |fs|
  {
    if fs != [] {
      var front, f := fs[..|fs| - 1], fs[|fs| - 1];
      FoldSnoc(fs, NO_SERIES, SeriesHandler(histogram));
      SeriesFoldMeans(front, histogram);
      var before := Fold(front, NO_SERIES, SeriesHandler(histogram)).value;
      SeriesStepMeans(before, f, histogram);
      SeriesFieldsSnoc(fs);
      if f.number == 1 {
        var after := SeriesStep(before, f, histogram).value;
        var p :| EncodesPoint(f.payload.octets, p) && p.HistogramPoint? == histogram && after.points == before.points + [p];
        PointsSnoc(Payloads(front, 1), before.points, f.payload.octets, p, histogram);
      } else {
        assert Payloads(front, 1) + [] == Payloads(front, 1);
      }
    }
  }

  /** Bytes that read as a series are those of the data it is. */
  lemma {:induction false} SeriesEncodes(s: seq<byte>, number: nat)
    requires number in DATA_FIELDS && SeriesOf(s, number == 9).Some?
    ensures
      var d := DataOf(number, SeriesOf(s, number == 9).value);
      EncodesData(s, d) && DataNumber(d) == number
  {
    var histogram := number == 9;
    FoldIsRead(s, NO_SERIES, SeriesHandler(histogram));
    var fs, series := FieldsOf(s).value, SeriesOf(s, histogram).value;
    SeriesFoldMeans(fs, histogram);
    SeriesIsShown(fs, series.points, histogram);
    assert EncodesDataBy(s, DataOf(number, series), fs);
  }

  // ---------------------------------------------------------------- metrics

  lemma {:induction false} MetricStepMeans(d: Draft, f: Field, text: Text)
    requires MetricStep(d, f, text).Some?
    ensures MetricField(f, text)
  {
    if f.number in DATA_FIELDS {
      SeriesEncodes(f.payload.octets, f.number);
    }
  }

  lemma {:induction false} MetricFieldsSnoc(fs: seq<Field>, text: Text)
    requires fs != [] && MetricFields(fs[..|fs| - 1], text) && MetricField(fs[|fs| - 1], text)
    ensures MetricFields(fs, text)
  {
    forall i | 0 <= i < |fs| ensures MetricField(fs[i], text) {
      if i < |fs| - 1 {
        assert fs[..|fs| - 1][i] == fs[i];
      }
    }
  }

  lemma {:induction false} DraftFoldMeans(fs: seq<Field>, text: Text)
    requires Fold(fs, Draft("", None), MetricHandler(text)).Some?
    ensures MetricFields(fs, text)
    decreases |fs|
  {
    if fs != [] {
      var front, f := fs[..|fs| - 1], fs[|fs| - 1];
      FoldSnoc(fs, Draft("", None), MetricHandler(text));
      DraftFoldMeans(front, text);
      MetricStepMeans(Fold(front, Draft("", None), MetricHandler(text)).value, f, text);
      MetricFieldsSnoc(fs, text);
    }
  }

  /** Bytes that read as a metric are those of a name and of data. */
  lemma {:induction false} DraftEncodes(s: seq<byte>, text: Text) returns (d: Draft)
    requires MetricOf(s, text).Some?
    ensures EncodesDraft(s, d, text) && MetricOf(s, text) == Some(Finished(d))
  {
    FoldIsRead(s, Draft("", None), MetricHandler(text));
    var fs := FieldsOf(s).value;
    d := Fold(fs, Draft("", None), MetricHandler(text)).value;
    DraftFoldMeans(fs, text);
    DraftIsShown(fs, text);
    assert EncodesDraftBy(s, d, text, fs);
  }

  // ---------------------------------------------------------------- messages that collect metrics

  /** A decoder that adds, for every field of a number, the metrics of its payload. */
  ghost predicate Gathers(step: (seq<Metric>, Field) -> Option<seq<Metric>>, number: nat, part: seq<byte> -> Option<seq<Metric>>) {
    forall ms, f: Field :: step(ms, f) == Gathered(ms, f, number, part)
  }

  function Gathered(ms: seq<Metric>, f: Field, number: nat, part: seq<byte> -> Option<seq<Metric>>): Option<seq<Metric>> {
    if f.number != number then Some(ms)
    else if !f.payload.BytesP? then None
    else match part(f.payload.octets)
      case None => None
      case Some(more) => Some(ms + more)
  }

  ghost predicate PartsAre(payloads: seq<seq<byte>>, parts: seq<seq<Metric>>, part: seq<byte> -> Option<seq<Metric>>) {
    |parts| == |payloads| && forall i :: 0 <= i < |parts| ==> part(payloads[i]) == Some(parts[i])
  }

  lemma {:induction false} PartsCons(
      payload: seq<byte>, more: seq<Metric>, payloads: seq<seq<byte>>, parts: seq<seq<Metric>>,
      part: seq<byte> -> Option<seq<Metric>>)
    requires PartsAre(payloads, parts, part) && part(payload) == Some(more)
    ensures PartsAre([payload] + payloads, [more] + parts, part)
    ensures Flatten([more] + parts) == more + Flatten(parts)
  {
    assert ([more] + parts)[1..] == parts;
  }

  lemma {:induction false} WrappedCons(number: nat, payload: seq<byte>, payloads: seq<seq<byte>>)
    ensures Wrapped(number, [payload] + payloads) == [Field(number, BytesP(payload))] + Wrapped(number, payloads)
  {
    assert ([payload] + payloads)[1..] == payloads;
  }

  /** What such a decoder accepts: payloads that all are read, whose metrics it adds up. */
  lemma {:induction false} GatherFold(
      fs: seq<Field>, number: nat, before: seq<Metric>, step: (seq<Metric>, Field) -> Option<seq<Metric>>,
      part: seq<byte> -> Option<seq<Metric>>)
    returns (payloads: seq<seq<byte>>, parts: seq<seq<Metric>>)
    requires Gathers(step, number, part) && Fold(fs, before, step).Some?
    ensures Known(fs, {number}) == Wrapped(number, payloads) && PartsAre(payloads, parts, part)
    ensures Fold(fs, before, step) == Some(before + Flatten(parts))
    decreases |fs|
  {
    payloads, parts := [], [];
    if fs == [] {
      assert before + [] == before;
    } else {
      var f := fs[0];
      assert step(before, f) == Gathered(before, f, number, part);
      var next := step(before, f).value;
      payloads, parts := GatherFold(fs[1..], number, next, step, part);
      if f.number == number {
        var more := part(f.payload.octets).value;
        WrappedCons(number, f.payload.octets, payloads);
        PartsCons(f.payload.octets, more, payloads, parts, part);
        Assoc(before, more, Flatten(parts));
        payloads, parts := [f.payload.octets] + payloads, [more] + parts;
      } else {
        assert [] + Known(fs[1..], {number}) == Known(fs[1..], {number});
      }
    }
  }

  lemma {:induction false} GatherMeans(
      s: seq<byte>, number: nat, before: seq<Metric>, step: (seq<Metric>, Field) -> Option<seq<Metric>>,
      part: seq<byte> -> Option<seq<Metric>>)
    returns (payloads: seq<seq<byte>>, parts: seq<seq<Metric>>)
    requires Gathers(step, number, part) && FoldFields(s, before, step).Some?
    ensures Carries(s, {number}, Wrapped(number, payloads)) && PartsAre(payloads, parts, part)
    ensures FoldFields(s, before, step) == Some(before + Flatten(parts))
  {
    FoldIsRead(s, before, step);
    var fs := FieldsOf(s).value;
    payloads, parts := GatherFold(fs, number, before, step, part);
    assert CarriedBy(s, fs, {number}, Wrapped(number, payloads));
  }

  // ---------------------------------------------------------------- requests

  function MetricPart(text: Text): seq<byte> -> Option<seq<Metric>> {
    (s: seq<byte>) => MetricOf(s, text)
  }

  function ScopePart(text: Text): seq<byte> -> Option<seq<Metric>> {
    (s: seq<byte>) => FoldFields(s, [], ScopeHandler(text))
  }

  function ResourcePart(text: Text): seq<byte> -> Option<seq<Metric>> {
    (s: seq<byte>) => FoldFields(s, [], ResourceHandler(text))
  }

  lemma {:induction false} ScopeGathers(text: Text)
    ensures Gathers(ScopeHandler(text), 2, MetricPart(text))
  {}

  /** What a decoder had gathered before stays in front. */
  lemma {:induction false} FoldInFront(
      fs: seq<Field>, number: nat, before: seq<Metric>, more: seq<Metric>,
      step: (seq<Metric>, Field) -> Option<seq<Metric>>, part: seq<byte> -> Option<seq<Metric>>)
    requires Gathers(step, number, part)
    ensures Fold(fs, before + more, step)
         == (match Fold(fs, more, step) case None => None case Some(ms) => Some(before + ms))
    decreases |fs|
  {
    if fs != [] {
      var f := fs[0];
      assert step(before + more, f) == Gathered(before + more, f, number, part);
      assert step(more, f) == Gathered(more, f, number, part);
      if step(more, f).Some? {
        if f.number == number {
          Assoc(before, more, part(f.payload.octets).value);
        }
        FoldInFront(fs[1..], number, before, step(more, f).value, step, part);
      }
    }
  }

  lemma {:induction false} ReadInFront(
      s: seq<byte>, number: nat, before: seq<Metric>, step: (seq<Metric>, Field) -> Option<seq<Metric>>,
      part: seq<byte> -> Option<seq<Metric>>)
    requires Gathers(step, number, part)
    ensures FoldFields(s, before, step)
         == (match FoldFields(s, [], step) case None => None case Some(ms) => Some(before + ms))
  {
    FoldIsRead(s, before, step);
    FoldIsRead(s, [], step);
    assert before + [] == before;
    if FieldsOf(s).Some? {
      FoldInFront(FieldsOf(s).value, number, before, [], step, part);
    }
  }

  lemma {:induction false} ResourceGathers(text: Text)
    ensures Gathers(ResourceHandler(text), 2, ScopePart(text))
  {
    ScopeGathers(text);
    var step, part := ResourceHandler(text), ScopePart(text);
    forall ms, f: Field ensures step(ms, f) == Gathered(ms, f, 2, part) {
      if f.number == 2 && f.payload.BytesP? {
        ReadInFront(f.payload.octets, 2, ms, ScopeHandler(text), MetricPart(text));
      }
    }
  }

  lemma {:induction false} RequestGathers(text: Text)
    ensures Gathers(RequestHandler(text), 1, ResourcePart(text))
  {
    ResourceGathers(text);
    var step, part := RequestHandler(text), ResourcePart(text);
    forall ms, f: Field ensures step(ms, f) == Gathered(ms, f, 1, part) {
      if f.number == 1 && f.payload.BytesP? {
        ReadInFront(f.payload.octets, 2, ms, ResourceHandler(text), ScopePart(text));
      }
    }
  }

  lemma {:induction false} DraftsCons(payload: seq<byte>, d: Draft, payloads: seq<seq<byte>>, drafts: seq<Draft>, text: Text)
    requires EncodesDraft(payload, d, text) && EncodesDrafts(payloads, drafts, text)
    ensures EncodesDrafts([payload] + payloads, [d] + drafts, text)
  {}

  lemma {:induction false} CompleteCons(d: Draft, drafts: seq<Draft>)
    ensures Complete([d] + drafts) == [Finished(d)] + Complete(drafts)
  {}

  lemma {:induction false} PartsRest(payloads: seq<seq<byte>>, parts: seq<seq<Metric>>, part: seq<byte> -> Option<seq<Metric>>)
    requires PartsAre(payloads, parts, part) && payloads != []
    ensures part(payloads[0]) == Some(parts[0]) && PartsAre(payloads[1..], parts[1..], part)
    ensures payloads == [payloads[0]] + payloads[1..] && parts == [parts[0]] + parts[1..]
  {}

  lemma {:induction false} DraftsEncode(payloads: seq<seq<byte>>, parts: seq<seq<Metric>>, text: Text) returns (drafts: seq<Draft>)
    requires PartsAre(payloads, parts, MetricPart(text))
    ensures EncodesDrafts(payloads, drafts, text) && Complete(drafts) == parts
    decreases |payloads|
  {
    if payloads == [] {
      drafts := [];
    } else {
      PartsRest(payloads, parts, MetricPart(text));
      var rest := DraftsEncode(payloads[1..], parts[1..], text);
      var d := DraftEncodes(payloads[0], text);
      DraftsCons(payloads[0], d, payloads[1..], rest, text);
      CompleteCons(d, rest);
      drafts := [d] + rest;
    }
  }

  lemma {:induction false} ScopeEncodes(s: seq<byte>, ms: seq<Metric>, text: Text)
    requires ScopePart(text)(s) == Some(ms)
    ensures EncodesScope(s, ms, text)
  {
    ScopeGathers(text);
    var payloads, parts := GatherMeans(s, 2, [], ScopeHandler(text), MetricPart(text));
    var drafts := DraftsEncode(payloads, parts, text);
    assert [] + Flatten(parts) == Flatten(parts);
    assert EncodesScopeBy(s, ms, text, payloads, drafts);
  }

  lemma {:induction false} ResourceEncodes(s: seq<byte>, text: Text) returns (scopes: seq<seq<Metric>>)
    requires ResourcePart(text)(s).Some?
    ensures EncodesResource(s, scopes, text) && ResourcePart(text)(s) == Some(Flatten(scopes))
  {
    ResourceGathers(text);
    var payloads;
    payloads, scopes := GatherMeans(s, 2, [], ResourceHandler(text), ScopePart(text));
    assert [] + Flatten(scopes) == Flatten(scopes);
    forall i | 0 <= i < |scopes| ensures EncodesScope(payloads[i], scopes[i], text) {
      ScopeEncodes(payloads[i], scopes[i], text);
    }
    assert EncodesResourceBy(s, scopes, text, payloads);
  }

  lemma {:induction false} ResourcesEncode(payloads: seq<seq<byte>>, parts: seq<seq<Metric>>, text: Text)
    returns (resources: seq<seq<seq<Metric>>>)
    requires PartsAre(payloads, parts, ResourcePart(text))
    ensures EncodesResources(payloads, resources, text) && Flatten(parts) == Flatten(Flatten(resources))
    decreases |payloads|
  {
    if payloads == [] {
      resources := [];
    } else {
      PartsRest(payloads, parts, ResourcePart(text));
      var rest := ResourcesEncode(payloads[1..], parts[1..], text);
      var scopes := ResourceEncodes(payloads[0], text);
      resources := [scopes] + rest;
      assert resources[1..] == rest;
      FlattenConcat(scopes, Flatten(rest));
    }
  }

  lemma {:induction false} RequestEncodes(s: seq<byte>, text: Text) returns (resources: seq<seq<seq<Metric>>>)
    requires Decode(s, text).Some?
    ensures EncodesRequest(s, resources, text)
  {
    RequestGathers(text);
    var payloads, parts := GatherMeans(s, 1, [], RequestHandler(text), ResourcePart(text));
    resources := ResourcesEncode(payloads, parts, text);
    assert EncodesRequestBy(s, resources, text, payloads);
  }

  /** Any body: it decodes to these metrics exactly when it is a request whose complete metrics they are. */
  lemma {:induction false} DecodesIff(s: seq<byte>, ms: seq<Metric>, text: Text)
    ensures Decode(s, text) == Some(ms)
      <==> exists resources :: EncodesRequest(s, resources, text) && Flatten(Flatten(resources)) == ms
  {
    if Decode(s, text) == Some(ms) {
      var resources := RequestEncodes(s, text);
      DecodeInverts(s, resources, text);
    }
    if resources :| EncodesRequest(s, resources, text) && Flatten(Flatten(resources)) == ms {
      DecodeInverts(s, resources, text);
    }
  }
}
