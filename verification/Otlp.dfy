/**
 The OpenTelemetry metrics decoder of console/src/lib/otlp.ts. `text` stands for the strict UTF-8 decoder;
 a double is kept as its 64 bits. `None` is an `OtlpError`.
 */
module Otlp {
  import opened Basics
  import opened Protobuf

  datatype Value = Double(bits: nat) | Whole(i: int)

  datatype Point =
    | NumberPoint(startNs: nat, timeNs: nat, value: Value)
    | HistogramPoint(startNs: nat, timeNs: nat, count: nat, sum: Value)

  datatype Temporality = Unspecified | Delta | Cumulative

  datatype Series = Series(points: seq<Point>, temporality: Temporality, monotonic: bool)

  datatype Data =
    | Gauge(points: seq<Point>)
    | Sum(points: seq<Point>, temporality: Temporality, monotonic: bool)
    | Histogram(points: seq<Point>, temporality: Temporality)

  datatype Metric = Metric(name: string, data: Data)

  /** A metric while its fields are read. */
  datatype Draft = Draft(name: string, data: Option<Data>)

  type Text = seq<byte> -> Option<string>

  // ---------------------------------------------------------------- points

  /** `BigInt.asIntN(64, …)`, then `Number`. */
  function SignedNumber(v: nat): int {
    if v < 0x8000_0000_0000_0000 then Number(v)
    else if v >= 0x1_0000_0000_0000_0000 then 0
    else
      var n: int := Number(0x1_0000_0000_0000_0000 - v);
      -n
  }

  function Fixed(f: Field): Option<nat> {
    if f.payload.Fixed64P? then Some(LittleEndian(f.payload.octets)) else None
  }

  const NUMBER_FIELDS: set<nat> := {2, 3, 4, 6}
  const HISTOGRAM_FIELDS: set<nat> := {2, 3, 4, 5}

  function FieldsRead(p: Point): set<nat> {
    if p.NumberPoint? then NUMBER_FIELDS else HISTOGRAM_FIELDS
  }

  function PointStep(p: Point, f: Field): Option<Point> {
    if f.number !in FieldsRead(p) then Some(p)
    else if Fixed(f).None? then None
    else
      var v := Fixed(f).value;
      match p
      case NumberPoint(start, time, value) =>
        (match f.number
         case 2 => Some(NumberPoint(v, time, value))
         case 3 => Some(NumberPoint(start, v, value))
         case 4 => Some(NumberPoint(start, time, Double(v)))
         case _ => Some(NumberPoint(start, time, Whole(SignedNumber(v)))))
      case HistogramPoint(start, time, count, sum) =>
        (match f.number
         case 2 => Some(HistogramPoint(v, time, count, sum))
         case 3 => Some(HistogramPoint(start, v, count, sum))
         case 4 => Some(HistogramPoint(start, time, Number(v), sum))
         case _ => Some(HistogramPoint(start, time, count, Double(v))))
  }

  const POINT := (p: Point, f: Field) => PointStep(p, f)

  function EmptyPoint(histogram: bool): Point {
    if histogram then HistogramPoint(0, 0, 0, Whole(0)) else NumberPoint(0, 0, Whole(0))
  }

  function PointOf(s: seq<byte>, histogram: bool): Option<Point> {
    FoldFields(s, EmptyPoint(histogram), POINT)
  }

  // ---------------------------------------------------------------- series and metrics

  function TemporalityOf(v: nat): Temporality {
    match Number(v)
    case 1 => Delta
    case 2 => Cumulative
    case _ => Unspecified
  }

  function SeriesStep(s: Series, f: Field, histogram: bool): Option<Series> {
    match f.number
    case 1 =>
      if !f.payload.BytesP? then None
      else
        (match PointOf(f.payload.octets, histogram)
         case None => None
         case Some(p) => Some(Series(s.points + [p], s.temporality, s.monotonic)))
    case 2 =>
      if !f.payload.VarintP? then None else Some(Series(s.points, TemporalityOf(f.payload.value), s.monotonic))
    case 3 =>
      if !f.payload.VarintP? then None else Some(Series(s.points, s.temporality, f.payload.value != 0))
    case _ => Some(s)
  }

  function SeriesHandler(histogram: bool): (Series, Field) -> Option<Series> {
    (s: Series, f: Field) => SeriesStep(s, f, histogram)
  }

  const NO_SERIES := Series([], Unspecified, false)

  function SeriesOf(s: seq<byte>, histogram: bool): Option<Series> {
    FoldFields(s, NO_SERIES, SeriesHandler(histogram))
  }

  const METRIC_FIELDS: set<nat> := {1, 5, 7, 9}

  /** The data a field of a metric holds, by its number. */
  function DataOf(number: nat, s: Series): Data {
    match number
    case 5 => Gauge(s.points)
    case 7 => Sum(s.points, s.temporality, s.monotonic)
    case _ => Histogram(s.points, s.temporality)
  }

  function MetricStep(d: Draft, f: Field, text: Text): Option<Draft> {
    if f.number !in METRIC_FIELDS then Some(d)
    else if !f.payload.BytesP? then None
    else if f.number == 1 then
      (match text(f.payload.octets)
       case None => None
       case Some(name) => Some(Draft(name, d.data)))
    else
      (match SeriesOf(f.payload.octets, f.number == 9)
       case None => None
       case Some(s) => Some(Draft(d.name, Some(DataOf(f.number, s)))))
  }

  function MetricHandler(text: Text): (Draft, Field) -> Option<Draft> {
    (d: Draft, f: Field) => MetricStep(d, f, text)
  }

  /** A metric without a name, or of a kind that is not stored, is no metric. */
  function Finished(d: Draft): seq<Metric> {
    if d.data.Some? && d.name != "" then [Metric(d.name, d.data.value)] else []
  }

  function MetricOf(s: seq<byte>, text: Text): Option<seq<Metric>> {
    match FoldFields(s, Draft("", None), MetricHandler(text))
    case None => None
    case Some(d) => Some(Finished(d))
  }

  // ---------------------------------------------------------------- requests

  const SCOPE_FIELDS: set<nat> := {2}
  const REQUEST_FIELDS: set<nat> := {1}

  function ScopeStep(ms: seq<Metric>, f: Field, text: Text): Option<seq<Metric>> {
    if f.number != 2 then Some(ms)
    else if !f.payload.BytesP? then None
    else
      (match MetricOf(f.payload.octets, text)
       case None => None
       case Some(more) => Some(ms + more))
  }

  function ScopeHandler(text: Text): (seq<Metric>, Field) -> Option<seq<Metric>> {
    (ms: seq<Metric>, f: Field) => ScopeStep(ms, f, text)
  }

  function ResourceStep(ms: seq<Metric>, f: Field, text: Text): Option<seq<Metric>> {
    if f.number != 2 then Some(ms)
    else if !f.payload.BytesP? then None
    else FoldFields(f.payload.octets, ms, ScopeHandler(text))
  }

  function ResourceHandler(text: Text): (seq<Metric>, Field) -> Option<seq<Metric>> {
    (ms: seq<Metric>, f: Field) => ResourceStep(ms, f, text)
  }

  function RequestStep(ms: seq<Metric>, f: Field, text: Text): Option<seq<Metric>> {
    if f.number != 1 then Some(ms)
    else if !f.payload.BytesP? then None
    else FoldFields(f.payload.octets, ms, ResourceHandler(text))
  }

  function RequestHandler(text: Text): (seq<Metric>, Field) -> Option<seq<Metric>> {
    (ms: seq<Metric>, f: Field) => RequestStep(ms, f, text)
  }

  function Decode(body: seq<byte>, text: Text): Option<seq<Metric>> {
    FoldFields(body, [], RequestHandler(text))
  }

  // ---------------------------------------------------------------- the decoders

  method ReadPoint(bytes: seq<byte>, histogram: bool) returns (r: Option<Point>)
    ensures r == PointOf(bytes, histogram)
  {
    var reader := new Reader(bytes);
    var point := EmptyPoint(histogram);
    ghost var step := POINT;
    while reader.offset < |bytes|
      invariant reader.bytes == bytes && reader.Valid()
      invariant FoldFields(reader.Rest(), point, step) == PointOf(bytes, histogram)
      decreases |bytes| - reader.offset
    {
      var f := reader.NextField();
      if f.None? {
        return None;
      }
      var next := PointStep(point, f.value);
      if next.None? {
        return None;
      }
      point := next.value;
    }
    return Some(point);
  }

  method OnSeriesField(s: Series, f: Field, histogram: bool) returns (r: Option<Series>)
    ensures r == SeriesHandler(histogram)(s, f)
  {
    match f.number
    case 1 =>
      if !f.payload.BytesP? {
        return None;
      }
      var point := ReadPoint(f.payload.octets, histogram);
      r := if point.None? then None else Some(Series(s.points + [point.value], s.temporality, s.monotonic));
    case 2 =>
      if !f.payload.VarintP? {
        return None;
      }
      r := Some(Series(s.points, TemporalityOf(f.payload.value), s.monotonic));
    case 3 =>
      if !f.payload.VarintP? {
        return None;
      }
      r := Some(Series(s.points, s.temporality, f.payload.value != 0));
    case _ =>
      r := Some(s);
  }

  method ReadSeries(bytes: seq<byte>, histogram: bool) returns (r: Option<Series>)
    ensures r == SeriesOf(bytes, histogram)
  {
    var reader := new Reader(bytes);
    var series := NO_SERIES;
    ghost var step := SeriesHandler(histogram);
    while reader.offset < |bytes|
      invariant reader.bytes == bytes && reader.Valid()
      invariant FoldFields(reader.Rest(), series, step) == SeriesOf(bytes, histogram)
      decreases |bytes| - reader.offset
    {
      var f := reader.NextField();
      if f.None? {
        return None;
      }
      var next := OnSeriesField(series, f.value, histogram);
      if next.None? {
        return None;
      }
      series := next.value;
    }
    return Some(series);
  }

  method OnMetricField(d: Draft, f: Field, text: Text) returns (r: Option<Draft>)
    ensures r == MetricHandler(text)(d, f)
  {
    if f.number !in METRIC_FIELDS {
      return Some(d);
    }
    if !f.payload.BytesP? {
      return None;
    }
    if f.number == 1 {
      var name := text(f.payload.octets);
      r := if name.None? then None else Some(Draft(name.value, d.data));
    } else {
      var series := ReadSeries(f.payload.octets, f.number == 9);
      r := if series.None? then None else Some(Draft(d.name, Some(DataOf(f.number, series.value))));
    }
  }

  method ReadDraft(bytes: seq<byte>, text: Text) returns (r: Option<Draft>)
    ensures r == FoldFields(bytes, Draft("", None), MetricHandler(text))
  {
    var reader := new Reader(bytes);
    var draft := Draft("", None);
    ghost var step := MetricHandler(text);
    while reader.offset < |bytes|
      invariant reader.bytes == bytes && reader.Valid()
      invariant FoldFields(reader.Rest(), draft, step) == FoldFields(bytes, Draft("", None), MetricHandler(text))
      decreases |bytes| - reader.offset
    {
      var f := reader.NextField();
      if f.None? {
        return None;
      }
      var next := OnMetricField(draft, f.value, text);
      if next.None? {
        return None;
      }
      draft := next.value;
    }
    return Some(draft);
  }

  method ReadMetric(bytes: seq<byte>, text: Text) returns (r: Option<seq<Metric>>)
    ensures r == MetricOf(bytes, text)
  {
    var draft := ReadDraft(bytes, text);
    r := if draft.None? then None else Some(Finished(draft.value));
  }

  method OnScopeField(ms: seq<Metric>, f: Field, text: Text) returns (r: Option<seq<Metric>>)
    ensures r == ScopeHandler(text)(ms, f)
  {
    if f.number != 2 {
      return Some(ms);
    }
    if !f.payload.BytesP? {
      return None;
    }
    var more := ReadMetric(f.payload.octets, text);
    r := if more.None? then None else Some(ms + more.value);
  }

  method ReadScope(bytes: seq<byte>, metrics: seq<Metric>, text: Text) returns (r: Option<seq<Metric>>)
    ensures r == FoldFields(bytes, metrics, ScopeHandler(text))
  {
    var reader := new Reader(bytes);
    var ms := metrics;
    ghost var step := ScopeHandler(text);
    while reader.offset < |bytes|
      invariant reader.bytes == bytes && reader.Valid()
      invariant FoldFields(reader.Rest(), ms, step) == FoldFields(bytes, metrics, ScopeHandler(text))
      decreases |bytes| - reader.offset
    {
      var f := reader.NextField();
      if f.None? {
        return None;
      }
      var next := OnScopeField(ms, f.value, text);
      if next.None? {
        return None;
      }
      ms := next.value;
    }
    return Some(ms);
  }

  method OnResourceField(ms: seq<Metric>, f: Field, text: Text) returns (r: Option<seq<Metric>>)
    ensures r == ResourceHandler(text)(ms, f)
  {
    if f.number != 2 {
      return Some(ms);
    }
    if !f.payload.BytesP? {
      return None;
    }
    r := ReadScope(f.payload.octets, ms, text);
  }

  method ReadResource(bytes: seq<byte>, metrics: seq<Metric>, text: Text) returns (r: Option<seq<Metric>>)
    ensures r == FoldFields(bytes, metrics, ResourceHandler(text))
  {
    var reader := new Reader(bytes);
    var ms := metrics;
    ghost var step := ResourceHandler(text);
    while reader.offset < |bytes|
      invariant reader.bytes == bytes && reader.Valid()
      invariant FoldFields(reader.Rest(), ms, step) == FoldFields(bytes, metrics, ResourceHandler(text))
      decreases |bytes| - reader.offset
    {
      var f := reader.NextField();
      if f.None? {
        return None;
      }
      var next := OnResourceField(ms, f.value, text);
      if next.None? {
        return None;
      }
      ms := next.value;
    }
    return Some(ms);
  }

  method OnRequestField(ms: seq<Metric>, f: Field, text: Text) returns (r: Option<seq<Metric>>)
    ensures r == RequestHandler(text)(ms, f)
  {
    if f.number != 1 {
      return Some(ms);
    }
    if !f.payload.BytesP? {
      return None;
    }
    r := ReadResource(f.payload.octets, ms, text);
  }

  /** `decodeMetricsRequest`: every metric of the request, in the order sent. */
  method DecodeMetricsRequest(bytes: seq<byte>, text: Text) returns (r: Option<seq<Metric>>)
    ensures r == Decode(bytes, text)
  {
    var reader := new Reader(bytes);
    var ms: seq<Metric> := [];
    ghost var step := RequestHandler(text);
    while reader.offset < |bytes|
      invariant reader.bytes == bytes && reader.Valid()
      invariant FoldFields(reader.Rest(), ms, step) == Decode(bytes, text)
      decreases |bytes| - reader.offset
    {
      var f := reader.NextField();
      if f.None? {
        return None;
      }
      var next := OnRequestField(ms, f.value, text);
      if next.None? {
        return None;
      }
      ms := next.value;
    }
    return Some(ms);
  }
}
