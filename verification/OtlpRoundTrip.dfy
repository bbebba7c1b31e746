/**
 What the decoder makes of requests: any nesting of resources, scopes and metrics comes back whole. At every
 level fields may stand in any order, more than once or not at all, and fields the decoder does not read may
 stand anywhere.
 */
module OtlpRoundTrip {
  import opened Arithmetic
  import opened Basics
  import opened Protobuf
  import opened Otlp

  /** Bytes whose fields, but for others the decoder does not read, are these. */
  ghost predicate Carries(s: seq<byte>, numbers: set<nat>, known: seq<Field>) {
    exists fs :: CarriedBy(s, fs, numbers, known)
  }

  ghost predicate CarriedBy(s: seq<byte>, fs: seq<Field>, numbers: set<nat>, known: seq<Field>) {
    FieldsOf(s) == Some(fs) && Known(fs, numbers) == known
  }

  lemma {:induction false} CarriedFold<S(!new)>(
      s: seq<byte>, numbers: set<nat>, known: seq<Field>, state: S, step: (S, Field) -> Option<S>)
    requires Carries(s, numbers, known) && Ignores(step, numbers)
    ensures FoldFields(s, state, step) == Fold(known, state, step)
  {
    var fs :| CarriedBy(s, fs, numbers, known);
    FoldIsRead(s, state, step);
    UnknownFieldsPass(fs, state, step, numbers);
  }

  lemma {:induction false} FoldCons<S>(f: Field, fs: seq<Field>, state: S, step: (S, Field) -> Option<S>)
    ensures Fold([f] + fs, state, step)
         == (match step(state, f) case None => None case Some(next) => Fold(fs, next, step))
  {
    assert ([f] + fs)[1..] == fs;
  }

  /** Bytes that are these fields. */
  predicate Written(s: seq<byte>, fs: seq<Field>) {
    FieldsOf(s) == Some(fs)
  }

  /** The last field with one of these numbers: the one that counts where a field is read once. */
  function LastOf(fs: seq<Field>, numbers: set<nat>): Option<Field> {
    if fs == [] then None
    else if fs[|fs| - 1].number in numbers then Some(fs[|fs| - 1])
    else LastOf(fs[..|fs| - 1], numbers)
  }

  lemma {:induction false} LastMeans(fs: seq<Field>, numbers: set<nat>)
    ensures LastOf(fs, numbers).Some? ==> LastOf(fs, numbers).value in fs && LastOf(fs, numbers).value.number in numbers
    ensures LastOf(fs, numbers).None? ==> forall f :: f in fs ==> f.number !in numbers
    decreases |fs|
  {
    if fs != [] {
      LastMeans(fs[..|fs| - 1], numbers);
      assert fs == fs[..|fs| - 1] + [fs[|fs| - 1]];
    }
  }

  lemma {:induction false} LastConcat(a: seq<Field>, b: seq<Field>, numbers: set<nat>)
    ensures LastOf(a + b, numbers) == if LastOf(b, numbers).Some? then LastOf(b, numbers) else LastOf(a, numbers)
    decreases |b|
  {
    if b == [] {
      assert a + b == a;
    } else {
      assert (a + b)[..|a + b| - 1] == a + b[..|b| - 1];
      LastConcat(a, b[..|b| - 1], numbers);
    }
  }

  lemma {:induction false} LastSingle(f: Field, numbers: set<nat>)
    ensures LastOf([f], numbers) == if f.number in numbers then Some(f) else None
  {
    assert [f][..0] == [];
  }

  lemma {:induction false} FoldSnoc<S>(fs: seq<Field>, state: S, step: (S, Field) -> Option<S>)
    requires fs != []
    ensures
      var before := Fold(fs[..|fs| - 1], state, step);
      Fold(fs, state, step) == if before.None? then None else step(before.value, fs[|fs| - 1])
  {
    var front, last := fs[..|fs| - 1], fs[|fs| - 1];
    assert fs == front + [last];
    FoldConcat(front, [last], state, step);
    if Fold(front, state, step).Some? {
      var s := Fold(front, state, step).value;
      FoldCons(last, [], s, step);
      assert [last] + [] == [last];
    }
  }

  // ---------------------------------------------------------------- points

  function Word(number: nat, v: nat): Field {
    Field(number, Fixed64P(Octets(v, 8)))
  }

  function Complement(i: int): nat
    requires -SAFE <= i <= SAFE
  {
    if i >= 0 then i else 0x1_0000_0000_0000_0000 + i
  }

  predicate ValueOk(v: Value) {
    match v
    case Double(bits) => bits < 0x1_0000_0000_0000_0000
    case Whole(i) => -SAFE <= i <= SAFE
  }

  /** Points that protobuf can hold, with integers a double holds exactly. */
  predicate PointOk(p: Point) {
    && p.startNs < 0x1_0000_0000_0000_0000 && p.timeNs < 0x1_0000_0000_0000_0000
    && match p
       case NumberPoint(_, _, value) => ValueOk(value)
       case HistogramPoint(_, _, count, sum) => count <= SAFE && sum.Double? && ValueOk(sum)
  }

  function ValueField(v: Value): Field
    requires ValueOk(v)
  {
    match v
    case Double(bits) => Word(4, bits)
    case Whole(i) => Word(6, Complement(i))
  }

  function PointFields(p: Point): seq<Field>
    requires PointOk(p)
  {
    match p
    case NumberPoint(start, time, value) => [Word(2, start)] + ([Word(3, time)] + ([ValueField(value)] + []))
    case HistogramPoint(start, time, count, sum) =>
      [Word(2, start)] + ([Word(3, time)] + ([Word(4, count)] + ([Word(5, sum.bits)] + [])))
  }

  /** The number a field holds, none being zero. */
  function WordAt(f: Option<Field>): nat {
    if f.Some? && f.value.payload.Fixed64P? then LittleEndian(f.value.payload.octets) else 0
  }

  function ValueAt(f: Option<Field>): Value {
    if f.None? then Whole(0)
    else if f.value.number == 4 then Double(WordAt(f))
    else Whole(SignedNumber(WordAt(f)))
  }

  /** The point that fields tell: each part by the last field for it. */
  function ShownPoint(fs: seq<Field>, histogram: bool): Point {
    var start, time := WordAt(LastOf(fs, {2})), WordAt(LastOf(fs, {3}));
    if histogram then
      var sum := LastOf(fs, {5});
      HistogramPoint(start, time, Number(WordAt(LastOf(fs, {4}))), if sum.None? then Whole(0) else Double(WordAt(sum)))
    else NumberPoint(start, time, ValueAt(LastOf(fs, {4, 6})))
  }

  ghost predicate Words(fs: seq<Field>, numbers: set<nat>) {
    forall i :: 0 <= i < |fs| && fs[i].number in numbers ==> fs[i].payload.Fixed64P?
  }

  ghost predicate EncodesPointBy(s: seq<byte>, p: Point, fs: seq<Field>) {
    Written(s, fs) && Words(fs, FieldsRead(p)) && p == ShownPoint(fs, p.HistogramPoint?)
  }

  ghost predicate EncodesPoint(s: seq<byte>, p: Point) {
    exists fs :: EncodesPointBy(s, p, fs)
  }

  lemma {:induction false} ShownStep(fs: seq<Field>, histogram: bool)
    requires fs != [] && Words(fs, FieldsRead(EmptyPoint(histogram)))
    ensures PointStep(ShownPoint(fs[..|fs| - 1], histogram), fs[|fs| - 1]) == Some(ShownPoint(fs, histogram))
  {}

  /** Reading fields one by one gives the point they tell. */
  lemma {:induction false} PointIsShown(fs: seq<Field>, histogram: bool)
    requires Words(fs, FieldsRead(EmptyPoint(histogram)))
    ensures Fold(fs, EmptyPoint(histogram), POINT) == Some(ShownPoint(fs, histogram))
    decreases |fs|
  {
    if fs != [] {
      PointIsShown(fs[..|fs| - 1], histogram);
      ShownStep(fs, histogram);
      FoldSnoc(fs, EmptyPoint(histogram), POINT);
    }
  }

  lemma {:induction false} WordReads(number: nat, v: nat)
    requires v < 0x1_0000_0000_0000_0000
    ensures Fixed(Word(number, v)) == Some(v)
  {
    EightOctets(v);
  }

  lemma {:induction false} SignedReads(i: int)
    requires -SAFE <= i <= SAFE
    ensures SignedNumber(Complement(i)) == i
  {
    if i >= 0 {
      NumberExact(i);
    } else {
      NumberExact(-i);
    }
  }

  lemma {:induction false} ValueReads(start: nat, time: nat, was: Value, value: Value)
    requires ValueOk(value)
    ensures PointStep(NumberPoint(start, time, was), ValueField(value)) == Some(NumberPoint(start, time, value))
  {
    match value
    case Double(bits) => WordReads(4, bits);
    case Whole(i) =>
      WordReads(6, Complement(i));
      SignedReads(i);
  }

  lemma {:induction false} NumberPointFolds(start: nat, time: nat, value: Value)
    requires PointOk(NumberPoint(start, time, value))
    ensures Fold(PointFields(NumberPoint(start, time, value)), EmptyPoint(false), POINT) == Some(NumberPoint(start, time, value))
  {
    var zero := Whole(0);
    WordReads(2, start);
    FoldCons(Word(2, start), [Word(3, time)] + ([ValueField(value)] + []), NumberPoint(0, 0, zero), POINT);
    WordReads(3, time);
    FoldCons(Word(3, time), [ValueField(value)] + [], NumberPoint(start, 0, zero), POINT);
    ValueReads(start, time, zero, value);
    FoldCons(ValueField(value), [], NumberPoint(start, time, zero), POINT);
  }

  lemma {:induction false} HistogramPointFolds(start: nat, time: nat, count: nat, bits: nat)
    requires PointOk(HistogramPoint(start, time, count, Double(bits)))
    ensures Fold(PointFields(HistogramPoint(start, time, count, Double(bits))), EmptyPoint(true), POINT)
         == Some(HistogramPoint(start, time, count, Double(bits)))
  {
    var zero := Whole(0);
    var last := [Word(5, bits)] + [];
    WordReads(2, start);
    FoldCons(Word(2, start), [Word(3, time)] + ([Word(4, count)] + last), HistogramPoint(0, 0, 0, zero), POINT);
    WordReads(3, time);
    FoldCons(Word(3, time), [Word(4, count)] + last, HistogramPoint(start, 0, 0, zero), POINT);
    WordReads(4, count);
    NumberExact(count);
    FoldCons(Word(4, count), last, HistogramPoint(start, time, 0, zero), POINT);
    WordReads(5, bits);
    FoldCons(Word(5, bits), [], HistogramPoint(start, time, count, zero), POINT);
  }

  lemma {:induction false} PointDecodes(s: seq<byte>, p: Point)
    requires EncodesPoint(s, p)
    ensures PointOf(s, p.HistogramPoint?) == Some(p)
  {
    var fs :| EncodesPointBy(s, p, fs);
    FoldIsRead(s, EmptyPoint(p.HistogramPoint?), POINT);
    PointIsShown(fs, p.HistogramPoint?);
  }

  // ---------------------------------------------------------------- series

  /** One length-delimited field for each payload. */
  function Wrapped(number: nat, payloads: seq<seq<byte>>): seq<Field> {
    if payloads == [] then [] else [Field(number, BytesP(payloads[0]))] + Wrapped(number, payloads[1..])
  }

  /** The states a list of length-delimited fields goes through. */
  ghost predicate Passes<S>(number: nat, payloads: seq<seq<byte>>, states: seq<S>, step: (S, Field) -> Option<S>) {
    && |states| == |payloads| + 1
    && forall i :: 0 <= i < |payloads| ==> step(states[i], Field(number, BytesP(payloads[i]))) == Some(states[i + 1])
  }

  lemma {:induction false} WrappedFold<S>(
      number: nat, payloads: seq<seq<byte>>, states: seq<S>, step: (S, Field) -> Option<S>)
    requires Passes(number, payloads, states, step)
    ensures Fold(Wrapped(number, payloads), states[0], step) == Some(states[|payloads|])
    decreases |payloads|
  {
    if payloads != [] {
      var rest, later := payloads[1..], states[1..];
      assert step(states[0], Field(number, BytesP(payloads[0]))) == Some(later[0]);
      FoldCons(Field(number, BytesP(payloads[0])), Wrapped(number, rest), states[0], step);
      assert Passes(number, rest, later, step) by {
        forall i | 0 <= i < |rest| ensures step(later[i], Field(number, BytesP(rest[i]))) == Some(later[i + 1]) {
          assert later[i] == states[i + 1] && rest[i] == payloads[i + 1];
        }
      }
      WrappedFold(number, rest, later, step);
    }
  }

  ghost predicate EncodesPoints(payloads: seq<seq<byte>>, points: seq<Point>, histogram: bool) {
    && |payloads| == |points|
    && forall i :: 0 <= i < |points| ==> EncodesPoint(payloads[i], points[i]) && points[i].HistogramPoint? == histogram
  }

  function TemporalityField(t: Temporality): Field {
    Field(2, VarintP(match t case Unspecified => 0 case Delta => 1 case Cumulative => 2))
  }

  function MonotonicField(m: bool): Field {
    Field(3, VarintP(if m then 1 else 0))
  }

  /** What stands after the points: nothing in a gauge, the temporality, and for sums the monotonicity. */
  function Trailer(d: Data): seq<Field> {
    match d
    case Gauge(_) => []
    case Sum(_, t, m) => [TemporalityField(t)] + ([MonotonicField(m)] + [])
    case Histogram(_, t) => [TemporalityField(t)] + []
  }

  function DataNumber(d: Data): nat {
    match d
    case Gauge(_) => 5
    case Sum(_, _, _) => 7
    case Histogram(_, _) => 9
  }

  /** The payloads of the fields with a number. */
  function Payloads(fs: seq<Field>, number: nat): seq<seq<byte>> {
    if fs == [] then []
    else
      var f := fs[|fs| - 1];
      Payloads(fs[..|fs| - 1], number) + if f.number == number && f.payload.BytesP? then [f.payload.octets] else []
  }

  function TemporalityAt(f: Option<Field>): Temporality {
    if f.Some? && f.value.payload.VarintP? then TemporalityOf(f.value.payload.value) else Unspecified
  }

  function MonotonicAt(f: Option<Field>): bool {
    f.Some? && f.value.payload.VarintP? && f.value.payload.value != 0
  }

  predicate SeriesField(f: Field) {
    (f.number == 1 ==> f.payload.BytesP?) && (f.number == 2 || f.number == 3 ==> f.payload.VarintP?)
  }

  ghost predicate SeriesFields(fs: seq<Field>) {
    forall i :: 0 <= i < |fs| ==> SeriesField(fs[i])
  }

  /** The data that fields with these points tell. */
  function ShownData(number: nat, fs: seq<Field>, points: seq<Point>): Data {
    DataOf(number, Series(points, TemporalityAt(LastOf(fs, {2})), MonotonicAt(LastOf(fs, {3}))))
  }

  ghost predicate EncodesDataBy(s: seq<byte>, d: Data, fs: seq<Field>) {
    && Written(s, fs) && SeriesFields(fs)
    && EncodesPoints(Payloads(fs, 1), d.points, d.Histogram?)
    && d == ShownData(DataNumber(d), fs, d.points)
  }

  ghost predicate EncodesData(s: seq<byte>, d: Data) {
    exists fs :: EncodesDataBy(s, d, fs)
  }

  lemma {:induction false} EncodesFront(payloads: seq<seq<byte>>, payload: seq<byte>, points: seq<Point>, histogram: bool)
    requires EncodesPoints(payloads + [payload], points, histogram)
    ensures points != [] && EncodesPoints(payloads, points[..|points| - 1], histogram)
    ensures EncodesPoint(payload, points[|points| - 1]) && points[|points| - 1].HistogramPoint? == histogram
  {
    var all := payloads + [payload];
    forall i | 0 <= i < |points| - 1 ensures EncodesPoint(payloads[i], points[i]) && points[i].HistogramPoint? == histogram {
      assert all[i] == payloads[i];
    }
    assert all[|points| - 1] == payload;
  }

  function ShownSeries(fs: seq<Field>, points: seq<Point>): Series {
    Series(points, TemporalityAt(LastOf(fs, {2})), MonotonicAt(LastOf(fs, {3})))
  }

  lemma {:induction false} PointField(fs: seq<Field>, points: seq<Point>, histogram: bool)
    requires fs != [] && SeriesField(fs[|fs| - 1]) && fs[|fs| - 1].number == 1 && points != []
    requires EncodesPoint(fs[|fs| - 1].payload.octets, points[|points| - 1])
    requires points[|points| - 1].HistogramPoint? == histogram
    ensures SeriesStep(ShownSeries(fs[..|fs| - 1], points[..|points| - 1]), fs[|fs| - 1], histogram) == Some(ShownSeries(fs, points))
  {
    PointDecodes(fs[|fs| - 1].payload.octets, points[|points| - 1]);
    assert points == points[..|points| - 1] + [points[|points| - 1]];
  }

  lemma {:induction false} OtherField(fs: seq<Field>, points: seq<Point>, histogram: bool)
    requires fs != [] && SeriesField(fs[|fs| - 1]) && fs[|fs| - 1].number != 1
    ensures SeriesStep(ShownSeries(fs[..|fs| - 1], points), fs[|fs| - 1], histogram) == Some(ShownSeries(fs, points))
  {}

  /** Reading fields one by one gives the series they tell. */
  lemma {:induction false} SeriesIsShown(fs: seq<Field>, points: seq<Point>, histogram: bool)
    requires SeriesFields(fs) && EncodesPoints(Payloads(fs, 1), points, histogram)
    ensures Fold(fs, NO_SERIES, SeriesHandler(histogram)) == Some(ShownSeries(fs, points))
    decreases |fs|
  {
    if fs == [] {
      assert points == [];
    } else {
      var front, f := fs[..|fs| - 1], fs[|fs| - 1];
      FoldSnoc(fs, NO_SERIES, SeriesHandler(histogram));
      assert SeriesField(f);
      if f.number == 1 {
        EncodesFront(Payloads(front, 1), f.payload.octets, points, histogram);
        SeriesIsShown(front, points[..|points| - 1], histogram);
        PointField(fs, points, histogram);
      } else {
        assert Payloads(front, 1) + [] == Payloads(front, 1);
        SeriesIsShown(front, points, histogram);
        OtherField(fs, points, histogram);
      }
    }
  }

  lemma {:induction false} DataDecodes(s: seq<byte>, d: Data)
    requires EncodesData(s, d)
    ensures SeriesOf(s, d.Histogram?).Some? && DataOf(DataNumber(d), SeriesOf(s, d.Histogram?).value) == d
  {
    var fs :| EncodesDataBy(s, d, fs);
    FoldIsRead(s, NO_SERIES, SeriesHandler(d.Histogram?));
    SeriesIsShown(fs, d.points, d.Histogram?);
  }

  // ---------------------------------------------------------------- metrics

  const DATA_FIELDS: set<nat> := {5, 7, 9}

  /** A field of a metric that can be read: a name, data of its kind, or one that is passed over. */
  ghost predicate MetricField(f: Field, text: Text) {
    && (f.number in METRIC_FIELDS ==> f.payload.BytesP?)
    && (f.number == 1 ==> text(f.payload.octets).Some?)
    && (f.number in DATA_FIELDS ==> exists d :: EncodesData(f.payload.octets, d) && DataNumber(d) == f.number)
  }

  ghost predicate MetricFields(fs: seq<Field>, text: Text) {
    forall i :: 0 <= i < |fs| ==> MetricField(fs[i], text)
  }

  /** The name that fields tell, none being empty. */
  function NameAt(f: Option<Field>, text: Text): string {
    if f.Some? && f.value.payload.BytesP? && text(f.value.payload.octets).Some? then text(f.value.payload.octets).value
    else ""
  }

  ghost predicate DataAt(f: Option<Field>, d: Option<Data>) {
    match f
    case None => d.None?
    case Some(g) => d.Some? && g.payload.BytesP? && EncodesData(g.payload.octets, d.value) && DataNumber(d.value) == g.number
  }

  ghost predicate EncodesDraftBy(s: seq<byte>, d: Draft, text: Text, fs: seq<Field>) {
    && Written(s, fs) && MetricFields(fs, text)
    && d.name == NameAt(LastOf(fs, {1}), text) && DataAt(LastOf(fs, DATA_FIELDS), d.data)
  }

  /** Bytes of a metric with this name and this data, either of which may be missing. */
  ghost predicate EncodesDraft(s: seq<byte>, d: Draft, text: Text) {
    exists fs :: EncodesDraftBy(s, d, text, fs)
  }

  lemma {:induction false} NameField(fs: seq<Field>, before: Draft, text: Text)
    requires fs != [] && fs[|fs| - 1].number == 1 && MetricField(fs[|fs| - 1], text)
    requires DataAt(LastOf(fs[..|fs| - 1], DATA_FIELDS), before.data)
    ensures
      var after := MetricStep(before, fs[|fs| - 1], text);
      after.Some? && after.value.name == NameAt(LastOf(fs, {1}), text) && DataAt(LastOf(fs, DATA_FIELDS), after.value.data)
  {}

  lemma {:induction false} DataField(fs: seq<Field>, before: Draft, text: Text)
    requires fs != [] && fs[|fs| - 1].number in DATA_FIELDS && MetricField(fs[|fs| - 1], text)
    requires before.name == NameAt(LastOf(fs[..|fs| - 1], {1}), text)
    ensures
      var after := MetricStep(before, fs[|fs| - 1], text);
      after.Some? && after.value.name == NameAt(LastOf(fs, {1}), text) && DataAt(LastOf(fs, DATA_FIELDS), after.value.data)
  {
    var f := fs[|fs| - 1];
    var d :| EncodesData(f.payload.octets, d) && DataNumber(d) == f.number;
    DataDecodes(f.payload.octets, d);
    assert MetricStep(before, f, text) == Some(Draft(before.name, Some(d)));
  }

  lemma {:induction false} DraftIsShown(fs: seq<Field>, text: Text)
    requires MetricFields(fs, text)
    ensures
      var r := Fold(fs, Draft("", None), MetricHandler(text));
      r.Some? && r.value.name == NameAt(LastOf(fs, {1}), text) && DataAt(LastOf(fs, DATA_FIELDS), r.value.data)
    decreases |fs|
  {
    if fs != [] {
      var front, f := fs[..|fs| - 1], fs[|fs| - 1];
      DraftIsShown(front, text);
      FoldSnoc(fs, Draft("", None), MetricHandler(text));
      var before := Fold(front, Draft("", None), MetricHandler(text)).value;
      assert MetricField(f, text);
      if f.number == 1 {
        NameField(fs, before, text);
      } else if f.number in DATA_FIELDS {
        DataField(fs, before, text);
      }
    }
  }

  lemma {:induction false} DataOnce(f: Option<Field>, a: Option<Data>, b: Option<Data>)
    requires DataAt(f, a) && DataAt(f, b)
    ensures a == b
  {
    if f.Some? {
      DataDecodes(f.value.payload.octets, a.value);
      DataDecodes(f.value.payload.octets, b.value);
    }
  }

  lemma {:induction false} DraftDecodes(s: seq<byte>, d: Draft, text: Text)
    requires EncodesDraft(s, d, text)
    ensures MetricOf(s, text) == Some(Finished(d))
  {
    var fs :| EncodesDraftBy(s, d, text, fs);
    FoldIsRead(s, Draft("", None), MetricHandler(text));
    DraftIsShown(fs, text);
    DataOnce(LastOf(fs, DATA_FIELDS), d.data, Fold(fs, Draft("", None), MetricHandler(text)).value.data);
  }

  // ---------------------------------------------------------------- requests

  /** The metrics of a scope: those that have a name and are of a kind that is stored. */
  function Complete(drafts: seq<Draft>): seq<seq<Metric>> {
    seq(|drafts|, i requires 0 <= i < |drafts| => Finished(drafts[i]))
  }

  ghost predicate EncodesDrafts(payloads: seq<seq<byte>>, drafts: seq<Draft>, text: Text) {
    |payloads| == |drafts| && forall i :: 0 <= i < |drafts| ==> EncodesDraft(payloads[i], drafts[i], text)
  }

  ghost predicate EncodesScopeBy(
      s: seq<byte>, ms: seq<Metric>, text: Text, payloads: seq<seq<byte>>, drafts: seq<Draft>) {
    && EncodesDrafts(payloads, drafts, text) && ms == Flatten(Complete(drafts))
    && Carries(s, SCOPE_FIELDS, Wrapped(2, payloads))
  }

  ghost predicate EncodesScope(s: seq<byte>, ms: seq<Metric>, text: Text) {
    exists payloads, drafts :: EncodesScopeBy(s, ms, text, payloads, drafts)
  }

  lemma {:induction false} DraftAdds(payload: seq<byte>, d: Draft, before: seq<Metric>, text: Text)
    requires EncodesDraft(payload, d, text)
    ensures ScopeHandler(text)(before, Field(2, BytesP(payload))) == Some(before + Finished(d))
  {
    DraftDecodes(payload, d, text);
  }

  lemma {:induction false} DraftsFold(payloads: seq<seq<byte>>, drafts: seq<Draft>, before: seq<Metric>, text: Text)
    requires EncodesDrafts(payloads, drafts, text)
    ensures Fold(Wrapped(2, payloads), before, ScopeHandler(text)) == Some(before + Flatten(Complete(drafts)))
  {
    var step, parts := ScopeHandler(text), Complete(drafts);
    var states := seq(|parts| + 1, i requires 0 <= i <= |parts| => before + Flatten(parts[..i]));
    forall i | 0 <= i < |payloads| ensures step(states[i], Field(2, BytesP(payloads[i]))) == Some(states[i + 1]) {
      DraftAdds(payloads[i], drafts[i], states[i], text);
      FlattenUpTo(before, parts, i);
    }
    WrappedFold(2, payloads, states, step);
    assert parts[..0] == [] && before + Flatten<Metric>([]) == before && parts[..|parts|] == parts;
  }

  lemma {:induction false} ScopeDecodes(s: seq<byte>, ms: seq<Metric>, before: seq<Metric>, text: Text)
    requires EncodesScope(s, ms, text)
    ensures FoldFields(s, before, ScopeHandler(text)) == Some(before + ms)
  {
    var payloads, drafts :| EncodesScopeBy(s, ms, text, payloads, drafts);
    CarriedFold(s, SCOPE_FIELDS, Wrapped(2, payloads), before, ScopeHandler(text));
    DraftsFold(payloads, drafts, before, text);
  }

  function Flatten<T>(s: seq<seq<T>>): seq<T> {
    if s == [] then [] else s[0] + Flatten(s[1..])
  }

  ghost predicate EncodesScopes(payloads: seq<seq<byte>>, scopes: seq<seq<Metric>>, text: Text) {
    |payloads| == |scopes| && forall i :: 0 <= i < |scopes| ==> EncodesScope(payloads[i], scopes[i], text)
  }

  ghost predicate EncodesResource(s: seq<byte>, scopes: seq<seq<Metric>>, text: Text) {
    exists payloads :: EncodesResourceBy(s, scopes, text, payloads)
  }

  ghost predicate EncodesResourceBy(s: seq<byte>, scopes: seq<seq<Metric>>, text: Text, payloads: seq<seq<byte>>) {
    EncodesScopes(payloads, scopes, text) && Carries(s, SCOPE_FIELDS, Wrapped(2, payloads))
  }

  lemma {:induction false} FlattenUpTo<T>(before: seq<T>, parts: seq<seq<T>>, i: nat)
    requires i < |parts|
    ensures (before + Flatten(parts[..i])) + parts[i] == before + Flatten(parts[..i + 1])
  {
    assert parts[..i + 1] == parts[..i] + [parts[i]];
    FlattenConcat(parts[..i], [parts[i]]);
    assert [parts[i]][1..] == [] && parts[i] + [] == parts[i];
    assert (before + Flatten(parts[..i])) + parts[i] == before + (Flatten(parts[..i]) + parts[i]);
  }

  lemma {:induction false} ScopeAdds(payload: seq<byte>, ms: seq<Metric>, before: seq<Metric>, text: Text)
    requires EncodesScope(payload, ms, text)
    ensures ResourceHandler(text)(before, Field(2, BytesP(payload))) == Some(before + ms)
  {
    ScopeDecodes(payload, ms, before, text);
  }

  lemma {:induction false} ScopesFold(payloads: seq<seq<byte>>, scopes: seq<seq<Metric>>, before: seq<Metric>, text: Text)
    requires EncodesScopes(payloads, scopes, text)
    ensures Fold(Wrapped(2, payloads), before, ResourceHandler(text)) == Some(before + Flatten(scopes))
  {
    var step := ResourceHandler(text);
    var states := seq(|scopes| + 1, i requires 0 <= i <= |scopes| => before + Flatten(scopes[..i]));
    forall i | 0 <= i < |payloads| ensures step(states[i], Field(2, BytesP(payloads[i]))) == Some(states[i + 1]) {
      ScopeAdds(payloads[i], scopes[i], states[i], text);
      FlattenUpTo(before, scopes, i);
    }
    WrappedFold(2, payloads, states, step);
    assert scopes[..0] == [] && before + Flatten<Metric>([]) == before && scopes[..|scopes|] == scopes;
  }

  lemma {:induction false} ResourceDecodes(s: seq<byte>, scopes: seq<seq<Metric>>, before: seq<Metric>, text: Text)
    requires EncodesResource(s, scopes, text)
    ensures FoldFields(s, before, ResourceHandler(text)) == Some(before + Flatten(scopes))
  {
    var payloads :| EncodesResourceBy(s, scopes, text, payloads);
    CarriedFold(s, SCOPE_FIELDS, Wrapped(2, payloads), before, ResourceHandler(text));
    ScopesFold(payloads, scopes, before, text);
  }

  ghost predicate EncodesResources(payloads: seq<seq<byte>>, resources: seq<seq<seq<Metric>>>, text: Text) {
    |payloads| == |resources| && forall i :: 0 <= i < |resources| ==> EncodesResource(payloads[i], resources[i], text)
  }

  /** Bytes of a request with these resources, whatever else they carry at any level. */
  ghost predicate EncodesRequest(s: seq<byte>, resources: seq<seq<seq<Metric>>>, text: Text) {
    exists payloads :: EncodesRequestBy(s, resources, text, payloads)
  }

  ghost predicate EncodesRequestBy(
      s: seq<byte>, resources: seq<seq<seq<Metric>>>, text: Text, payloads: seq<seq<byte>>) {
    EncodesResources(payloads, resources, text) && Carries(s, REQUEST_FIELDS, Wrapped(1, payloads))
  }

  lemma {:induction false} ResourceAdds(payload: seq<byte>, scopes: seq<seq<Metric>>, before: seq<Metric>, text: Text)
    requires EncodesResource(payload, scopes, text)
    ensures RequestHandler(text)(before, Field(1, BytesP(payload))) == Some(before + Flatten(scopes))
  {
    ResourceDecodes(payload, scopes, before, text);
  }

  lemma {:induction false} FlattenTwice<T>(parts: seq<seq<seq<T>>>, i: nat)
    requires i < |parts|
    ensures Flatten(Flatten(parts[..i])) + Flatten(parts[i]) == Flatten(Flatten(parts[..i + 1]))
  {
    FlattenUpTo([], parts, i);
    assert [] + Flatten(parts[..i]) == Flatten(parts[..i]) && [] + Flatten(parts[..i + 1]) == Flatten(parts[..i + 1]);
    FlattenConcat(Flatten(parts[..i]), parts[i]);
  }

  lemma {:induction false} ResourcesFold(payloads: seq<seq<byte>>, resources: seq<seq<seq<Metric>>>, text: Text)
    requires EncodesResources(payloads, resources, text)
    ensures Fold(Wrapped(1, payloads), [], RequestHandler(text)) == Some(Flatten(Flatten(resources)))
  {
    var step := RequestHandler(text);
    var states := seq(|resources| + 1, i requires 0 <= i <= |resources| => Flatten(Flatten(resources[..i])));
    forall i | 0 <= i < |payloads| ensures step(states[i], Field(1, BytesP(payloads[i]))) == Some(states[i + 1]) {
      ResourceAdds(payloads[i], resources[i], states[i], text);
      FlattenTwice(resources, i);
    }
    WrappedFold(1, payloads, states, step);
    assert resources[..0] == [] && resources[..|resources|] == resources;
  }

  lemma {:induction false} FlattenConcat<T>(a: seq<seq<T>>, b: seq<seq<T>>)
    ensures Flatten(a + b) == Flatten(a) + Flatten(b)
    decreases |a|
  {
    if a == [] {
      assert a + b == b;
    } else {
      assert (a + b)[1..] == a[1..] + b;
      FlattenConcat(a[1..], b);
      assert (a[0] + Flatten(a[1..])) + Flatten(b) == a[0] + (Flatten(a[1..]) + Flatten(b));
    }
  }

  /** Decoding inverts writing: every complete metric, in order, however its fields are laid out. */
  lemma {:induction false} DecodeInverts(s: seq<byte>, resources: seq<seq<seq<Metric>>>, text: Text)
    requires EncodesRequest(s, resources, text)
    ensures Decode(s, text) == Some(Flatten(Flatten(resources)))
  {
    var payloads :| EncodesRequestBy(s, resources, text, payloads);
    CarriedFold(s, REQUEST_FIELDS, Wrapped(1, payloads), [], RequestHandler(text));
    ResourcesFold(payloads, resources, text);
  }

  // ---------------------------------------------------------------- the canonical encoding

  function WritePoint(p: Point): seq<byte>
    requires PointOk(p)
  {
    WriteFields(PointFields(p))
  }

  function WritePoints(ps: seq<Point>): seq<seq<byte>>
    requires forall i :: 0 <= i < |ps| ==> PointOk(ps[i])
  {
    seq(|ps|, i requires 0 <= i < |ps| => WritePoint(ps[i]))
  }

  /** Points that can be written, all of the metric's own kind. */
  predicate DataOk(d: Data) {
    forall i :: 0 <= i < |d.points| ==> PointOk(d.points[i]) && d.points[i].HistogramPoint? == d.Histogram?
  }

  function WriteData(d: Data): seq<byte>
    requires DataOk(d)
  {
    WriteFields(Wrapped(1, WritePoints(d.points)) + Trailer(d))
  }

  function WriteMetric(m: Metric, utf8: string -> seq<byte>): seq<byte>
    requires DataOk(m.data)
  {
    WriteFields([Field(1, BytesP(utf8(m.name)))] + [Field(DataNumber(m.data), BytesP(WriteData(m.data)))])
  }

  predicate AllDataOk(ms: seq<Metric>) {
    forall i :: 0 <= i < |ms| ==> DataOk(ms[i].data)
  }

  function WriteMetrics(ms: seq<Metric>, utf8: string -> seq<byte>): seq<seq<byte>>
    requires AllDataOk(ms)
  {
    seq(|ms|, i requires 0 <= i < |ms| => WriteMetric(ms[i], utf8))
  }

  function WriteScope(ms: seq<Metric>, utf8: string -> seq<byte>): seq<byte>
    requires AllDataOk(ms)
  {
    WriteFields(Wrapped(2, WriteMetrics(ms, utf8)))
  }

  /** A request with one resource of one scope. */
  function WriteRequest(ms: seq<Metric>, utf8: string -> seq<byte>): seq<byte>
    requires AllDataOk(ms)
  {
    WriteFields(Wrapped(1, [WriteFields(Wrapped(2, [WriteScope(ms, utf8)]))]))
  }

  lemma {:induction false} KnownAll(fs: seq<Field>, numbers: set<nat>)
    requires forall i :: 0 <= i < |fs| ==> fs[i].number in numbers
    ensures Known(fs, numbers) == fs
    decreases |fs|
  {
    if fs != [] {
      KnownAll(fs[1..], numbers);
    }
  }

  /** Nothing but fields the decoder reads. */
  lemma {:induction false} WrittenCarries(fs: seq<Field>, numbers: set<nat>)
    requires forall i :: 0 <= i < |fs| ==> fs[i].number in numbers && WellFormed(fs[i])
    ensures Carries(WriteFields(fs), numbers, fs)
  {
    KnownAll(fs, numbers);
    FieldsRoundTrip(fs);
    assert CarriedBy(WriteFields(fs), fs, numbers, fs);
  }

  /** A payload is no longer than the message that holds it. */
  lemma {:induction false} PayloadFits(fs: seq<Field>, i: nat)
    requires i < |fs| && fs[i].payload.BytesP?
    ensures |fs[i].payload.octets| <= |WriteFields(fs)|
    decreases |fs|
  {
    if i > 0 {
      PayloadFits(fs[1..], i - 1);
    }
  }

  lemma {:induction false} WrappedAt(number: nat, payloads: seq<seq<byte>>)
    ensures |Wrapped(number, payloads)| == |payloads|
    ensures forall i :: 0 <= i < |payloads| ==> Wrapped(number, payloads)[i] == Field(number, BytesP(payloads[i]))
    decreases |payloads|
  {
    if payloads != [] {
      WrappedAt(number, payloads[1..]);
    }
  }

  lemma {:induction false} WrappedWellFormed(number: nat, payloads: seq<seq<byte>>, trailer: seq<Field>)
    requires number < 100 && |WriteFields(Wrapped(number, payloads) + trailer)| < SAFE
    requires forall i :: 0 <= i < |trailer| ==> WellFormed(trailer[i])
    ensures var fs := Wrapped(number, payloads) + trailer; forall i :: 0 <= i < |fs| ==> WellFormed(fs[i])
    ensures forall i :: 0 <= i < |payloads| ==> |payloads[i]| < SAFE
  {
    var fs := Wrapped(number, payloads) + trailer;
    WrappedAt(number, payloads);
    forall i | 0 <= i < |fs| ensures WellFormed(fs[i]) {
      if i < |payloads| {
        PayloadFits(fs, i);
      }
    }
    forall i | 0 <= i < |payloads| ensures |payloads[i]| < SAFE {
      PayloadFits(fs, i);
    }
  }

  lemma {:induction false} WrappedCarries(number: nat, payloads: seq<seq<byte>>, numbers: set<nat>)
    requires number in numbers && number < 100 && |WriteFields(Wrapped(number, payloads))| < SAFE
    ensures Carries(WriteFields(Wrapped(number, payloads)), numbers, Wrapped(number, payloads))
    ensures forall i :: 0 <= i < |payloads| ==> |payloads[i]| < SAFE
  {
    var fs := Wrapped(number, payloads);
    assert fs + [] == fs;
    WrappedWellFormed(number, payloads, []);
    WrappedAt(number, payloads);
    WrittenCarries(fs, numbers);
  }

  lemma {:induction false} WordsWritten(p: Point)
    requires PointOk(p)
    ensures Written(WritePoint(p), PointFields(p)) && Words(PointFields(p), FieldsRead(p))
  {
    PointFieldsFormed(p);
    FieldsRoundTrip(PointFields(p));
  }

  lemma {:induction false} PointFieldsFormed(p: Point)
    requires PointOk(p)
    ensures forall i :: 0 <= i < |PointFields(p)| ==> WellFormed(PointFields(p)[i])
    ensures Words(PointFields(p), FieldsRead(p))
  {}

  lemma {:induction false} PointFolds(p: Point)
    requires PointOk(p)
    ensures Fold(PointFields(p), EmptyPoint(p.HistogramPoint?), POINT) == Some(p)
  {
    match p
    case NumberPoint(start, time, value) => NumberPointFolds(start, time, value);
    case HistogramPoint(start, time, count, sum) => HistogramPointFolds(start, time, count, sum.bits);
  }

  lemma {:induction false} WrittenPoint(p: Point)
    requires PointOk(p)
    ensures EncodesPoint(WritePoint(p), p)
  {
    var fs := PointFields(p);
    WordsWritten(p);
    PointFolds(p);
    PointIsShown(fs, p.HistogramPoint?);
    assert EncodesPointBy(WritePoint(p), p, fs);
  }

  lemma {:induction false} PayloadsConcat(a: seq<Field>, b: seq<Field>, number: nat)
    ensures Payloads(a + b, number) == Payloads(a, number) + Payloads(b, number)
    decreases |b|
  {
    if b == [] {
      assert a + b == a;
    } else {
      assert (a + b)[..|a + b| - 1] == a + b[..|b| - 1];
      PayloadsConcat(a, b[..|b| - 1], number);
    }
  }

  lemma {:induction false} PayloadsNone(fs: seq<Field>, number: nat)
    requires forall i :: 0 <= i < |fs| ==> fs[i].number != number
    ensures Payloads(fs, number) == []
    decreases |fs|
  {
    if fs != [] {
      PayloadsNone(fs[..|fs| - 1], number);
    }
  }

  lemma {:induction false} WrappedPayloads(number: nat, payloads: seq<seq<byte>>)
    ensures Payloads(Wrapped(number, payloads), number) == payloads
    decreases |payloads|
  {
    if payloads != [] {
      var f := Field(number, BytesP(payloads[0]));
      WrappedPayloads(number, payloads[1..]);
      PayloadsConcat([f], Wrapped(number, payloads[1..]), number);
      assert [f][..0] == [] && Payloads([f], number) == [payloads[0]];
    }
  }

  lemma {:induction false} TemporalityReads(t: Temporality)
    ensures TemporalityAt(Some(TemporalityField(t))) == t
  {
    NumberExact(0);
    NumberExact(1);
    NumberExact(2);
  }

  lemma {:induction false} TrailerTells(d: Data)
    ensures d == ShownData(DataNumber(d), Trailer(d), d.points)
  {
    match d
    case Gauge(_) =>
    case Sum(_, t, m) =>
      TemporalityReads(t);
      var a, b := TemporalityField(t), MonotonicField(m);
      assert [b] + [] == [b];
      LastConcat([a], [b], {2});
      LastConcat([a], [b], {3});
      LastSingle(a, {2});
      LastSingle(b, {2});
      LastSingle(b, {3});
    case Histogram(_, t) =>
      TemporalityReads(t);
      assert [TemporalityField(t)] + [] == [TemporalityField(t)];
      LastSingle(TemporalityField(t), {2});
  }

  lemma {:induction false} WrappedHasNo(number: nat, payloads: seq<seq<byte>>, numbers: set<nat>)
    requires number !in numbers
    ensures LastOf(Wrapped(number, payloads), numbers) == None
  {
    LastMeans(Wrapped(number, payloads), numbers);
    WrappedAt(number, payloads);
  }

  lemma {:induction false} CanonicalTells(d: Data, payloads: seq<seq<byte>>)
    ensures
      var fs := Wrapped(1, payloads) + Trailer(d);
      SeriesFields(fs) && Payloads(fs, 1) == payloads && d == ShownData(DataNumber(d), fs, d.points)
  {
    WrappedAt(1, payloads);
    PayloadsConcat(Wrapped(1, payloads), Trailer(d), 1);
    PayloadsNone(Trailer(d), 1);
    WrappedPayloads(1, payloads);
    LastConcat(Wrapped(1, payloads), Trailer(d), {2});
    LastConcat(Wrapped(1, payloads), Trailer(d), {3});
    WrappedHasNo(1, payloads, {2});
    WrappedHasNo(1, payloads, {3});
    TrailerTells(d);
  }

  lemma {:induction false} PointsWritten(points: seq<Point>, histogram: bool)
    requires forall i :: 0 <= i < |points| ==> PointOk(points[i]) && points[i].HistogramPoint? == histogram
    ensures EncodesPoints(WritePoints(points), points, histogram)
  {
    forall i | 0 <= i < |points| ensures EncodesPoint(WritePoints(points)[i], points[i]) {
      WrittenPoint(points[i]);
    }
  }

  lemma {:induction false} TrailerWellFormed(d: Data)
    ensures forall i :: 0 <= i < |Trailer(d)| ==> WellFormed(Trailer(d)[i])
  {}

  lemma {:induction false} DataFrom(s: seq<byte>, d: Data, payloads: seq<seq<byte>>, fs: seq<Field>)
    requires fs == Wrapped(1, payloads) + Trailer(d) && Written(s, fs) && EncodesPoints(payloads, d.points, d.Histogram?)
    ensures EncodesData(s, d)
  {
    CanonicalTells(d, payloads);
    assert EncodesDataBy(s, d, fs);
  }

  lemma {:induction false} WrittenData(d: Data)
    requires DataOk(d) && |WriteData(d)| < SAFE
    ensures EncodesData(WriteData(d), d)
  {
    var payloads := WritePoints(d.points);
    PointsWritten(d.points, d.Histogram?);
    TrailerWellFormed(d);
    WrappedWellFormed(1, payloads, Trailer(d));
    FieldsRoundTrip(Wrapped(1, payloads) + Trailer(d));
    DataFrom(WriteData(d), d, payloads, Wrapped(1, payloads) + Trailer(d));
  }

  /** A name the decoder reads back. */
  predicate NameOk(name: string, utf8: string -> seq<byte>, text: Text) {
    name != "" && text(utf8(name)) == Some(name)
  }

  predicate AllNamesOk(ms: seq<Metric>, utf8: string -> seq<byte>, text: Text) {
    forall i :: 0 <= i < |ms| ==> NameOk(ms[i].name, utf8, text)
  }

  lemma {:induction false} TwoWritten(name: seq<byte>, number: nat, data: seq<byte>)
    requires number in DATA_FIELDS
    requires |WriteFields([Field(1, BytesP(name))] + [Field(number, BytesP(data))])| < SAFE
    ensures |data| < SAFE
    ensures
      var f, g := Field(1, BytesP(name)), Field(number, BytesP(data));
      && Written(WriteFields([f] + [g]), [f] + [g])
      && LastOf([f] + [g], {1}) == Some(f) && LastOf([f] + [g], DATA_FIELDS) == Some(g)
  {
    var f, g := Field(1, BytesP(name)), Field(number, BytesP(data));
    PayloadFits([f] + [g], 0);
    PayloadFits([f] + [g], 1);
    FieldsRoundTrip([f] + [g]);
    LastConcat([f], [g], {1});
    LastConcat([f], [g], DATA_FIELDS);
    LastSingle(f, {1});
    LastSingle(g, {1});
    LastSingle(g, DATA_FIELDS);
  }

  lemma {:induction false} DraftFrom(s: seq<byte>, m: Metric, text: Text, name: seq<byte>, data: seq<byte>)
    requires text(name) == Some(m.name) && EncodesData(data, m.data)
    requires
      var f, g := Field(1, BytesP(name)), Field(DataNumber(m.data), BytesP(data));
      Written(s, [f] + [g]) && LastOf([f] + [g], {1}) == Some(f) && LastOf([f] + [g], DATA_FIELDS) == Some(g)
    ensures EncodesDraft(s, Draft(m.name, Some(m.data)), text)
  {
    var f, g := Field(1, BytesP(name)), Field(DataNumber(m.data), BytesP(data));
    assert MetricField(f, text) && MetricField(g, text);
    assert EncodesDraftBy(s, Draft(m.name, Some(m.data)), text, [f] + [g]);
  }

  lemma {:induction false} WrittenMetric(m: Metric, utf8: string -> seq<byte>, text: Text)
    requires NameOk(m.name, utf8, text) && DataOk(m.data) && |WriteMetric(m, utf8)| < SAFE
    ensures EncodesDraft(WriteMetric(m, utf8), Draft(m.name, Some(m.data)), text)
  {
    TwoWritten(utf8(m.name), DataNumber(m.data), WriteData(m.data));
    WrittenData(m.data);
    DraftFrom(WriteMetric(m, utf8), m, text, utf8(m.name), WriteData(m.data));
  }

  /** Metrics as drafts that miss nothing. */
  function Drafts(ms: seq<Metric>): seq<Draft> {
    seq(|ms|, i requires 0 <= i < |ms| => Draft(ms[i].name, Some(ms[i].data)))
  }

  lemma {:induction false} DraftsComplete(ms: seq<Metric>)
    requires forall i :: 0 <= i < |ms| ==> ms[i].name != ""
    ensures Flatten(Complete(Drafts(ms))) == ms
    decreases |ms|
  {
    if ms != [] {
      assert Complete(Drafts(ms))[1..] == Complete(Drafts(ms[1..]));
      DraftsComplete(ms[1..]);
      assert ms == [ms[0]] + ms[1..];
    }
  }

  lemma {:induction false} WrittenAt(ms: seq<Metric>, utf8: string -> seq<byte>, i: nat)
    requires AllDataOk(ms) && i < |ms|
    ensures DataOk(ms[i].data) && |WriteMetrics(ms, utf8)| == |ms| && WriteMetrics(ms, utf8)[i] == WriteMetric(ms[i], utf8)
  {}

  lemma {:induction false} ScopePayload(
      ms: seq<Metric>, utf8: string -> seq<byte>, text: Text, payloads: seq<seq<byte>>, i: nat)
    requires AllDataOk(ms) && AllNamesOk(ms, utf8, text) && payloads == WriteMetrics(ms, utf8)
    requires i < |ms| == |payloads| && |payloads[i]| < SAFE
    ensures EncodesDraft(payloads[i], Drafts(ms)[i], text)
  {
    WrittenAt(ms, utf8, i);
    WrittenMetric(ms[i], utf8, text);
  }

  lemma {:induction false} ScopeCarries(payloads: seq<seq<byte>>)
    requires |WriteFields(Wrapped(2, payloads))| < SAFE
    ensures Carries(WriteFields(Wrapped(2, payloads)), SCOPE_FIELDS, Wrapped(2, payloads))
    ensures forall i :: 0 <= i < |payloads| ==> |payloads[i]| < SAFE
  {
    WrappedCarries(2, payloads, SCOPE_FIELDS);
  }

  lemma {:induction false} WrittenScope(ms: seq<Metric>, utf8: string -> seq<byte>, text: Text)
    requires AllDataOk(ms) && AllNamesOk(ms, utf8, text) && |WriteScope(ms, utf8)| < SAFE
    ensures EncodesScope(WriteScope(ms, utf8), ms, text)
  {
    var payloads := WriteMetrics(ms, utf8);
    ScopeCarries(payloads);
    assert EncodesDrafts(payloads, Drafts(ms), text) by {
      forall i | 0 <= i < |ms| ensures EncodesDraft(payloads[i], Drafts(ms)[i], text) {
        ScopePayload(ms, utf8, text, payloads, i);
      }
    }
    forall i | 0 <= i < |ms| ensures ms[i].name != "" {
      assert NameOk(ms[i].name, utf8, text);
    }
    DraftsComplete(ms);
    assert EncodesScopeBy(WriteScope(ms, utf8), ms, text, payloads, Drafts(ms));
  }

  lemma {:induction false} WrittenRequest(ms: seq<Metric>, utf8: string -> seq<byte>, text: Text)
    requires AllDataOk(ms) && AllNamesOk(ms, utf8, text) && |WriteRequest(ms, utf8)| < SAFE
    ensures EncodesRequest(WriteRequest(ms, utf8), [[ms]], text)
  {
    var scope := WriteScope(ms, utf8);
    var resource := WriteFields(Wrapped(2, [scope]));
    WrappedCarries(1, [resource], REQUEST_FIELDS);
    assert [resource][0] == resource;
    ScopeCarries([scope]);
    assert [scope][0] == scope;
    WrittenScope(ms, utf8, text);
    assert EncodesResourceBy(resource, [ms], text, [scope]);
    assert EncodesRequestBy(WriteRequest(ms, utf8), [[ms]], text, [resource]);
  }

  /** Any list of named gauges, sums and histograms, once written, is decoded as it was. */
  lemma {:induction false} RoundTrip(ms: seq<Metric>, utf8: string -> seq<byte>, text: Text)
    requires AllDataOk(ms) && AllNamesOk(ms, utf8, text) && |WriteRequest(ms, utf8)| < SAFE
    ensures Decode(WriteRequest(ms, utf8), text) == Some(ms)
  {
    WrittenRequest(ms, utf8, text);
    DecodeInverts(WriteRequest(ms, utf8), [[ms]], text);
    assert [[ms]][1..] == [] && [ms] + [] == [ms] && [ms][1..] == [] && ms + [] == ms;
  }
}
