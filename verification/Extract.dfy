/** Running a compiled pack on the answers of a device.  JSONPath, regular
    expressions and number parsing are libraries: whatever they answer, what comes
    out stays under the names the pack declared. */
module Extract {
  import opened Wrappers
  import opened Text
  import opened Exposition
  import opened Compile

  datatype Json =
    | Null
    | Bool(flag: bool)
    | Number(text: string, value: Option<Float>)
    | String(chars: string)
    | Array(items: seq<Json>)
    | Object(fields: seq<(string, Json)>)

  datatype Match = Match(groups: map<string, string>, first: Option<string>)

  /** `located` gives each node with the object that holds it; `one` and `zero` are what
      `true` and `false` count for. */
  datatype Libraries = Libraries(
    located: (string, Json) -> seq<(Json, Json)>, query: (string, Json) -> seq<Json>, show: Json -> string,
    groups: string -> set<string>, matches: (string, string) -> seq<Match>, isMatch: (string, string) -> bool,
    json: Bytes -> Option<Json>, text: Bytes -> string, codec: Codec<Float>,
    times: (Float, Float) -> Float, one: Float, zero: Float)

  /** An answer, decoded. */
  datatype Body = Document(document: Json) | Plain(text: string) | Exposed(samples: seq<Parsed<Float>>)

  const MAX_LABEL_LEN := 200
  const MAX_SERIES := 5000

  // ------------------------------------------------------------ values and labels

  /** The bytes a character takes in UTF-8. */
  function Width(c: char): (n: nat)
    ensures 1 <= n <= 4
  {
    if c < '\U{80}' then 1 else if c < '\U{800}' then 2 else if c < '\U{10000}' then 3 else 4
  }

  function Size(s: string): nat {
    if s == "" then 0 else Width(s[0]) + Size(s[1..])
  }

  /** How many characters fit in so many bytes. */
  function Fit(s: string, room: nat): (n: nat)
    ensures n <= |s|
  {
    if s == "" || Width(s[0]) > room then 0 else 1 + Fit(s[1..], room - Width(s[0]))
  }

  function Truncate(value: string): string {
    if Size(value) > MAX_LABEL_LEN then value[..Fit(value, MAX_LABEL_LEN)] else value
  }

  lemma {:induction false} FitFits(s: string, room: nat)
    ensures Size(s[..Fit(s, room)]) <= room
    ensures Fit(s, room) < |s| ==> Size(s[..Fit(s, room) + 1]) > room
  {
    if s != "" && Width(s[0]) <= room {
      var n := Fit(s, room);
      FitFits(s[1..], room - Width(s[0]));
      assert s[..n][1..] == s[1..][..n - 1];
      if n < |s| {
        assert s[..n + 1][1..] == s[1..][..n];
      }
    }
  }

  /** Cutting a value keeps whole characters, as many as fit. */
  lemma TruncateCutsLast(value: string)
    ensures Truncate(value) <= value && Size(Truncate(value)) <= MAX_LABEL_LEN
    ensures var n := |Truncate(value)|; n < |value| ==> Size(value[..n + 1]) > MAX_LABEL_LEN
  {
    FitFits(value, MAX_LABEL_LEN);
  }

  function TextNumber(lib: Libraries, text: string, values: map<string, Float>): Option<Float> {
    var trimmed := Trim(text);
    if trimmed in values then Some(values[trimmed])
    else if values != map[] then None
    else lib.codec.read(trimmed)
  }

  function Scale(lib: Libraries, raw: Float, scale: Option<Float>): Float {
    lib.times(raw, if scale.Some? then scale.value else lib.one)
  }

  function Scaled(lib: Libraries, raw: Option<Float>, scale: Option<Float>): Option<Float> {
    if raw.None? then None else Some(Scale(lib, raw.value, scale))
  }

  function NumberOf(lib: Libraries, node: Json, values: map<string, Float>, scale: Option<Float>): Option<Float> {
    var raw :=
      match node
      case Number(text, value) => if text in values then Some(values[text]) else value
      case Bool(flag) =>
        var text := if flag then "true" else "false";
        Some(if text in values then values[text] else if flag then lib.one else lib.zero)
      case String(text) => TextNumber(lib, text, values)
      case _ => None;
    Scaled(lib, raw, scale)
  }

  function LabelValue(lib: Libraries, node: Json): Option<string> {
    match node
    case Null => None
    case String(text) => Some(Truncate(text))
    case Number(_, _) => Some(lib.show(node))
    case Bool(_) => Some(lib.show(node))
    case _ => Some(Truncate(lib.show(node)))
  }

  function FirstLabel(lib: Libraries, path: string, node: Json): Option<string> {
    var found := lib.query(path, node);
    if found == [] then None else LabelValue(lib, found[0])
  }

  function FromNode(lib: Libraries, node: Json): LabelFrom -> Option<string> {
    (from: LabelFrom) => if from.FromJson? then FirstLabel(lib, from.path, node) else None
  }

  function FromMatch(m: Match): LabelFrom -> Option<string> {
    (from: LabelFrom) =>
      if from.FromGroup? && from.group in m.groups then Some(Truncate(m.groups[from.group])) else None
  }

  function FromLabels(labels: map<string, string>): LabelFrom -> Option<string> {
    (from: LabelFrom) =>
      if from.FromProm? && from.key in labels then Some(Truncate(labels[from.key])) else None
  }

  /** The declared labels that could be read. */
  function ReadLabels(labels: seq<(string, LabelFrom)>, read: LabelFrom -> Option<string>): map<string, string> {
    if labels == [] then map[]
    else
      var before := ReadLabels(labels[..|labels| - 1], read);
      var (key, from) := labels[|labels| - 1];
      match read(from)
      case None => before
      case Some(value) => before[key := value]
  }

  function TrimUnderscores(s: string): string {
    if s != "" && s[0] == '_' then TrimUnderscores(s[1..]) else s
  }

  predicate Special(key: string) { Reserved(key) || "__" <= key }

  /** Reserved labels of an exporter are renamed, not lost. */
  function ExportedKey(key: string): string {
    if Special(key) then "exported_" + TrimUnderscores(key) else key
  }

  function ExportKeys(labels: map<string, string>, keys: seq<string>): map<string, string>
    requires forall k :: 0 <= k < |keys| ==> keys[k] in labels
  {
    if keys == [] then map[]
    else
      var last := keys[|keys| - 1];
      ExportKeys(labels, keys[..|keys| - 1])[ExportedKey(last) := Truncate(labels[last])]
  }

  function ExportedLabels(labels: map<string, string>): map<string, string> {
    KeysInOrder(labels);
    ExportKeys(labels, InOrder(labels.Keys))
  }

  // ------------------------------------------------------------ what a source produces

  /** `filter_map` over a list. */
  function Collect<A, B>(items: seq<A>, f: A -> Option<B>): seq<B> {
    if items == [] then []
    else
      var before := Collect(items[..|items| - 1], f);
      match f(items[|items| - 1])
      case None => before
      case Some(b) => before + [b]
  }

  /** `flat_map` over a list. */
  function Gather<A, B>(items: seq<A>, f: A -> seq<B>): seq<B> {
    if items == [] then [] else Gather(items[..|items| - 1], f) + f(items[|items| - 1])
  }

  function Take<A>(items: seq<A>, n: nat): seq<A> {
    if |items| <= n then items else items[..n]
  }

  function JsonSample(lib: Libraries, metric: Metric): ((Json, Json)) -> Option<Sample<Float>> {
    (found: (Json, Json)) =>
      var value := NumberOf(lib, found.0, metric.values, metric.scale);
      if value.None? then None
      else Some(Sample(metric.name, ReadLabels(metric.labels, FromNode(lib, found.1)), value.value, metric.kind))
  }

  function JsonSamples(lib: Libraries, document: Json): Metric -> seq<Sample<Float>> {
    (metric: Metric) =>
      if metric.extractor.JsonPath?
      then Collect(Take(lib.located(metric.extractor.path, document), MAX_ROWS), JsonSample(lib, metric))
      else []
  }

  function RowSample(lib: Libraries, row: Json, labels: map<string, string>): RowMetric -> Option<Sample<Float>> {
    (metric: RowMetric) =>
      var nodes := lib.query(metric.path, row);
      if nodes == [] then None
      else
        var value := NumberOf(lib, nodes[0], metric.values, metric.scale);
        if value.None? then None else Some(Sample(metric.name, labels, value.value, metric.kind))
  }

  function RowSamples(lib: Libraries, discover: Discover): Json -> seq<Sample<Float>> {
    (row: Json) => Collect(discover.metrics, RowSample(lib, row, ReadLabels(discover.labels, FromNode(lib, row))))
  }

  function DiscoverSamples(lib: Libraries, document: Json): Discover -> seq<Sample<Float>> {
    (discover: Discover) =>
      Gather(Take(lib.query(discover.rows, document), discover.maxRows), RowSamples(lib, discover))
  }

  function RegexSample(lib: Libraries, metric: Metric, named: bool): Match -> Option<Sample<Float>> {
    (m: Match) =>
      var raw := if !named then m.first else if "value" in m.groups then Some(m.groups["value"]) else None;
      if raw.None? then None
      else
        var value := Scaled(lib, TextNumber(lib, raw.value, metric.values), metric.scale);
        if value.None? then None
        else Some(Sample(metric.name, ReadLabels(metric.labels, FromMatch(m)), value.value, metric.kind))
  }

  function RegexSamples(lib: Libraries, text: string): Metric -> seq<Sample<Float>> {
    (metric: Metric) =>
      if metric.extractor.Regex? then
        var pattern := metric.extractor.pattern;
        Collect(Take(lib.matches(pattern, text), MAX_ROWS), RegexSample(lib, metric, "value" in lib.groups(pattern)))
      else []
  }

  predicate Dropped(lib: Libraries, source: Source, sample: Parsed<Float>) {
    exists key :: key in source.drop && key in sample.labels && lib.isMatch(source.drop[key], sample.labels[key])
  }

  function Undropped(lib: Libraries, source: Source): Parsed<Float> -> Option<Parsed<Float>> {
    (sample: Parsed<Float>) => if Dropped(lib, source, sample) then None else Some(sample)
  }

  /** The name a sample of a kept family is written under, without the prefix. */
  function KeptName(keep: seq<(string, string)>, sample: Parsed<Float>): Option<string> {
    if keep == [] then None
    else
      var (family, written) := keep[0];
      if sample.name == family then Some(written)
      else if sample.family == Some(family) && |family| <= |sample.name| then Some(written + sample.name[|family|..])
      else KeptName(keep[1..], sample)
  }

  function PromKind(sample: Parsed<Float>): Kind {
    if sample.familyType == "counter" || sample.familyType == "histogram" then Counter
    else if sample.familyType == "summary" && sample.family != Some(sample.name) then Counter
    else Gauge
  }

  function KeptSample(source: Source): Parsed<Float> -> Option<Sample<Float>> {
    (sample: Parsed<Float>) =>
      var name := KeptName(source.keep, sample);
      if name.None? then None
      else Some(Sample(source.prefix + name.value, ExportedLabels(sample.labels), sample.value, PromKind(sample)))
  }

  function PromSample(lib: Libraries, metric: Metric): Parsed<Float> -> Option<Sample<Float>> {
    (sample: Parsed<Float>) =>
      if metric.extractor != Prom(sample.name) then None
      else
        var labels := if metric.labels == [] then ExportedLabels(sample.labels)
                      else ReadLabels(metric.labels, FromLabels(sample.labels));
        Some(Sample(metric.name, labels, Scale(lib, sample.value, metric.scale), metric.kind))
  }

  function PromSamples(lib: Libraries, samples: seq<Parsed<Float>>): Metric -> seq<Sample<Float>> {
    (metric: Metric) => if metric.extractor.Prom? then Collect(samples, PromSample(lib, metric)) else []
  }

  function SourceSamples(lib: Libraries, source: Source, body: Body): seq<Sample<Float>> {
    match body
    case Document(document) =>
      Gather(source.metrics, JsonSamples(lib, document)) + Gather(source.discovers, DiscoverSamples(lib, document))
    case Plain(text) => Gather(source.metrics, RegexSamples(lib, text))
    case Exposed(samples) =>
      var kept := Collect(samples, Undropped(lib, source));
      Collect(kept, KeptSample(source)) + Gather(source.metrics, PromSamples(lib, kept))
  }

  // ------------------------------------------------------------ the extractor

  function AsSeq<A>(found: Option<A>): seq<A> {
    if found.None? then [] else [found.value]
  }

  /** What one more turn of a `filter_map` loop appends. */
  lemma CollectStep<A, B>(out: seq<B>, items: seq<A>, f: A -> Option<B>, i: nat)
    requires i < |items|
    ensures out + Collect(items[..i + 1], f) == out + Collect(items[..i], f) + AsSeq(f(items[i]))
  {
    assert items[..i + 1][..i] == items[..i];
    var before := Collect(items[..i], f);
    assert out + (before + AsSeq(f(items[i]))) == out + before + AsSeq(f(items[i]));
    assert before + [] == before;
  }

  /** What one more turn of a `flat_map` loop appends. */
  lemma GatherStep<A, B>(out: seq<B>, items: seq<A>, f: A -> seq<B>, i: nat)
    requires i < |items|
    ensures out + Gather(items[..i + 1], f) == out + Gather(items[..i], f) + f(items[i])
  {
    assert items[..i + 1][..i] == items[..i];
    var before := Gather(items[..i], f);
    assert out + (before + f(items[i])) == out + before + f(items[i]);
  }

  lemma Append<A>(out: seq<A>, a: seq<A>, b: seq<A>)
    ensures out + (a + b) == out + a + b
  {
  }

  method Labels(labels: seq<(string, LabelFrom)>, read: LabelFrom -> Option<string>) returns (r: map<string, string>)
    ensures r == ReadLabels(labels, read)
  {
    r := map[];
    for i := 0 to |labels|
      invariant r == ReadLabels(labels[..i], read)
    {
      assert labels[..i + 1][..i] == labels[..i];
      var (key, from) := labels[i];
      var found := read(from);
      if found.Some? {
        r := r[key := found.value];
      }
    }
    assert labels[..|labels|] == labels;
  }

  method JsonMetric(lib: Libraries, metric: Metric, document: Json, out: seq<Sample<Float>>)
      returns (r: seq<Sample<Float>>)
    ensures r == out + JsonSamples(lib, document)(metric)
  {
    hide NumberOf;
    hide ReadLabels;
    hide FromNode;
    r := out;
    if metric.extractor.JsonPath? {
      var nodes := Take(lib.located(metric.extractor.path, document), MAX_ROWS);
      for i := 0 to |nodes|
        invariant r == out + Collect(nodes[..i], JsonSample(lib, metric))
      {
        CollectStep(out, nodes, JsonSample(lib, metric), i);
        var value := NumberOf(lib, nodes[i].0, metric.values, metric.scale);
        if value.Some? {
          var labels := Labels(metric.labels, FromNode(lib, nodes[i].1));
          r := r + [Sample(metric.name, labels, value.value, metric.kind)];
        }
      }
      assert nodes[..|nodes|] == nodes;
    }
  }

  method DiscoverRow(lib: Libraries, discover: Discover, row: Json, out: seq<Sample<Float>>)
      returns (r: seq<Sample<Float>>)
    ensures r == out + RowSamples(lib, discover)(row)
  {
    hide NumberOf;
    hide ReadLabels;
    hide FromNode;
    var labels := Labels(discover.labels, FromNode(lib, row));
    r := out;
    for i := 0 to |discover.metrics|
      invariant r == out + Collect(discover.metrics[..i], RowSample(lib, row, labels))
    {
      var metric := discover.metrics[i];
      CollectStep(out, discover.metrics, RowSample(lib, row, labels), i);
      var nodes := lib.query(metric.path, row);
      if nodes != [] {
        var value := NumberOf(lib, nodes[0], metric.values, metric.scale);
        if value.Some? {
          r := r + [Sample(metric.name, labels, value.value, metric.kind)];
        }
      }
    }
    assert discover.metrics[..|discover.metrics|] == discover.metrics;
  }

  method DiscoverRows(lib: Libraries, discover: Discover, document: Json, out: seq<Sample<Float>>)
      returns (r: seq<Sample<Float>>)
    ensures r == out + DiscoverSamples(lib, document)(discover)
  {
    hide RowSamples;
    var rows := Take(lib.query(discover.rows, document), discover.maxRows);
    r := out;
    for i := 0 to |rows|
      invariant r == out + Gather(rows[..i], RowSamples(lib, discover))
    {
      GatherStep(out, rows, RowSamples(lib, discover), i);
      r := DiscoverRow(lib, discover, rows[i], r);
    }
    assert rows[..|rows|] == rows;
  }

  method RegexMetric(lib: Libraries, metric: Metric, text: string, out: seq<Sample<Float>>)
      returns (r: seq<Sample<Float>>)
    ensures r == out + RegexSamples(lib, text)(metric)
  {
    hide TextNumber;
    hide ReadLabels;
    hide FromMatch;
    r := out;
    if metric.extractor.Regex? {
      var pattern := metric.extractor.pattern;
      var named := "value" in lib.groups(pattern);
      var found := Take(lib.matches(pattern, text), MAX_ROWS);
      for i := 0 to |found|
        invariant r == out + Collect(found[..i], RegexSample(lib, metric, named))
      {
        CollectStep(out, found, RegexSample(lib, metric, named), i);
        var m := found[i];
        var raw := if !named then m.first else if "value" in m.groups then Some(m.groups["value"]) else None;
        if raw.Some? {
          var value := Scaled(lib, TextNumber(lib, raw.value, metric.values), metric.scale);
          if value.Some? {
            var labels := Labels(metric.labels, FromMatch(m));
            r := r + [Sample(metric.name, labels, value.value, metric.kind)];
          }
        }
      }
      assert found[..|found|] == found;
    }
  }

  /** The slice is in bounds because a family is a prefix of the names in it. */
  method FindKeptName(keep: seq<(string, string)>, sample: Parsed<Float>) returns (r: Option<string>)
    requires WellRead(sample)
    ensures r == KeptName(keep, sample)
  {
    for i := 0 to |keep|
      invariant KeptName(keep, sample) == KeptName(keep[i..], sample)
    {
      assert keep[i..][1..] == keep[i + 1..];
      var (family, written) := keep[i];
      if sample.name == family {
        return Some(written);
      }
      if sample.family == Some(family) {
        return Some(written + sample.name[|family|..]);
      }
    }
    return None;
  }

  ghost predicate AllWellRead(samples: seq<Parsed<Float>>) {
    forall k :: 0 <= k < |samples| ==> WellRead(samples[k])
  }

  method KeepFamilies(lib: Libraries, source: Source, samples: seq<Parsed<Float>>, out: seq<Sample<Float>>)
      returns (r: seq<Sample<Float>>)
    requires AllWellRead(samples)
    ensures r == out + Collect(samples, KeptSample(source))
  {
    hide WellRead;
    hide KeptName;
    hide ExportedLabels;
    r := out;
    if source.keep == [] {
      KeepsNothing(source, samples);
      return;
    }
    for i := 0 to |samples|
      invariant r == out + Collect(samples[..i], KeptSample(source))
    {
      CollectStep(out, samples, KeptSample(source), i);
      var name := FindKeptName(source.keep, samples[i]);
      if name.Some? {
        var labels := ExportedLabels(samples[i].labels);
        r := r + [Sample(source.prefix + name.value, labels, samples[i].value, PromKind(samples[i]))];
      }
    }
    assert samples[..|samples|] == samples;
  }

  lemma {:induction false} KeepsNothing(source: Source, samples: seq<Parsed<Float>>)
    requires source.keep == []
    ensures Collect(samples, KeptSample(source)) == []
    decreases |samples|
  {
    if samples != [] {
      KeepsNothing(source, samples[..|samples| - 1]);
    }
  }

  method PromMetric(lib: Libraries, metric: Metric, samples: seq<Parsed<Float>>, out: seq<Sample<Float>>)
      returns (r: seq<Sample<Float>>)
    ensures r == out + PromSamples(lib, samples)(metric)
  {
    hide ReadLabels;
    hide FromLabels;
    hide ExportedLabels;
    hide Scale;
    r := out;
    if metric.extractor.Prom? {
      for i := 0 to |samples|
        invariant r == out + Collect(samples[..i], PromSample(lib, metric))
      {
        CollectStep(out, samples, PromSample(lib, metric), i);
        if samples[i].name == metric.extractor.name {
          var labels := ExportedLabels(samples[i].labels);
          if metric.labels != [] {
            labels := Labels(metric.labels, FromLabels(samples[i].labels));
          }
          r := r + [Sample(metric.name, labels, Scale(lib, samples[i].value, metric.scale), metric.kind)];
        }
      }
      assert samples[..|samples|] == samples;
    }
  }

  ghost predicate Readable(body: Body) {
    body.Exposed? ==> AllWellRead(body.samples)
  }

  method ExtractSource(lib: Libraries, source: Source, body: Body, out: seq<Sample<Float>>)
      returns (r: seq<Sample<Float>>)
    requires Readable(body)
    ensures r == out + SourceSamples(lib, source, body)
  {
    match body
    case Document(document) =>
      r := JsonMetrics(lib, source.metrics, document, out);
      Append(out, Gather(source.metrics, JsonSamples(lib, document)),
          Gather(source.discovers, DiscoverSamples(lib, document)));
      r := Discovers(lib, source.discovers, document, r);
    case Plain(text) =>
      r := RegexMetrics(lib, source.metrics, text, out);
    case Exposed(samples) =>
      var kept := Collect(samples, Undropped(lib, source));
      KeptIsWellRead(lib, source, samples);
      r := KeepFamilies(lib, source, kept, out);
      Append(out, Collect(kept, KeptSample(source)), Gather(source.metrics, PromSamples(lib, kept)));
      r := PromMetrics(lib, source.metrics, kept, r);
  }

  lemma {:induction false} KeptIsWellRead(lib: Libraries, source: Source, samples: seq<Parsed<Float>>)
    requires AllWellRead(samples)
    ensures AllWellRead(Collect(samples, Undropped(lib, source)))
    decreases |samples|
  {
    hide WellRead;
    hide Dropped;
    if samples != [] {
      KeptIsWellRead(lib, source, samples[..|samples| - 1]);
    }
  }

  method JsonMetrics(lib: Libraries, metrics: seq<Metric>, document: Json, out: seq<Sample<Float>>)
      returns (r: seq<Sample<Float>>)
    ensures r == out + Gather(metrics, JsonSamples(lib, document))
  {
    hide JsonSamples;
    r := out;
    for i := 0 to |metrics|
      invariant r == out + Gather(metrics[..i], JsonSamples(lib, document))
    {
      GatherStep(out, metrics, JsonSamples(lib, document), i);
      r := JsonMetric(lib, metrics[i], document, r);
    }
    assert metrics[..|metrics|] == metrics;
  }

  method Discovers(lib: Libraries, discovers: seq<Discover>, document: Json, out: seq<Sample<Float>>)
      returns (r: seq<Sample<Float>>)
    ensures r == out + Gather(discovers, DiscoverSamples(lib, document))
  {
    hide DiscoverSamples;
    r := out;
    for i := 0 to |discovers|
      invariant r == out + Gather(discovers[..i], DiscoverSamples(lib, document))
    {
      GatherStep(out, discovers, DiscoverSamples(lib, document), i);
      r := DiscoverRows(lib, discovers[i], document, r);
    }
    assert discovers[..|discovers|] == discovers;
  }

  method RegexMetrics(lib: Libraries, metrics: seq<Metric>, text: string, out: seq<Sample<Float>>)
      returns (r: seq<Sample<Float>>)
    ensures r == out + Gather(metrics, RegexSamples(lib, text))
  {
    hide RegexSamples;
    r := out;
    for i := 0 to |metrics|
      invariant r == out + Gather(metrics[..i], RegexSamples(lib, text))
    {
      GatherStep(out, metrics, RegexSamples(lib, text), i);
      r := RegexMetric(lib, metrics[i], text, r);
    }
    assert metrics[..|metrics|] == metrics;
  }

  method PromMetrics(lib: Libraries, metrics: seq<Metric>, samples: seq<Parsed<Float>>, out: seq<Sample<Float>>)
      returns (r: seq<Sample<Float>>)
    ensures r == out + Gather(metrics, PromSamples(lib, samples))
  {
    hide PromSamples;
    r := out;
    for i := 0 to |metrics|
      invariant r == out + Gather(metrics[..i], PromSamples(lib, samples))
    {
      GatherStep(out, metrics, PromSamples(lib, samples), i);
      r := PromMetric(lib, metrics[i], samples, r);
    }
    assert metrics[..|metrics|] == metrics;
  }

  // ------------------------------------------------------------ a whole pack

  function Decoded(lib: Libraries, source: Source, bytes: Bytes): Result<Body, string> {
    match source.format
    case JsonBody =>
      var document := lib.json(bytes);
      if document.None? then Err(source.id + ": invalid JSON") else Ok(Document(document.value))
    case TextBody => Ok(Plain(lib.text(bytes)))
    case PromBody =>
      var page := PageSpec(lib.codec, Lines(lib.text(bytes)), 1, map[]);
      if page.Err? then Err(source.id + ": invalid exposition") else Ok(Exposed(page.value))
  }

  method Decode(lib: Libraries, source: Source, bytes: Bytes) returns (r: Result<Body, string>)
    ensures r == Decoded(lib, source, bytes)
    ensures r.Ok? ==> Readable(r.value)
  {
    hide PageSpec;
    hide WellRead;
    match source.format
    case JsonBody =>
      var document := lib.json(bytes);
      return if document.None? then Err(source.id + ": invalid JSON") else Ok(Document(document.value));
    case TextBody => return Ok(Plain(lib.text(bytes)));
    case PromBody =>
      ParsedIsWellRead(lib.codec, Lines(lib.text(bytes)), 1, map[]);
      var page := Parse(lib.codec, lib.text(bytes));
      return if page.Err? then Err(source.id + ": invalid exposition") else Ok(Exposed(page.value));
  }

  lemma DecodedIsReadable(lib: Libraries, source: Source, bytes: Bytes)
    ensures Decoded(lib, source, bytes).Ok? ==> Readable(Decoded(lib, source, bytes).value)
  {
    hide PageSpec;
    hide WellRead;
    ParsedIsWellRead(lib.codec, Lines(lib.text(bytes)), 1, map[]);
    var page := PageSpec(lib.codec, Lines(lib.text(bytes)), 1, map[]);
    assert page.Ok? ==> AllWellRead(page.value);
  }

  /** Each source that was answered, in order; a source without an answer gives nothing. */
  function AllSamples(
      lib: Libraries, sources: seq<Source>, bodies: map<string, Bytes>): Result<seq<Sample<Float>>, string> {
    if sources == [] then Ok([])
    else if sources[0].id !in bodies then AllSamples(lib, sources[1..], bodies)
    else
      match Decoded(lib, sources[0], bodies[sources[0].id])
      case Err(error) => Err(error)
      case Ok(body) =>
        match AllSamples(lib, sources[1..], bodies)
        case Err(error) => Err(error)
        case Ok(more) => Ok(SourceSamples(lib, sources[0], body) + more)
  }

  function Then(out: seq<Sample<Float>>, rest: Result<seq<Sample<Float>>, string>): Result<seq<Sample<Float>>, string> {
    match rest
    case Err(error) => Err(error)
    case Ok(more) => Ok(out + more)
  }

  lemma ThenThen(out: seq<Sample<Float>>, a: seq<Sample<Float>>, rest: Result<seq<Sample<Float>>, string>)
    ensures Then(out, Then(a, rest)) == Then(out + a, rest)
    ensures Then([], rest) == rest
  {
    if rest.Ok? {
      assert out + (a + rest.value) == out + a + rest.value;
      assert [] + rest.value == rest.value;
    }
  }

  lemma AllSamplesUnfolds(lib: Libraries, sources: seq<Source>, i: nat, bodies: map<string, Bytes>)
    requires i < |sources|
    ensures var rest := AllSamples(lib, sources[i + 1..], bodies);
            AllSamples(lib, sources[i..], bodies) ==
            if sources[i].id !in bodies then rest
            else
              var body := Decoded(lib, sources[i], bodies[sources[i].id]);
              if body.Err? then Err(body.error) else Then(SourceSamples(lib, sources[i], body.value), rest)
  {
    hide Decoded;
    hide SourceSamples;
    assert sources[i..][1..] == sources[i + 1..];
  }

  method ExtractPack(lib: Libraries, pack: Pack, bodies: map<string, Bytes>)
      returns (r: Result<seq<Sample<Float>>, string>)
    ensures var all := AllSamples(lib, pack.sources, bodies);
            r == if all.Err? then all else Ok(Take(all.value, MAX_SERIES))
  {
    hide Decoded;
    hide SourceSamples;
    hide AllSamples;
    var sources := pack.sources;
    var out: seq<Sample<Float>> := [];
    ThenThen([], [], AllSamples(lib, sources, bodies));
    assert sources[0..] == sources;
    for i := 0 to |sources|
      invariant AllSamples(lib, sources, bodies) == Then(out, AllSamples(lib, sources[i..], bodies))
    {
      AllSamplesUnfolds(lib, sources, i, bodies);
      if sources[i].id in bodies {
        var body := Decode(lib, sources[i], bodies[sources[i].id]);
        if body.Err? {
          return Err(body.error);
        }
        ThenThen(out, SourceSamples(lib, sources[i], body.value), AllSamples(lib, sources[i + 1..], bodies));
        out := ExtractSource(lib, sources[i], body.value, out);
      }
    }
    assert sources[|sources|..] == [];
    NothingMore(lib, bodies, out);
    return Ok(Take(out, MAX_SERIES));
  }

  lemma NothingMore(lib: Libraries, bodies: map<string, Bytes>, out: seq<Sample<Float>>)
    ensures Then(out, AllSamples(lib, [], bodies)) == Ok(out)
  {
    assert out + [] == out;
  }
}
