/** Compiling an integration pack: which manifests are accepted, and the names an
    accepted one may write. */
module Compile {
  import opened Wrappers
  import opened Text
  import opened Exposition

  // ------------------------------------------------------------ the manifest

  /** A floating-point number, of which nothing is known here.  All that is not a number
      is one value, since it is printed and read alike. */
  type Float(==, !new)

  datatype SourceType = Http | Prometheus

  datatype Format = JsonFormat | TextFormat

  /** `templated`: its path, headers and body parse and pass their own checks. */
  datatype SourceSpec = SourceSpec(
    id: string, kind: SourceType, format: Option<Format>, templated: bool,
    keep: seq<string>, rename: map<string, string>, drop: map<string, string>)

  datatype MetricSpec = MetricSpec(
    name: string, source: string, json: Option<string>, regex: Option<string>, prom: Option<string>,
    kind: Kind, scale: Option<Float>, values: map<string, Float>, labels: map<string, string>)

  datatype RowSpec = RowSpec(name: string, json: string, kind: Kind, scale: Option<Float>, values: map<string, Float>)

  datatype DiscoverSpec = DiscoverSpec(
    name: string, source: string, rows: string, maxRows: nat, labels: map<string, string>, metrics: seq<RowSpec>)

  datatype Manifest = Manifest(
    id: string, sources: seq<SourceSpec>, metrics: seq<MetricSpec>, discover: seq<DiscoverSpec>)

  /** What the JSONPath and regular-expression libraries answer when asked to compile,
      and which numbers are finite and not zero. */
  datatype Syntax = Syntax(
    path: string -> bool, regex: string -> bool, groups: string -> set<string>, captures: string -> nat,
    scale: Float -> bool)

  // ------------------------------------------------------------ the compiled pack

  datatype BodyFormat = JsonBody | TextBody | PromBody

  datatype Extractor = JsonPath(path: string) | Regex(pattern: string) | Prom(name: string)

  datatype LabelFrom = FromJson(path: string) | FromGroup(group: string) | FromProm(key: string)

  datatype Metric = Metric(
    name: string, kind: Kind, extractor: Extractor, scale: Option<Float>, values: map<string, Float>,
    labels: seq<(string, LabelFrom)>)

  datatype RowMetric = RowMetric(name: string, kind: Kind, path: string, scale: Option<Float>,
    values: map<string, Float>)

  datatype Discover = Discover(
    name: string, rows: string, maxRows: nat, labels: seq<(string, LabelFrom)>, metrics: seq<RowMetric>)

  datatype Source = Source(
    id: string, prefix: string, format: BodyFormat, keep: seq<(string, string)>, drop: map<string, string>,
    metrics: seq<Metric>, discovers: seq<Discover>)

  datatype Pack = Pack(sources: seq<Source>, produced: set<string>, variants: set<string>)

  const MAX_REQUESTS := 16
  const MAX_METRICS := 256
  const MAX_ROWS := 1000

  const RESERVED_LABELS := {"target", "target_id", "host", "hostname", "instance", "address", "job"}

  // ------------------------------------------------------------ what is accepted

  predicate IsLower(c: char) { 'a' <= c <= 'z' }

  predicate IsNameTail(c: char) { IsLower(c) || IsDigit(c) || c == '_' }

  predicate IsName(s: string) {
    s != "" && IsLower(s[0]) && forall k :: 0 <= k < |s| ==> IsNameTail(s[k])
  }

  predicate IsLabel(s: string) {
    s != "" && (IsLower(s[0]) || s[0] == '_') && forall k :: 0 <= k < |s| ==> IsNameTail(s[k])
  }

  predicate NameAccepted(name: string) { IsName(name) && |name| <= 100 }

  /** A label the server itself sets, or reads to find the target. */
  predicate Reserved(key: string) { key in RESERVED_LABELS || "tag_" <= key }

  predicate LabelAccepted(key: string) {
    IsLabel(key) && !("__" <= key) && !Reserved(key)
  }

  predicate ScaleAccepted(syntax: Syntax, scale: Option<Float>) { scale.Some? ==> syntax.scale(scale.value) }

  function PrefixFor(id: string): (r: string)
    ensures |r| == |id| + 1
  {
    seq(|id|, i requires 0 <= i < |id| => if id[i] == '-' then '_' else id[i]) + "_"
  }

  /** The name a series is stored under. */
  function Full(prefix: string, name: string): string { METRIC_PREFIX + (prefix + name) }

  lemma FullTellsNames(prefix: string, a: string, b: string)
    requires Full(prefix, a) == Full(prefix, b)
    ensures a == b
  {
    var p := METRIC_PREFIX + prefix;
    assert Full(prefix, a) == p + a && Full(prefix, b) == p + b;
    assert a == (p + a)[|p|..] && b == (p + b)[|p|..];
  }

  function FormatOf(spec: SourceSpec): BodyFormat {
    if spec.kind == Prometheus then PromBody
    else if spec.format == Some(TextFormat) then TextBody
    else JsonBody
  }

  function Written(spec: SourceSpec, family: string): string {
    if family in spec.rename then spec.rename[family] else family
  }

  predicate KeepAccepted(spec: SourceSpec) {
    forall k :: 0 <= k < |spec.keep| ==> IsName(Written(spec, spec.keep[k]))
  }

  predicate DropAccepted(syntax: Syntax, drop: map<string, string>) {
    forall key :: key in drop ==> syntax.regex(drop[key])
  }

  predicate SourceBodyAccepted(syntax: Syntax, spec: SourceSpec) {
    && spec.templated
    && (spec.kind == Prometheus ==> spec.format == None)
    && (spec.kind == Http ==> spec.keep == [] && spec.rename == map[] && spec.drop == map[])
    && KeepAccepted(spec) && DropAccepted(syntax, spec.drop)
  }

  predicate SourceAccepted(syntax: Syntax, spec: SourceSpec) {
    IsName(spec.id) && SourceBodyAccepted(syntax, spec)
  }

  /** Where the labels of a metric are read, by its kind of extractor. */
  datatype LabelSource = InJson | InGroups(groups: set<string>) | InSample

  predicate LabelsAccepted(syntax: Syntax, source: LabelSource, labels: map<string, string>) {
    forall key :: key in labels ==>
      LabelAccepted(key) && LabelReadable(syntax, source, labels[key])
  }

  predicate LabelReadable(syntax: Syntax, source: LabelSource, from: string) {
    match source
    case InJson => syntax.path(from)
    case InGroups(groups) => from in groups
    case InSample => true
  }

  predicate JsonAccepted(syntax: Syntax, path: string, labels: map<string, string>, format: BodyFormat) {
    format == JsonBody && syntax.path(path) && LabelsAccepted(syntax, InJson, labels)
  }

  predicate RegexAccepted(syntax: Syntax, pattern: string, labels: map<string, string>, format: BodyFormat) {
    && format == TextBody && syntax.regex(pattern) && syntax.captures(pattern) >= 2
    && LabelsAccepted(syntax, InGroups(syntax.groups(pattern)), labels)
  }

  predicate PromAccepted(syntax: Syntax, labels: map<string, string>, format: BodyFormat) {
    format == PromBody && LabelsAccepted(syntax, InSample, labels)
  }

  predicate MetricAccepted(syntax: Syntax, spec: MetricSpec, format: BodyFormat) {
    && ScaleAccepted(syntax, spec.scale)
    && match (spec.json, spec.regex, spec.prom)
       case (Some(path), None, None) => JsonAccepted(syntax, path, spec.labels, format)
       case (None, Some(pattern), None) => RegexAccepted(syntax, pattern, spec.labels, format)
       case (None, None, Some(_)) => PromAccepted(syntax, spec.labels, format)
       case _ => false
  }

  predicate RowAccepted(syntax: Syntax, spec: RowSpec) {
    ScaleAccepted(syntax, spec.scale) && syntax.path(spec.json)
  }

  predicate RowsAccepted(syntax: Syntax, specs: seq<RowSpec>) {
    forall k :: 0 <= k < |specs| ==> RowAccepted(syntax, specs[k])
  }

  predicate DiscoverAccepted(syntax: Syntax, spec: DiscoverSpec, format: BodyFormat) {
    && format == JsonBody && 1 <= spec.maxRows <= MAX_ROWS && spec.metrics != [] && syntax.path(spec.rows)
    && LabelsAccepted(syntax, InJson, spec.labels)
    && RowsAccepted(syntax, spec.metrics)
  }

  function WrittenNames(spec: SourceSpec): seq<string> {
    seq(|spec.keep|, i requires 0 <= i < |spec.keep| => Written(spec, spec.keep[i]))
  }

  function KeptNames(specs: seq<SourceSpec>): seq<string> {
    if specs == [] then [] else KeptNames(specs[..|specs| - 1]) + WrittenNames(specs[|specs| - 1])
  }

  function MetricNames(specs: seq<MetricSpec>): seq<string> {
    seq(|specs|, i requires 0 <= i < |specs| => specs[i].name)
  }

  function RowNames(specs: seq<RowSpec>): seq<string> {
    seq(|specs|, i requires 0 <= i < |specs| => specs[i].name)
  }

  function DiscoverNames(specs: seq<DiscoverSpec>): seq<string> {
    if specs == [] then [] else DiscoverNames(specs[..|specs| - 1]) + RowNames(specs[|specs| - 1].metrics)
  }

  /** Every name a manifest claims, in the order it is read. */
  function Claims(m: Manifest): seq<string> {
    KeptNames(m.sources) + MetricNames(m.metrics) + DiscoverNames(m.discover)
  }

  predicate NamesAccepted(names: seq<string>) {
    && (forall k :: 0 <= k < |names| ==> NameAccepted(names[k]))
    && forall i, j :: 0 <= i < j < |names| ==> names[i] != names[j]
  }

  lemma NamesAcceptedSnoc(names: seq<string>, name: string)
    ensures NamesAccepted(names + [name]) <==> NamesAccepted(names) && NameAccepted(name) && name !in names
  {
    hide NameAccepted;
    var more := names + [name];
    assert more[|names|] == name;
    assert forall k :: 0 <= k < |names| ==> more[k] == names[k];
  }

  predicate DistinctIds(specs: seq<SourceSpec>) {
    forall i, j :: 0 <= i < j < |specs| ==> specs[i].id != specs[j].id
  }

  predicate SourcesAccepted(syntax: Syntax, specs: seq<SourceSpec>) {
    (forall k :: 0 <= k < |specs| ==> SourceAccepted(syntax, specs[k])) && DistinctIds(specs)
  }

  function RowCount(specs: seq<DiscoverSpec>): nat {
    if specs == [] then 0 else RowCount(specs[..|specs| - 1]) + |specs[|specs| - 1].metrics|
  }

  predicate MetricPlaced(syntax: Syntax, sources: seq<SourceSpec>, spec: MetricSpec) {
    exists k :: 0 <= k < |sources| && sources[k].id == spec.source && MetricAccepted(syntax, spec, FormatOf(sources[k]))
  }

  predicate DiscoverPlaced(syntax: Syntax, sources: seq<SourceSpec>, spec: DiscoverSpec) {
    exists k :: 0 <= k < |sources| && sources[k].id == spec.source
      && DiscoverAccepted(syntax, spec, FormatOf(sources[k]))
  }

  /** The manifests that compile, said without saying how they are read. */
  predicate Accepted(syntax: Syntax, m: Manifest) {
    && |m.sources| <= MAX_REQUESTS && |m.metrics| + RowCount(m.discover) <= MAX_METRICS
    && SourcesAccepted(syntax, m.sources)
    && NamesAccepted(Claims(m))
    && (forall k :: 0 <= k < |m.metrics| ==> MetricPlaced(syntax, m.sources, m.metrics[k]))
    && forall k :: 0 <= k < |m.discover| ==> DiscoverPlaced(syntax, m.sources, m.discover[k])
  }

  // ------------------------------------------------------------ what comes out

  function KeepOf(spec: SourceSpec): seq<(string, string)> {
    seq(|spec.keep|, i requires 0 <= i < |spec.keep| => (spec.keep[i], Written(spec, spec.keep[i])))
  }

  function LabelOf(source: LabelSource, from: string): LabelFrom {
    match source
    case InJson => FromJson(from)
    case InGroups(_) => FromGroup(from)
    case InSample => FromProm(from)
  }

  function LabelPairs(source: LabelSource, labels: map<string, string>, keys: seq<string>): seq<(string, LabelFrom)>
    requires forall k :: 0 <= k < |keys| ==> keys[k] in labels
  {
    seq(|keys|, i requires 0 <= i < |keys| => (keys[i], LabelOf(source, labels[keys[i]])))
  }

  function LabelsOf(source: LabelSource, labels: map<string, string>): seq<(string, LabelFrom)> {
    KeysInOrder(labels);
    LabelPairs(source, labels, InOrder(labels.Keys))
  }

  function MetricOf(prefix: string, spec: MetricSpec): Metric {
    var (extractor, source) :=
      if spec.json.Some? then (JsonPath(spec.json.value), InJson)
      else if spec.regex.Some? then (Regex(spec.regex.value), InGroups({}))
      else (Prom(if spec.prom.Some? then spec.prom.value else ""), InSample);
    Metric(prefix + spec.name, spec.kind, extractor, spec.scale, spec.values, LabelsOf(source, spec.labels))
  }

  function RowOf(prefix: string, spec: RowSpec): RowMetric {
    RowMetric(prefix + spec.name, spec.kind, spec.json, spec.scale, spec.values)
  }

  function RowsOf(prefix: string, specs: seq<RowSpec>): seq<RowMetric> {
    seq(|specs|, i requires 0 <= i < |specs| => RowOf(prefix, specs[i]))
  }

  function DiscoverOf(prefix: string, spec: DiscoverSpec): Discover {
    Discover(spec.name, spec.rows, spec.maxRows, LabelsOf(InJson, spec.labels), RowsOf(prefix, spec.metrics))
  }

  function MetricsFor(prefix: string, id: string, specs: seq<MetricSpec>): seq<Metric> {
    if specs == [] then []
    else
      var last := specs[|specs| - 1];
      MetricsFor(prefix, id, specs[..|specs| - 1]) + if last.source == id then [MetricOf(prefix, last)] else []
  }

  function DiscoversFor(prefix: string, id: string, specs: seq<DiscoverSpec>): seq<Discover> {
    if specs == [] then []
    else
      var last := specs[|specs| - 1];
      DiscoversFor(prefix, id, specs[..|specs| - 1]) + if last.source == id then [DiscoverOf(prefix, last)] else []
  }

  /** A source with everything that reads it, each in manifest order. */
  function SourceOf(prefix: string, spec: SourceSpec, metrics: seq<MetricSpec>, discover: seq<DiscoverSpec>): Source {
    Source(spec.id, prefix, FormatOf(spec), KeepOf(spec), spec.drop,
           MetricsFor(prefix, spec.id, metrics), DiscoversFor(prefix, spec.id, discover))
  }

  function SourcesOf(
      prefix: string, specs: seq<SourceSpec>, metrics: seq<MetricSpec>, discover: seq<DiscoverSpec>): (r: seq<Source>)
    ensures |r| == |specs|
  {
    seq(|specs|, i requires 0 <= i < |specs| => SourceOf(prefix, specs[i], metrics, discover))
  }

  function ProducedBy(prefix: string, names: seq<string>): set<string> {
    set k | 0 <= k < |names| :: Full(prefix, names[k])
  }

  /** The histogram and summary series of the kept families. */
  function VariantsOf(prefix: string, names: seq<string>): set<string> {
    set k, s | 0 <= k < |names| && 0 <= s < |FAMILY_SUFFIXES| :: Full(prefix, names[k] + FAMILY_SUFFIXES[s])
  }

  function PackOf(m: Manifest): Pack {
    var prefix := PrefixFor(m.id);
    Pack(SourcesOf(prefix, m.sources, m.metrics, m.discover),
         ProducedBy(prefix, Claims(m)), VariantsOf(prefix, KeptNames(m.sources)))
  }

  // ------------------------------------------------------------ the compiler

  lemma ProducedSnoc(prefix: string, names: seq<string>, name: string)
    ensures ProducedBy(prefix, names + [name]) == ProducedBy(prefix, names) + {Full(prefix, name)}
    ensures Full(prefix, name) in ProducedBy(prefix, names) <==> name in names
  {
    hide Full;
    var more := names + [name];
    assert more[|names|] == name;
    assert forall k :: 0 <= k < |names| ==> more[k] == names[k];
    if Full(prefix, name) in ProducedBy(prefix, names) {
      var k :| 0 <= k < |names| && Full(prefix, names[k]) == Full(prefix, name);
      FullTellsNames(prefix, names[k], name);
    }
  }

  lemma SourcesAcceptedSnoc(syntax: Syntax, specs: seq<SourceSpec>, i: nat)
    requires i < |specs|
    ensures SourcesAccepted(syntax, specs[..i + 1])
            <==> SourcesAccepted(syntax, specs[..i]) && IsName(specs[i].id) && SourceBodyAccepted(syntax, specs[i])
                 && forall k :: 0 <= k < i ==> specs[k].id != specs[i].id
  {
    hide IsName;
    hide SourceBodyAccepted;
    assert specs[..i + 1][i] == specs[i];
    assert forall k :: 0 <= k < i ==> specs[..i + 1][k] == specs[..i][k] == specs[k];
  }

  lemma SourcesAreDistinct(syntax: Syntax, specs: seq<SourceSpec>)
    ensures SourcesAccepted(syntax, specs) ==> DistinctIds(specs)
  {
  }

  lemma NoSources(syntax: Syntax, prefix: string)
    ensures SourcesAccepted(syntax, []) && SourcesOf(prefix, [], [], []) == []
  {
  }

  lemma SourcesSnoc(prefix: string, specs: seq<SourceSpec>, i: nat)
    requires i < |specs|
    ensures SourcesOf(prefix, specs[..i + 1], [], [])
            == SourcesOf(prefix, specs[..i], [], []) + [SourceOf(prefix, specs[i], [], [])]
  {
    hide SourceOf;
  }

  lemma GroupsDoNotMatter(groups: set<string>, labels: map<string, string>)
    ensures LabelsOf(InGroups(groups), labels) == LabelsOf(InGroups({}), labels)
  {
  }

  predicate LabelsReadable(syntax: Syntax, source: LabelSource, labels: map<string, string>, keys: seq<string>) {
    forall k :: 0 <= k < |keys| ==>
      keys[k] in labels && LabelAccepted(keys[k]) && LabelReadable(syntax, source, labels[keys[k]])
  }

  lemma AllLabels(syntax: Syntax, source: LabelSource, labels: map<string, string>, keys: seq<string>)
    requires forall key :: key in keys <==> key in labels
    ensures LabelsAccepted(syntax, source, labels) <==> LabelsReadable(syntax, source, labels, keys)
  {
    hide LabelAccepted;
    hide LabelReadable;
    forall k | 0 <= k < |keys| ensures keys[k] in labels {
      assert keys[k] in keys;
    }
    if LabelsReadable(syntax, source, labels, keys) {
      forall key | key in labels ensures LabelAccepted(key) && LabelReadable(syntax, source, labels[key]) {
        assert key in keys;
      }
    }
  }

  lemma OneMoreLabel(syntax: Syntax, source: LabelSource, labels: map<string, string>, keys: seq<string>, i: nat)
    requires i < |keys| && forall k :: 0 <= k < |keys| ==> keys[k] in labels
    ensures LabelPairs(source, labels, keys[..i + 1])
            == LabelPairs(source, labels, keys[..i]) + [(keys[i], LabelOf(source, labels[keys[i]]))]
    ensures LabelsReadable(syntax, source, labels, keys[..i + 1])
            <==> LabelsReadable(syntax, source, labels, keys[..i])
                 && LabelAccepted(keys[i]) && LabelReadable(syntax, source, labels[keys[i]])
  {
    hide LabelAccepted;
    hide LabelReadable;
    hide LabelOf;
    assert keys[..i + 1] == keys[..i] + [keys[i]];
    assert keys[..i + 1][i] == keys[i];
    assert forall k :: 0 <= k < i ==> keys[..i + 1][k] == keys[..i][k];
  }

  /** The index of the first source of that id. */
  function Find(sources: seq<Source>, id: string): (n: nat)
    ensures n <= |sources|
    ensures n < |sources| ==> sources[n].id == id
    ensures forall k :: 0 <= k < n ==> sources[k].id != id
  {
    if sources == [] || sources[0].id == id then 0 else 1 + Find(sources[1..], id)
  }

  lemma VariantsSnoc(prefix: string, names: seq<string>, name: string)
    ensures VariantsOf(prefix, names + [name])
            == VariantsOf(prefix, names) + set s | 0 <= s < |FAMILY_SUFFIXES| :: Full(prefix, name + FAMILY_SUFFIXES[s])
  {
    hide Full;
    var more := names + [name];
    assert more[|names|] == name;
    assert forall k :: 0 <= k < |names| ==> more[k] == names[k];
  }

  lemma KeptSnoc(specs: seq<SourceSpec>, i: nat)
    requires i < |specs|
    ensures KeptNames(specs[..i + 1]) == KeptNames(specs[..i]) + WrittenNames(specs[i])
  {
    assert specs[..i + 1][..i] == specs[..i];
  }

  lemma OneMoreMetric(prefix: string, spec: SourceSpec, metrics: seq<MetricSpec>, i: nat)
    requires i < |metrics|
    ensures var before, behind :=
      SourceOf(prefix, spec, metrics[..i], []), SourceOf(prefix, spec, metrics[..i + 1], []);
            && before.id == spec.id && before.format == FormatOf(spec)
            && behind == if spec.id == metrics[i].source
              then before.(metrics := before.metrics + [MetricOf(prefix, metrics[i])])
                         else before
  {
    hide MetricOf;
    assert metrics[..i + 1][..i] == metrics[..i];
    var before := MetricsFor(prefix, spec.id, metrics[..i]);
    assert before + [] == before;
  }

  lemma Located(
      prefix: string, specs: seq<SourceSpec>, metrics: seq<MetricSpec>, discover: seq<DiscoverSpec>, id: string)
    ensures var n := Find(SourcesOf(prefix, specs, metrics, discover), id);
            && (n < |specs| ==> specs[n].id == id)
            && forall k :: 0 <= k < n ==> specs[k].id != id
  {
    var sources := SourcesOf(prefix, specs, metrics, discover);
    forall k | 0 <= k < |specs| ensures specs[k].id == sources[k].id {
    }
  }

  /** Pushing one more metric onto the source it names gives the sources with it. */
  lemma PushedMetric(prefix: string, specs: seq<SourceSpec>, metrics: seq<MetricSpec>, i: nat, n: nat)
    requires i < |metrics| && DistinctIds(specs) && n < |specs| && specs[n].id == metrics[i].source
    ensures var sources := SourcesOf(prefix, specs, metrics[..i], []);
            sources[n := sources[n].(metrics := sources[n].metrics + [MetricOf(prefix, metrics[i])])]
            == SourcesOf(prefix, specs, metrics[..i + 1], [])
  {
    hide MetricOf;
    hide SourceOf;
    forall k | 0 <= k < |specs|
      ensures var before := SourceOf(prefix, specs[k], metrics[..i], []);
              SourceOf(prefix, specs[k], metrics[..i + 1], [])
              == if k == n then before.(metrics := before.metrics + [MetricOf(prefix, metrics[i])]) else before
    {
      OneMoreMetric(prefix, specs[k], metrics, i);
    }
  }

  lemma PlacedMetric(syntax: Syntax, prefix: string, specs: seq<SourceSpec>, metrics: seq<MetricSpec>, i: nat, n: nat)
    requires i < |metrics| && DistinctIds(specs)
    requires n == Find(SourcesOf(prefix, specs, metrics[..i], []), metrics[i].source)
    ensures var sources := SourcesOf(prefix, specs, metrics[..i], []);
            MetricPlaced(syntax, specs, metrics[i])
            <==> n < |sources| && MetricAccepted(syntax, metrics[i], sources[n].format)
  {
    hide MetricAccepted;
    Located(prefix, specs, metrics[..i], [], metrics[i].source);
  }

  lemma OneMoreDiscover(prefix: string, spec: SourceSpec, metrics: seq<MetricSpec>, discover: seq<DiscoverSpec>, i: nat)
    requires i < |discover|
    ensures var before, behind :=
      SourceOf(prefix, spec, metrics, discover[..i]), SourceOf(prefix, spec, metrics, discover[..i + 1]);
            && before.id == spec.id && before.format == FormatOf(spec)
            && behind == if spec.id == discover[i].source
              then before.(discovers := before.discovers + [DiscoverOf(prefix, discover[i])])
                         else before
  {
    hide DiscoverOf;
    assert discover[..i + 1][..i] == discover[..i];
    var before := DiscoversFor(prefix, spec.id, discover[..i]);
    assert before + [] == before;
  }

  lemma PushedDiscover(
      prefix: string, specs: seq<SourceSpec>, metrics: seq<MetricSpec>, discover: seq<DiscoverSpec>, i: nat, n: nat)
    requires i < |discover| && DistinctIds(specs) && n < |specs| && specs[n].id == discover[i].source
    ensures var sources := SourcesOf(prefix, specs, metrics, discover[..i]);
            sources[n := sources[n].(discovers := sources[n].discovers + [DiscoverOf(prefix, discover[i])])]
            == SourcesOf(prefix, specs, metrics, discover[..i + 1])
  {
    hide DiscoverOf;
    hide SourceOf;
    forall k | 0 <= k < |specs|
      ensures var before := SourceOf(prefix, specs[k], metrics, discover[..i]);
              SourceOf(prefix, specs[k], metrics, discover[..i + 1])
              == if k == n then before.(discovers := before.discovers + [DiscoverOf(prefix, discover[i])]) else before
    {
      OneMoreDiscover(prefix, specs[k], metrics, discover, i);
    }
  }

  lemma PlacedDiscover(
      syntax: Syntax, prefix: string, specs: seq<SourceSpec>, metrics: seq<MetricSpec>, discover: seq<DiscoverSpec>,
      i: nat, n: nat)
    requires i < |discover| && DistinctIds(specs)
    requires n == Find(SourcesOf(prefix, specs, metrics, discover[..i]), discover[i].source)
    ensures var sources := SourcesOf(prefix, specs, metrics, discover[..i]);
            DiscoverPlaced(syntax, specs, discover[i])
            <==> n < |sources| && DiscoverAccepted(syntax, discover[i], sources[n].format)
  {
    hide DiscoverAccepted;
    Located(prefix, specs, metrics, discover[..i], discover[i].source);
  }

  /** The state of a compilation: what has been found wrong, and what has been built.
      `claimed` and `sound` say what the errors found so far amount to. */
  class Compiler {
    const syntax: Syntax
    const prefix: string
    var errors: seq<string>
    var warnings: seq<string>
    var produced: set<string>
    var variants: set<string>
    var sources: seq<Source>
    ghost var claimed: seq<string>
    ghost var sound: bool

    ghost predicate Valid()
      reads this
    {
      && produced == ProducedBy(prefix, claimed)
      && (errors == [] <==> sound && NamesAccepted(claimed))
    }

    constructor (syntax: Syntax, prefix: string, elsewhere: seq<string>)
      ensures Valid()
      ensures this.syntax == syntax && this.prefix == prefix && sound == (elsewhere == [])
      ensures variants == {} && sources == [] && claimed == []
    {
      this.syntax, this.prefix, errors, warnings := syntax, prefix, elsewhere, [];
      produced, variants, sources, claimed, sound := {}, {}, [], [], elsewhere == [];
    }

    method Complain(at: string, message: string)
      requires Valid()
      modifies `errors, `sound
      ensures Valid() && !sound
    {
      errors := errors + [at + ": " + message];
      sound := false;
    }

    /** Registers a name; a malformed or repeated one is an error, but is registered. */
    method Claim(at: string, name: string) returns (full: string)
      requires Valid()
      modifies `errors, `warnings, `produced, `claimed
      ensures Valid() && claimed == old(claimed) + [name] && full == prefix + name
    {
      hide NamesAccepted;
      hide ProducedBy;
      ProducedSnoc(prefix, claimed, name);
      NamesAcceptedSnoc(claimed, name);
      if !IsName(name) || |name| > 100 {
        errors := errors + [at + ": the name must be lowercase letters, digits and underscores"];
      }
      if prefix <= name {
        warnings := warnings + [at + ": names are prefixed automatically"];
      }
      full := prefix + name;
      if METRIC_PREFIX + full in produced {
        errors := errors + [at + ": produced twice"];
      }
      produced := produced + {METRIC_PREFIX + full};
      claimed := claimed + [name];
    }

    method CheckLabel(at: string, key: string)
      requires Valid()
      modifies `errors, `sound
      ensures Valid() && sound == (old(sound) && LabelAccepted(key))
    {
      if !IsLabel(key) || "__" <= key {
        Complain(at, "a label name is lowercase letters, digits and underscores");
      }
      if key in RESERVED_LABELS || "tag_" <= key {
        Complain(at, "reserved: the server sets it itself");
      }
    }

    method CheckScale(at: string, scale: Option<Float>)
      requires Valid()
      modifies `errors, `sound
      ensures Valid() && sound == (old(sound) && ScaleAccepted(syntax, scale))
    {
      if scale.Some? && !syntax.scale(scale.value) {
        Complain(at, "scale must be a finite, non-zero number");
      }
    }

    method ReadPath(at: string, raw: string) returns (path: Option<string>)
      requires Valid()
      modifies `errors, `sound
      ensures Valid() && sound == (old(sound) && syntax.path(raw))
      ensures path == if syntax.path(raw) then Some(raw) else None
    {
      if syntax.path(raw) {
        return Some(raw);
      }
      Complain(at, "invalid JSONPath");
      return None;
    }

    method Labels(at: string, source: LabelSource, labels: map<string, string>) returns (r: seq<(string, LabelFrom)>)
      requires Valid()
      modifies `errors, `sound
      ensures Valid() && sound == (old(sound) && LabelsAccepted(syntax, source, labels))
      ensures sound ==> r == LabelsOf(source, labels)
    {
      hide LabelPairs;
      hide LabelsReadable;
      hide LabelsAccepted;
      KeysInOrder(labels);
      AllLabels(syntax, source, labels, InOrder(labels.Keys));
      r := LabelsInOrder(at, source, labels, InOrder(labels.Keys));
    }

    method LabelsInOrder(at: string, source: LabelSource, labels: map<string, string>, keys: seq<string>)
        returns (r: seq<(string, LabelFrom)>)
      requires Valid() && forall k :: 0 <= k < |keys| ==> keys[k] in labels
      modifies `errors, `sound
      ensures Valid() && sound == (old(sound) && LabelsReadable(syntax, source, labels, keys))
      ensures sound ==> r == LabelPairs(source, labels, keys)
    {
      hide LabelAccepted;
      hide LabelReadable;
      hide LabelOf;
      hide NamesAccepted;
      hide ProducedBy;
      r := [];
      for i := 0 to |keys|
        invariant Valid()
        invariant sound == (old(sound) && LabelsReadable(syntax, source, labels, keys[..i]))
        invariant sound ==> r == LabelPairs(source, labels, keys[..i])
      {
        OneMoreLabel(syntax, source, labels, keys, i);
        var key, from := keys[i], labels[keys[i]];
        CheckLabel(at, key);
        if LabelReadable(syntax, source, from) {
          r := r + [(key, LabelOf(source, from))];
        } else {
          Complain(at, if source.InJson? then "invalid JSONPath" else "no such named group");
          if source.InGroups? {
            r := r + [(key, LabelOf(source, from))];
          }
        }
      }
      assert keys[..|keys|] == keys;
    }

    method JsonMetric(at: string, raw: string, labels: map<string, string>, format: BodyFormat)
        returns (r: Option<(Extractor, seq<(string, LabelFrom)>)>)
      requires Valid()
      modifies `errors, `sound
      ensures Valid() && sound == (old(sound) && JsonAccepted(syntax, raw, labels, format))
      ensures sound ==> r == Some((JsonPath(raw), LabelsOf(InJson, labels)))
    {
      hide LabelsAccepted;
      hide LabelsOf;
      if format != JsonBody {
        Complain(at, "json needs an http source in json format");
      }
      var compiled := Labels(at, InJson, labels);
      var path := ReadPath(at, raw);
      return if path.None? then None else Some((JsonPath(path.value), compiled));
    }

    method RegexMetric(at: string, pattern: string, labels: map<string, string>, format: BodyFormat)
        returns (r: Option<(Extractor, seq<(string, LabelFrom)>)>)
      requires Valid()
      modifies `errors, `sound
      ensures Valid() && sound == (old(sound) && RegexAccepted(syntax, pattern, labels, format))
      ensures sound ==> r == Some((Regex(pattern), LabelsOf(InGroups({}), labels)))
    {
      hide LabelsAccepted;
      hide LabelsOf;
      if format != TextBody {
        Complain(at, "regex needs an http source in text format");
      }
      if !syntax.regex(pattern) {
        Complain(at, "invalid expression");
        return None;
      }
      if syntax.captures(pattern) < 2 {
        Complain(at, "the expression needs a capture group for the value");
      }
      var compiled := Labels(at, InGroups(syntax.groups(pattern)), labels);
      GroupsDoNotMatter(syntax.groups(pattern), labels);
      return Some((Regex(pattern), compiled));
    }

    method PromMetric(at: string, name: string, labels: map<string, string>, format: BodyFormat)
        returns (r: Option<(Extractor, seq<(string, LabelFrom)>)>)
      requires Valid()
      modifies `errors, `sound
      ensures Valid() && sound == (old(sound) && PromAccepted(syntax, labels, format))
      ensures sound ==> r == Some((Prom(name), LabelsOf(InSample, labels)))
    {
      hide LabelsAccepted;
      hide LabelsOf;
      if format != PromBody {
        Complain(at, "prom needs a prometheus source");
      }
      var compiled := Labels(at, InSample, labels);
      return Some((Prom(name), compiled));
    }

    method CompileMetric(at: string, spec: MetricSpec, name: string, format: BodyFormat) returns (r: Option<Metric>)
      requires Valid() && name == prefix + spec.name
      modifies `errors, `sound
      ensures Valid() && sound == (old(sound) && MetricAccepted(syntax, spec, format))
      ensures sound ==> r == Some(MetricOf(prefix, spec))
    {
      hide LabelsOf;
      hide JsonAccepted;
      hide RegexAccepted;
      hide PromAccepted;
      hide NamesAccepted;
      hide ProducedBy;
      CheckScale(at, spec.scale);
      var chosen := (if spec.json.Some? then 1 else 0) + (if spec.regex.Some? then 1 else 0)
        + if spec.prom.Some? then 1 else 0;
      if chosen != 1 {
        Complain(at, "set exactly one of json, regex or prom");
        return None;
      }
      var compiled;
      if spec.json.Some? {
        compiled := JsonMetric(at, spec.json.value, spec.labels, format);
      } else if spec.regex.Some? {
        compiled := RegexMetric(at, spec.regex.value, spec.labels, format);
      } else {
        compiled := PromMetric(at, spec.prom.value, spec.labels, format);
      }
      if compiled.None? {
        return None;
      }
      return Some(Metric(name, spec.kind, compiled.value.0, spec.scale, spec.values, compiled.value.1));
    }

    method CompileSource(at: string, spec: SourceSpec) returns (r: Option<Source>)
      requires Valid()
      modifies `errors, `sound
      ensures Valid() && sound == (old(sound) && SourceBodyAccepted(syntax, spec))
      ensures sound ==> r == Some(SourceOf(prefix, spec, [], []))
    {
      hide NamesAccepted;
      hide ProducedBy;
      hide KeepAccepted;
      hide DropAccepted;
      hide KeepOf;
      if spec.kind == Prometheus && spec.format.Some? {
        Complain(at, "a prometheus source has no format: it is always the text exposition");
      }
      if spec.kind == Http && (spec.keep != [] || spec.rename != map[] || spec.drop != map[]) {
        Complain(at, "keep, rename and drop only apply to prometheus sources");
      }
      if !spec.templated {
        Complain(at, "invalid template");
        return None;
      }
      var keep := CheckKeep(at, spec);
      CheckDrop(at, spec.drop);
      return Some(Source(spec.id, prefix, FormatOf(spec), keep, spec.drop, [], []));
    }

    method CheckKeep(at: string, spec: SourceSpec) returns (keep: seq<(string, string)>)
      requires Valid()
      modifies `errors, `sound
      ensures Valid() && sound == (old(sound) && KeepAccepted(spec))
      ensures keep == KeepOf(spec)
    {
      hide NamesAccepted;
      hide ProducedBy;
      hide IsName;
      keep := [];
      for i := 0 to |spec.keep|
        invariant Valid()
        invariant sound == (old(sound) && forall k :: 0 <= k < i ==> IsName(Written(spec, spec.keep[k])))
        invariant keep == KeepOf(spec)[..i]
      {
        var written := Written(spec, spec.keep[i]);
        if !IsName(written) {
          Complain(at, "not a valid metric name: rename it (lowercase, digits, _)");
        }
        keep := keep + [(spec.keep[i], written)];
      }
    }

    method CheckDrop(at: string, drop: map<string, string>)
      requires Valid()
      modifies `errors, `sound
      ensures Valid() && sound == (old(sound) && DropAccepted(syntax, drop))
    {
      hide NamesAccepted;
      hide ProducedBy;
      KeysInOrder(drop);
      var keys := InOrder(drop.Keys);
      for i := 0 to |keys|
        invariant Valid()
        invariant sound == (old(sound) && forall k :: 0 <= k < i ==> syntax.regex(drop[keys[k]]))
      {
        if !syntax.regex(drop[keys[i]]) {
          Complain(at, "invalid expression");
        }
      }
      assert forall key :: key in drop ==> key in keys;
    }

    method AddSource(spec: SourceSpec, ids: set<string>)
      requires Valid()
      modifies `errors, `sound, `sources
      ensures Valid() && sound == (old(sound) && IsName(spec.id) && spec.id !in ids && SourceBodyAccepted(syntax, spec))
      ensures sound ==> sources == old(sources) + [SourceOf(prefix, spec, [], [])]
    {
      hide NamesAccepted;
      hide ProducedBy;
      hide SourceBodyAccepted;
      hide IsName;
      hide SourceOf;
      var at := "sources[" + spec.id + "]";
      if !IsName(spec.id) {
        Complain(at, "the id must be lowercase letters, digits and underscores");
      }
      if spec.id in ids {
        Complain(at, "declared twice");
      }
      var source := CompileSource(at, spec);
      if source.Some? {
        sources := sources + [source.value];
      }
    }

    method Sources(specs: seq<SourceSpec>)
      requires Valid() && sources == []
      modifies `errors, `sound, `sources
      ensures Valid() && sound == (old(sound) && |specs| <= MAX_REQUESTS && SourcesAccepted(syntax, specs))
      ensures sound ==> sources == SourcesOf(prefix, specs, [], [])
    {
      hide NamesAccepted;
      hide ProducedBy;
      hide SourcesAccepted;
      hide SourceBodyAccepted;
      hide IsName;
      hide SourceOf;
      hide SourcesOf;
      if |specs| > MAX_REQUESTS {
        Complain("sources", "too many requests per probe");
      }
      var ids: set<string> := {};
      NoSources(syntax, prefix);
      assert specs[..0] == [];
      for i := 0 to |specs|
        invariant Valid() && ids == set k | 0 <= k < i :: specs[k].id
        invariant sound == (old(sound) && |specs| <= MAX_REQUESTS && SourcesAccepted(syntax, specs[..i]))
        invariant sound ==> sources == SourcesOf(prefix, specs[..i], [], [])
      {
        SourcesAcceptedSnoc(syntax, specs, i);
        SourcesSnoc(prefix, specs, i);
        AddSource(specs[i], ids);
        ids := ids + {specs[i].id};
      }
      assert specs[..|specs|] == specs;
    }
  
    /** One family kept whole, with the series its suffixes may add. */
    method KeepFamily(at: string, written: string)
      requires Valid()
      modifies `errors, `warnings, `produced, `claimed, `variants
      ensures Valid() && claimed == old(claimed) + [written]
      ensures variants == old(variants)
        + set s | 0 <= s < |FAMILY_SUFFIXES| :: Full(prefix, written + FAMILY_SUFFIXES[s])
    {
      hide NamesAccepted;
      hide ProducedBy;
      var full := Claim(at, written);
      for s := 0 to |FAMILY_SUFFIXES|
        modifies `variants
        invariant variants == old(variants) + set t | 0 <= t < s :: Full(prefix, written + FAMILY_SUFFIXES[t])
      {
        assert Full(prefix, written + FAMILY_SUFFIXES[s]) == METRIC_PREFIX + (prefix + written + FAMILY_SUFFIXES[s]);
        variants := variants + {METRIC_PREFIX + (prefix + written + FAMILY_SUFFIXES[s])};
      }
    }

    method KeepFamilies(ghost specs: seq<SourceSpec>)
      requires Valid() && claimed == [] && variants == {}
      requires sound ==> sources == SourcesOf(prefix, specs, [], [])
      modifies `errors, `warnings, `produced, `claimed, `variants
      ensures Valid()
      ensures sound ==> claimed == KeptNames(specs)
      ensures variants == VariantsOf(prefix, claimed)
    {
      hide NamesAccepted;
      hide ProducedBy;
      assert specs[..0] == [];
      for i := 0 to |sources|
        invariant Valid() && variants == VariantsOf(prefix, claimed)
        invariant sound ==> claimed == KeptNames(specs[..i])
      {
        var keep := sources[i].keep;
        ghost var before := claimed;
        for k := 0 to |keep|
          invariant Valid() && variants == VariantsOf(prefix, claimed)
          invariant claimed == before + seq(k, j requires 0 <= j < k => keep[j].1)
        {
          VariantsSnoc(prefix, claimed, keep[k].1);
          KeepFamily("sources[" + sources[i].id + "].keep[" + keep[k].0 + "]", keep[k].1);
        }
        if sound {
          KeptSnoc(specs, i);
        }
      }
      assert sound ==> specs[..|sources|] == specs;
    }

    method PlaceMetrics(ghost specs: seq<SourceSpec>, metrics: seq<MetricSpec>)
      requires Valid()
      requires sound ==> DistinctIds(specs) && sources == SourcesOf(prefix, specs, [], [])
      modifies `errors, `warnings, `produced, `claimed, `sound, `sources
      ensures Valid()
      ensures sound == (old(sound) && forall k :: 0 <= k < |metrics| ==> MetricPlaced(syntax, specs, metrics[k]))
      ensures sound ==> claimed == old(claimed) + MetricNames(metrics)
      ensures sound ==> sources == SourcesOf(prefix, specs, metrics, [])
    {
      hide NamesAccepted;
      hide ProducedBy;
      hide MetricPlaced;
      hide SourcesOf;
      assert metrics[..0] == [];
      for i := 0 to |metrics|
        invariant Valid()
        invariant sound == (old(sound) && forall k :: 0 <= k < i ==> MetricPlaced(syntax, specs, metrics[k]))
        invariant claimed == old(claimed) + MetricNames(metrics)[..i]
        invariant sound ==> sources == SourcesOf(prefix, specs, metrics[..i], [])
      {
        PlaceMetric(specs, metrics, i);
      }
      assert metrics[..|metrics|] == metrics;
    }

    method PlaceMetric(ghost specs: seq<SourceSpec>, metrics: seq<MetricSpec>, i: nat)
      requires Valid() && i < |metrics|
      requires sound ==> DistinctIds(specs) && sources == SourcesOf(prefix, specs, metrics[..i], [])
      modifies `errors, `warnings, `produced, `claimed, `sound, `sources
      ensures Valid() && sound == (old(sound) && MetricPlaced(syntax, specs, metrics[i]))
      ensures claimed == old(claimed) + [metrics[i].name]
      ensures sound ==> sources == SourcesOf(prefix, specs, metrics[..i + 1], [])
    {
      hide NamesAccepted;
      hide ProducedBy;
      hide MetricPlaced;
      hide MetricAccepted;
      hide SourcesOf;
      hide MetricOf;
      var spec := metrics[i];
      var at := "metrics[" + spec.name + "]";
      var name := Claim(at, spec.name);
      var n := Find(sources, spec.source);
      if old(sound) {
        Located(prefix, specs, metrics[..i], [], spec.source);
        PlacedMetric(syntax, prefix, specs, metrics, i, n);
        if n < |specs| {
          PushedMetric(prefix, specs, metrics, i, n);
        }
      }
      if n == |sources| {
        Complain(at, "unknown source");
        return;
      }
      var metric := CompileMetric(at, spec, name, sources[n].format);
      if metric.Some? {
        sources := sources[n := sources[n].(metrics := sources[n].metrics + [metric.value])];
      }
    }
  
    method Rows(at: string, specs: seq<RowSpec>) returns (r: seq<RowMetric>)
      requires Valid()
      modifies `errors, `warnings, `produced, `claimed, `sound
      ensures Valid() && claimed == old(claimed) + RowNames(specs)
      ensures sound == (old(sound) && RowsAccepted(syntax, specs))
      ensures sound ==> r == RowsOf(prefix, specs)
    {
      hide NamesAccepted;
      hide ProducedBy;
      r := [];
      for i := 0 to |specs|
        invariant Valid() && claimed == old(claimed) + RowNames(specs)[..i]
        invariant sound == (old(sound) && forall k :: 0 <= k < i ==> RowAccepted(syntax, specs[k]))
        invariant sound ==> r == RowsOf(prefix, specs)[..i]
      {
        var where := at + ".metrics[" + specs[i].name + "]";
        var name := Claim(where, specs[i].name);
        CheckScale(where, specs[i].scale);
        var path := ReadPath(where, specs[i].json);
        if path.Some? {
          r := r + [RowMetric(name, specs[i].kind, path.value, specs[i].scale, specs[i].values)];
        }
      }
    }

    method CompileDiscover(at: string, spec: DiscoverSpec, format: BodyFormat) returns (r: Option<Discover>)
      requires Valid()
      modifies `errors, `warnings, `produced, `claimed, `sound
      ensures Valid() && claimed == old(claimed) + RowNames(spec.metrics)
      ensures sound == (old(sound) && DiscoverAccepted(syntax, spec, format))
      ensures sound ==> r == Some(DiscoverOf(prefix, spec))
    {
      hide NamesAccepted;
      hide ProducedBy;
      hide LabelsAccepted;
      hide LabelsOf;
      hide RowsAccepted;
      hide RowsOf;
      hide RowNames;
      if format != JsonBody {
        Complain(at, "discover reads JSON: its source must be an http source in json format");
      }
      if spec.maxRows == 0 || spec.maxRows > MAX_ROWS {
        Complain(at, "max_rows out of bounds");
      }
      if spec.metrics == [] {
        Complain(at, "declares no metric");
      }
      var rows := ReadPath(at + ".rows", spec.rows);
      var labels := Labels(at, InJson, spec.labels);
      var metrics := Rows(at, spec.metrics);
      if rows.None? {
        return None;
      }
      var maxRows := if spec.maxRows < 1 then 1 else if spec.maxRows > MAX_ROWS then MAX_ROWS else spec.maxRows;
      return Some(Discover(spec.name, rows.value, maxRows, labels, metrics));
    }

    method PlaceDiscover(
        ghost specs: seq<SourceSpec>, ghost metrics: seq<MetricSpec>, discover: seq<DiscoverSpec>, i: nat)
      requires Valid() && i < |discover|
      requires sound ==> DistinctIds(specs) && sources == SourcesOf(prefix, specs, metrics, discover[..i])
      modifies `errors, `warnings, `produced, `claimed, `sound, `sources
      ensures Valid() && sound == (old(sound) && DiscoverPlaced(syntax, specs, discover[i]))
      ensures sound ==> claimed == old(claimed) + RowNames(discover[i].metrics)
      ensures sound ==> sources == SourcesOf(prefix, specs, metrics, discover[..i + 1])
    {
      hide NamesAccepted;
      hide ProducedBy;
      hide DiscoverPlaced;
      hide DiscoverAccepted;
      hide SourcesOf;
      hide DiscoverOf;
      hide RowNames;
      var spec := discover[i];
      var at := "discover[" + spec.name + "]";
      var n := Find(sources, spec.source);
      if sound {
        Located(prefix, specs, metrics, discover[..i], spec.source);
        PlacedDiscover(syntax, prefix, specs, metrics, discover, i, n);
        if n < |specs| {
          PushedDiscover(prefix, specs, metrics, discover, i, n);
        }
      }
      if n == |sources| {
        Complain(at, "unknown source");
        return;
      }
      var compiled := CompileDiscover(at, spec, sources[n].format);
      if compiled.Some? {
        sources := sources[n := sources[n].(discovers := sources[n].discovers + [compiled.value])];
      }
    }

    method PlaceDiscovers(ghost specs: seq<SourceSpec>, ghost metrics: seq<MetricSpec>, discover: seq<DiscoverSpec>)
      requires Valid()
      requires sound ==> DistinctIds(specs) && sources == SourcesOf(prefix, specs, metrics, [])
      modifies `errors, `warnings, `produced, `claimed, `sound, `sources
      ensures Valid()
      ensures sound == (old(sound) && forall k :: 0 <= k < |discover| ==> DiscoverPlaced(syntax, specs, discover[k]))
      ensures sound ==> claimed == old(claimed) + DiscoverNames(discover)
      ensures sound ==> sources == SourcesOf(prefix, specs, metrics, discover)
    {
      hide NamesAccepted;
      hide ProducedBy;
      hide DiscoverPlaced;
      hide SourcesOf;
      hide RowNames;
      assert discover[..0] == [];
      for i := 0 to |discover|
        invariant Valid()
        invariant sound == (old(sound) && forall k :: 0 <= k < i ==> DiscoverPlaced(syntax, specs, discover[k]))
        invariant sound ==> claimed == old(claimed) + DiscoverNames(discover[..i])
        invariant sound ==> sources == SourcesOf(prefix, specs, metrics, discover[..i])
      {
        PlaceDiscover(specs, metrics, discover, i);
        assert discover[..i + 1][..i] == discover[..i];
      }
      assert discover[..|discover|] == discover;
    }
  }

  /** The manifest is accepted exactly when it satisfies `Accepted` and no other check,
      of which the complaints are in `elsewhere`, found anything; what is built is then
      the pack that the manifest describes. */
  method Compile(syntax: Syntax, m: Manifest, elsewhere: seq<string>) returns (r: Result<Pack, seq<string>>)
    ensures r.Ok? <==> elsewhere == [] && Accepted(syntax, m)
    ensures r.Ok? ==> r.value == PackOf(m)
  {
    hide SourcesOf;
    hide ProducedBy;
    hide VariantsOf;
    hide SourcesAccepted;
    hide NamesAccepted;
    hide MetricPlaced;
    hide DiscoverPlaced;
    hide KeptNames;
    hide MetricNames;
    hide DiscoverNames;
    var c := new Compiler(syntax, PrefixFor(m.id), elsewhere);
    c.Sources(m.sources);
    if |m.metrics| + RowCount(m.discover) > MAX_METRICS {
      c.Complain("metrics", "too many metrics");
    }
    assert c.sound ==> DistinctIds(m.sources) by { SourcesAreDistinct(syntax, m.sources); }
    c.KeepFamilies(m.sources);
    c.PlaceMetrics(m.sources, m.metrics);
    c.PlaceDiscovers(m.sources, m.metrics, m.discover);
    return if c.errors != [] then Err(c.errors) else Ok(Pack(c.sources, c.produced, c.variants));
  }
}
