/** What an accepted manifest compiles to, said of the manifest: which source holds which
    entries, in which order, and what each entry reads, how, and under which name. */
module Compiled {
  import opened Wrappers
  import opened Text
  import opened Lists
  import opened Exposition
  import opened Compile

  // ------------------------------------------------------------ entries

  /** The compiled labels are those of the manifest, one for each in the order of their
      names, read from `origin` of what the manifest says. */
  ghost predicate LabelsRead(
      pairs: seq<(string, LabelFrom)>, labels: map<string, string>, origin: string -> LabelFrom)
  {
    && |pairs| == |labels|
    && (forall i | 0 <= i < |pairs| :: pairs[i].0 in labels && pairs[i].1 == origin(labels[pairs[i].0]))
    && (forall i, j | 0 <= i < j < |pairs| :: pairs[i].0 != pairs[j].0)
    && forall key | key in labels :: Listed(pairs, key)
  }

  predicate Listed(pairs: seq<(string, LabelFrom)>, key: string) {
    exists i :: 0 <= i < |pairs| && pairs[i].0 == key
  }

  /** The compiled metric has the prefixed name, the kind, the scale and the values of the
      manifest's, and reads with the one extractor that is set there. */
  ghost predicate ReadsAs(prefix: string, spec: MetricSpec, metric: Metric) {
    && metric.name == prefix + spec.name && metric.kind == spec.kind
    && metric.scale == spec.scale && metric.values == spec.values
    && (spec.json.Some? ==>
          && metric.extractor == JsonPath(spec.json.value)
          && LabelsRead(metric.labels, spec.labels, from => FromJson(from)))
    && (spec.regex.Some? ==>
          && metric.extractor == Regex(spec.regex.value)
          && LabelsRead(metric.labels, spec.labels, from => FromGroup(from)))
    && (spec.prom.Some? ==>
          && metric.extractor == Prom(spec.prom.value)
          && LabelsRead(metric.labels, spec.labels, from => FromProm(from)))
  }

  predicate RowReadsAs(prefix: string, spec: RowSpec, row: RowMetric) {
    && row.name == prefix + spec.name && row.kind == spec.kind && row.path == spec.json
    && row.scale == spec.scale && row.values == spec.values
  }

  ghost predicate RowsReadAs(prefix: string, spec: DiscoverSpec, discover: Discover) {
    && discover.name == spec.name && discover.rows == spec.rows && discover.maxRows == spec.maxRows
    && LabelsRead(discover.labels, spec.labels, from => FromJson(from))
    && |discover.metrics| == |spec.metrics|
    && forall i | 0 <= i < |spec.metrics| :: RowReadsAs(prefix, spec.metrics[i], discover.metrics[i])
  }

  lemma PairsAreRead(
      source: LabelSource, labels: map<string, string>, keys: seq<string>, origin: string -> LabelFrom)
    requires forall from :: LabelOf(source, from) == origin(from)
    requires forall k :: 0 <= k < |keys| ==> keys[k] in labels
    requires forall i, j | 0 <= i < j < |keys| :: keys[i] != keys[j]
    requires |keys| == |labels| && forall key | key in labels :: key in keys
    ensures LabelsRead(LabelPairs(source, labels, keys), labels, origin)
  {
    hide LabelOf;
    var pairs := LabelPairs(source, labels, keys);
    forall key | key in labels ensures Listed(pairs, key) {
      var i :| 0 <= i < |keys| && keys[i] == key;
      assert pairs[i].0 == key;
    }
  }

  lemma LabelsAreRead(source: LabelSource, labels: map<string, string>, origin: string -> LabelFrom)
    requires forall from :: LabelOf(source, from) == origin(from)
    ensures LabelsRead(LabelsOf(source, labels), labels, origin)
  {
    hide LabelOf;
    hide LabelsRead;
    hide LabelPairs;
    hide InOrder;
    KeysInOrder(labels);
    assert |labels| == |labels.Keys|;
    PairsAreRead(source, labels, InOrder(labels.Keys), origin);
  }

  lemma MetricReads(syntax: Syntax, prefix: string, spec: MetricSpec, format: BodyFormat)
    requires MetricAccepted(syntax, spec, format)
    ensures ReadsAs(prefix, spec, MetricOf(prefix, spec))
  {
    LabelsAreRead(InJson, spec.labels, from => FromJson(from));
    LabelsAreRead(InGroups({}), spec.labels, from => FromGroup(from));
    LabelsAreRead(InSample, spec.labels, from => FromProm(from));
    hide LabelsOf;
    hide LabelsRead;
    hide LabelsAccepted;
  }

  lemma DiscoverReads(prefix: string, spec: DiscoverSpec)
    ensures RowsReadAs(prefix, spec, DiscoverOf(prefix, spec))
  {
    LabelsAreRead(InJson, spec.labels, from => FromJson(from));
    hide LabelsOf;
    hide LabelsRead;
  }

  // ------------------------------------------------------------ sources

  function NamesSource(id: string): MetricSpec -> bool {
    (spec: MetricSpec) => spec.source == id
  }

  ghost function Reads(prefix: string): (MetricSpec, Metric) -> bool {
    (spec: MetricSpec, metric: Metric) => ReadsAs(prefix, spec, metric)
  }

  function RowsNameSource(id: string): DiscoverSpec -> bool {
    (spec: DiscoverSpec) => spec.source == id
  }

  ghost function RowsRead(prefix: string): (DiscoverSpec, Discover) -> bool {
    (spec: DiscoverSpec, discover: Discover) => RowsReadAs(prefix, spec, discover)
  }

  lemma {:induction false} MetricsAreRead(prefix: string, id: string, specs: seq<MetricSpec>)
    requires forall k | 0 <= k < |specs| :: ReadsAs(prefix, specs[k], MetricOf(prefix, specs[k]))
    ensures Yields(specs, MetricsFor(prefix, id, specs), NamesSource(id), Reads(prefix))
    decreases |specs|
  {
    hide Yields;
    hide ReadsAs;
    hide MetricOf;
    if specs == [] {
      YieldsNothing(NamesSource(id), Reads(prefix));
    } else {
      var rest, last := specs[..|specs| - 1], specs[|specs| - 1];
      assert forall k | 0 <= k < |rest| :: rest[k] == specs[k];
      MetricsAreRead(prefix, id, rest);
      var more := if last.source == id then [MetricOf(prefix, last)] else [];
      YieldsMore(rest, MetricsFor(prefix, id, rest), last, more, NamesSource(id), Reads(prefix));
      assert rest + [last] == specs;
    }
  }

  lemma {:induction false} DiscoversAreRead(prefix: string, id: string, specs: seq<DiscoverSpec>)
    ensures Yields(specs, DiscoversFor(prefix, id, specs), RowsNameSource(id), RowsRead(prefix))
    decreases |specs|
  {
    hide Yields;
    hide RowsReadAs;
    hide DiscoverOf;
    if specs == [] {
      YieldsNothing(RowsNameSource(id), RowsRead(prefix));
    } else {
      var rest, last := specs[..|specs| - 1], specs[|specs| - 1];
      DiscoversAreRead(prefix, id, rest);
      DiscoverReads(prefix, last);
      var more := if last.source == id then [DiscoverOf(prefix, last)] else [];
      YieldsMore(rest, DiscoversFor(prefix, id, rest), last, more, RowsNameSource(id), RowsRead(prefix));
      assert rest + [last] == specs;
    }
  }

  /** Kept families in the order of the manifest, under the name it gives them, if it
      gives them another. */
  predicate KeepsAs(spec: SourceSpec, keep: seq<(string, string)>) {
    && |keep| == |spec.keep|
    && forall i | 0 <= i < |keep| ::
         && keep[i].0 == spec.keep[i]
         && (spec.keep[i] in spec.rename ==> keep[i].1 == spec.rename[spec.keep[i]])
         && (spec.keep[i] !in spec.rename ==> keep[i].1 == spec.keep[i])
  }

  /** The prefix is the identifier, its hyphens turned into underscores, and one more. */
  predicate IsPrefix(prefix: string, id: string) {
    && |prefix| == |id| + 1 && prefix[|id|] == '_'
    && forall i | 0 <= i < |id| :: prefix[i] == if id[i] == '-' then '_' else id[i]
  }

  /** An accepted manifest compiles to one source for each of its own, in order.  A source
      has the format of its type, keeps and drops what the manifest says, and holds exactly
      the metrics and the discovered rows that name it, in the order of the manifest. */
  lemma SourceIsCompiled(syntax: Syntax, m: Manifest, k: nat)
    requires Accepted(syntax, m) && k < |m.sources|
    ensures |PackOf(m).sources| == |m.sources|
    ensures var spec, s := m.sources[k], PackOf(m).sources[k];
            && s.id == spec.id && s.drop == spec.drop && IsPrefix(s.prefix, m.id) && KeepsAs(spec, s.keep)
            && (s.format == PromBody <==> spec.kind == Prometheus)
            && (s.format == TextBody <==> spec.kind == Http && spec.format == Some(TextFormat))
            && Yields(m.metrics, s.metrics, NamesSource(spec.id), Reads(s.prefix))
            && Yields(m.discover, s.discovers, RowsNameSource(spec.id), RowsRead(s.prefix))
  {
    var prefix, source := PrefixFor(m.id), m.sources[k];
    SourceAt(m, k);
    KeptAs(source);
    PrefixIs(m.id);
    forall i | 0 <= i < |m.metrics| ensures ReadsAs(prefix, m.metrics[i], MetricOf(prefix, m.metrics[i])) {
      AcceptedIsPlaced(syntax, m, i);
      PlacedReads(syntax, prefix, m.sources, m.metrics[i]);
    }
    hide Yields;
    hide Accepted;
    hide PackOf;
    hide KeepsAs;
    hide KeepOf;
    hide IsPrefix;
    hide Reads;
    hide RowsRead;
    hide MetricsFor;
    hide DiscoversFor;
    hide ReadsAs;
    hide PrefixFor;
    MetricsAreRead(prefix, source.id, m.metrics);
    DiscoversAreRead(prefix, source.id, m.discover);
  }

  lemma AcceptedIsPlaced(syntax: Syntax, m: Manifest, i: nat)
    requires Accepted(syntax, m) && i < |m.metrics|
    ensures MetricPlaced(syntax, m.sources, m.metrics[i])
  {
  }

  lemma SourceAt(m: Manifest, k: nat)
    requires k < |m.sources|
    ensures |PackOf(m).sources| == |m.sources|
    ensures PackOf(m).sources[k] == SourceOf(PrefixFor(m.id), m.sources[k], m.metrics, m.discover)
  {
    hide SourceOf;
    hide PrefixFor;
    hide ProducedBy;
    hide VariantsOf;
    hide Claims;
  }

  lemma KeptAs(spec: SourceSpec)
    ensures KeepsAs(spec, KeepOf(spec))
  {
  }

  lemma PrefixIs(id: string)
    ensures IsPrefix(PrefixFor(id), id)
  {
  }

  lemma PlacedReads(syntax: Syntax, prefix: string, sources: seq<SourceSpec>, spec: MetricSpec)
    requires MetricPlaced(syntax, sources, spec)
    ensures ReadsAs(prefix, spec, MetricOf(prefix, spec))
  {
    hide MetricAccepted;
    hide ReadsAs;
    hide MetricOf;
    var k :| 0 <= k < |sources| && sources[k].id == spec.source
             && MetricAccepted(syntax, spec, FormatOf(sources[k]));
    MetricReads(syntax, prefix, spec, FormatOf(sources[k]));
  }
}
