/** What a pack extracts from an answer, said of the answer and the rules of the pack:
    which samples, nodes, rows and matches are used, in which order, and what name,
    value, kind and labels each of them gives. */
module Produced {
  import opened Wrappers
  import opened Text
  import opened Lists
  import opened Exposition
  import opened Compile
  import opened Extract
  import Families

  // ------------------------------------------------------------ lists

  lemma {:induction false} CollectYields<A(!new), B(!new)>(
      items: seq<A>, f: A -> Option<B>, wanted: A -> bool, gives: (A, B) -> bool)
    requires forall i | 0 <= i < |items| :: f(items[i]).Some? <==> wanted(items[i])
    requires forall i | 0 <= i < |items| :: f(items[i]).Some? ==> gives(items[i], f(items[i]).value)
    ensures Yields(items, Collect(items, f), wanted, gives)
    decreases |items|
  {
    hide Yields;
    if items == [] {
      YieldsNothing(wanted, gives);
    } else {
      var rest, last := items[..|items| - 1], items[|items| - 1];
      assert forall i | 0 <= i < |rest| :: rest[i] == items[i];
      CollectYields(rest, f, wanted, gives);
      YieldsMore(rest, Collect(rest, f), last, AsSeq(f(last)), wanted, gives);
      assert rest + [last] == items && Collect(rest, f) + [] == Collect(rest, f);
    }
  }

  lemma {:induction false} CollectTwice<A, B, C>(
      items: seq<A>, f: A -> Option<B>, g: B -> Option<C>, h: A -> Option<C>)
    requires forall i | 0 <= i < |items| ::
      h(items[i]) == if f(items[i]).None? then None else g(f(items[i]).value)
    ensures Collect(Collect(items, f), g) == Collect(items, h)
    decreases |items|
  {
    if items != [] {
      var rest, last := items[..|items| - 1], items[|items| - 1];
      assert forall i | 0 <= i < |rest| :: rest[i] == items[i];
      CollectTwice(rest, f, g, h);
      var before := Collect(rest, f);
      if f(last).Some? {
        assert (before + [f(last).value])[..|before|] == before;
      }
    }
  }

  /** What each item gives, one after the other. */
  lemma {:induction false} GatherIsFlat<A, B>(items: seq<A>, f: A -> seq<B>) returns (parts: seq<seq<B>>)
    ensures Gather(items, f) == Flat(parts) && |parts| == |items|
    ensures forall i | 0 <= i < |items| :: parts[i] == f(items[i])
    decreases |items|
  {
    parts := [];
    if items != [] {
      var rest, last := items[..|items| - 1], items[|items| - 1];
      var before := GatherIsFlat(rest, f);
      parts := before + [f(last)];
      FlatMore(before, f(last));
    }
  }

  // ------------------------------------------------------------ numbers

  /** What a text counts for: its place in the enumeration, if there is one, and
      otherwise the number it is. */
  ghost predicate TextCounts(lib: Libraries, text: string, values: map<string, Float>, raw: Float) {
    var word := Trim(text);
    || (word in values && raw == values[word])
    || (values == map[] && lib.codec.read(word) == Some(raw))
  }

  /** What a node counts for, before it is scaled. */
  ghost predicate Counts(lib: Libraries, node: Json, values: map<string, Float>, raw: Float) {
    match node
    case Number(text, value) => if text in values then raw == values[text] else value == Some(raw)
    case Bool(true) => if "true" in values then raw == values["true"] else raw == lib.one
    case Bool(false) => if "false" in values then raw == values["false"] else raw == lib.zero
    case String(text) => TextCounts(lib, text, values, raw)
    case _ => false
  }

  function Factor(lib: Libraries, scale: Option<Float>): Float {
    match scale
    case None => lib.one
    case Some(factor) => factor
  }

  ghost predicate NodeGives(
      lib: Libraries, node: Json, values: map<string, Float>, scale: Option<Float>, value: Float)
  {
    exists raw :: Counts(lib, node, values, raw) && value == lib.times(raw, Factor(lib, scale))
  }

  ghost predicate TextGives(
      lib: Libraries, text: string, values: map<string, Float>, scale: Option<Float>, value: Float)
  {
    exists raw :: TextCounts(lib, text, values, raw) && value == lib.times(raw, Factor(lib, scale))
  }

  /** Which number a node gives: that of its place in the enumeration, or its own, or one
      and zero for the booleans, times the scale; and none if it is neither. */
  lemma NodeNumber(lib: Libraries, node: Json, values: map<string, Float>, scale: Option<Float>)
    ensures NumberOf(lib, node, values, scale).Some? <==> exists raw :: Counts(lib, node, values, raw)
    ensures forall value ::
      NumberOf(lib, node, values, scale) == Some(value) <==> NodeGives(lib, node, values, scale, value)
  {
    hide Trim;
    var r := NumberOf(lib, node, values, scale);
    if r.Some? {
      var raw :=
        match node
        case Number(text, value) => if text in values then values[text] else value.value
        case Bool(flag) =>
          var text := if flag then "true" else "false";
          if text in values then values[text] else if flag then lib.one else lib.zero
        case String(text) => TextNumber(lib, text, values).value;
      assert Counts(lib, node, values, raw);
    }
    forall raw | Counts(lib, node, values, raw) ensures r == Some(lib.times(raw, Factor(lib, scale))) {
    }
  }

  lemma TextNumberGives(lib: Libraries, text: string, values: map<string, Float>, scale: Option<Float>)
    ensures Scaled(lib, TextNumber(lib, text, values), scale).Some?
            <==> exists raw :: TextCounts(lib, text, values, raw)
    ensures forall value ::
      Scaled(lib, TextNumber(lib, text, values), scale) == Some(value) <==> TextGives(lib, text, values, scale, value)
  {
    hide Trim;
    var r := Scaled(lib, TextNumber(lib, text, values), scale);
    if r.Some? {
      assert TextCounts(lib, text, values, TextNumber(lib, text, values).value);
    }
    forall raw | TextCounts(lib, text, values, raw) ensures r == Some(lib.times(raw, Factor(lib, scale))) {
    }
  }

  // ------------------------------------------------------------ labels

  /** A label is what its declaration reads; of several for one key the last that reads
      anything wins, and one that reads nothing is left out. */
  ghost predicate Labelled(
      labels: seq<(string, LabelFrom)>, shows: (LabelFrom, string) -> bool, r: map<string, string>)
  {
    && (forall key | key in r ::
          exists j :: ReadAt(labels, shows, key, r[key], j))
    && forall j, value | 0 <= j < |labels| && shows(labels[j].1, value) :: labels[j].0 in r
  }

  ghost predicate ReadAt(
      labels: seq<(string, LabelFrom)>, shows: (LabelFrom, string) -> bool, key: string, value: string, j: int)
  {
    && 0 <= j < |labels| && labels[j].0 == key && shows(labels[j].1, value)
    && forall i, other | j < i < |labels| && labels[i].0 == key :: !shows(labels[i].1, other)
  }

  lemma {:induction false} ReadLabelsRead(
      labels: seq<(string, LabelFrom)>, read: LabelFrom -> Option<string>, shows: (LabelFrom, string) -> bool)
    requires forall from, value :: shows(from, value) <==> read(from) == Some(value)
    ensures Labelled(labels, shows, ReadLabels(labels, read))
    decreases |labels|
  {
    var r := ReadLabels(labels, read);
    if labels != [] {
      var n := |labels| - 1;
      var rest, before := labels[..n], ReadLabels(labels[..n], read);
      ReadLabelsRead(rest, read, shows);
      forall key | key in r ensures exists j :: ReadAt(labels, shows, key, r[key], j) {
        if key == labels[n].0 && read(labels[n].1).Some? {
          assert ReadAt(labels, shows, key, r[key], n);
        } else {
          var j :| ReadAt(rest, shows, key, before[key], j);
          assert ReadAt(labels, shows, key, r[key], j);
        }
      }
      forall j, value | 0 <= j < |labels| && shows(labels[j].1, value) ensures labels[j].0 in r {
        if j < n {
          assert rest[j] == labels[j];
        }
      }
    }
  }

  /** A label read in a document: a text cut to its bound, or the node as it is printed. */
  function NodeReads(lib: Libraries, node: Json): (LabelFrom, string) -> bool {
    (from: LabelFrom, value: string) =>
      from.FromJson? && lib.query(from.path, node) != []
      && match lib.query(from.path, node)[0]
         case Null => false
         case String(text) => value == Truncate(text)
         case Number(_, _) => value == lib.show(lib.query(from.path, node)[0])
         case Bool(_) => value == lib.show(lib.query(from.path, node)[0])
         case _ => value == Truncate(lib.show(lib.query(from.path, node)[0]))
  }

  function GroupReads(m: Match): (LabelFrom, string) -> bool {
    (from: LabelFrom, value: string) =>
      from.FromGroup? && from.group in m.groups && value == Truncate(m.groups[from.group])
  }

  function SampleReads(sample: Parsed<Float>): (LabelFrom, string) -> bool {
    (from: LabelFrom, value: string) =>
      from.FromProm? && from.key in sample.labels && value == Truncate(sample.labels[from.key])
  }

  lemma NodeLabels(lib: Libraries, node: Json, labels: seq<(string, LabelFrom)>)
    ensures Labelled(labels, NodeReads(lib, node), ReadLabels(labels, FromNode(lib, node)))
  {
    hide Truncate;
    ReadLabelsRead(labels, FromNode(lib, node), NodeReads(lib, node));
  }

  lemma GroupLabels(m: Match, labels: seq<(string, LabelFrom)>)
    ensures Labelled(labels, GroupReads(m), ReadLabels(labels, FromMatch(m)))
  {
    hide Truncate;
    ReadLabelsRead(labels, FromMatch(m), GroupReads(m));
  }

  lemma SampleLabels(sample: Parsed<Float>, labels: seq<(string, LabelFrom)>)
    ensures Labelled(labels, SampleReads(sample), ReadLabels(labels, FromLabels(sample.labels)))
  {
    hide Truncate;
    ReadLabelsRead(labels, FromLabels(sample.labels), SampleReads(sample));
  }

  /** A reserved label is exported under another name, without the underscores it began
      with; every other one keeps its name. */
  ghost predicate RenamedTo(key: string, name: string) {
    if key in RESERVED_LABELS || "tag_" <= key || "__" <= key then
      exists n: nat :: Underscores(key, n) && name == "exported_" + key[n..]
    else name == key
  }

  predicate Underscores(key: string, n: nat) {
    && n <= |key| && (forall i | 0 <= i < n :: key[i] == '_') && (n < |key| ==> key[n] != '_')
  }

  /** All the labels of an exporter, each under its exported name, cut to the bound. */
  ghost predicate ExportedAs(labels: map<string, string>, r: map<string, string>) {
    && (forall key | key in labels :: IsExported(key, r))
    && (forall name | name in r :: IsExport(labels, name, r[name]))
  }

  ghost predicate IsExported(key: string, r: map<string, string>) {
    exists name :: RenamedTo(key, name) && name in r
  }

  ghost predicate IsExport(labels: map<string, string>, name: string, value: string) {
    exists key :: key in labels && RenamedTo(key, name) && value == Truncate(labels[key])
  }

  lemma {:induction false} TrimmedUnderscores(key: string) returns (n: nat)
    ensures Underscores(key, n) && TrimUnderscores(key) == key[n..]
  {
    n := 0;
    if key != "" && key[0] == '_' {
      var rest := key[1..];
      var m := TrimmedUnderscores(rest);
      n := m + 1;
      assert forall i | 0 < i < n :: key[i] == rest[i - 1];
      assert m < |rest| ==> key[n] == rest[m];
    }
  }

  lemma ExportedKeyRenames(key: string)
    ensures RenamedTo(key, ExportedKey(key))
  {
    hide Truncate;
    var n := TrimmedUnderscores(key);
  }

  lemma {:induction false} ExportKeysExport(labels: map<string, string>, keys: seq<string>)
    requires forall k :: 0 <= k < |keys| ==> keys[k] in labels
    ensures forall key | key in keys :: IsExported(key, ExportKeys(labels, keys))
    ensures forall name | name in ExportKeys(labels, keys) :: IsExport(labels, name, ExportKeys(labels, keys)[name])
    decreases |keys|
  {
    hide Truncate;
    hide ExportedKey;
    hide RenamedTo;
    hide IsExport;
    hide IsExported;
    if keys != [] {
      var rest, last := keys[..|keys| - 1], keys[|keys| - 1];
      var before, r := ExportKeys(labels, rest), ExportKeys(labels, keys);
      ExportKeysExport(labels, rest);
      KeyIsExported(labels, last, r);
      forall key | key in keys ensures IsExported(key, r) {
        if key in rest {
          StaysExported(key, before, r);
        } else {
          assert key == last;
        }
      }
    }
  }

  lemma KeyIsExported(labels: map<string, string>, key: string, r: map<string, string>)
    requires key in labels && ExportedKey(key) in r && r[ExportedKey(key)] == Truncate(labels[key])
    ensures IsExported(key, r) && IsExport(labels, ExportedKey(key), r[ExportedKey(key)])
  {
    hide Truncate;
    hide RenamedTo;
    ExportedKeyRenames(key);
  }

  lemma StaysExported(key: string, before: map<string, string>, r: map<string, string>)
    requires IsExported(key, before) && before.Keys <= r.Keys
    ensures IsExported(key, r)
  {
    hide RenamedTo;
  }

  lemma LabelsAreExported(labels: map<string, string>)
    ensures ExportedAs(labels, ExportedLabels(labels))
  {
    hide IsExported;
    hide IsExport;
    KeysInOrder(labels);
    ExportKeysExport(labels, InOrder(labels.Keys));
    assert forall key :: key in labels <==> key in InOrder(labels.Keys);
    assert ExportedLabels(labels) == ExportKeys(labels, InOrder(labels.Keys));
  }

  // ------------------------------------------------------------ a document

  ghost function UsesNode(lib: Libraries, metric: Metric): ((Json, Json)) -> bool {
    (found: (Json, Json)) => exists raw :: Counts(lib, found.0, metric.values, raw)
  }

  /** What a metric makes of a node found in the object `found.1`. */
  ghost function NodeSample(lib: Libraries, metric: Metric): ((Json, Json), Sample<Float>) -> bool {
    (found: (Json, Json), sample: Sample<Float>) =>
      && sample.metric == metric.name && sample.kind == metric.kind
      && NodeGives(lib, found.0, metric.values, metric.scale, sample.value)
      && Labelled(metric.labels, NodeReads(lib, found.1), sample.labels)
  }

  function UpTo<A>(items: seq<A>, n: nat): seq<A> {
    if |items| > n then items[..n] else items
  }

  /** Of the first thousand nodes each that counts for something gives one sample. */
  ghost predicate FromDocument(lib: Libraries, document: Json, metric: Metric, out: seq<Sample<Float>>) {
    match metric.extractor
    case JsonPath(path) =>
      Yields(UpTo(lib.located(path, document), 1000), out, UsesNode(lib, metric), NodeSample(lib, metric))
    case _ => out == []
  }

  lemma MetricFromDocument(lib: Libraries, document: Json, metric: Metric)
    ensures FromDocument(lib, document, metric, JsonSamples(lib, document)(metric))
  {
    hide Yields;
    hide Labelled;
    hide NumberOf;
    hide ReadLabels;
    hide Counts;
    hide NodeGives;
    if metric.extractor.JsonPath? {
      forall found: (Json, Json)
        ensures JsonSample(lib, metric)(found).Some? <==> UsesNode(lib, metric)(found)
        ensures JsonSample(lib, metric)(found).Some? ==>
          NodeSample(lib, metric)(found, JsonSample(lib, metric)(found).value)
      {
        NodeNumber(lib, found.0, metric.values, metric.scale);
        NodeLabels(lib, found.1, metric.labels);
      }
      CollectYields(UpTo(lib.located(metric.extractor.path, document), 1000), JsonSample(lib, metric),
                    UsesNode(lib, metric), NodeSample(lib, metric));
    }
  }

  ghost function UsesRow(lib: Libraries, row: Json): RowMetric -> bool {
    (metric: RowMetric) =>
      lib.query(metric.path, row) != [] && exists raw :: Counts(lib, lib.query(metric.path, row)[0], metric.values, raw)
  }

  ghost function RowGives(lib: Libraries, row: Json, labels: map<string, string>): (RowMetric, Sample<Float>) -> bool {
    (metric: RowMetric, sample: Sample<Float>) =>
      && sample.metric == metric.name && sample.kind == metric.kind && sample.labels == labels
      && lib.query(metric.path, row) != []
      && NodeGives(lib, lib.query(metric.path, row)[0], metric.values, metric.scale, sample.value)
  }

  /** Of the metrics of a row each whose first node counts for something gives one
      sample, all with the labels of the row. */
  ghost predicate FromRow(lib: Libraries, discover: Discover, row: Json, out: seq<Sample<Float>>) {
    exists labels :: Labelled(discover.labels, NodeReads(lib, row), labels)
                     && Yields(discover.metrics, out, UsesRow(lib, row), RowGives(lib, row, labels))
  }

  lemma SamplesFromRow(lib: Libraries, discover: Discover, row: Json)
    ensures FromRow(lib, discover, row, RowSamples(lib, discover)(row))
  {
    hide Yields;
    hide Labelled;
    hide NumberOf;
    hide ReadLabels;
    hide Counts;
    hide NodeGives;
    var labels := ReadLabels(discover.labels, FromNode(lib, row));
    NodeLabels(lib, row, discover.labels);
    forall metric: RowMetric
      ensures RowSample(lib, row, labels)(metric).Some? <==> UsesRow(lib, row)(metric)
      ensures RowSample(lib, row, labels)(metric).Some? ==>
        RowGives(lib, row, labels)(metric, RowSample(lib, row, labels)(metric).value)
    {
      if lib.query(metric.path, row) != [] {
        NodeNumber(lib, lib.query(metric.path, row)[0], metric.values, metric.scale);
      }
    }
    CollectYields(discover.metrics, RowSample(lib, row, labels), UsesRow(lib, row), RowGives(lib, row, labels));
  }

  /** The first rows, as many as allowed, one after the other. */
  ghost predicate FromRows(lib: Libraries, document: Json, discover: Discover, out: seq<Sample<Float>>) {
    exists parts :: RowsGive(lib, UpTo(lib.query(discover.rows, document), discover.maxRows), discover, parts)
                    && out == Flat(parts)
  }

  ghost predicate RowsGive(lib: Libraries, rows: seq<Json>, discover: Discover, parts: seq<seq<Sample<Float>>>) {
    |parts| == |rows| && forall i | 0 <= i < |rows| :: FromRow(lib, discover, rows[i], parts[i])
  }

  lemma SamplesFromRows(lib: Libraries, document: Json, discover: Discover)
    ensures FromRows(lib, document, discover, DiscoverSamples(lib, document)(discover))
  {
    hide FromRow;
    hide RowSamples;
    hide Flat;
    var rows := UpTo(lib.query(discover.rows, document), discover.maxRows);
    var parts := GatherIsFlat(rows, RowSamples(lib, discover));
    forall i | 0 <= i < |rows| ensures FromRow(lib, discover, rows[i], parts[i]) {
      SamplesFromRow(lib, discover, rows[i]);
    }
    assert RowsGive(lib, rows, discover, parts);
  }

  // ------------------------------------------------------------ a text

  /** What is taken of a match: the group called `value`, if the pattern has one, and its
      first group otherwise. */
  predicate Taken(lib: Libraries, pattern: string, m: Match, text: string) {
    if "value" in lib.groups(pattern) then "value" in m.groups && text == m.groups["value"]
    else m.first == Some(text)
  }

  ghost function UsesMatch(lib: Libraries, metric: Metric, pattern: string): Match -> bool {
    (m: Match) => exists text, raw :: Taken(lib, pattern, m, text) && TextCounts(lib, text, metric.values, raw)
  }

  ghost function MatchGives(lib: Libraries, metric: Metric, pattern: string): (Match, Sample<Float>) -> bool {
    (m: Match, sample: Sample<Float>) =>
      && sample.metric == metric.name && sample.kind == metric.kind
      && Labelled(metric.labels, GroupReads(m), sample.labels)
      && exists text :: Taken(lib, pattern, m, text) && TextGives(lib, text, metric.values, metric.scale, sample.value)
  }

  /** Of the first thousand matches each whose text counts for something gives a sample. */
  ghost predicate FromText(lib: Libraries, text: string, metric: Metric, out: seq<Sample<Float>>) {
    match metric.extractor
    case Regex(pattern) =>
      Yields(UpTo(lib.matches(pattern, text), 1000), out,
             UsesMatch(lib, metric, pattern), MatchGives(lib, metric, pattern))
    case _ => out == []
  }

  lemma OneMatch(lib: Libraries, metric: Metric, pattern: string, m: Match)
    ensures var f := RegexSample(lib, metric, "value" in lib.groups(pattern))(m);
            && (f.Some? <==> UsesMatch(lib, metric, pattern)(m))
            && (f.Some? ==> MatchGives(lib, metric, pattern)(m, f.value))
  {
    hide Labelled;
    hide ReadLabels;
    hide TextNumber;
    hide TextCounts;
    hide TextGives;
    hide Scaled;
    GroupLabels(m, metric.labels);
    var raw := if "value" !in lib.groups(pattern) then m.first
               else if "value" in m.groups then Some(m.groups["value"]) else None;
    if raw.Some? {
      assert Taken(lib, pattern, m, raw.value);
      TextNumberGives(lib, raw.value, metric.values, metric.scale);
    }
  }

  lemma MetricFromText(lib: Libraries, text: string, metric: Metric)
    ensures FromText(lib, text, metric, RegexSamples(lib, text)(metric))
  {
    hide Yields;
    hide RegexSample;
    hide UsesMatch;
    hide MatchGives;
    if metric.extractor.Regex? {
      var pattern := metric.extractor.pattern;
      var named := "value" in lib.groups(pattern);
      forall m: Match
        ensures RegexSample(lib, metric, named)(m).Some? <==> UsesMatch(lib, metric, pattern)(m)
        ensures RegexSample(lib, metric, named)(m).Some? ==>
          MatchGives(lib, metric, pattern)(m, RegexSample(lib, metric, named)(m).value)
      {
        OneMatch(lib, metric, pattern, m);
      }
      CollectYields(UpTo(lib.matches(pattern, text), 1000), RegexSample(lib, metric, named),
                    UsesMatch(lib, metric, pattern), MatchGives(lib, metric, pattern));
    }
  }

  // ------------------------------------------------------------ an exporter's page

  /** No rule of the source drops the sample. */
  predicate Spared(lib: Libraries, drop: map<string, string>, sample: Parsed<Float>) {
    forall key | key in drop && key in sample.labels :: !lib.isMatch(drop[key], sample.labels[key])
  }

  predicate Covers(rule: (string, string), sample: Parsed<Float>) {
    sample.name == rule.0 || sample.family == Some(rule.0)
  }

  /** The first rule that covers the sample, and the name under which it is kept: what
      the rule writes, and what the sample's own name adds to the family's. */
  ghost predicate KeptUnder(keep: seq<(string, string)>, sample: Parsed<Float>, name: string) {
    exists j :: KeptBy(keep, sample, name, j)
  }

  ghost predicate KeptBy(keep: seq<(string, string)>, sample: Parsed<Float>, name: string, j: int) {
    && 0 <= j < |keep| && Covers(keep[j], sample) && keep[j].0 <= sample.name
    && (forall i | 0 <= i < j :: !Covers(keep[i], sample))
    && name == keep[j].1 + sample.name[|keep[j].0|..]
  }

  /** Counters: the series of a declared counter or histogram, and those a summary adds
      to its own. */
  predicate IsCounter(sample: Parsed<Float>) {
    || sample.familyType == "counter" || sample.familyType == "histogram"
    || (sample.familyType == "summary" && sample.family != Some(sample.name))
  }

  ghost function Keeps(lib: Libraries, source: Source): Parsed<Float> -> bool {
    (sample: Parsed<Float>) =>
      Spared(lib, source.drop, sample) && exists j :: 0 <= j < |source.keep| && Covers(source.keep[j], sample)
  }

  ghost function KeepGives(source: Source): (Parsed<Float>, Sample<Float>) -> bool {
    (sample: Parsed<Float>, out: Sample<Float>) =>
      && (exists name :: KeptUnder(source.keep, sample, name) && out.metric == source.prefix + name)
      && out.value == sample.value && (out.kind == Counter <==> IsCounter(sample))
      && ExportedAs(sample.labels, out.labels)
  }

  ghost function UsesSample(lib: Libraries, source: Source, metric: Metric): Parsed<Float> -> bool {
    (sample: Parsed<Float>) => Spared(lib, source.drop, sample) && metric.extractor == Prom(sample.name)
  }

  ghost function SampleGives(lib: Libraries, metric: Metric): (Parsed<Float>, Sample<Float>) -> bool {
    (sample: Parsed<Float>, out: Sample<Float>) =>
      && out.metric == metric.name && out.kind == metric.kind
      && out.value == lib.times(sample.value, Factor(lib, metric.scale))
      && if metric.labels == [] then ExportedAs(sample.labels, out.labels)
         else Labelled(metric.labels, SampleReads(sample), out.labels)
  }

  lemma SparedIsNotDropped(lib: Libraries, source: Source, sample: Parsed<Float>)
    ensures Undropped(lib, source)(sample) == if Spared(lib, source.drop, sample) then Some(sample) else None
  {
  }

  lemma {:induction false} KeptNameIs(keep: seq<(string, string)>, sample: Parsed<Float>)
    requires WellRead(sample)
    ensures KeptName(keep, sample).Some? <==> exists j :: 0 <= j < |keep| && Covers(keep[j], sample)
    ensures KeptName(keep, sample).Some? ==> KeptUnder(keep, sample, KeptName(keep, sample).value)
  {
    if keep != [] {
      var rest := keep[1..];
      if Covers(keep[0], sample) {
        CoveredIsPrefix(keep[0].0, sample);
        assert sample.name == keep[0].0 ==> keep[0].1 + sample.name[|keep[0].0|..] == keep[0].1;
        assert KeptBy(keep, sample, KeptName(keep, sample).value, 0);
      } else {
        KeptNameIs(rest, sample);
        assert forall j | 0 <= j < |rest| :: rest[j] == keep[j + 1];
        if KeptName(rest, sample).Some? {
          var j :| KeptBy(rest, sample, KeptName(rest, sample).value, j);
          assert forall i | 0 < i < j + 1 :: keep[i] == rest[i - 1];
          assert KeptBy(keep, sample, KeptName(keep, sample).value, j + 1);
        }
        if exists j :: 0 <= j < |keep| && Covers(keep[j], sample) {
          var j :| 0 <= j < |keep| && Covers(keep[j], sample);
          assert rest[j - 1] == keep[j];
        }
      }
    }
  }

  lemma CoveredIsPrefix(family: string, sample: Parsed<Float>)
    requires WellRead(sample) && (sample.name == family || sample.family == Some(family))
    ensures family <= sample.name
  {
  }

  /** The filter of the rules, and then what is made of a sample. */
  ghost function IfSpared(
      lib: Libraries, source: Source, f: Parsed<Float> -> Option<Sample<Float>>): Parsed<Float> -> Option<Sample<Float>>
  {
    (sample: Parsed<Float>) => if Spared(lib, source.drop, sample) then f(sample) else None
  }

  lemma SparedFirst(
      lib: Libraries, source: Source, samples: seq<Parsed<Float>>, f: Parsed<Float> -> Option<Sample<Float>>)
    ensures Collect(Collect(samples, Undropped(lib, source)), f) == Collect(samples, IfSpared(lib, source, f))
  {
    hide Spared;
    forall i | 0 <= i < |samples| {
      SparedIsNotDropped(lib, source, samples[i]);
    }
    hide Undropped;
    CollectTwice(samples, Undropped(lib, source), f, IfSpared(lib, source, f));
  }

  /** Each sample of a kept family that no rule drops, under its kept name. */
  lemma KeptSamples(lib: Libraries, source: Source, samples: seq<Parsed<Float>>)
    requires AllWellRead(samples)
    ensures Yields(samples, Collect(Collect(samples, Undropped(lib, source)), KeptSample(source)),
                   Keeps(lib, source), KeepGives(source))
  {
    hide Yields;
    hide WellRead;
    hide KeptName;
    hide Spared;
    hide Covers;
    hide KeptUnder;
    hide ExportedAs;
    hide ExportedLabels;
    SparedFirst(lib, source, samples, KeptSample(source));
    forall i | 0 <= i < |samples|
      ensures var f := IfSpared(lib, source, KeptSample(source))(samples[i]);
              && (f.Some? <==> Keeps(lib, source)(samples[i]))
              && (f.Some? ==> KeepGives(source)(samples[i], f.value))
    {
      KeptNameIs(source.keep, samples[i]);
      LabelsAreExported(samples[i].labels);
    }
    CollectYields(samples, IfSpared(lib, source, KeptSample(source)), Keeps(lib, source), KeepGives(source));
  }

  /** Each sample of that name that no rule drops. */
  ghost predicate FromSamples(
      lib: Libraries, source: Source, samples: seq<Parsed<Float>>, metric: Metric, out: seq<Sample<Float>>)
  {
    Yields(samples, out, UsesSample(lib, source, metric), SampleGives(lib, metric))
  }

  lemma OneUsed(lib: Libraries, metric: Metric, sample: Parsed<Float>)
    requires metric.extractor == Prom(sample.name)
    ensures PromSample(lib, metric)(sample).Some?
    ensures SampleGives(lib, metric)(sample, PromSample(lib, metric)(sample).value)
  {
    hide Labelled;
    hide ReadLabels;
    hide ExportedAs;
    hide ExportedLabels;
    LabelsAreExported(sample.labels);
    SampleLabels(sample, metric.labels);
    var out := PromSample(lib, metric)(sample).value;
    assert out.value == lib.times(sample.value, Factor(lib, metric.scale));
    if metric.labels == [] {
      assert ExportedAs(sample.labels, out.labels);
    } else {
      assert Labelled(metric.labels, SampleReads(sample), out.labels);
    }
  }

  lemma MetricFromSamples(lib: Libraries, source: Source, samples: seq<Parsed<Float>>, metric: Metric)
    ensures FromSamples(lib, source, samples, metric,
                        PromSamples(lib, Collect(samples, Undropped(lib, source)))(metric))
  {
    hide Yields;
    hide Spared;
    hide SampleGives;
    hide ReadLabels;
    hide ExportedLabels;
    var kept := Collect(samples, Undropped(lib, source));
    SparedFirst(lib, source, samples, PromSample(lib, metric));
    forall i | 0 <= i < |samples|
      ensures var f := IfSpared(lib, source, PromSample(lib, metric))(samples[i]);
              && (f.Some? <==> UsesSample(lib, source, metric)(samples[i]))
              && (f.Some? ==> SampleGives(lib, metric)(samples[i], f.value))
    {
      if metric.extractor == Prom(samples[i].name) {
        OneUsed(lib, metric, samples[i]);
      }
    }
    CollectYields(samples, IfSpared(lib, source, PromSample(lib, metric)),
                  UsesSample(lib, source, metric), SampleGives(lib, metric));
    if !metric.extractor.Prom? {
      NothingWanted(kept, PromSample(lib, metric));
    }
  }

  lemma {:induction false} NothingWanted<A, B>(items: seq<A>, f: A -> Option<B>)
    requires forall i | 0 <= i < |items| :: f(items[i]) == None
    ensures Collect(items, f) == []
    decreases |items|
  {
    if items != [] {
      var rest := items[..|items| - 1];
      assert forall i | 0 <= i < |rest| :: rest[i] == items[i];
      NothingWanted(rest, f);
    }
  }

  // ------------------------------------------------------------ a source, and a pack

  /** The samples a source makes of a decoded answer: `parts` metric by metric, and
      `others` from its rows, or from the families it keeps. */
  ghost predicate Extracted(lib: Libraries, source: Source, body: Body, out: seq<Sample<Float>>) {
    match body
    case Document(document) =>
      exists parts, others ::
        MetricsGive(lib, source, body, parts) && DiscoversGive(lib, document, source.discovers, others)
        && out == Flat(parts) + Flat(others)
    case Plain(text) =>
      exists parts :: MetricsGive(lib, source, body, parts) && out == Flat(parts)
    case Exposed(samples) =>
      exists kept, parts ::
        Yields(samples, kept, Keeps(lib, source), KeepGives(source))
        && MetricsGive(lib, source, body, parts) && out == kept + Flat(parts)
  }

  ghost predicate MetricGives(lib: Libraries, source: Source, body: Body, metric: Metric, out: seq<Sample<Float>>) {
    match body
    case Document(document) => FromDocument(lib, document, metric, out)
    case Plain(text) => FromText(lib, text, metric, out)
    case Exposed(samples) => FromSamples(lib, source, samples, metric, out)
  }

  ghost predicate MetricsGive(lib: Libraries, source: Source, body: Body, parts: seq<seq<Sample<Float>>>) {
    && |parts| == |source.metrics|
    && forall i | 0 <= i < |parts| :: MetricGives(lib, source, body, source.metrics[i], parts[i])
  }

  ghost predicate DiscoversGive(
      lib: Libraries, document: Json, discovers: seq<Discover>, parts: seq<seq<Sample<Float>>>)
  {
    && |parts| == |discovers|
    && forall i | 0 <= i < |parts| :: FromRows(lib, document, discovers[i], parts[i])
  }

  /** What a source makes of an answer is exactly that: which samples are there, in which
      order, and with which name, value, kind and labels. */
  lemma SourceSamplesAreExtracted(lib: Libraries, source: Source, body: Body)
    requires Readable(body)
    ensures Extracted(lib, source, body, SourceSamples(lib, source, body))
  {
    hide Flat;
    hide Gather;
    hide Collect;
    hide Yields;
    hide FromDocument;
    hide FromText;
    hide FromSamples;
    hide FromRows;
    hide JsonSamples;
    hide RegexSamples;
    hide PromSamples;
    hide DiscoverSamples;
    match body
    case Document(document) =>
      var parts := GatherIsFlat(source.metrics, JsonSamples(lib, document));
      var others := GatherIsFlat(source.discovers, DiscoverSamples(lib, document));
      forall i | 0 <= i < |parts| ensures MetricGives(lib, source, body, source.metrics[i], parts[i]) {
        MetricFromDocument(lib, document, source.metrics[i]);
      }
      forall i | 0 <= i < |others| ensures FromRows(lib, document, source.discovers[i], others[i]) {
        SamplesFromRows(lib, document, source.discovers[i]);
      }
      assert MetricsGive(lib, source, body, parts) && DiscoversGive(lib, document, source.discovers, others);
    case Plain(text) =>
      var parts := GatherIsFlat(source.metrics, RegexSamples(lib, text));
      forall i | 0 <= i < |parts| ensures MetricGives(lib, source, body, source.metrics[i], parts[i]) {
        MetricFromText(lib, text, source.metrics[i]);
      }
      assert MetricsGive(lib, source, body, parts);
    case Exposed(samples) =>
      var spared := Collect(samples, Undropped(lib, source));
      var parts := GatherIsFlat(source.metrics, PromSamples(lib, spared));
      forall i | 0 <= i < |parts| ensures MetricGives(lib, source, body, source.metrics[i], parts[i]) {
        MetricFromSamples(lib, source, samples, source.metrics[i]);
      }
      KeptSamples(lib, source, samples);
      assert MetricsGive(lib, source, body, parts);
  }

  /** Source by source: nothing if it was not answered, and otherwise what its decoded
      answer gives. */
  ghost predicate PackGives(
      lib: Libraries, sources: seq<Source>, bodies: map<string, Bytes>, parts: seq<seq<Sample<Float>>>)
  {
    && |parts| == |sources|
    && forall i | 0 <= i < |sources| :: SourceGives(lib, sources[i], bodies, parts[i])
  }

  ghost predicate SourceGives(lib: Libraries, source: Source, bodies: map<string, Bytes>, part: seq<Sample<Float>>) {
    if source.id !in bodies then part == []
    else exists body :: BodyIs(lib, source, bodies[source.id], body) && Extracted(lib, source, body, part)
  }

  /** What an answer is: a document, a text, or the samples on the lines of a page. */
  ghost predicate BodyIs(lib: Libraries, source: Source, bytes: Bytes, body: Body) {
    match source.format
    case JsonBody => body.Document? && lib.json(bytes) == Some(body.document)
    case TextBody => body == Plain(lib.text(bytes))
    case PromBody =>
      body.Exposed? && exists at :: Families.OnLines(lib.codec, Lines(lib.text(bytes)), 0, body.samples, at)
  }

  /** An answer that is no document, or a page with a sample line that says no sample. */
  ghost predicate Unreadable(lib: Libraries, source: Source, bytes: Bytes) {
    match source.format
    case JsonBody => lib.json(bytes).None?
    case TextBody => false
    case PromBody => !Families.AllReadable(lib.codec, Lines(lib.text(bytes)), 0, |Lines(lib.text(bytes))|)
  }

  lemma PageIs(lib: Libraries, text: string)
    ensures var page := PageSpec(lib.codec, Lines(text), 1, map[]);
            && (page.Ok? <==> Families.AllReadable(lib.codec, Lines(text), 0, |Lines(text)|))
            && (page.Ok? ==> exists at :: Families.OnLines(lib.codec, Lines(text), 0, page.value, at))
  {
    var lines := Lines(text);
    assert lines[0..] == lines;
    hide Lines;
    hide Families.OnLines;
    hide Families.IsSampleLine;
    hide Families.Readable;
    hide PageSpec;
    Families.PageIsReadExactlyWhenSaid(lib.codec, lines, 0, 1, map[]);
    if PageSpec(lib.codec, lines, 1, map[]).Ok? {
      var at := Families.PageHasItsFamilies(lib.codec, text);
    }
  }

  lemma DecodedIs(lib: Libraries, source: Source, bytes: Bytes)
    ensures Decoded(lib, source, bytes).Err? <==> Unreadable(lib, source, bytes)
    ensures Decoded(lib, source, bytes).Ok? ==> BodyIs(lib, source, bytes, Decoded(lib, source, bytes).value)
  {
    PageIs(lib, lib.text(bytes));
    hide Lines;
    hide Families.OnLines;
    hide Families.AllReadable;
    hide PageSpec;
  }

  ghost predicate Answered(sources: seq<Source>, bodies: map<string, Bytes>, i: int) {
    0 <= i < |sources| && sources[i].id in bodies
  }

  ghost predicate UnreadableAt(lib: Libraries, sources: seq<Source>, bodies: map<string, Bytes>, i: int) {
    Answered(sources, bodies, i) && Unreadable(lib, sources[i], bodies[sources[i].id])
  }

  /** A pack fails if and only if some answer cannot be read. */
  lemma {:induction false} PackFailsExactlyWhen(lib: Libraries, sources: seq<Source>, bodies: map<string, Bytes>)
    ensures AllSamples(lib, sources, bodies).Err? <==> exists i :: UnreadableAt(lib, sources, bodies, i)
    decreases |sources|
  {
    hide Decoded;
    hide Unreadable;
    if sources != [] {
      var rest := sources[1..];
      PackFailsExactlyWhen(lib, rest, bodies);
      if sources[0].id in bodies {
        DecodedIs(lib, sources[0], bodies[sources[0].id]);
      }
      assert UnreadableAt(lib, sources, bodies, 0) <==>
        sources[0].id in bodies && Decoded(lib, sources[0], bodies[sources[0].id]).Err?;
      forall i | UnreadableAt(lib, rest, bodies, i) ensures UnreadableAt(lib, sources, bodies, i + 1) {
      }
      forall i | UnreadableAt(lib, sources, bodies, i) && i > 0 ensures UnreadableAt(lib, rest, bodies, i - 1) {
      }
    }
  }

  lemma FlatPrepends<A>(part: seq<A>, parts: seq<seq<A>>)
    ensures Flat([part] + parts) == part + Flat(parts)
    decreases |parts|
  {
    if parts == [] {
      assert [part] + parts == [part] && [part][..0] == [];
      assert Flat([part]) == Flat([part][..0]) + part;
    } else {
      var rest, last := parts[..|parts| - 1], parts[|parts| - 1];
      FlatPrepends(part, rest);
      assert ([part] + parts)[..|parts|] == [part] + rest;
    }
  }

  /** The samples of a whole pack, before they are cut to their number. */
  lemma {:induction false} PackSamplesAreExtracted(lib: Libraries, sources: seq<Source>, bodies: map<string, Bytes>)
      returns (parts: seq<seq<Sample<Float>>>)
    requires AllSamples(lib, sources, bodies).Ok?
    ensures PackGives(lib, sources, bodies, parts) && AllSamples(lib, sources, bodies).value == Flat(parts)
  {
    hide Decoded;
    hide SourceSamples;
    hide Extracted;
    hide Readable;
    hide BodyIs;
    hide Unreadable;
    parts := [];
    if sources != [] {
      var source, rest := sources[0], sources[1..];
      var more := PackSamplesAreExtracted(lib, rest, bodies);
      var part := [];
      if source.id in bodies {
        var body := Decoded(lib, source, bodies[source.id]).value;
        DecodedIs(lib, source, bodies[source.id]);
        DecodedIsReadable(lib, source, bodies[source.id]);
        SourceSamplesAreExtracted(lib, source, body);
        part := SourceSamples(lib, source, body);
      }
      parts := [part] + more;
      FlatPrepends(part, more);
      forall i | 0 <= i < |sources| ensures SourceGives(lib, sources[i], bodies, parts[i]) {
        if i > 0 {
          assert sources[i] == rest[i - 1] && parts[i] == more[i - 1];
        }
      }
    }
  }

  /** What becomes of a pack: an error if and only if an answer cannot be read, and
      otherwise the first five thousand of the samples that the answers give. */
  lemma PackIsExtracted(
      lib: Libraries, pack: Pack, bodies: map<string, Bytes>, r: Result<seq<Sample<Float>>, string>)
      returns (parts: seq<seq<Sample<Float>>>)
    requires var all := AllSamples(lib, pack.sources, bodies);
             r == if all.Err? then all else Ok(Take(all.value, MAX_SERIES))
    ensures r.Err? <==> exists i :: UnreadableAt(lib, pack.sources, bodies, i)
    ensures r.Ok? ==> PackGives(lib, pack.sources, bodies, parts) && r.value == UpTo(Flat(parts), 5000)
  {
    hide UnreadableAt;
    hide PackGives;
    hide AllSamples;
    PackFailsExactlyWhen(lib, pack.sources, bodies);
    parts := [];
    if r.Ok? {
      parts := PackSamplesAreExtracted(lib, pack.sources, bodies);
    }
  }
}
