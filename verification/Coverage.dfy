/** What compiling a pack promises about running it: every series an accepted pack
    writes is one it declared, carries no label the server keeps for itself, and can
    be printed in the reference file and read back. */
module Coverage {
  import opened Wrappers
  import opened Text
  import opened Exposition
  import opened PrintAndRead
  import opened Compile
  import opened Extract

  /** A sample under a declared name, with printable labels none of which is reserved. */
  ghost predicate Proper(names: set<string>, sample: Sample<Float>) {
    METRIC_PREFIX + sample.metric in names && CleanLabels(sample.labels)
  }

  ghost predicate CleanLabels(labels: map<string, string>) {
    forall key :: key in labels ==> !Reserved(key) && ValidLabel(key)
  }

  ghost predicate AllProper(names: set<string>, samples: seq<Sample<Float>>) {
    forall k :: 0 <= k < |samples| ==> Proper(names, samples[k])
  }

  lemma AllProperConcat(names: set<string>, a: seq<Sample<Float>>, b: seq<Sample<Float>>)
    requires AllProper(names, a) && AllProper(names, b)
    ensures AllProper(names, a + b)
  {
    hide Proper;
  }

  // ------------------------------------------------------------ labels

  ghost predicate Declared(labels: seq<(string, LabelFrom)>) {
    forall k :: 0 <= k < |labels| ==> LabelAccepted(labels[k].0)
  }

  lemma AcceptedIsClean(key: string)
    requires LabelAccepted(key)
    ensures !Reserved(key) && ValidLabel(key)
  {
  }

  lemma {:induction false} ReadLabelsAreClean(labels: seq<(string, LabelFrom)>, read: LabelFrom -> Option<string>)
    requires Declared(labels)
    ensures CleanLabels(ReadLabels(labels, read))
    decreases |labels|
  {
    hide LabelAccepted;
    hide ValidLabel;
    hide Reserved;
    if labels != [] {
      ReadLabelsAreClean(labels[..|labels| - 1], read);
      AcceptedIsClean(labels[|labels| - 1].0);
    }
  }

  lemma {:induction false} TrimKeepsChars(s: string)
    ensures forall k :: 0 <= k < |TrimUnderscores(s)| ==> TrimUnderscores(s)[k] in s
  {
    if s != "" && s[0] == '_' {
      TrimKeepsChars(s[1..]);
      assert s == [s[0]] + s[1..];
    }
  }

  lemma ExportedKeyIsClean(key: string)
    requires ValidLabel(key)
    ensures !Reserved(ExportedKey(key)) && ValidLabel(ExportedKey(key)) && !("__" <= ExportedKey(key))
  {
    if Special(key) {
      TrimKeepsChars(key);
      var r := ExportedKey(key);
      assert r == "exported_" + TrimUnderscores(key);
      assert r[0] == 'e' && r[1] == 'x';
    }
  }

  lemma {:induction false} ExportKeysAreClean(labels: map<string, string>, keys: seq<string>)
    requires ValidLabels(labels) && forall k :: 0 <= k < |keys| ==> keys[k] in labels
    ensures CleanLabels(ExportKeys(labels, keys))
    decreases |keys|
  {
    hide ValidLabel;
    hide Reserved;
    hide ExportedKey;
    hide Truncate;
    if keys != [] {
      ExportKeysAreClean(labels, keys[..|keys| - 1]);
      ExportedKeyIsClean(keys[|keys| - 1]);
    }
  }

  lemma ExportedLabelsAreClean(labels: map<string, string>)
    requires ValidLabels(labels)
    ensures CleanLabels(ExportedLabels(labels))
  {
    KeysInOrder(labels);
    ExportKeysAreClean(labels, InOrder(labels.Keys));
  }

  // ------------------------------------------------------------ collecting

  ghost predicate Gives<A(!new)>(names: set<string>, items: seq<A>, f: A -> Option<Sample<Float>>) {
    forall k :: 0 <= k < |items| ==> match f(items[k]) case None => true case Some(s) => Proper(names, s)
  }

  lemma {:induction false} CollectIsProper<A(!new)>(names: set<string>, items: seq<A>, f: A -> Option<Sample<Float>>)
    requires Gives(names, items, f)
    ensures AllProper(names, Collect(items, f))
    decreases |items|
  {
    hide Proper;
    if items != [] {
      assert f(items[|items| - 1]) == f(items[|items| - 1]);
      CollectIsProper(names, items[..|items| - 1], f);
    }
  }

  ghost predicate GivesAll<A(!new)>(names: set<string>, items: seq<A>, f: A -> seq<Sample<Float>>) {
    forall k :: 0 <= k < |items| ==> AllProper(names, f(items[k]))
  }

  lemma {:induction false} GatherIsProper<A(!new)>(names: set<string>, items: seq<A>, f: A -> seq<Sample<Float>>)
    requires GivesAll(names, items, f)
    ensures AllProper(names, Gather(items, f))
    decreases |items|
  {
    hide AllProper;
    if items != [] {
      GatherIsProper(names, items[..|items| - 1], f);
      AllProperConcat(names, Gather(items[..|items| - 1], f), f(items[|items| - 1]));
    } else {
      assert AllProper(names, []) by { NoneIsProper(names); }
    }
  }

  lemma NoneIsProper(names: set<string>)
    ensures AllProper(names, [])
  {
  }

  // ------------------------------------------------------------ metrics, rows, kept families

  ghost predicate MetricIsProper(names: set<string>, metric: Metric) {
    METRIC_PREFIX + metric.name in names && Declared(metric.labels)
  }

  ghost predicate DiscoverIsProper(names: set<string>, discover: Discover) {
    && Declared(discover.labels)
    && forall k :: 0 <= k < |discover.metrics| ==> METRIC_PREFIX + discover.metrics[k].name in names
  }

  ghost predicate FamilyIsProper(names: set<string>, prefix: string, written: string) {
    && Full(prefix, written) in names
    && forall s :: 0 <= s < |FAMILY_SUFFIXES| ==> Full(prefix, written + FAMILY_SUFFIXES[s]) in names
  }

  ghost predicate SourceIsProper(names: set<string>, source: Source) {
    && (forall k :: 0 <= k < |source.metrics| ==> MetricIsProper(names, source.metrics[k]))
    && (forall k :: 0 <= k < |source.discovers| ==> DiscoverIsProper(names, source.discovers[k]))
    && forall k :: 0 <= k < |source.keep| ==> FamilyIsProper(names, source.prefix, source.keep[k].1)
  }

  lemma JsonIsProper(names: set<string>, lib: Libraries, metric: Metric, document: Json)
    requires MetricIsProper(names, metric)
    ensures AllProper(names, JsonSamples(lib, document)(metric))
  {
    hide NumberOf;
    hide ReadLabels;
    if metric.extractor.JsonPath? {
      var nodes := Take(lib.located(metric.extractor.path, document), MAX_ROWS);
      forall k | 0 <= k < |nodes| ensures CleanLabels(ReadLabels(metric.labels, FromNode(lib, nodes[k].1))) {
        ReadLabelsAreClean(metric.labels, FromNode(lib, nodes[k].1));
      }
      hide CleanLabels;
      CollectIsProper(names, nodes, JsonSample(lib, metric));
    }
  }

  lemma RegexIsProper(names: set<string>, lib: Libraries, metric: Metric, text: string)
    requires MetricIsProper(names, metric)
    ensures AllProper(names, RegexSamples(lib, text)(metric))
  {
    hide TextNumber;
    hide ReadLabels;
    if metric.extractor.Regex? {
      var pattern := metric.extractor.pattern;
      var found := Take(lib.matches(pattern, text), MAX_ROWS);
      forall k | 0 <= k < |found| ensures CleanLabels(ReadLabels(metric.labels, FromMatch(found[k]))) {
        ReadLabelsAreClean(metric.labels, FromMatch(found[k]));
      }
      hide CleanLabels;
      CollectIsProper(names, found, RegexSample(lib, metric, "value" in lib.groups(pattern)));
    }
  }

  lemma PromIsProper(names: set<string>, lib: Libraries, metric: Metric, samples: seq<Parsed<Float>>)
    requires MetricIsProper(names, metric) && AllWellRead(samples)
    ensures AllProper(names, PromSamples(lib, samples)(metric))
  {
    hide ReadLabels;
    hide ExportedLabels;
    if metric.extractor.Prom? {
      forall k | 0 <= k < |samples|
        ensures CleanLabels(ReadLabels(metric.labels, FromLabels(samples[k].labels)))
          && CleanLabels(ExportedLabels(samples[k].labels))
      {
        ReadLabelsAreClean(metric.labels, FromLabels(samples[k].labels));
        assert WellRead(samples[k]);
        ExportedLabelsAreClean(samples[k].labels);
      }
      hide CleanLabels;
      hide WellRead;
      CollectIsProper(names, samples, PromSample(lib, metric));
    }
  }

  lemma RowIsProper(names: set<string>, lib: Libraries, discover: Discover, row: Json)
    requires DiscoverIsProper(names, discover)
    ensures AllProper(names, RowSamples(lib, discover)(row))
  {
    hide NumberOf;
    hide ReadLabels;
    hide CleanLabels;
    var labels := ReadLabels(discover.labels, FromNode(lib, row));
    ReadLabelsAreClean(discover.labels, FromNode(lib, row));
    CollectIsProper(names, discover.metrics, RowSample(lib, row, labels));
  }

  lemma DiscoveredIsProper(names: set<string>, lib: Libraries, discover: Discover, document: Json)
    requires DiscoverIsProper(names, discover)
    ensures AllProper(names, DiscoverSamples(lib, document)(discover))
  {
    hide RowSamples;
    hide AllProper;
    hide DiscoverIsProper;
    var rows := Take(lib.query(discover.rows, document), discover.maxRows);
    forall k | 0 <= k < |rows| ensures AllProper(names, RowSamples(lib, discover)(rows[k])) {
      RowIsProper(names, lib, discover, rows[k]);
    }
    GatherIsProper(names, rows, RowSamples(lib, discover));
  }

  /** A kept sample is written under its family's new name, with at most one of the
      known suffixes: the parser vouches for what is left of the name. */
  lemma {:induction false} KeptNameIsCovered(
      names: set<string>, prefix: string, keep: seq<(string, string)>, sample: Parsed<Float>)
    requires WellRead(sample)
    requires forall k :: 0 <= k < |keep| ==> FamilyIsProper(names, prefix, keep[k].1)
    ensures var name := KeptName(keep, sample);
            name.Some? ==> Full(prefix, name.value) in names
  {
    hide Full;
    hide ValidName;
    hide ValidLabels;
    if keep != [] {
      var (family, written) := keep[0];
      assert FamilyIsProper(names, prefix, written);
      if sample.name == family {
      } else if sample.family == Some(family) && |family| <= |sample.name| {
        var s :| 0 <= s < |FAMILY_SUFFIXES| && sample.name == family + FAMILY_SUFFIXES[s];
        assert sample.name[|family|..] == FAMILY_SUFFIXES[s];
      } else {
        KeptNameIsCovered(names, prefix, keep[1..], sample);
      }
    }
  }

  lemma KeptIsProper(names: set<string>, source: Source, samples: seq<Parsed<Float>>)
    requires SourceIsProper(names, source) && AllWellRead(samples)
    ensures AllProper(names, Collect(samples, KeptSample(source)))
  {
    hide KeptName;
    hide ExportedLabels;
    forall k | 0 <= k < |samples|
      ensures CleanLabels(ExportedLabels(samples[k].labels))
      ensures var name := KeptName(source.keep, samples[k]); name.Some? ==> Full(source.prefix, name.value) in names
    {
      assert WellRead(samples[k]);
      ExportedLabelsAreClean(samples[k].labels);
      KeptNameIsCovered(names, source.prefix, source.keep, samples[k]);
    }
    hide CleanLabels;
    hide WellRead;
    hide SourceIsProper;
    CollectIsProper(names, samples, KeptSample(source));
  }

  lemma SourceGivesProper(names: set<string>, lib: Libraries, source: Source, body: Body)
    requires SourceIsProper(names, source) && Readable(body)
    ensures AllProper(names, SourceSamples(lib, source, body))
  {
    hide AllProper;
    hide MetricIsProper;
    hide DiscoverIsProper;
    hide FamilyIsProper;
    hide AllWellRead;
    match body
    case Document(document) =>
      forall k | 0 <= k < |source.metrics| ensures AllProper(names, JsonSamples(lib, document)(source.metrics[k])) {
        JsonIsProper(names, lib, source.metrics[k], document);
      }
      GatherIsProper(names, source.metrics, JsonSamples(lib, document));
      forall k | 0 <= k < |source.discovers|
        ensures AllProper(names, DiscoverSamples(lib, document)(source.discovers[k]))
      {
        DiscoveredIsProper(names, lib, source.discovers[k], document);
      }
      GatherIsProper(names, source.discovers, DiscoverSamples(lib, document));
      AllProperConcat(names, Gather(source.metrics, JsonSamples(lib, document)),
          Gather(source.discovers, DiscoverSamples(lib, document)));
    case Plain(text) =>
      forall k | 0 <= k < |source.metrics| ensures AllProper(names, RegexSamples(lib, text)(source.metrics[k])) {
        RegexIsProper(names, lib, source.metrics[k], text);
      }
      GatherIsProper(names, source.metrics, RegexSamples(lib, text));
    case Exposed(samples) =>
      var kept := Collect(samples, Undropped(lib, source));
      KeptIsWellRead(lib, source, samples);
      KeptIsProper(names, source, kept);
      forall k | 0 <= k < |source.metrics| ensures AllProper(names, PromSamples(lib, kept)(source.metrics[k])) {
        PromIsProper(names, lib, source.metrics[k], kept);
      }
      GatherIsProper(names, source.metrics, PromSamples(lib, kept));
      AllProperConcat(names, Collect(kept, KeptSample(source)), Gather(source.metrics, PromSamples(lib, kept)));
  }

  // ------------------------------------------------------------ accepted packs

  function NamesOf(pack: Pack): set<string> { pack.produced + pack.variants }

  lemma {:induction false} MetricsForComeFrom(prefix: string, id: string, specs: seq<MetricSpec>, k: nat)
      returns (i: nat)
    requires k < |MetricsFor(prefix, id, specs)|
    ensures i < |specs| && MetricsFor(prefix, id, specs)[k] == MetricOf(prefix, specs[i])
    decreases |specs|
  {
    hide MetricOf;
    var before := MetricsFor(prefix, id, specs[..|specs| - 1]);
    if k < |before| {
      i := MetricsForComeFrom(prefix, id, specs[..|specs| - 1], k);
    } else {
      i := |specs| - 1;
    }
  }

  lemma {:induction false} DiscoversForComeFrom(prefix: string, id: string, specs: seq<DiscoverSpec>, k: nat)
      returns (i: nat)
    requires k < |DiscoversFor(prefix, id, specs)|
    ensures i < |specs| && DiscoversFor(prefix, id, specs)[k] == DiscoverOf(prefix, specs[i])
    decreases |specs|
  {
    hide DiscoverOf;
    var before := DiscoversFor(prefix, id, specs[..|specs| - 1]);
    if k < |before| {
      i := DiscoversForComeFrom(prefix, id, specs[..|specs| - 1], k);
    } else {
      i := |specs| - 1;
    }
  }

  lemma ClaimIsProduced(prefix: string, names: seq<string>, name: string)
    requires name in names
    ensures Full(prefix, name) in ProducedBy(prefix, names)
  {
    var k :| 0 <= k < |names| && names[k] == name;
  }

  lemma LabelsOfAreDeclared(syntax: Syntax, source: LabelSource, from: LabelSource, labels: map<string, string>)
    requires LabelsAccepted(syntax, source, labels)
    ensures Declared(LabelsOf(from, labels))
  {
    hide LabelAccepted;
    hide LabelReadable;
    KeysInOrder(labels);
  }

  lemma MetricOfIsProper(names: set<string>, syntax: Syntax, prefix: string, spec: MetricSpec, format: BodyFormat)
    requires MetricAccepted(syntax, spec, format) && Full(prefix, spec.name) in names
    ensures MetricIsProper(names, MetricOf(prefix, spec))
  {
    hide LabelsAccepted;
    hide LabelsOf;
    hide Declared;
    if spec.json.Some? {
      LabelsOfAreDeclared(syntax, InJson, InJson, spec.labels);
    } else if spec.regex.Some? {
      LabelsOfAreDeclared(syntax, InGroups(syntax.groups(spec.regex.value)), InGroups({}), spec.labels);
    } else {
      LabelsOfAreDeclared(syntax, InSample, InSample, spec.labels);
    }
  }

  lemma {:induction false} RowNameIsClaimed(specs: seq<DiscoverSpec>, i: nat, k: nat)
    requires i < |specs| && k < |specs[i].metrics|
    ensures specs[i].metrics[k].name in DiscoverNames(specs)
    decreases |specs|
  {
    if i < |specs| - 1 {
      RowNameIsClaimed(specs[..|specs| - 1], i, k);
    } else {
      assert RowNames(specs[i].metrics)[k] == specs[i].metrics[k].name;
    }
  }

  lemma {:induction false} KeptNameIsClaimed(specs: seq<SourceSpec>, i: nat, k: nat)
    requires i < |specs| && k < |specs[i].keep|
    ensures Written(specs[i], specs[i].keep[k]) in KeptNames(specs)
    decreases |specs|
  {
    hide Written;
    if i < |specs| - 1 {
      KeptNameIsClaimed(specs[..|specs| - 1], i, k);
    } else {
      assert WrittenNames(specs[i])[k] == Written(specs[i], specs[i].keep[k]);
    }
  }

  lemma MetricsAreProper(syntax: Syntax, m: Manifest, id: string)
    requires Accepted(syntax, m)
    ensures var metrics := MetricsFor(PrefixFor(m.id), id, m.metrics);
            forall k :: 0 <= k < |metrics| ==> MetricIsProper(NamesOf(PackOf(m)), metrics[k])
  {
    hide MetricIsProper;
    hide MetricOf;
    hide MetricAccepted;
    hide KeptNames;
    hide DiscoverNames;
    hide NamesAccepted;
    hide SourcesAccepted;
    var prefix := PrefixFor(m.id);
    var metrics := MetricsFor(prefix, id, m.metrics);
    forall k | 0 <= k < |metrics| ensures MetricIsProper(NamesOf(PackOf(m)), metrics[k]) {
      var i := MetricsForComeFrom(prefix, id, m.metrics, k);
      var spec := m.metrics[i];
      assert MetricPlaced(syntax, m.sources, spec);
      var j :| 0 <= j < |m.sources| && MetricAccepted(syntax, spec, FormatOf(m.sources[j]));
      assert MetricNames(m.metrics)[i] == spec.name;
      ClaimIsProduced(prefix, Claims(m), spec.name);
      MetricOfIsProper(NamesOf(PackOf(m)), syntax, prefix, spec, FormatOf(m.sources[j]));
    }
  }

  lemma DiscoverOfIsProper(syntax: Syntax, m: Manifest, i: nat)
    requires i < |m.discover| && DiscoverPlaced(syntax, m.sources, m.discover[i])
    ensures DiscoverIsProper(NamesOf(PackOf(m)), DiscoverOf(PrefixFor(m.id), m.discover[i]))
  {
    hide LabelsAccepted;
    hide LabelsOf;
    hide Declared;
    hide RowsAccepted;
    hide KeptNames;
    hide DiscoverNames;
    hide MetricNames;
    var prefix, spec := PrefixFor(m.id), m.discover[i];
    LabelsOfAreDeclared(syntax, InJson, InJson, spec.labels);
    forall k | 0 <= k < |spec.metrics| ensures Full(prefix, spec.metrics[k].name) in ProducedBy(prefix, Claims(m)) {
      RowNameIsClaimed(m.discover, i, k);
      ClaimIsProduced(prefix, Claims(m), spec.metrics[k].name);
    }
    hide ProducedBy;
  }

  lemma DiscoversAreProper(syntax: Syntax, m: Manifest, id: string)
    requires Accepted(syntax, m)
    ensures var discovers := DiscoversFor(PrefixFor(m.id), id, m.discover);
            forall k :: 0 <= k < |discovers| ==> DiscoverIsProper(NamesOf(PackOf(m)), discovers[k])
  {
    hide DiscoverIsProper;
    hide DiscoverOf;
    hide DiscoverPlaced;
    hide NamesAccepted;
    hide SourcesAccepted;
    hide PackOf;
    var prefix := PrefixFor(m.id);
    var discovers := DiscoversFor(prefix, id, m.discover);
    forall k | 0 <= k < |discovers| ensures DiscoverIsProper(NamesOf(PackOf(m)), discovers[k]) {
      var i := DiscoversForComeFrom(prefix, id, m.discover, k);
      DiscoverOfIsProper(syntax, m, i);
    }
  }

  lemma FamiliesAreProper(m: Manifest, i: nat, k: nat)
    requires i < |m.sources| && k < |m.sources[i].keep|
    ensures FamilyIsProper(NamesOf(PackOf(m)), PrefixFor(m.id), Written(m.sources[i], m.sources[i].keep[k]))
  {
    hide Full;
    hide KeptNames;
    hide DiscoverNames;
    hide MetricNames;
    hide Written;
    var written := Written(m.sources[i], m.sources[i].keep[k]);
    KeptNameIsClaimed(m.sources, i, k);
    ClaimIsProduced(PrefixFor(m.id), Claims(m), written);
    var n :| 0 <= n < |KeptNames(m.sources)| && KeptNames(m.sources)[n] == written;
  }

  lemma PackIsProper(syntax: Syntax, m: Manifest, i: nat)
    requires Accepted(syntax, m) && i < |m.sources|
    ensures SourceIsProper(NamesOf(PackOf(m)), PackOf(m).sources[i])
  {
    hide MetricIsProper;
    hide DiscoverIsProper;
    hide FamilyIsProper;
    hide Accepted;
    hide Claims;
    hide ProducedBy;
    hide VariantsOf;
    var source := PackOf(m).sources[i];
    assert source == SourceOf(PrefixFor(m.id), m.sources[i], m.metrics, m.discover);
    assert source.metrics == MetricsFor(PrefixFor(m.id), m.sources[i].id, m.metrics);
    assert source.discovers == DiscoversFor(PrefixFor(m.id), m.sources[i].id, m.discover);
    var names := NamesOf(PackOf(m));
    MetricsAreProper(syntax, m, m.sources[i].id);
    assert forall k :: 0 <= k < |source.metrics| ==> MetricIsProper(names, source.metrics[k]);
    DiscoversAreProper(syntax, m, m.sources[i].id);
    assert forall k :: 0 <= k < |source.discovers| ==> DiscoverIsProper(names, source.discovers[k]);
    forall k | 0 <= k < |m.sources[i].keep|
      ensures FamilyIsProper(NamesOf(PackOf(m)), PrefixFor(m.id), KeepOf(m.sources[i])[k].1)
    {
      FamiliesAreProper(m, i, k);
    }
  }

  lemma {:induction false} AllSamplesAreProper(
      names: set<string>, lib: Libraries, sources: seq<Source>, bodies: map<string, Bytes>)
    requires forall k :: 0 <= k < |sources| ==> SourceIsProper(names, sources[k])
    ensures var all := AllSamples(lib, sources, bodies);
            all.Ok? ==> AllProper(names, all.value)
    decreases |sources|
  {
    hide SourceIsProper;
    hide AllProper;
    hide SourceSamples;
    hide PageSpec;
    if sources == [] {
      NoneIsProper(names);
    } else {
      AllSamplesAreProper(names, lib, sources[1..], bodies);
      if sources[0].id in bodies {
        var body := Decoded(lib, sources[0], bodies[sources[0].id]);
        if body.Ok? && AllSamples(lib, sources[1..], bodies).Ok? {
          DecodedIsReadable(lib, sources[0], bodies[sources[0].id]);
          SourceGivesProper(names, lib, sources[0], body.value);
          AllProperConcat(names, SourceSamples(lib, sources[0], body.value),
              AllSamples(lib, sources[1..], bodies).value);
        }
      }
    }
  }

  /** Compiler soundness: whatever the devices of an accepted pack answer, every sample
      is stored under a name the compiler listed, and none carries a label that is
      reserved for the server. */
  lemma AcceptedPacksStayInTheirNames(syntax: Syntax, m: Manifest, lib: Libraries, bodies: map<string, Bytes>)
    requires Accepted(syntax, m)
    ensures var all := AllSamples(lib, PackOf(m).sources, bodies);
            all.Ok? ==> AllProper(NamesOf(PackOf(m)), all.value)
  {
    hide Accepted;
    hide AllSamples;
    hide AllProper;
    hide SourceIsProper;
    hide PackOf;
    var pack := PackOf(m);
    assert |pack.sources| == |m.sources| by { SourcesMatch(m); }
    forall k | 0 <= k < |pack.sources| ensures SourceIsProper(NamesOf(pack), pack.sources[k]) {
      PackIsProper(syntax, m, k);
    }
    AllSamplesAreProper(NamesOf(pack), lib, pack.sources, bodies);
  }

  lemma SourcesMatch(m: Manifest)
    ensures |PackOf(m).sources| == |m.sources|
  {
  }

  // ------------------------------------------------------------ the reference file

  predicate IdAccepted(id: string) {
    forall k :: 0 <= k < |id| ==> IsLower(id[k]) || IsDigit(id[k]) || id[k] == '-'
  }

  predicate NameChars(s: string) {
    forall k :: 0 <= k < |s| ==> IsNameChar(s[k])
  }

  lemma NameCharsConcat(a: string, b: string)
    ensures NameChars(a + b) <==> NameChars(a) && NameChars(b)
  {
    if NameChars(a + b) {
      forall k | 0 <= k < |a| ensures IsNameChar(a[k]) {
        assert (a + b)[k] == a[k];
      }
      forall k | 0 <= k < |b| ensures IsNameChar(b[k]) {
        assert (a + b)[|a| + k] == b[k];
      }
    }
  }

  lemma FullIsPrintable(prefix: string, name: string)
    requires NameChars(prefix) && NameChars(name)
    ensures NameChars(Full(prefix, name))
  {
    NameCharsConcat(prefix, name);
    NameCharsConcat(METRIC_PREFIX, prefix + name);
  }

  lemma NamesArePrintable(syntax: Syntax, m: Manifest, full: string)
    requires Accepted(syntax, m) && IdAccepted(m.id) && full in NamesOf(PackOf(m))
    ensures NameChars(full)
  {
    hide Full;
    hide SourcesAccepted;
    hide MetricPlaced;
    hide DiscoverPlaced;
    hide KeptNames;
    hide DiscoverNames;
    hide MetricNames;
    var prefix := PrefixFor(m.id);
    assert NameChars(prefix);
    var claims := Claims(m);
    assert forall k :: 0 <= k < |claims| ==> NameChars(claims[k]);
    if full in ProducedBy(prefix, claims) {
      var k :| 0 <= k < |claims| && full == Full(prefix, claims[k]);
      FullIsPrintable(prefix, claims[k]);
    } else {
      var kept := KeptNames(m.sources);
      var k, s :| 0 <= k < |kept| && 0 <= s < |FAMILY_SUFFIXES| && full == Full(prefix, kept[k] + FAMILY_SUFFIXES[s]);
      assert claims[k] == kept[k];
      NameCharsConcat(kept[k], FAMILY_SUFFIXES[s]);
      FullIsPrintable(prefix, kept[k] + FAMILY_SUFFIXES[s]);
    }
  }

  lemma ProperIsPrintable(syntax: Syntax, m: Manifest, samples: seq<Sample<Float>>)
    requires Accepted(syntax, m) && IdAccepted(m.id) && AllProper(NamesOf(PackOf(m)), samples)
    ensures AllPrintable(samples)
  {
    hide Accepted;
    hide PackOf;
    forall k | 0 <= k < |samples| ensures Printable(samples[k]) {
      assert Proper(NamesOf(PackOf(m)), samples[k]);
      NamesArePrintable(syntax, m, METRIC_PREFIX + samples[k].metric);
      NameCharsConcat(METRIC_PREFIX, samples[k].metric);
    }
  }

  /** The reference file of an accepted pack can always be read back: it holds exactly
      the samples the extraction gave, at most MAX_SERIES of them. */
  lemma ReplayReadsBack(syntax: Syntax, m: Manifest, lib: Libraries, bodies: map<string, Bytes>)
      returns (order: seq<Sample<Float>>)
    requires Accepted(syntax, m) && IdAccepted(m.id) && Faithful(lib.codec)
    requires AllSamples(lib, PackOf(m).sources, bodies).Ok?
    ensures var samples := Take(AllSamples(lib, PackOf(m).sources, bodies).value, MAX_SERIES);
            && multiset(order) == multiset(samples)
            && PageSpec(lib.codec, Lines(Page(lib.codec, samples)), 1, map[]) == Ok(ExpectedEach(samples, order))
  {
    hide Accepted;
    hide AllSamples;
    hide PackOf;
    hide PageSpec;
    hide Page;
    hide ExpectedEach;
    hide Proper;
    AcceptedPacksStayInTheirNames(syntax, m, lib, bodies);
    var samples := Take(AllSamples(lib, PackOf(m).sources, bodies).value, MAX_SERIES);
    ProperIsPrintable(syntax, m, samples);
    order := RoundTrip(lib.codec, samples);
  }

  // ------------------------------------------------------------ renamed labels

  /** Two labels of an exporter that end up under one name: reserved names that differ
      only in leading underscores, or a reserved name beside its own exported form. */
  predicate Meet(a: string, b: string) {
    || (Special(a) && Special(b) && TrimUnderscores(a) == TrimUnderscores(b))
    || (Special(a) && !Special(b) && b == "exported_" + TrimUnderscores(a))
  }

  lemma MeetIsClash(a: string, b: string)
    requires a != b
    ensures ExportedKey(a) == ExportedKey(b) <==> Meet(a, b) || Meet(b, a)
  {
    if Special(a) && Special(b) && ExportedKey(a) == ExportedKey(b) {
      var n := |"exported_"|;
      assert TrimUnderscores(a) == ExportedKey(a)[n..] == ExportedKey(b)[n..] == TrimUnderscores(b);
    }
  }

  lemma {:induction false} ExportKeysKeys(labels: map<string, string>, keys: seq<string>)
    requires forall k :: 0 <= k < |keys| ==> keys[k] in labels
    ensures ExportKeys(labels, keys).Keys == set k | k in keys :: ExportedKey(k)
    decreases |keys|
  {
    hide ExportedKey;
    if keys != [] {
      ExportKeysKeys(labels, keys[..|keys| - 1]);
      assert keys == keys[..|keys| - 1] + [keys[|keys| - 1]];
    }
  }

  ghost function Renamed(keys: set<string>): set<string> {
    set k | k in keys :: ExportedKey(k)
  }

  ghost predicate NoneMeet(keys: set<string>) {
    forall a, b :: a in keys && b in keys && a != b ==> !Meet(a, b)
  }

  lemma {:induction false} RenamedSize(keys: set<string>)
    ensures |Renamed(keys)| <= |keys|
    ensures |Renamed(keys)| == |keys| <==> NoneMeet(keys)
    decreases |keys|
  {
    hide ExportedKey;
    hide Meet;
    if keys != {} {
      var x :| x in keys;
      RenamedSize(keys - {x});
      RenamedWithout(keys, x);
      OneMeets(keys, x);
    }
  }

  lemma RenamedWithout(keys: set<string>, x: string)
    requires x in keys
    ensures Renamed(keys) == Renamed(keys - {x}) + {ExportedKey(x)}
  {
    hide ExportedKey;
    assert keys == (keys - {x}) + {x};
  }

  lemma OneMeets(keys: set<string>, x: string)
    requires x in keys
    ensures NoneMeet(keys) <==> NoneMeet(keys - {x}) && ExportedKey(x) !in Renamed(keys - {x})
  {
    hide ExportedKey;
    hide Meet;
    forall y | y in keys && y != x ensures ExportedKey(x) == ExportedKey(y) <==> Meet(x, y) || Meet(y, x) {
      MeetIsClash(x, y);
    }
    if ExportedKey(x) in Renamed(keys - {x}) {
      var y :| y in keys - {x} && ExportedKey(y) == ExportedKey(x);
      assert Meet(x, y) || Meet(y, x);
    } else {
      forall y | y in keys && y != x ensures ExportedKey(x) != ExportedKey(y) {
        assert y in keys - {x};
        assert ExportedKey(y) in Renamed(keys - {x});
      }
    }
  }

  lemma ExportedSize(labels: map<string, string>)
    ensures |ExportedLabels(labels)| == |Renamed(labels.Keys)|
  {
    hide ExportedKey;
    KeysInOrder(labels);
    var keys := InOrder(labels.Keys);
    ExportKeysKeys(labels, keys);
    hide ExportKeys;
    SameKeys(labels.Keys, keys);
    assert |ExportedLabels(labels)| == |ExportedLabels(labels).Keys|;
  }

  lemma SameKeys(keys: set<string>, order: seq<string>)
    requires forall k :: k in order <==> k in keys
    ensures Renamed(keys) == set k | k in order :: ExportedKey(k)
  {
    hide ExportedKey;
  }

  /** Renaming loses no label exactly when no two of them meet. */
  lemma ExportLosesNothing(labels: map<string, string>)
    ensures |ExportedLabels(labels)| == |labels| <==> NoneMeet(labels.Keys)
  {
    hide ExportedLabels;
    hide Renamed;
    hide NoneMeet;
    ExportedSize(labels);
    RenamedSize(labels.Keys);
  }

  lemma ReservedNamesMeet()
    ensures Meet("target", "__target") && !NoneMeet({"target", "__target"})
  {
    assert TrimUnderscores("__target") == TrimUnderscores("_target") == TrimUnderscores("target") == "target";
  }
}
