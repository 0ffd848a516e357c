/** The Prometheus text exposition format: the parser that reads an exporter's
    page, and the printer that writes the reference file of a pack.  Numbers are
    left to a codec, of which only this is used: a printed number is one word and
    reads back as itself. */
module Exposition {
  import opened Wrappers
  import opened Text

  datatype Kind = Gauge | Counter

  /** A point as a collector produces it, without its timestamp. */
  datatype Sample<V> = Sample(metric: string, labels: map<string, string>, value: V, kind: Kind)

  /** A point as the parser reads it, with the family its name belongs to. */
  datatype Parsed<V> = Parsed(
    name: string, labels: map<string, string>, value: V, family: Option<string>, familyType: string)

  datatype Error =
    | BadMetricName
    | NoValue
    | BadValue
    | NoEquals
    | BadLabelName
    | NoQuotes
    | Unterminated

  datatype Codec<!V> = Codec(show: V -> string, read: string -> Option<V>)

  ghost predicate Faithful<V(!new)>(codec: Codec<V>) {
    forall v :: IsToken(codec.show(v)) && codec.read(codec.show(v)) == Some(v)
  }

  const METRIC_PREFIX := "dumbmonit_"

  const FAMILY_SUFFIXES := ["_bucket", "_sum", "_count", "_total", "_created"]

  predicate IsNameChar(c: char) { IsAlnum(c) || c == '_' || c == ':' }

  predicate IsLabelChar(c: char) { IsAlnum(c) || c == '_' }

  predicate ValidName(name: string) {
    name != "" && !IsDigit(name[0]) && forall k :: 0 <= k < |name| ==> IsNameChar(name[k])
  }

  predicate ValidLabel(key: string) {
    key != "" && forall k :: 0 <= k < |key| ==> IsLabelChar(key[k])
  }

  ghost predicate ValidLabels(labels: map<string, string>) {
    forall k :: k in labels ==> ValidLabel(k)
  }

  // ------------------------------------------------------------ what the parser computes

  /** The value up to the closing quote, and what follows it. */
  function QuotedSpec(s: string, value: string): (r: Result<(string, string), Error>)
    ensures r.Ok? ==> |r.value.1| < |s|
  {
    if s == "" then Err(Unterminated)
    else if s[0] == '"' then Ok((value, s[1..]))
    else if s[0] != '\\' then QuotedSpec(s[1..], value + [s[0]])
    else if |s| == 1 then Err(Unterminated)
    else QuotedSpec(s[2..], value + [if s[1] == 'n' then '\n' else s[1]])
  }

  function SkipComma(s: string): string {
    if s != "" && s[0] == ',' then s[1..] else s
  }

  /** The labels up to the closing brace, added to `labels`, and what follows. */
  function LabelsSpec(s: string, labels: map<string, string>): Result<(map<string, string>, string), Error>
    decreases |s|
  {
    var rest := TrimStart(s);
    if rest != "" && rest[0] == '}' then Ok((labels, rest[1..]))
    else
      var eq := Before(rest, '=');
      if eq == |rest| then Err(NoEquals)
      else
        var key := Trim(rest[..eq]);
        if !ValidLabel(key) then Err(BadLabelName)
        else
          var quoted := TrimStart(rest[eq + 1..]);
          if quoted == "" || quoted[0] != '"' then Err(NoQuotes)
          else
            match QuotedSpec(quoted[1..], "")
            case Err(error) => Err(error)
            case Ok((value, after)) => LabelsSpec(SkipComma(TrimStart(after)), labels[key := value])
  }

  /** The length of the metric name a line begins with. */
  function NameEnd(line: string): (n: nat)
    ensures n <= |line|
    ensures forall k :: 0 <= k < n ==> line[k] != '{' && !IsSpace(line[k])
    ensures n < |line| ==> line[n] == '{' || IsSpace(line[n])
  {
    if line == "" || line[0] == '{' || IsSpace(line[0]) then 0 else 1 + NameEnd(line[1..])
  }

  function SampleSpec<V>(codec: Codec<V>, line: string): Result<(string, map<string, string>, V), Error> {
    var n := NameEnd(line);
    var name := line[..n];
    if !ValidName(name) then Err(BadMetricName)
    else
      var labelled := if n < |line| && line[n] == '{' then LabelsSpec(line[n + 1..], map[]) else Ok((map[], line[n..]));
      match labelled
      case Err(error) => Err(error)
      case Ok((labels, rest)) =>
        match FirstWord(rest)
        case None => Err(NoValue)
        case Some(raw) =>
          match codec.read(raw)
          case None => Err(BadValue)
          case Some(value) => Ok((name, labels, value))
  }

  /** The first suffix, in list order, that leaves a declared family. */
  function FamilyBySuffix(name: string, types: map<string, string>, suffixes: seq<string>): Option<string> {
    if suffixes == [] then None
    else if |suffixes[0]| <= |name| && name[|name| - |suffixes[0]|..] == suffixes[0]
            && name[..|name| - |suffixes[0]|] in types
    then Some(name[..|name| - |suffixes[0]|])
    else FamilyBySuffix(name, types, suffixes[1..])
  }

  function FamilyOf(name: string, types: map<string, string>): Option<string> {
    if name in types then Some(name) else FamilyBySuffix(name, types, FAMILY_SUFFIXES)
  }

  /** What a comment line declares: `TYPE name kind`. */
  function Declare(comment: string, types: map<string, string>): map<string, string> {
    if FirstWord(comment) != Some("TYPE") then types
    else
      var rest := AfterFirstWord(comment);
      match (FirstWord(rest), FirstWord(AfterFirstWord(rest)))
      case (Some(name), Some(kind)) => types[name := Lower(kind)]
      case _ => types
  }

  function Classify<V>(name: string, labels: map<string, string>, value: V, types: map<string, string>): Parsed<V> {
    var family := FamilyOf(name, types);
    var kind := if family.Some? && family.value in types then types[family.value] else "untyped";
    Parsed(name, labels, value, family, kind)
  }

  /** The whole page, line by line; the error says which line. */
  function PageSpec<V>(
      codec: Codec<V>, lines: seq<string>, number: nat, types: map<string, string>)
    : Result<seq<Parsed<V>>, (nat, Error)>
    decreases |lines|
  {
    if lines == [] then Ok([])
    else
      var line := Trim(lines[0]);
      if line == "" then PageSpec(codec, lines[1..], number + 1, types)
      else if line[0] == '#' then PageSpec(codec, lines[1..], number + 1, Declare(line[1..], types))
      else
        match SampleSpec(codec, line)
        case Err(error) => Err((number, error))
        case Ok((name, labels, value)) =>
          match PageSpec(codec, lines[1..], number + 1, types)
          case Err(error) => Err(error)
          case Ok(samples) => Ok([Classify(name, labels, value, types)] + samples)
  }

  // ------------------------------------------------------------ the parser

  method ParseLabels(inner: string) returns (r: Result<(map<string, string>, string), Error>)
    ensures r == LabelsSpec(inner, map[])
  {
    var rest := inner;
    var labels: map<string, string> := map[];
    while true
      invariant LabelsSpec(inner, map[]) == LabelsSpec(rest, labels)
      decreases |rest|
    {
      ghost var start := rest;
      rest := TrimStart(rest);
      if rest != "" && rest[0] == '}' {
        return Ok((labels, rest[1..]));
      }
      var eq := Before(rest, '=');
      if eq == |rest| {
        return Err(NoEquals);
      }
      var key := Trim(rest[..eq]);
      if !ValidLabel(key) {
        return Err(BadLabelName);
      }
      var quoted := TrimStart(rest[eq + 1..]);
      if quoted == "" || quoted[0] != '"' {
        return Err(NoQuotes);
      }
      rest := quoted[1..];
      var value := "";
      var at := 0;
      while at < |rest| && rest[at] != '"'
        invariant at <= |rest|
        invariant QuotedSpec(rest, "") == QuotedSpec(rest[at..], value)
      {
        if rest[at] != '\\' {
          value := value + [rest[at]];
          assert rest[at..][1..] == rest[at + 1..];
          at := at + 1;
        } else if at + 1 == |rest| {
          return Err(Unterminated);
        } else {
          value := value + [if rest[at + 1] == 'n' then '\n' else rest[at + 1]];
          assert rest[at..][2..] == rest[at + 2..];
          at := at + 2;
        }
      }
      if at == |rest| {
        return Err(Unterminated);
      }
      assert rest[at..][1..] == rest[at + 1..];
      labels := labels[key := value];
      rest := SkipComma(TrimStart(rest[at + 1..]));
    }
  }

  method ParseSample<V>(codec: Codec<V>, line: string) returns (r: Result<(string, map<string, string>, V), Error>)
    ensures r == SampleSpec(codec, line)
  {
    var n := NameEnd(line);
    var name := line[..n];
    if !ValidName(name) {
      return Err(BadMetricName);
    }
    var rest := line[n..];
    var labels: map<string, string> := map[];
    if rest != "" && rest[0] == '{' {
      assert rest[1..] == line[n + 1..];
      var parsed := ParseLabels(rest[1..]);
      if parsed.Err? {
        return Err(parsed.error);
      }
      labels := parsed.value.0;
      rest := parsed.value.1;
    }
    var raw := FirstWord(rest);
    if raw.None? {
      return Err(NoValue);
    }
    var value := codec.read(raw.value);
    return if value.None? then Err(BadValue) else Ok((name, labels, value.value));
  }

  /** What is still to be read, put after what has been read. */
  ghost function After<V>(
      samples: seq<Parsed<V>>, rest: Result<seq<Parsed<V>>, (nat, Error)>): Result<seq<Parsed<V>>, (nat, Error)> {
    match rest
    case Ok(more) => Ok(samples + more)
    case Err(error) => Err(error)
  }

  lemma NothingBefore<V>(rest: Result<seq<Parsed<V>>, (nat, Error)>)
    ensures After([], rest) == rest
  {
    if rest.Ok? {
      assert [] + rest.value == rest.value;
    }
  }

  lemma PageUnfolds<V>(codec: Codec<V>, lines: seq<string>, k: nat, types: map<string, string>)
    requires k < |lines|
    ensures var line, rest := Trim(lines[k]), lines[k + 1..];
            PageSpec(codec, lines[k..], k + 1, types) ==
            if line == "" then PageSpec(codec, rest, k + 2, types)
            else if line[0] == '#' then PageSpec(codec, rest, k + 2, Declare(line[1..], types))
            else var parsed := SampleSpec(codec, line);
                 if parsed.Err? then Err((k + 1, parsed.error))
                 else After([Classify(parsed.value.0, parsed.value.1, parsed.value.2, types)],
                            PageSpec(codec, rest, k + 2, types))
  {
    assert lines[k..][1..] == lines[k + 1..];
  }

  method Parse<V>(codec: Codec<V>, text: string) returns (r: Result<seq<Parsed<V>>, (nat, Error)>)
    ensures r == PageSpec(codec, Lines(text), 1, map[])
  {
    var lines := Lines(text);
    var types: map<string, string> := map[];
    var samples: seq<Parsed<V>> := [];
    ghost var page := PageSpec(codec, lines, 1, map[]);
    NothingBefore(page);
    assert lines[0..] == lines;
    for number := 0 to |lines|
      invariant page == After(samples, PageSpec(codec, lines[number..], number + 1, types))
    {
      PageUnfolds(codec, lines, number, types);
      var line := Trim(lines[number]);
      if line != "" {
        if line[0] == '#' {
          types := Declare(line[1..], types);
        } else {
          var parsed := ParseSample(codec, line);
          if parsed.Err? {
            return Err((number + 1, parsed.error));
          }
          var (name, labels, value) := parsed.value;
          var sample := Classify(name, labels, value, types);
          OneMoreSample(samples, sample, PageSpec(codec, lines[number + 1..], number + 2, types));
          samples := samples + [sample];
        }
      }
    }
    assert samples + [] == samples;
    return Ok(samples);
  }

  lemma OneMoreSample<V>(samples: seq<Parsed<V>>, sample: Parsed<V>, rest: Result<seq<Parsed<V>>, (nat, Error)>)
    ensures After(samples, After([sample], rest)) == After(samples + [sample], rest)
  {
    if rest.Ok? {
      assert samples + ([sample] + rest.value) == samples + [sample] + rest.value;
    }
  }

  // ------------------------------------------------------------ the printer

  /** `str::replace` for one character. */
  function Replace(s: string, c: char, sub: string): string {
    if s == "" then "" else (if s[0] == c then sub else [s[0]]) + Replace(s[1..], c, sub)
  }

  function Escape(value: string): string {
    Replace(Replace(Replace(value, '\\', "\\\\"), '"', "\\\""), '\n', "\\n")
  }

  function LabelText(keys: seq<string>, labels: map<string, string>): string
    requires forall k :: 0 <= k < |keys| ==> keys[k] in labels
  {
    if keys == [] then ""
    else keys[0] + "=\"" + Escape(labels[keys[0]]) + "\""
         + (if |keys| == 1 then "" else "," + LabelText(keys[1..], labels))
  }

  function FullName<V>(sample: Sample<V>): string {
    METRIC_PREFIX + sample.metric
  }

  function Braced(labels: map<string, string>): string {
    if labels == map[] then "" else "{" + LabelText(InOrder(labels.Keys), labels) + "}"
  }

  function Line<V>(codec: Codec<V>, sample: Sample<V>): string {
    FullName(sample) + Braced(sample.labels) + (" " + codec.show(sample.value))
  }

  function LinesOf<V>(codec: Codec<V>, samples: seq<Sample<V>>): (r: seq<string>)
    ensures |r| == |samples|
  {
    seq(|samples|, i requires 0 <= i < |samples| => Line(codec, samples[i]))
  }

  function KindWord(kind: Kind): string {
    match kind
    case Gauge => "gauge"
    case Counter => "counter"
  }

  function Header(name: string, kind: Kind): string {
    "# TYPE " + name + " " + KindWord(kind)
  }

  function Named<V>(samples: seq<Sample<V>>, name: string): (r: seq<Sample<V>>)
    ensures forall k :: 0 <= k < |r| ==> FullName(r[k]) == name && r[k] in samples
  {
    if samples == [] then []
    else if FullName(samples[0]) == name then [samples[0]] + Named(samples[1..], name)
    else Named(samples[1..], name)
  }

  function Names<V>(samples: seq<Sample<V>>): set<string> {
    set k | 0 <= k < |samples| :: FullName(samples[k])
  }

  /** The kind a family is announced with: that of its first sample. */
  function FamilyKind<V>(samples: seq<Sample<V>>, name: string): Kind {
    var family := Named(samples, name);
    if family == [] then Gauge else family[0].kind
  }

  function Block<V>(codec: Codec<V>, samples: seq<Sample<V>>, name: string): seq<string> {
    [Header(name, FamilyKind(samples, name))] + Sort(LinesOf(codec, Named(samples, name)))
  }

  function Blocks<V>(codec: Codec<V>, samples: seq<Sample<V>>, names: seq<string>): seq<string> {
    if names == [] then [] else Block(codec, samples, names[0]) + Blocks(codec, samples, names[1..])
  }

  /** The page: one block a family, families in name order, lines sorted. */
  function Page<V>(codec: Codec<V>, samples: seq<Sample<V>>): string {
    Unlines(Blocks(codec, samples, InOrder(Names(samples))))
  }

  // ------------------------------------------------------------ the printer's loops

  method PrintLabels(keys: seq<string>, labels: map<string, string>) returns (text: string)
    requires forall k :: 0 <= k < |keys| ==> keys[k] in labels
    ensures text == LabelText(keys, labels)
  {
    text := "";
    assert keys[0..] == keys;
    for i := 0 to |keys|
      invariant LabelText(keys, labels) == text + LabelRest(keys, i, labels)
    {
      NextLabel(text, keys, i, labels);
      if i > 0 {
        text := text + ",";
      }
      text := text + (keys[i] + "=\"" + Escape(labels[keys[i]]) + "\"");
    }
  }

  /** What is still to be written before label `i`, its comma included. */
  function LabelRest(keys: seq<string>, i: nat, labels: map<string, string>): string
    requires i <= |keys| && forall k :: 0 <= k < |keys| ==> keys[k] in labels
  {
    (if 0 < i < |keys| then "," else "") + LabelText(keys[i..], labels)
  }

  lemma NextLabel(text: string, keys: seq<string>, i: nat, labels: map<string, string>)
    requires i < |keys| && forall k :: 0 <= k < |keys| ==> keys[k] in labels
    ensures text + LabelRest(keys, i, labels)
            == (if i > 0 then text + "," else text) + (keys[i] + "=\"" + Escape(labels[keys[i]]) + "\"")
               + LabelRest(keys, i + 1, labels)
  {
    hide Escape;
    assert keys[i..][1..] == keys[i + 1..];
    var item := keys[i] + "=\"" + Escape(labels[keys[i]]) + "\"";
    var rest := LabelRest(keys, i + 1, labels);
    assert LabelText(keys[i..], labels) == item + rest;
    Reassociate(text, if i > 0 then "," else "", item, rest);
  }

  lemma Reassociate(a: string, b: string, c: string, d: string)
    ensures a + (b + (c + d)) == a + b + c + d
  {
  }

  method PrintLine<V>(codec: Codec<V>, sample: Sample<V>) returns (line: string)
    ensures line == Line(codec, sample)
  {
    var braced := "";
    if sample.labels != map[] {
      var keys := InOrder(sample.labels.Keys);
      KeysInOrder(sample.labels);
      var text := PrintLabels(keys, sample.labels);
      braced := "{" + text + "}";
    }
    line := FullName(sample) + braced + (" " + codec.show(sample.value));
  }

  lemma {:induction false} NamesGrow<V>(samples: seq<Sample<V>>, k: nat)
    requires k < |samples|
    ensures Names(samples[..k + 1]) == Names(samples[..k]) + {FullName(samples[k])}
  {
    hide FullName;
  }

  /** What the page is built from: for each family its kind and its lines so far. */
  ghost predicate Filed<V>(codec: Codec<V>, samples: seq<Sample<V>>, families: map<string, (Kind, seq<string>)>) {
    && families.Keys == Names(samples)
    && forall name :: name in families ==>
      families[name] == (FamilyKind(samples, name), LinesOf(codec, Named(samples, name)))
  }

  lemma {:induction false} NamedConcat<V>(a: seq<Sample<V>>, b: seq<Sample<V>>, name: string)
    ensures Named(a + b, name) == Named(a, name) + Named(b, name)
  {
    hide FullName;
    if a == [] {
      assert a + b == b;
    } else {
      NamedConcat(a[1..], b, name);
      assert (a + b)[1..] == a[1..] + b;
    }
  }

  lemma NamedSnoc<V>(codec: Codec<V>, samples: seq<Sample<V>>, sample: Sample<V>, name: string)
    ensures var more := samples + [sample];
            if FullName(sample) == name then
              && LinesOf(codec, Named(more, name)) == LinesOf(codec, Named(samples, name)) + [Line(codec, sample)]
              && FamilyKind(more, name)
                == (if Named(samples, name) == [] then sample.kind else FamilyKind(samples, name))
            else Named(more, name) == Named(samples, name)
  {
    hide Line;
    hide FullName;
    NamedConcat(samples, [sample], name);
  }

  lemma {:induction false} NotNamed<V>(samples: seq<Sample<V>>, name: string)
    ensures name in Names(samples) <==> Named(samples, name) != []
  {
    hide FullName;
    if samples != [] {
      NotNamed(samples[1..], name);
      assert forall k :: 0 <= k < |samples[1..]| ==> samples[1..][k] == samples[k + 1];
    }
  }

  /** `entry().or_insert_with(..).1.push(line)`. */
  function Push<V>(
      codec: Codec<V>, sample: Sample<V>, families: map<string, (Kind, seq<string>)>)
    : map<string, (Kind, seq<string>)>
  {
    var name := FullName(sample);
    var entry := if name in families then families[name] else (sample.kind, []);
    families[name := (entry.0, entry.1 + [Line(codec, sample)])]
  }

  lemma PushedEntry<V>(
      codec: Codec<V>, samples: seq<Sample<V>>, sample: Sample<V>,
      families: map<string, (Kind, seq<string>)>, name: string)
    requires Filed(codec, samples, families) && name in Push(codec, sample, families)
    ensures Push(codec, sample, families)[name]
            == (FamilyKind(samples + [sample], name), LinesOf(codec, Named(samples + [sample], name)))
  {
    hide FullName;
    hide Line;
    hide Named;
    NamedSnoc(codec, samples, sample, name);
    NotNamed(samples, name);
    if name == FullName(sample) {
      if name !in families {
        assert LinesOf(codec, Named(samples, name)) == [];
      } else {
        assert Named(samples + [sample], name) != [];
      }
    }
  }

  lemma PushFiles<V>(
      codec: Codec<V>, samples: seq<Sample<V>>, sample: Sample<V>, families: map<string, (Kind, seq<string>)>)
    requires Filed(codec, samples, families)
    ensures Filed(codec, samples + [sample], Push(codec, sample, families))
  {
    hide FullName;
    hide Line;
    hide Named;
    hide LinesOf;
    hide FamilyKind;
    var more := samples + [sample];
    NamesGrow(more, |samples|);
    assert more[..|samples|] == samples && more[..|samples| + 1] == more;
    forall name | name in Push(codec, sample, families)
      ensures Push(codec, sample, families)[name] == (FamilyKind(more, name), LinesOf(codec, Named(more, name)))
    {
      PushedEntry(codec, samples, sample, families, name);
    }
  }

  lemma NextFamily<V>(codec: Codec<V>, samples: seq<Sample<V>>, out: string, names: seq<string>, i: nat)
    requires i < |names|
    ensures out + Unlines(Blocks(codec, samples, names[i..]))
            == out + Unlines(Block(codec, samples, names[i])) + Unlines(Blocks(codec, samples, names[i + 1..]))
  {
    hide Block;
    hide Unlines;
    assert names[i..][1..] == names[i + 1..];
    UnlinesConcat(Block(codec, samples, names[i]), Blocks(codec, samples, names[i + 1..]));
  }

  method WriteFamilies<V>(codec: Codec<V>, ghost samples: seq<Sample<V>>, families: map<string, (Kind, seq<string>)>)
      returns (out: string)
    requires Filed(codec, samples, families)
    ensures out == Page(codec, samples)
  {
    hide Unlines;
    hide Sort;
    hide LinesOf;
    hide Header;
    hide FamilyKind;
    hide Names;
    var names := InOrder(families.Keys);
    assert names[0..] == names;
    out := "";
    NothingWritten(Unlines(Blocks(codec, samples, names)));
    for i := 0 to |names|
      invariant Page(codec, samples) == out + Unlines(Blocks(codec, samples, names[i..]))
    {
      assert names[i] in names;
      var (kind, lines) := families[names[i]];
      NextFamily(codec, samples, out, names, i);
      out := out + Unlines([Header(names[i], kind)] + Sort(lines));
    }
    EndOfPage(codec, samples, out);
  }

  lemma NothingWritten(rest: string)
    ensures "" + rest == rest
  {
  }

  lemma EndOfPage<V>(codec: Codec<V>, samples: seq<Sample<V>>, out: string)
    ensures out + Unlines(Blocks(codec, samples, [])) == out
  {
  }

  method Render<V>(codec: Codec<V>, samples: seq<Sample<V>>) returns (out: string)
    ensures out == Page(codec, samples)
  {
    hide Filed;
    hide Page;
    var families: map<string, (Kind, seq<string>)> := map[];
    NothingFiled(codec);
    for i := 0 to |samples|
      invariant Filed(codec, samples[..i], families)
    {
      var name := FullName(samples[i]);
      var line := PrintLine(codec, samples[i]);
      PushFiles(codec, samples[..i], samples[i], families);
      var entry := if name in families then families[name] else (samples[i].kind, []);
      families := families[name := (entry.0, entry.1 + [line])];
      assert samples[..i + 1] == samples[..i] + [samples[i]];
    }
    assert samples[..|samples|] == samples;
    out := WriteFamilies(codec, samples, families);
  }

  lemma NothingFiled<V>(codec: Codec<V>)
    ensures Filed(codec, [], map[])
  {
  }

  // ------------------------------------------------------------ families of parsed samples

  /** Names are valid, and the family of a sample is its own name, or its name without
      one of the known suffixes; a sample of no family is untyped. */
  ghost predicate WellRead<V>(parsed: Parsed<V>) {
    && ValidName(parsed.name) && ValidLabels(parsed.labels)
    && match parsed.family
       case None => parsed.familyType == "untyped"
       case Some(family) =>
         parsed.name == family || exists k :: 0 <= k < |FAMILY_SUFFIXES| && parsed.name == family + FAMILY_SUFFIXES[k]
  }

  lemma {:induction false} SuffixFamily(name: string, types: map<string, string>, suffixes: seq<string>)
    ensures match FamilyBySuffix(name, types, suffixes)
            case None => true
            case Some(family) => family in types && exists k :: 0 <= k < |suffixes| && name == family + suffixes[k]
    decreases |suffixes|
  {
    if suffixes != [] {
      var suffix := suffixes[0];
      if |suffix| <= |name| && name[|name| - |suffix|..] == suffix && name[..|name| - |suffix|] in types {
        assert name == name[..|name| - |suffix|] + suffixes[0];
      } else {
        SuffixFamily(name, types, suffixes[1..]);
        match FamilyBySuffix(name, types, suffixes[1..])
        case None =>
        case Some(family) =>
          var k :| 0 <= k < |suffixes[1..]| && name == family + suffixes[1..][k];
          assert name == family + suffixes[k + 1];
      }
    }
  }

  lemma {:induction false} LabelsAreValid(s: string, labels: map<string, string>)
    requires ValidLabels(labels)
    ensures var r := LabelsSpec(s, labels);
            r.Ok? ==> ValidLabels(r.value.0)
    decreases |s|
  {
    hide ValidLabel;
    var rest := TrimStart(s);
    if !(rest != "" && rest[0] == '}') {
      var eq := Before(rest, '=');
      if eq < |rest| {
        var key := Trim(rest[..eq]);
        var quoted := TrimStart(rest[eq + 1..]);
        if ValidLabel(key) && quoted != "" && quoted[0] == '"' {
          match QuotedSpec(quoted[1..], "")
          case Err(_) =>
          case Ok((value, after)) => LabelsAreValid(SkipComma(TrimStart(after)), labels[key := value]);
        }
      }
    }
  }

  lemma SampleHasValidNames<V>(codec: Codec<V>, line: string)
    ensures var r := SampleSpec(codec, line);
            r.Ok? ==> ValidName(r.value.0) && ValidLabels(r.value.1)
  {
    hide LabelsSpec;
    hide FirstWord;
    hide ValidName;
    var n := NameEnd(line);
    if n < |line| {
      LabelsAreValid(line[n + 1..], map[]);
    }
  }

  lemma ClassifiedIsWellRead<V>(name: string, labels: map<string, string>, value: V, types: map<string, string>)
    requires ValidName(name) && ValidLabels(labels)
    ensures WellRead(Classify(name, labels, value, types))
  {
    hide ValidName;
    hide ValidLabel;
    SuffixFamily(name, types, FAMILY_SUFFIXES);
  }

  /** Every sample of every page that can be read at all. */
  lemma {:induction false} ParsedIsWellRead<V>(
      codec: Codec<V>, lines: seq<string>, number: nat, types: map<string, string>)
    ensures var page := PageSpec(codec, lines, number, types);
            page.Ok? ==> forall k :: 0 <= k < |page.value| ==> WellRead(page.value[k])
    decreases |lines|
  {
    hide WellRead;
    hide SampleSpec;
    hide Classify;
    hide Declare;
    if lines != [] {
      var line := Trim(lines[0]);
      if line == "" {
        ParsedIsWellRead(codec, lines[1..], number + 1, types);
      } else if line[0] == '#' {
        ParsedIsWellRead(codec, lines[1..], number + 1, Declare(line[1..], types));
      } else {
        ParsedIsWellRead(codec, lines[1..], number + 1, types);
        SampleHasValidNames(codec, line);
        match SampleSpec(codec, line)
        case Err(_) =>
        case Ok(parsed) => ClassifiedIsWellRead(parsed.0, parsed.1, parsed.2, types);
      }
    }
  }
}
