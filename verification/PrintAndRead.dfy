/** The round trip of the exposition format: a page that was printed is read back as the
    samples it was printed from, and when the page tells nothing of their order. */
module PrintAndRead {
  import opened Wrappers
  import opened Text
  import opened Exposition

  // ------------------------------------------------------------ one line, printed and read

  function EscapeOne(c: char): string {
    if c == '\\' then "\\\\" else if c == '"' then "\\\"" else if c == '\n' then "\\n" else [c]
  }

  function EscapeEach(value: string): string {
    if value == "" then "" else EscapeOne(value[0]) + EscapeEach(value[1..])
  }

  lemma {:induction false} ReplaceConcat(a: string, b: string, c: char, sub: string)
    ensures Replace(a + b, c, sub) == Replace(a, c, sub) + Replace(b, c, sub)
  {
    if a == "" {
      assert a + b == b;
    } else {
      assert (a + b)[1..] == a[1..] + b;
      ReplaceConcat(a[1..], b, c, sub);
    }
  }

  lemma ReplaceShort(c: char, d: char, sub: string)
    ensures Replace([c], d, sub) == if c == d then sub else [c]
  {
  }

  lemma ReplaceLeaves(c: char, d: char, e: char, sub: string)
    requires c != e && d != e
    ensures Replace([c, d], e, sub) == [c, d]
  {
    assert [c, d] == [c] + [d];
    ReplaceConcat([c], [d], e, sub);
  }

  /** Three passes over the whole value come to one pass, character by character. */
  lemma {:induction false} EscapeIsCharwise(value: string)
    ensures Escape(value) == EscapeEach(value)
  {
    if value != "" {
      var c, rest := value[0], value[1..];
      assert value == [c] + rest;
      EscapeIsCharwise(rest);
      ReplaceConcat([c], rest, '\\', "\\\\");
      var a, a' := Replace([c], '\\', "\\\\"), Replace(rest, '\\', "\\\\");
      ReplaceConcat(a, a', '"', "\\\"");
      var b, b' := Replace(a, '"', "\\\""), Replace(a', '"', "\\\"");
      ReplaceConcat(b, b', '\n', "\\n");
      ReplaceShort(c, '\\', "\\\\");
      ReplaceShort(c, '"', "\\\"");
      ReplaceShort(c, '\n', "\\n");
      ReplaceLeaves('\\', '\\', '"', "\\\"");
      ReplaceLeaves('\\', '\\', '\n', "\\n");
      ReplaceLeaves('\\', '"', '\n', "\\n");
      assert Replace(b, '\n', "\\n") == EscapeOne(c);
    }
  }

  /** Whatever a value holds, quotes and backslashes included, it is read back. */
  lemma {:induction false} QuotedReads(value: string, tail: string, acc: string)
    ensures QuotedSpec(EscapeEach(value) + "\"" + tail, acc) == Ok((acc + value, tail))
  {
    var s := EscapeEach(value) + "\"" + tail;
    if value == "" {
      assert s[1..] == tail;
      assert acc + value == acc;
    } else {
      var c := value[0];
      var rest := EscapeEach(value[1..]) + "\"" + tail;
      assert s == EscapeOne(c) + rest;
      QuotedReads(value[1..], tail, acc + [c]);
      assert acc + [c] + value[1..] == acc + value;
      if |EscapeOne(c)| == 2 {
        assert s[2..] == rest && s[0] == '\\';
      } else {
        assert s[1..] == rest && s[0] == c;
      }
    }
  }

  lemma OneLabelReads(key: string, value: string, after: string)
    requires ValidLabel(key)
    ensures var s := key + "=\"" + Escape(value) + "\"" + after;
            && TrimStart(s) == s && s != "" && s[0] != '}'
            && Before(s, '=') == |key| && s[..|key|] == key && Trim(key) == key
            && TrimStart(s[|key| + 1..]) == s[|key| + 1..] && |s| > |key| + 1 && s[|key| + 1] == '"'
            && QuotedSpec(s[|key| + 2..], "") == Ok((value, after))
  {
    EscapeIsCharwise(value);
    var tail := "\"" + EscapeEach(value) + "\"" + after;
    var s := key + "=\"" + Escape(value) + "\"" + after;
    assert s == key + ['='] + tail;
    assert s[0] == key[0] && IsLabelChar(key[0]);
    BeforeConcat(key, '=', tail);
    TrimmedStays(key);
    assert s[|key| + 1..] == tail;
    assert s[|key| + 2..] == EscapeEach(value) + "\"" + after;
    QuotedReads(value, after, "");
    assert "" + value == value;
  }

  lemma LabelStep(key: string, value: string, after: string, acc: map<string, string>)
    requires ValidLabel(key)
    ensures LabelsSpec(key + "=\"" + Escape(value) + "\"" + after, acc)
            == LabelsSpec(SkipComma(TrimStart(after)), acc[key := value])
  {
    var s := key + "=\"" + Escape(value) + "\"" + after;
    OneLabelReads(key, value, after);
    assert s[|key| + 1..][1..] == s[|key| + 2..];
  }

  lemma {:induction false} LabelsRead(
      keys: seq<string>, labels: map<string, string>, tail: string, acc: map<string, string>)
    requires forall k :: 0 <= k < |keys| ==> keys[k] in labels && ValidLabel(keys[k])
    ensures LabelsSpec(LabelText(keys, labels) + "}" + tail, acc) == Ok((AddAll(acc, keys, labels), tail))
    decreases |keys|
  {
    var s := LabelText(keys, labels) + "}" + tail;
    if keys == [] {
      assert s[1..] == tail;
    } else {
      var key, value := keys[0], labels[keys[0]];
      var next := LabelText(keys[1..], labels) + "}" + tail;
      var after := if |keys| == 1 then next else "," + next;
      assert s == key + "=\"" + Escape(value) + "\"" + after;
      LabelStep(key, value, after, acc);
      assert SkipComma(TrimStart(after)) == next by {
        if |keys| > 1 {
          assert after[1..] == next;
        }
      }
      LabelsRead(keys[1..], labels, tail, acc[key := value]);
    }
  }

  /** A sample the format can carry: any values, but valid names. */
  ghost predicate Printable<V>(sample: Sample<V>) {
    && (forall k :: 0 <= k < |sample.metric| ==> IsNameChar(sample.metric[k]))
    && ValidLabels(sample.labels)
  }

  ghost predicate AllPrintable<V>(samples: seq<Sample<V>>) {
    forall k :: 0 <= k < |samples| ==> Printable(samples[k])
  }

  lemma FullNameIsValid<V>(sample: Sample<V>)
    requires Printable(sample)
    ensures ValidName(FullName(sample)) && IsToken(FullName(sample)) && FullName(sample)[0] == 'd'
    ensures forall k :: 0 <= k < |FullName(sample)| ==> FullName(sample)[k] != '{'
  {
  }

  lemma AllAdded(keys: seq<string>, labels: map<string, string>)
    requires forall k :: k in keys <==> k in labels
    ensures AddAll(map[], keys, labels) == labels
  {
    AddAllAdds(map[], keys, labels);
  }

  lemma BracedReads(labels: map<string, string>, tail: string)
    requires labels != map[] && ValidLabels(labels)
    ensures var s := Braced(labels) + tail;
            s != "" && s[0] == '{' && LabelsSpec(s[1..], map[]) == Ok((labels, tail))
  {
    KeysInOrder(labels);
    hide InOrder;
    var keys := InOrder(labels.Keys);
    AllAdded(keys, labels);
    LabelsRead(keys, labels, tail, map[]);
    hide LabelText;
    hide LabelsSpec;
    Bracing(LabelText(keys, labels), tail);
  }

  lemma Bracing(inner: string, tail: string)
    ensures var s := "{" + inner + "}" + tail;
            s[0] == '{' && s[1..] == inner + "}" + tail
  {
  }

  lemma Split(a: string, b: string)
    requires b != ""
    ensures (a + b)[..|a|] == a && (a + b)[|a|..] == b && (a + b)[|a|] == b[0]
    ensures (a + b)[|a| + 1..] == b[1..]
  {
  }

  /** Printing a sample and reading the line. */
  lemma SampleReads<V(!new)>(codec: Codec<V>, sample: Sample<V>)
    requires Faithful(codec) && Printable(sample)
    ensures SampleSpec(codec, Line(codec, sample)) == Ok((FullName(sample), sample.labels, sample.value))
  {
    var name, token := FullName(sample), codec.show(sample.value);
    var tail := " " + token;
    assert IsToken(token) && codec.read(token) == Some(sample.value);
    FullNameIsValid(sample);
    TokenIsFirstWord(token, "");
    assert tail + "" == tail;
    assert FirstWord(tail) == Some(token);
    LineParts(codec, sample);
    var rest := Braced(sample.labels) + tail;
    Split(name, rest);
    NameEndOf(name, rest);
    if sample.labels != map[] {
      BracedReads(sample.labels, tail);
    } else {
      assert rest == tail;
    }
  }

  lemma LineParts<V>(codec: Codec<V>, sample: Sample<V>)
    ensures var rest := Braced(sample.labels) + (" " + codec.show(sample.value));
            Line(codec, sample) == FullName(sample) + rest && rest != "" && (rest[0] == '{' || rest[0] == ' ')
  {
  }

  lemma NameEndOf(name: string, rest: string)
    requires forall k :: 0 <= k < |name| ==> name[k] != '{' && !IsSpace(name[k])
    requires rest != "" && (rest[0] == '{' || IsSpace(rest[0]))
    ensures NameEnd(name + rest) == |name|
  {
    var s := name + rest;
    assert s[|name|] == rest[0];
    forall k | 0 <= k < |name| ensures s[k] != '{' && !IsSpace(s[k]) {
      assert s[k] == name[k];
    }
  }

  // ------------------------------------------------------------ lines stay lines

  predicate OneLine(s: string) {
    forall k :: 0 <= k < |s| ==> s[k] != '\n'
  }

  lemma {:induction false} EscapeIsOneLine(value: string)
    ensures OneLine(EscapeEach(value))
  {
    if value != "" {
      EscapeIsOneLine(value[1..]);
    }
  }

  lemma {:induction false} LabelTextIsOneLine(keys: seq<string>, labels: map<string, string>)
    requires forall k :: 0 <= k < |keys| ==> keys[k] in labels && ValidLabel(keys[k])
    ensures OneLine(LabelText(keys, labels))
  {
    if keys != [] {
      EscapeIsCharwise(labels[keys[0]]);
      EscapeIsOneLine(labels[keys[0]]);
      LabelTextIsOneLine(keys[1..], labels);
    }
  }

  lemma OneLineConcat(a: string, b: string)
    requires OneLine(a) && OneLine(b)
    ensures OneLine(a + b)
  {
  }

  lemma BracedIsOneLine(labels: map<string, string>)
    requires ValidLabels(labels)
    ensures OneLine(Braced(labels))
  {
    hide InOrder;
    var keys := InOrder(labels.Keys);
    KeysInOrder(labels);
    LabelTextIsOneLine(keys, labels);
    BracesAreOneLine(LabelText(keys, labels));
  }

  lemma BracesAreOneLine(text: string)
    requires OneLine(text)
    ensures OneLine("{" + text + "}")
  {
    OneLineConcat("{", text);
    OneLineConcat("{" + text, "}");
  }

  /** A printed sample is one line, with nothing to trim, and no comment. */
  lemma LineIsClean<V(!new)>(codec: Codec<V>, sample: Sample<V>)
    requires Faithful(codec) && Printable(sample)
    ensures var line := Line(codec, sample);
            OneLine(line) && Trimmed(line) && line != "" && line[0] != '#'
  {
    var name, token := FullName(sample), codec.show(sample.value);
    assert IsToken(token);
    FullNameIsValid(sample);
    BracedIsOneLine(sample.labels);
    OneLineConcat(name, Braced(sample.labels));
    OneLineConcat(name + Braced(sample.labels), " " + token);
    var line := Line(codec, sample);
    assert line[0] == name[0];
    assert line[|line| - 1] == token[|token| - 1];
  }

  lemma HeaderIsClean(name: string, kind: Kind)
    requires IsToken(name)
    ensures var line := Header(name, kind);
            OneLine(line) && Trimmed(line) && line != "" && line[0] == '#'
  {
    var word := KindWord(kind);
    var line := Header(name, kind);
    OneLineConcat("# TYPE ", name);
    OneLineConcat("# TYPE " + name, " ");
    OneLineConcat("# TYPE " + name + " ", word);
    assert line[|line| - 1] == word[|word| - 1];
  }

  lemma HeaderDeclares(name: string, kind: Kind, types: map<string, string>)
    requires IsToken(name)
    ensures Header(name, kind) != ""
    ensures Declare(Header(name, kind)[1..], types) == types[name := KindWord(kind)]
  {
    var word := KindWord(kind);
    var last := " " + word;
    var rest := " " + name + last;
    HeaderParts(name, word, rest);
    TokenIsFirstWord("TYPE", rest);
    TokenIsFirstWord(name, last);
    WordReads(kind);
  }

  lemma WordReads(kind: Kind)
    ensures FirstWord(" " + KindWord(kind)) == Some(KindWord(kind)) && Lower(KindWord(kind)) == KindWord(kind)
  {
    var word := KindWord(kind);
    WordIsPlain(kind);
    hide KindWord;
    TokenIsFirstWord(word, "");
    assert " " + word + "" == " " + word;
    LowerStays(word);
  }

  lemma WordIsPlain(kind: Kind)
    ensures var word := KindWord(kind);
            word != "" && forall k :: 0 <= k < |word| ==> 'a' <= word[k] <= 'z'
  {
    assert forall k :: 0 <= k < |"gauge"| ==> 'a' <= "gauge"[k] <= 'z';
    assert forall k :: 0 <= k < |"counter"| ==> 'a' <= "counter"[k] <= 'z';
  }

  lemma HeaderParts(name: string, word: string, rest: string)
    requires rest == " " + name + (" " + word)
    ensures ("# TYPE " + name + " " + word)[1..] == " " + "TYPE" + rest
  {
  }

  // ------------------------------------------------------------ the whole page, printed and read

  /** What reading a printed sample gives: the same point, in its own family. */
  function Expected<V>(sample: Sample<V>, kind: Kind): Parsed<V> {
    Parsed(FullName(sample), sample.labels, sample.value, Some(FullName(sample)), KindWord(kind))
  }

  function ExpectedAll<V>(samples: seq<Sample<V>>, kind: Kind): seq<Parsed<V>> {
    seq(|samples|, i requires 0 <= i < |samples| => Expected(samples[i], kind))
  }

  /** Sorting the lines sorts the samples along. */
  lemma {:induction false} SortLifts<V>(codec: Codec<V>, samples: seq<Sample<V>>) returns (sorted: seq<Sample<V>>)
    ensures multiset(sorted) == multiset(samples)
    ensures LinesOf(codec, sorted) == Sort(LinesOf(codec, samples))
  {
    if samples == [] {
      return [];
    }
    assert samples == [samples[0]] + samples[1..];
    assert LinesOf(codec, samples)[1..] == LinesOf(codec, samples[1..]);
    var rest := SortLifts(codec, samples[1..]);
    sorted := InsertLifts(codec, samples[0], rest);
  }

  lemma LinesOfCons<V>(codec: Codec<V>, sample: Sample<V>, samples: seq<Sample<V>>)
    ensures LinesOf(codec, [sample] + samples) == [Line(codec, sample)] + LinesOf(codec, samples)
  {
  }

  lemma {:induction false} InsertLifts<V>(codec: Codec<V>, sample: Sample<V>, samples: seq<Sample<V>>)
      returns (r: seq<Sample<V>>)
    ensures multiset(r) == multiset(samples) + multiset{sample}
    ensures LinesOf(codec, r) == Insert(Line(codec, sample), LinesOf(codec, samples))
  {
    var line := Line(codec, sample);
    var lines := LinesOf(codec, samples);
    if samples == [] || Leq(line, lines[0]) {
      r := [sample] + samples;
      LinesOfCons(codec, sample, samples);
    } else {
      var rest := InsertLifts(codec, sample, samples[1..]);
      r := [samples[0]] + rest;
      LinesOfCons(codec, samples[0], rest);
      LinesOfCons(codec, samples[0], samples[1..]);
      assert samples == [samples[0]] + samples[1..];
      assert lines[1..] == LinesOf(codec, samples[1..]);
    }
  }

  lemma ReadsFirst<V(!new)>(
      codec: Codec<V>, sample: Sample<V>, kind: Kind, rest: seq<string>, number: nat, types: map<string, string>)
    requires Faithful(codec) && Printable(sample)
    requires FullName(sample) in types && types[FullName(sample)] == KindWord(kind)
    ensures PageSpec(codec, [Line(codec, sample)] + rest, number, types)
            == After([Expected(sample, kind)], PageSpec(codec, rest, number + 1, types))
  {
    var lines := [Line(codec, sample)] + rest;
    assert lines[1..] == rest;
    LineIsClean(codec, sample);
    SampleReads(codec, sample);
    TrimmedStays(lines[0]);
  }

  lemma NoLines<V>(codec: Codec<V>, rest: seq<string>)
    ensures LinesOf(codec, []) + rest == rest
  {
  }

  lemma FirstLine<V>(codec: Codec<V>, samples: seq<Sample<V>>, rest: seq<string>)
    requires samples != []
    ensures LinesOf(codec, samples) + rest == [Line(codec, samples[0])] + (LinesOf(codec, samples[1..]) + rest)
  {
    LinesOfCons(codec, samples[0], samples[1..]);
    assert samples == [samples[0]] + samples[1..];
  }

  lemma FirstExpected<V>(samples: seq<Sample<V>>, kind: Kind)
    requires samples != []
    ensures ExpectedAll(samples, kind) == [Expected(samples[0], kind)] + ExpectedAll(samples[1..], kind)
  {
  }

  /** Samples the page puts under one header. */
  ghost predicate IsFamily<V>(samples: seq<Sample<V>>, name: string) {
    forall k :: 0 <= k < |samples| ==> Printable(samples[k]) && FullName(samples[k]) == name
  }

  lemma FamilySplits<V>(samples: seq<Sample<V>>, name: string)
    requires IsFamily(samples, name) && samples != []
    ensures Printable(samples[0]) && FullName(samples[0]) == name && IsFamily(samples[1..], name)
  {
  }

  /** Reading the lines of a family already announced. */
  lemma {:induction false} FamilyReads<V(!new)>(
      codec: Codec<V>, samples: seq<Sample<V>>, name: string, kind: Kind, rest: seq<string>, number: nat,
      types: map<string, string>)
    requires Faithful(codec) && IsFamily(samples, name)
    requires name in types && types[name] == KindWord(kind)
    ensures PageSpec(codec, LinesOf(codec, samples) + rest, number, types)
            == After(ExpectedAll(samples, kind), PageSpec(codec, rest, number + |samples|, types))
    decreases |samples|
  {
    hide PageSpec;
    if samples == [] {
      NothingBefore(PageSpec(codec, rest, number + |samples|, types));
      NoLines(codec, rest);
      assert ExpectedAll(samples, kind) == [];
    } else {
      FamilySplits(samples, name);
      FamilyReads(codec, samples[1..], name, kind, rest, number + 1, types);
      FirstLine(codec, samples, rest);
      FirstExpected(samples, kind);
      ReadsFirst(codec, samples[0], kind, LinesOf(codec, samples[1..]) + rest, number, types);
      AfterAfter([Expected(samples[0], kind)], ExpectedAll(samples[1..], kind),
          PageSpec(codec, rest, number + |samples|, types));
    }
  }

  lemma AfterAfter<V>(a: seq<Parsed<V>>, b: seq<Parsed<V>>, rest: Result<seq<Parsed<V>>, (nat, Error)>)
    ensures After(a, After(b, rest)) == After(a + b, rest)
  {
    if rest.Ok? {
      assert a + (b + rest.value) == a + b + rest.value;
    }
  }

  lemma HeaderReads<V>(
      codec: Codec<V>, name: string, kind: Kind, rest: seq<string>, number: nat, types: map<string, string>)
    requires IsToken(name)
    ensures PageSpec(codec, [Header(name, kind)] + rest, number, types)
            == PageSpec(codec, rest, number + 1, types[name := KindWord(kind)])
  {
    var lines := [Header(name, kind)] + rest;
    assert lines[1..] == rest;
    HeaderIsClean(name, kind);
    HeaderDeclares(name, kind, types);
    TrimmedStays(lines[0]);
  }

  /** What reading back a whole page gives, its samples taken in `order`. */
  function ExpectedEach<V>(samples: seq<Sample<V>>, order: seq<Sample<V>>): (r: seq<Parsed<V>>)
    ensures |r| == |order|
  {
    seq(|order|, i requires 0 <= i < |order| => Expected(order[i], FamilyKind(samples, FullName(order[i]))))
  }

  lemma ExpectedConcat<V>(samples: seq<Sample<V>>, a: seq<Sample<V>>, b: seq<Sample<V>>)
    ensures ExpectedEach(samples, a + b) == ExpectedEach(samples, a) + ExpectedEach(samples, b)
  {
    hide FamilyKind;
  }

  lemma OneFamily<V>(samples: seq<Sample<V>>, order: seq<Sample<V>>, name: string)
    requires IsFamily(order, name)
    ensures ExpectedEach(samples, order) == ExpectedAll(order, FamilyKind(samples, name))
  {
    hide FamilyKind;
  }

  lemma NamedIsFamily<V>(samples: seq<Sample<V>>, name: string, order: seq<Sample<V>>)
    requires AllPrintable(samples) && multiset(order) == multiset(Named(samples, name))
    ensures IsFamily(order, name)
  {
    forall k | 0 <= k < |order| ensures Printable(order[k]) && FullName(order[k]) == name {
      assert order[k] in multiset(Named(samples, name));
      assert order[k] in Named(samples, name);
    }
  }

  lemma Regroup(header: string, lines: seq<string>, rest: seq<string>)
    ensures [header] + lines + rest == [header] + (lines + rest)
  {
  }

  lemma BlockReads<V(!new)>(
      codec: Codec<V>, samples: seq<Sample<V>>, name: string, rest: seq<string>, number: nat,
      types: map<string, string>)
      returns (order: seq<Sample<V>>)
    requires Faithful(codec) && AllPrintable(samples) && IsToken(name)
    ensures multiset(order) == multiset(Named(samples, name))
    ensures PageSpec(codec, Block(codec, samples, name) + rest, number, types)
            == After(ExpectedEach(samples, order),
                     PageSpec(codec, rest, number + 1 + |order|, types[name := KindWord(FamilyKind(samples, name))]))
  {
    hide *;
    var kind := FamilyKind(samples, name);
    order := SortLifts(codec, Named(samples, name));
    NamedIsFamily(samples, name, order);
    OneFamily(samples, order, name);
    BlockOpens(codec, samples, name, order, rest, number, types);
    FamilyReads(codec, order, name, kind, rest, number + 1, types[name := KindWord(kind)]);
  }

  lemma BlockOpens<V>(
      codec: Codec<V>, samples: seq<Sample<V>>, name: string, order: seq<Sample<V>>, rest: seq<string>, number: nat,
      types: map<string, string>)
    requires IsToken(name) && LinesOf(codec, order) == Sort(LinesOf(codec, Named(samples, name)))
    ensures PageSpec(codec, Block(codec, samples, name) + rest, number, types)
            == PageSpec(codec, LinesOf(codec, order) + rest, number + 1,
                        types[name := KindWord(FamilyKind(samples, name))])
  {
    hide PageSpec;
    hide FamilyKind;
    hide Header;
    hide LinesOf;
    var kind := FamilyKind(samples, name);
    Regroup(Header(name, kind), LinesOf(codec, order), rest);
    HeaderReads(codec, name, kind, LinesOf(codec, order) + rest, number, types);
  }

  /** The samples of some families, all together. */
  ghost function Gathered<V>(samples: seq<Sample<V>>, names: seq<string>): multiset<Sample<V>> {
    if names == [] then multiset{} else multiset(Named(samples, names[0])) + Gathered(samples, names[1..])
  }

  /** All the names are those of some sample. */
  ghost predicate Known<V>(samples: seq<Sample<V>>, names: seq<string>) {
    forall k :: 0 <= k < |names| ==> names[k] in Names(samples)
  }

  lemma KnownIsToken<V>(samples: seq<Sample<V>>, name: string)
    requires AllPrintable(samples) && name in Names(samples)
    ensures IsToken(name)
  {
    var k :| 0 <= k < |samples| && FullName(samples[k]) == name;
    FullNameIsValid(samples[k]);
  }

  lemma KnownSplits<V>(samples: seq<Sample<V>>, names: seq<string>)
    requires Known(samples, names) && names != []
    ensures names[0] in Names(samples) && Known(samples, names[1..])
  {
  }

  lemma NothingToRead<V>(codec: Codec<V>, samples: seq<Sample<V>>, number: nat, types: map<string, string>)
    ensures PageSpec(codec, [], number, types) == Ok(ExpectedEach(samples, []))
  {
  }

  lemma {:induction false} BlocksRead<V(!new)>(
      codec: Codec<V>, samples: seq<Sample<V>>, names: seq<string>, number: nat, types: map<string, string>)
      returns (order: seq<Sample<V>>)
    requires Faithful(codec) && AllPrintable(samples) && Known(samples, names)
    ensures multiset(order) == Gathered(samples, names)
    ensures PageSpec(codec, Blocks(codec, samples, names), number, types) == Ok(ExpectedEach(samples, order))
    decreases |names|
  {
    hide PageSpec;
    hide FamilyKind;
    hide Block;
    hide ExpectedEach;
    hide AllPrintable;
    hide Known;
    if names == [] {
      NothingToRead(codec, samples, number, types);
      return [];
    }
    KnownSplits(samples, names);
    KnownIsToken(samples, names[0]);
    hide Named;
    var first := BlockReads(codec, samples, names[0], Blocks(codec, samples, names[1..]), number, types);
    var known := types[names[0] := KindWord(FamilyKind(samples, names[0]))];
    var others := BlocksRead(codec, samples, names[1..], number + 1 + |first|, known);
    order := first + others;
    ExpectedConcat(samples, first, others);
  }

  // ------------------------------------------------------------ families partition the samples

  predicate Distinct(names: seq<string>) {
    forall i, j :: 0 <= i < j < |names| ==> names[i] != names[j]
  }

  lemma {:induction false} GatherOneMore<V>(samples: seq<Sample<V>>, names: seq<string>)
    requires samples != [] && Distinct(names)
    ensures Gathered(samples, names) ==
            Gathered(samples[1..], names) + if FullName(samples[0]) in names then multiset{samples[0]} else multiset{}
    decreases |names|
  {
    hide FullName;
    if names != [] {
      assert names == [names[0]] + names[1..];
      GatherOneMore(samples, names[1..]);
    }
  }

  lemma {:induction false} GatherAll<V>(samples: seq<Sample<V>>, names: seq<string>)
    requires Distinct(names) && Names(samples) <= set n | n in names
    ensures Gathered(samples, names) == multiset(samples)
    decreases |samples|
  {
    hide FullName;
    hide Gathered;
    if samples == [] {
      GatherNone<V>(names);
    } else {
      GatherOneMore(samples, names);
      assert FullName(samples[0]) in Names(samples);
      assert forall k :: 0 <= k < |samples[1..]| ==> samples[1..][k] == samples[k + 1];
      GatherAll(samples[1..], names);
      assert samples == [samples[0]] + samples[1..];
    }
  }

  lemma {:induction false} GatherNone<V>(names: seq<string>)
    ensures Gathered<V>([], names) == multiset{}
    decreases |names|
  {
    if names != [] {
      GatherNone<V>(names[1..]);
    }
  }

  // ------------------------------------------------------------ the lines of the page

  predicate AllOneLine(lines: seq<string>) {
    forall k :: 0 <= k < |lines| ==> OneLine(lines[k])
  }

  lemma BlockIsLines<V(!new)>(codec: Codec<V>, samples: seq<Sample<V>>, name: string)
    requires Faithful(codec) && AllPrintable(samples) && IsToken(name)
    ensures AllOneLine(Block(codec, samples, name))
  {
    hide FamilyKind;
    hide OneLine;
    HeaderIsClean(name, FamilyKind(samples, name));
    var order := SortLifts(codec, Named(samples, name));
    NamedIsFamily(samples, name, order);
    forall k | 0 <= k < |order| ensures OneLine(Line(codec, order[k])) {
      LineIsClean(codec, order[k]);
    }
  }

  lemma {:induction false} BlocksAreLines<V(!new)>(codec: Codec<V>, samples: seq<Sample<V>>, names: seq<string>)
    requires Faithful(codec) && AllPrintable(samples) && Known(samples, names)
    ensures AllOneLine(Blocks(codec, samples, names))
    decreases |names|
  {
    hide OneLine;
    hide Block;
    if names != [] {
      KnownSplits(samples, names);
      KnownIsToken(samples, names[0]);
      BlockIsLines(codec, samples, names[0]);
      BlocksAreLines(codec, samples, names[1..]);
    }
  }

  lemma PageIsItsLines<V(!new)>(codec: Codec<V>, samples: seq<Sample<V>>)
    requires Faithful(codec) && AllPrintable(samples)
    ensures Known(samples, InOrder(Names(samples)))
    ensures Lines(Page(codec, samples)) == Blocks(codec, samples, InOrder(Names(samples)))
  {
    var names := InOrder(Names(samples));
    var lines := Blocks(codec, samples, names);
    assert Known(samples, names) by {
      forall k | 0 <= k < |names| ensures names[k] in Names(samples) {
        assert names[k] in names;
      }
    }
    BlocksAreLines(codec, samples, names);
    forall k | 0 <= k < |lines| ensures !Has(lines[k], '\n') {
      assert OneLine(lines[k]);
    }
    LinesOfUnlines(lines);
  }

  /** The round trip: a printed page is always readable, and reading it gives a
      permutation of the samples, labels and values unchanged, each in its own family,
      whatever characters the label values hold. */
  lemma RoundTrip<V(!new)>(codec: Codec<V>, samples: seq<Sample<V>>) returns (order: seq<Sample<V>>)
    requires Faithful(codec) && AllPrintable(samples)
    ensures multiset(order) == multiset(samples)
    ensures PageSpec(codec, Lines(Page(codec, samples)), 1, map[]) == Ok(ExpectedEach(samples, order))
  {
    hide PageSpec;
    hide Page;
    hide ExpectedEach;
    PageIsItsLines(codec, samples);
    GatherAll(samples, InOrder(Names(samples)));
    order := BlocksRead(codec, samples, InOrder(Names(samples)), 1, map[]);
  }

  // ------------------------------------------------------------ one page per collection of samples

  /** Samples of one name are of one kind. */
  ghost predicate Uniform<V>(samples: seq<Sample<V>>) {
    forall i, j | 0 <= i < |samples| && 0 <= j < |samples| && FullName(samples[i]) == FullName(samples[j]) ::
      samples[i].kind == samples[j].kind
  }

  /** Two orders of the same samples. */
  ghost predicate Shuffled<V>(a: seq<Sample<V>>, b: seq<Sample<V>>) {
    multiset(a) == multiset(b)
  }

  /** The lines of one family, as a bag. */
  ghost function Bag<V>(codec: Codec<V>, samples: seq<Sample<V>>, name: string): (r: multiset<string>)
    ensures |r| == |Named(samples, name)|
  {
    multiset(LinesOf(codec, Named(samples, name)))
  }

  lemma BagConcat<V>(codec: Codec<V>, a: seq<Sample<V>>, b: seq<Sample<V>>, name: string)
    ensures Bag(codec, a + b, name) == Bag(codec, a, name) + Bag(codec, b, name)
  {
    hide Named;
    hide Line;
    NamedConcat(a, b, name);
    var p, q := Named(a, name), Named(b, name);
    assert LinesOf(codec, p + q) == LinesOf(codec, p) + LinesOf(codec, q);
  }

  /** The element put first, the others left in their order. */
  function ToFront<V>(samples: seq<Sample<V>>, k: nat): (r: seq<Sample<V>>)
    requires k < |samples|
  {
    [samples[k]] + (samples[..k] + samples[k + 1..])
  }

  lemma Around<V>(samples: seq<Sample<V>>, k: nat)
    requires k < |samples|
    ensures samples == samples[..k] + ([samples[k]] + samples[k + 1..])
  {
  }

  lemma AroundBag<V>(samples: seq<Sample<V>>, k: nat)
    requires k < |samples|
    ensures multiset(samples[..k] + samples[k + 1..]) == multiset(samples) - multiset{samples[k]}
    ensures multiset(ToFront(samples, k)) == multiset(samples)
  {
    Around(samples, k);
    var before, behind := samples[..k], samples[k + 1..];
    assert multiset(samples) == multiset(before) + (multiset{samples[k]} + multiset(behind));
  }

  lemma BagWithout<V>(codec: Codec<V>, b: seq<Sample<V>>, k: nat, name: string)
    requires k < |b|
    ensures Bag(codec, b, name) == Bag(codec, [b[k]], name) + Bag(codec, b[..k] + b[k + 1..], name)
  {
    hide Bag;
    Around(b, k);
    BagConcat(codec, b[..k], [b[k]] + b[k + 1..], name);
    BagConcat(codec, [b[k]], b[k + 1..], name);
    BagConcat(codec, b[..k], b[k + 1..], name);
  }

  lemma {:induction false} BagForgetsOrder<V>(codec: Codec<V>, a: seq<Sample<V>>, b: seq<Sample<V>>, name: string)
    requires Shuffled(a, b)
    ensures Bag(codec, a, name) == Bag(codec, b, name)
    decreases |a|
  {
    hide Bag;
    hide ToFront;
    if a == [] {
      assert |multiset(b)| == 0;
    } else {
      assert a == [a[0]] + a[1..];
      assert a[0] in multiset(b);
      var k :| 0 <= k < |b| && b[k] == a[0];
      AroundBag(b, k);
      assert multiset(a[1..]) == multiset(a) - multiset{a[0]};
      BagForgetsOrder(codec, a[1..], b[..k] + b[k + 1..], name);
      BagConcat(codec, [a[0]], a[1..], name);
      BagWithout(codec, b, k, name);
    }
  }

  lemma KindsAgree<V>(codec: Codec<V>, a: seq<Sample<V>>, b: seq<Sample<V>>, name: string)
    requires Shuffled(a, b) && Uniform(a)
    ensures FamilyKind(a, name) == FamilyKind(b, name)
  {
    hide FullName;
    BagForgetsOrder(codec, a, b, name);
    var p, q := Named(a, name), Named(b, name);
    assert |p| == |q|;
    if p != [] {
      assert p[0] in a;
      assert q[0] in multiset(a) by {
        assert q[0] in b;
      }
    }
  }

  lemma NamesAgree<V>(a: seq<Sample<V>>, b: seq<Sample<V>>)
    requires Shuffled(a, b)
    ensures Names(a) <= Names(b)
  {
    hide FullName;
    forall k | 0 <= k < |a| ensures FullName(a[k]) in Names(b) {
      assert a[k] in multiset(b);
      assert a[k] in b;
    }
  }

  lemma {:induction false} BlocksAgree<V>(codec: Codec<V>, a: seq<Sample<V>>, b: seq<Sample<V>>, names: seq<string>)
    requires Shuffled(a, b) && Uniform(a)
    ensures Blocks(codec, a, names) == Blocks(codec, b, names)
    decreases |names|
  {
    hide FamilyKind;
    hide Named;
    hide LinesOf;
    if names != [] {
      BlocksAgree(codec, a, b, names[1..]);
      KindsAgree(codec, a, b, names[0]);
      BagForgetsOrder(codec, a, b, names[0]);
      SortForgetsOrder(LinesOf(codec, Named(a, names[0])), LinesOf(codec, Named(b, names[0])));
    }
  }

  lemma UniformPage<V>(codec: Codec<V>, a: seq<Sample<V>>, b: seq<Sample<V>>)
    requires Shuffled(a, b) && Uniform(a)
    ensures Page(codec, a) == Page(codec, b)
  {
    hide Blocks;
    hide InOrder;
    NamesAgree(a, b);
    NamesAgree(b, a);
    assert Names(a) == Names(b);
    hide Names;
    BlocksAgree(codec, a, b, InOrder(Names(a)));
  }

  /** A page tells the kind of each of its families, since reading it back does. */
  lemma KindShows<V(!new)>(codec: Codec<V>, a: seq<Sample<V>>, b: seq<Sample<V>>, sample: Sample<V>)
    requires Faithful(codec) && AllPrintable(a) && AllPrintable(b) && sample in a
    requires Page(codec, a) == Page(codec, b)
    ensures FamilyKind(a, FullName(sample)) == FamilyKind(b, FullName(sample))
  {
    hide PageSpec;
    hide Page;
    hide FamilyKind;
    hide FullName;
    var p := RoundTrip(codec, a);
    var q := RoundTrip(codec, b);
    assert sample in multiset(p);
    var k :| 0 <= k < |p| && p[k] == sample;
    assert ExpectedEach(a, p)[k] == ExpectedEach(b, q)[k];
  }

  lemma ShuffledIsPrintable<V>(a: seq<Sample<V>>, b: seq<Sample<V>>)
    requires Shuffled(a, b) && AllPrintable(a)
    ensures AllPrintable(b)
  {
    hide Printable;
    forall k | 0 <= k < |b| ensures Printable(b[k]) {
      assert b[k] in multiset(a);
      assert b[k] in a;
    }
  }

  lemma FrontDecidesKind<V>(samples: seq<Sample<V>>, k: nat)
    requires k < |samples|
    ensures FamilyKind(ToFront(samples, k), FullName(samples[k])) == samples[k].kind
  {
    hide FullName;
    var r := ToFront(samples, k);
    assert r[0] == samples[k];
  }

  lemma MixedKindsShow<V(!new)>(codec: Codec<V>, a: seq<Sample<V>>) returns (b: seq<Sample<V>>)
    requires Faithful(codec) && AllPrintable(a) && !Uniform(a)
    ensures Shuffled(a, b) && Page(codec, a) != Page(codec, b)
  {
    hide FamilyKind;
    hide FullName;
    hide Page;
    hide AllPrintable;
    var i, j :| 0 <= i < |a| && 0 <= j < |a| && FullName(a[i]) == FullName(a[j]) && a[i].kind != a[j].kind;
    var k := if a[i].kind == FamilyKind(a, FullName(a[i])) then j else i;
    b := ToFront(a, k);
    AroundBag(a, k);
    FrontDecidesKind(a, k);
    ShuffledIsPrintable(a, b);
    if Page(codec, a) == Page(codec, b) {
      KindShows(codec, a, b, a[k]);
    }
  }

  /** The page depends only on which samples there are, not on their order, exactly
      when samples of one name are of one kind: a family is announced with the kind of
      whichever of its samples came first. */
  lemma PageIsCanonical<V(!new)>(codec: Codec<V>, a: seq<Sample<V>>)
    requires Faithful(codec) && AllPrintable(a)
    ensures (forall b | Shuffled(a, b) :: Page(codec, a) == Page(codec, b)) <==> Uniform(a)
  {
    hide Page;
    hide Shuffled;
    hide AllPrintable;
    if Uniform(a) {
      forall b | Shuffled(a, b) ensures Page(codec, a) == Page(codec, b) {
        UniformPage(codec, a, b);
      }
    } else {
      var b := MixedKindsShow(codec, a);
    }
  }
}
