/** The family of a sample, said of the lines of its page: which earlier lines declare
    it, and under which type. */
module Families {
  import opened Wrappers
  import opened Text
  import opened Exposition
  import opened Spelling

  /** A comment whose words are TYPE, a name and a type. */
  predicate Declares(line: string, name: string, kind: string) {
    var comment := Trim(line);
    && comment != "" && comment[0] == '#'
    && var words := comment[1..];
       var rest := AfterFirstWord(words);
       && FirstWord(words) == Some("TYPE") && FirstWord(rest) == Some(name)
       && FirstWord(AfterFirstWord(rest)).Some? && kind == Lower(FirstWord(AfterFirstWord(rest)).value)
  }

  /** The last of the first `n` lines to declare the name gives it that type. */
  ghost predicate LastDeclared(lines: seq<string>, n: nat, name: string, kind: string)
    requires n <= |lines|
  {
    exists j :: DeclaredAt(lines, n, name, kind, j)
  }

  ghost predicate DeclaredAt(lines: seq<string>, n: nat, name: string, kind: string, j: int)
    requires n <= |lines|
  {
    && 0 <= j < n && Declares(lines[j], name, kind)
    && forall i, other | j < i < n :: !Declares(lines[i], name, other)
  }

  ghost predicate IsDeclared(lines: seq<string>, n: nat, name: string)
    requires n <= |lines|
  {
    exists j, kind :: 0 <= j < n && Declares(lines[j], name, kind)
  }

  /** The name is that of a declared family followed by the suffix. */
  ghost predicate ExtendsFamily(lines: seq<string>, n: nat, name: string, family: string, s: int)
    requires n <= |lines|
  {
    0 <= s < |FAMILY_SUFFIXES| && name == family + FAMILY_SUFFIXES[s] && IsDeclared(lines, n, family)
  }

  /** The family of a sample on line `n`: its own name if an earlier line declares it,
      and otherwise the name without the first suffix of the list that leaves a declared
      one; none if there is neither. */
  ghost predicate HasFamily(lines: seq<string>, n: nat, name: string, family: Option<string>)
    requires n <= |lines|
  {
    if IsDeclared(lines, n, name) then family == Some(name)
    else
      match family
      case Some(f) => exists s :: FirstExtended(lines, n, name, f, s)
      case None => forall s, f :: !ExtendsFamily(lines, n, name, f, s)
  }

  ghost predicate FirstExtended(lines: seq<string>, n: nat, name: string, family: string, s: int)
    requires n <= |lines|
  {
    ExtendsFamily(lines, n, name, family, s) && forall i, f | i < s :: !ExtendsFamily(lines, n, name, f, i)
  }

  ghost predicate HasType(lines: seq<string>, n: nat, family: Option<string>, kind: string)
    requires n <= |lines|
  {
    match family
    case Some(f) => LastDeclared(lines, n, f, kind)
    case None => kind == "untyped"
  }

  // ------------------------------------------------------------ what the parser remembers

  /** `types` holds what the first `n` lines declare. */
  ghost predicate Remembers(types: map<string, string>, lines: seq<string>, n: nat)
    requires n <= |lines|
  {
    && (forall name | name in types :: LastDeclared(lines, n, name, types[name]))
    && forall name | IsDeclared(lines, n, name) :: name in types
  }

  lemma DeclareDeclares(comment: string, types: map<string, string>)
    requires comment != "" && comment[0] == '#' && Trim(comment) == comment
    ensures var r := Declare(comment[1..], types);
            || (r == types && forall name, kind :: !Declares(comment, name, kind))
            || exists name, kind :: Declares(comment, name, kind) && r == types[name := kind]
    ensures forall name, kind, name', kind' ::
      Declares(comment, name, kind) && Declares(comment, name', kind') ==> name == name' && kind == kind'
  {
    hide Trim;
    hide FirstWord;
    hide AfterFirstWord;
    hide Lower;
    var words := comment[1..];
    var rest := AfterFirstWord(words);
    if FirstWord(words) == Some("TYPE") && FirstWord(rest).Some? && FirstWord(AfterFirstWord(rest)).Some? {
      assert Declares(comment, FirstWord(rest).value, Lower(FirstWord(AfterFirstWord(rest)).value));
    }
  }

  lemma OtherLinesDeclareNothing(line: string)
    requires Trim(line) == "" || Trim(line)[0] != '#'
    ensures forall name, kind :: !Declares(line, name, kind)
  {
  }

  lemma TrimIsTrimmed(line: string)
    ensures Trim(Trim(line)) == Trim(line)
  {
    TrimmedStays(Trim(line));
  }

  lemma SameDeclarations(line: string)
    ensures forall name, kind :: Declares(line, name, kind) <==> Declares(Trim(line), name, kind)
  {
    TrimIsTrimmed(line);
  }

  /** A line that declares nothing changes nothing. */
  lemma SkippedLine(types: map<string, string>, lines: seq<string>, n: nat)
    requires n < |lines| && Remembers(types, lines, n) && forall name, kind :: !Declares(lines[n], name, kind)
    ensures Remembers(types, lines, n + 1)
  {
    hide Declares;
    forall name | name in types ensures LastDeclared(lines, n + 1, name, types[name]) {
      var j :| DeclaredAt(lines, n, name, types[name], j);
      assert DeclaredAt(lines, n + 1, name, types[name], j);
    }
    forall name | IsDeclared(lines, n + 1, name) ensures name in types {
      assert IsDeclared(lines, n, name);
    }
  }

  /** A declaration replaces what was known of its family. */
  lemma DeclaringLine(types: map<string, string>, lines: seq<string>, n: nat, name: string, kind: string)
    requires n < |lines| && Remembers(types, lines, n) && Declares(lines[n], name, kind)
    requires forall name', kind' :: Declares(lines[n], name', kind') ==> name == name' && kind == kind'
    ensures Remembers(types[name := kind], lines, n + 1)
  {
    hide Declares;
    var r := types[name := kind];
    forall x | x in r ensures LastDeclared(lines, n + 1, x, r[x]) {
      if x == name {
        assert DeclaredAt(lines, n + 1, name, kind, n);
      } else {
        var j :| DeclaredAt(lines, n, x, types[x], j);
        assert DeclaredAt(lines, n + 1, x, types[x], j);
      }
    }
    forall x | IsDeclared(lines, n + 1, x) ensures x in r {
      if x != name {
        assert IsDeclared(lines, n, x);
      }
    }
  }

  lemma CommentLine(types: map<string, string>, lines: seq<string>, n: nat)
    requires n < |lines| && Remembers(types, lines, n) && Trim(lines[n]) != "" && Trim(lines[n])[0] == '#'
    ensures Remembers(Declare(Trim(lines[n])[1..], types), lines, n + 1)
  {
    var comment := Trim(lines[n]);
    TrimIsTrimmed(lines[n]);
    SameDeclarations(lines[n]);
    hide Remembers;
    DeclareDeclares(comment, types);
    hide Declares;
    hide Declare;
    hide Trim;
    var r := Declare(comment[1..], types);
    if exists name, kind :: Declares(comment, name, kind) && r == types[name := kind] {
      var name, kind :| Declares(comment, name, kind) && r == types[name := kind];
      DeclaringLine(types, lines, n, name, kind);
    } else {
      SkippedLine(types, lines, n);
    }
  }

  // ------------------------------------------------------------ the family that is found

  predicate Extends(name: string, types: map<string, string>, family: string, s: int) {
    0 <= s < |FAMILY_SUFFIXES| && family in types && name == family + FAMILY_SUFFIXES[s]
  }

  /** The first suffix of the list that leaves a declared name, `s` being its place. */
  lemma {:induction false} SuffixFound(name: string, types: map<string, string>, suffixes: seq<string>, from: nat)
      returns (s: nat)
    requires from <= |FAMILY_SUFFIXES| && suffixes == FAMILY_SUFFIXES[from..]
    ensures from <= s <= |FAMILY_SUFFIXES|
    ensures forall i, f | from <= i < s :: !Extends(name, types, f, i)
    ensures match FamilyBySuffix(name, types, suffixes)
            case None => s == |FAMILY_SUFFIXES|
            case Some(family) => Extends(name, types, family, s)
    decreases |suffixes|
  {
    s := from;
    if suffixes != [] {
      var suffix := suffixes[0];
      assert suffix == FAMILY_SUFFIXES[from] && suffixes[1..] == FAMILY_SUFFIXES[from + 1..];
      if |suffix| <= |name| && name[|name| - |suffix|..] == suffix && name[..|name| - |suffix|] in types {
        assert name == name[..|name| - |suffix|] + suffix;
      } else {
        forall f ensures !Extends(name, types, f, from) {
          assert name == f + suffix ==> name[|name| - |suffix|..] == suffix && name[..|name| - |suffix|] == f;
        }
        s := SuffixFound(name, types, suffixes[1..], from + 1);
      }
    }
  }

  lemma FamilyFound(types: map<string, string>, lines: seq<string>, n: nat, name: string)
    requires n <= |lines| && Remembers(types, lines, n)
    ensures HasFamily(lines, n, name, FamilyOf(name, types))
    ensures FamilyOf(name, types).Some? ==> FamilyOf(name, types).value in types
  {
    RememberedIsDeclared(types, lines, n);
    hide Remembers;
    hide IsDeclared;
    if name !in types {
      var s := SuffixFound(name, types, FAMILY_SUFFIXES, 0);
      hide FamilyBySuffix;
      ExtendingIsExtending(types, lines, n, name);
      var found := FamilyBySuffix(name, types, FAMILY_SUFFIXES);
      assert found.Some? ==> ExtendsFamily(lines, n, name, found.value, s);
      forall i, f | i < s ensures !ExtendsFamily(lines, n, name, f, i) {
        assert i < 0 ==> !Extends(name, types, f, i);
      }
      assert found.None? ==> forall i, f :: !ExtendsFamily(lines, n, name, f, i) by {
        hide Extends;
        forall i, f | found.None? ensures !ExtendsFamily(lines, n, name, f, i) {
          assert i < s || i >= |FAMILY_SUFFIXES|;
        }
      }
      hide ExtendsFamily;
      hide Extends;
      assert found.Some? ==> FirstExtended(lines, n, name, found.value, s);
    }
  }

  lemma ExtendingIsExtending(types: map<string, string>, lines: seq<string>, n: nat, name: string)
    requires n <= |lines| && forall x :: x in types <==> IsDeclared(lines, n, x)
    ensures forall f, s :: ExtendsFamily(lines, n, name, f, s) <==> Extends(name, types, f, s)
  {
    hide IsDeclared;
  }

  lemma RememberedIsDeclared(types: map<string, string>, lines: seq<string>, n: nat)
    requires n <= |lines| && Remembers(types, lines, n)
    ensures forall x :: x in types <==> IsDeclared(lines, n, x)
  {
    hide Declares;
    forall x | x in types ensures IsDeclared(lines, n, x) {
      var j :| DeclaredAt(lines, n, x, types[x], j);
      assert Declares(lines[j], x, types[x]);
    }
  }

  // ------------------------------------------------------------ a page

  /** The sample on line `n`: what the line says, and its family by the lines before. */
  ghost predicate ReadFrom<V(!new)>(codec: Codec<V>, lines: seq<string>, n: nat, sample: Parsed<V>)
    requires n < |lines|
  {
    && Says(codec, Trim(lines[n]), sample.name, sample.labels, sample.value)
    && HasFamily(lines, n, sample.name, sample.family)
    && HasType(lines, n, sample.family, sample.familyType)
  }

  predicate IsSampleLine(line: string) {
    Trim(line) != "" && Trim(line)[0] != '#'
  }

  /** The samples of a page, and the lines from `n` on that they stand on, in order: every
      line that is neither empty nor a comment. */
  ghost predicate OnLines<V(!new)>(
      codec: Codec<V>, lines: seq<string>, n: nat, samples: seq<Parsed<V>>, at: seq<nat>)
  {
    && |at| == |samples|
    && (forall k | 0 <= k < |at| :: n <= at[k] < |lines| && ReadFrom(codec, lines, at[k], samples[k]))
    && (forall i, k | 0 <= i < k < |at| :: at[i] < at[k])
    && forall i: nat | n <= i < |lines| :: i in at <==> IsSampleLine(lines[i])
  }

  lemma AllAreLater(at: seq<nat>, n: nat)
    requires forall k | 0 <= k < |at| :: n <= at[k]
    ensures forall i | i in at :: n <= i
  {
  }

  lemma OneMoreLine<V(!new)>(
      codec: Codec<V>, lines: seq<string>, n: nat, sample: Parsed<V>, samples: seq<Parsed<V>>, at: seq<nat>)
    requires n < |lines| && IsSampleLine(lines[n]) && ReadFrom(codec, lines, n, sample)
    requires OnLines(codec, lines, n + 1, samples, at)
    ensures OnLines(codec, lines, n, [sample] + samples, [n] + at)
  {
    hide ReadFrom;
    hide IsSampleLine;
    var all, now := [sample] + samples, [n] + at;
    AllAreLater(at, n + 1);
    forall k | 0 <= k < |now| ensures n <= now[k] < |lines| && ReadFrom(codec, lines, now[k], all[k]) {
      assert k > 0 ==> now[k] == at[k - 1] && all[k] == samples[k - 1];
    }
    forall i: nat | n <= i < |lines| ensures i in now <==> IsSampleLine(lines[i]) {
      assert i in now <==> i == n || i in at;
    }
  }

  lemma NoSampleOn<V(!new)>(codec: Codec<V>, lines: seq<string>, n: nat, samples: seq<Parsed<V>>, at: seq<nat>)
    requires n < |lines| && !IsSampleLine(lines[n]) && OnLines(codec, lines, n + 1, samples, at)
    ensures OnLines(codec, lines, n, samples, at)
  {
    hide ReadFrom;
    hide IsSampleLine;
    AllAreLater(at, n + 1);
  }

  lemma ClassifiedIsReadFrom<V(!new)>(
      codec: Codec<V>, types: map<string, string>, lines: seq<string>, n: nat, name: string,
      labels: map<string, string>, value: V)
    requires n < |lines| && Remembers(types, lines, n)
    requires SampleSpec(codec, Trim(lines[n])) == Ok((name, labels, value))
    ensures ReadFrom(codec, lines, n, Classify(name, labels, value, types))
  {
    FamilyFound(types, lines, n, name);
    ReadExactlyWhatIsSaid(codec, Trim(lines[n]), name, labels, value);
    hide SampleSpec;
    hide Says;
    hide HasFamily;
    hide FamilyOf;
    hide Declares;
  }

  /** Every sample of a page that can be read stands on its own line, and has the family
      and the type that the lines before it declare. */
  lemma {:induction false} SamplesHaveTheirFamilies<V(!new)>(
      codec: Codec<V>, lines: seq<string>, n: nat, number: nat, types: map<string, string>)
      returns (at: seq<nat>)
    requires n <= |lines| && Remembers(types, lines, n) && PageSpec(codec, lines[n..], number, types).Ok?
    ensures OnLines(codec, lines, n, PageSpec(codec, lines[n..], number, types).value, at)
    decreases |lines| - n
  {
    hide SampleSpec;
    hide ReadFrom;
    hide Remembers;
    hide Classify;
    hide Declare;
    hide OnLines;
    if n == |lines| {
      at := [];
      NoLines(codec, lines);
    } else {
      assert lines[n..][1..] == lines[n + 1..] && lines[n..][0] == lines[n];
      var line := Trim(lines[n]);
      if line == "" {
        OtherLinesDeclareNothing(lines[n]);
        SkippedLine(types, lines, n);
        at := SamplesHaveTheirFamilies(codec, lines, n + 1, number + 1, types);
        NoSampleOn(codec, lines, n, PageSpec(codec, lines[n + 1..], number + 1, types).value, at);
      } else if line[0] == '#' {
        CommentLine(types, lines, n);
        at := SamplesHaveTheirFamilies(codec, lines, n + 1, number + 1, Declare(line[1..], types));
        NoSampleOn(codec, lines, n, PageSpec(codec, lines[n + 1..], number + 1, Declare(line[1..], types)).value, at);
      } else {
        OtherLinesDeclareNothing(lines[n]);
        SkippedLine(types, lines, n);
        var rest := SamplesHaveTheirFamilies(codec, lines, n + 1, number + 1, types);
        var (name, labels, value) := SampleSpec(codec, line).value;
        ClassifiedIsReadFrom(codec, types, lines, n, name, labels, value);
        var sample := Classify(name, labels, value, types);
        OneMoreLine(codec, lines, n, sample, PageSpec(codec, lines[n + 1..], number + 1, types).value, rest);
        at := [n] + rest;
      }
    }
  }

  lemma NoLines<V(!new)>(codec: Codec<V>, lines: seq<string>)
    ensures OnLines(codec, lines, |lines|, [], [])
  {
  }

  /** A whole page. */
  lemma PageHasItsFamilies<V(!new)>(codec: Codec<V>, text: string) returns (at: seq<nat>)
    requires PageSpec(codec, Lines(text), 1, map[]).Ok?
    ensures OnLines(codec, Lines(text), 0, PageSpec(codec, Lines(text), 1, map[]).value, at)
  {
    var lines := Lines(text);
    assert lines[0..] == lines;
    assert Remembers(map[], lines, 0);
    at := SamplesHaveTheirFamilies(codec, lines, 0, 1, map[]);
  }

  // ------------------------------------------------------------ pages that cannot be read

  /** The line says some sample. */
  ghost predicate Readable<V(!new)>(codec: Codec<V>, line: string) {
    exists name, labels, value :: Says(codec, Trim(line), name, labels, value)
  }

  lemma ReadableIsRead<V(!new)>(codec: Codec<V>, line: string)
    ensures Readable(codec, line) <==> SampleSpec(codec, Trim(line)).Ok?
  {
    hide SampleSpec;
    hide Says;
    hide Trim;
    if SampleSpec(codec, Trim(line)).Ok? {
      var (name, labels, value) := SampleSpec(codec, Trim(line)).value;
      ReadExactlyWhatIsSaid(codec, Trim(line), name, labels, value);
    }
    if Readable(codec, line) {
      var name, labels, value :| Says(codec, Trim(line), name, labels, value);
      ReadExactlyWhatIsSaid(codec, Trim(line), name, labels, value);
    }
  }

  /** All the sample lines from `n` up to `end` say a sample. */
  ghost predicate AllReadable<V(!new)>(codec: Codec<V>, lines: seq<string>, n: nat, end: nat)
    requires end <= |lines|
  {
    forall i | n <= i < end && IsSampleLine(lines[i]) :: Readable(codec, lines[i])
  }

  /** A page is read if and only if every sample line says a sample; otherwise the error
      tells the number of the first line that does not. */
  lemma {:induction false} PageIsReadExactlyWhenSaid<V(!new)>(
      codec: Codec<V>, lines: seq<string>, n: nat, number: nat, types: map<string, string>)
    requires n <= |lines|
    ensures match PageSpec(codec, lines[n..], number, types)
            case Ok(_) => AllReadable(codec, lines, n, |lines|)
            case Err((at, _)) =>
              var i := n + at - number;
              && n <= i < |lines| && AllReadable(codec, lines, n, i)
              && IsSampleLine(lines[i]) && !Readable(codec, lines[i])
    decreases |lines| - n
  {
    hide SampleSpec;
    hide Readable;
    hide Declare;
    hide Trim;
    if n < |lines| {
      assert lines[n..][1..] == lines[n + 1..] && lines[n..][0] == lines[n];
      var line := Trim(lines[n]);
      ReadableIsRead(codec, lines[n]);
      var next := if line != "" && line[0] == '#' then Declare(line[1..], types) else types;
      PageIsReadExactlyWhenSaid(codec, lines, n + 1, number + 1, next);
    }
  }
}
