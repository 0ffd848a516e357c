/** The exposition format as a grammar: every way a sample line may be spelt, with its
    white space, escapes, commas and whatever follows the value, and what it means.  The
    parser accepts exactly these lines, and reads exactly this from them. */
module Spelling {
  import opened Wrappers
  import opened Text
  import opened Exposition

  predicate AllSpace(s: string) {
    forall k | 0 <= k < |s| :: IsSpace(s[k])
  }

  // ------------------------------------------------------------ white space

  lemma {:induction false} LeadIsTrimmed(lead: string, s: string)
    requires AllSpace(lead)
    ensures TrimStart(lead + s) == TrimStart(s)
  {
    if lead == "" {
      assert lead + s == s;
    } else {
      assert (lead + s)[1..] == lead[1..] + s;
      LeadIsTrimmed(lead[1..], s);
    }
  }

  lemma {:induction false} TrimSplits(s: string) returns (lead: string)
    ensures AllSpace(lead) && s == lead + TrimStart(s)
  {
    if s != "" && IsSpace(s[0]) {
      var rest := TrimSplits(s[1..]);
      lead := [s[0]] + rest;
    } else {
      lead := "";
    }
  }

  lemma {:induction false} GapIsTrimmed(s: string, gap: string)
    requires AllSpace(gap) && (s != "" ==> !IsSpace(s[|s| - 1]))
    ensures TrimEnd(s + gap) == s
    decreases |gap|
  {
    if gap == "" {
      assert s + gap == s;
    } else {
      assert (s + gap)[..|s + gap| - 1] == s + gap[..|gap| - 1];
      GapIsTrimmed(s, gap[..|gap| - 1]);
    }
  }

  lemma {:induction false} TrimEndSplits(s: string) returns (gap: string)
    ensures AllSpace(gap) && s == TrimEnd(s) + gap
    decreases |s|
  {
    if s != "" && IsSpace(s[|s| - 1]) {
      var rest := TrimEndSplits(s[..|s| - 1]);
      gap := rest + [s[|s| - 1]];
    } else {
      gap := "";
    }
  }

  // ------------------------------------------------------------ quoted values

  /** A character as it is, or any character after a backslash. */
  datatype Piece = Plain(c: char) | Escaped(c: char)
  {
    predicate Fits() { Plain? ==> c != '"' && c != '\\' }

    function Text(): string { if Plain? then [c] else ['\\', c] }

    function Means(): char { if Escaped? && c == 'n' then '\n' else c }
  }

  predicate AllFit(pieces: seq<Piece>) {
    forall k | 0 <= k < |pieces| :: pieces[k].Fits()
  }

  function Quoted(pieces: seq<Piece>): string {
    if pieces == [] then "" else pieces[0].Text() + Quoted(pieces[1..])
  }

  function Value(pieces: seq<Piece>): string {
    if pieces == [] then "" else [pieces[0].Means()] + Value(pieces[1..])
  }

  lemma {:induction false} QuotedMeans(pieces: seq<Piece>, tail: string, acc: string)
    requires AllFit(pieces)
    ensures QuotedSpec(Quoted(pieces) + "\"" + tail, acc) == Ok((acc + Value(pieces), tail))
  {
    var s := Quoted(pieces) + "\"" + tail;
    if pieces == [] {
      assert s[1..] == tail && acc + "" == acc;
    } else {
      var piece, rest := pieces[0], Quoted(pieces[1..]) + "\"" + tail;
      OnePieceMore(piece, pieces[1..], tail, acc);
      assert [piece] + pieces[1..] == pieces;
      QuotedMeans(pieces[1..], tail, acc + [piece.Means()]);
      PieceIsRead(piece, rest, acc);
    }
  }

  lemma PieceIsRead(piece: Piece, rest: string, acc: string)
    requires piece.Fits()
    ensures QuotedSpec(piece.Text() + rest, acc) == QuotedSpec(rest, acc + [piece.Means()])
  {
    var s := piece.Text() + rest;
    if piece.Plain? {
      assert s[1..] == rest && s[0] == piece.c;
    } else {
      assert s[2..] == rest && s[0] == '\\' && s[1] == piece.c;
    }
  }

  lemma OnePieceMore(piece: Piece, pieces: seq<Piece>, tail: string, acc: string)
    ensures Quoted([piece] + pieces) + "\"" + tail == piece.Text() + (Quoted(pieces) + "\"" + tail)
    ensures acc + Value([piece] + pieces) == acc + [piece.Means()] + Value(pieces)
  {
    var all := [piece] + pieces;
    assert all[0] == piece && all[1..] == pieces;
    assert Quoted(all) == piece.Text() + Quoted(pieces) && Value(all) == [piece.Means()] + Value(pieces);
    hide *;
    Associates(piece.Text(), Quoted(pieces), "\"", tail);
    Associates(acc, [piece.Means()], Value(pieces), "");
  }

  lemma Associates(a: string, b: string, c: string, d: string)
    ensures a + b + c + d == a + (b + c + d)
    ensures a + (b + c) == a + b + c
  {
  }

  lemma {:induction false} QuotedIsSpelt(s: string, acc: string) returns (pieces: seq<Piece>)
    requires QuotedSpec(s, acc).Ok?
    ensures AllFit(pieces)
    ensures var (value, tail) := QuotedSpec(s, acc).value;
            s == Quoted(pieces) + "\"" + tail && value == acc + Value(pieces)
    decreases |s|
  {
    var (value, tail) := QuotedSpec(s, acc).value;
    pieces := [];
    if s[0] == '"' {
      assert s == "" + "\"" + tail && acc == acc + "";
    } else {
      var n := if s[0] == '\\' then 2 else 1;
      var piece := if n == 2 then Escaped(s[1]) else Plain(s[0]);
      var rest := QuotedIsSpelt(s[n..], acc + [piece.Means()]);
      pieces := [piece] + rest;
      OnePieceMore(piece, rest, tail, acc);
      assert s == piece.Text() + s[n..];
    }
  }

  // ------------------------------------------------------------ labels

  /** A label: its name and its quoted value, white space around each, and a comma or not. */
  datatype Item = Item(lead: string, key: string, gap: string, before: string, pieces: seq<Piece>, behind: string,
    comma: bool)
  {
    predicate Fits() {
      && AllSpace(lead) && AllSpace(gap) && AllSpace(before) && AllSpace(behind)
      && ValidLabel(key) && AllFit(pieces)
    }

    function End(): string { behind + if comma then "," else "" }

    function Named(text: string): string { key + gap + "=" + text }

    function Valued(after: string): string { before + "\"" + Quoted(pieces) + "\"" + after }

    function Text(): string { lead + Named(Valued(End())) }
  }

  predicate ItemsFit(items: seq<Item>) {
    forall k | 0 <= k < |items| :: items[k].Fits()
  }

  /** The labels up to the closing brace, with the white space before it. */
  function Spelt(items: seq<Item>, end: string): string {
    if items == [] then end + "}" else items[0].Text() + Spelt(items[1..], end)
  }

  /** Of two labels of one name the later one counts. */
  function Meaning(items: seq<Item>, labels: map<string, string>): map<string, string> {
    if items == [] then labels else Meaning(items[1..], labels[items[0].key := Value(items[0].pieces)])
  }

  lemma KeyIsRead(item: Item, text: string)
    requires item.Fits()
    ensures var s, eq := item.Named(text), |item.key| + |item.gap|;
            && TrimStart(s) == s && s != "" && s[0] != '}' && !IsSpace(s[0]) && s[0] != ','
            && Before(s, '=') == eq < |s| && Trim(s[..eq]) == item.key && s[eq + 1..] == text
  {
    var key, gap := item.key, item.gap;
    var s := key + gap + "=" + text;
    assert s[0] == key[0] && IsLabelChar(key[0]);
    BeforeConcat(key + gap, '=', text);
    assert s == key + gap + ['='] + text;
    assert s[..|key| + |gap|] == key + gap;
    assert TrimStart(key + gap) == key + gap;
    GapIsTrimmed(key, gap);
  }

  lemma ValueIsRead(item: Item, after: string)
    requires item.Fits()
    ensures var quoted := TrimStart(item.Valued(after));
            && quoted != "" && quoted[0] == '"'
            && QuotedSpec(quoted[1..], "") == Ok((Value(item.pieces), after))
  {
    var inner := Quoted(item.pieces) + "\"" + after;
    var quoted := "\"" + inner;
    assert item.Valued(after) == item.before + quoted;
    LeadIsTrimmed(item.before, quoted);
    assert quoted[1..] == inner;
    QuotedMeans(item.pieces, after, "");
    assert "" + Value(item.pieces) == Value(item.pieces);
  }

  lemma TrimmedFirst(s: string, labels: map<string, string>)
    ensures LabelsSpec(TrimStart(s), labels) == LabelsSpec(s, labels)
  {
    assert TrimStart(TrimStart(s)) == TrimStart(s);
  }

  lemma Regroup(a: string, b: string, c: string, d: string, e: string, next: string)
    ensures a + (b + (c + d + e)) + next == a + (b + (c + d + (e + next)))
  {
  }

  lemma ItemThen(item: Item, next: string)
    ensures item.Text() + next == item.lead + item.Named(item.Valued(item.End() + next))
  {
    Regroup(item.lead, item.key + item.gap + "=", item.before + "\"" + Quoted(item.pieces), "\"", item.End(), next);
  }

  /** The next label, or the closing brace, begins with no comma. */
  lemma NoCommaNext(items: seq<Item>, end: string, tail: string)
    requires ItemsFit(items) && AllSpace(end)
    ensures var s := TrimStart(Spelt(items, end) + tail); s != "" && s[0] != ','
  {
    if items == [] {
      assert Spelt(items, end) + tail == end + ("}" + tail);
      LeadIsTrimmed(end, "}" + tail);
    } else {
      var item, next := items[0], Spelt(items[1..], end) + tail;
      assert Spelt(items, end) + tail == item.Text() + next;
      ItemThen(item, next);
      hide Item.Named;
      LeadIsTrimmed(item.lead, item.Named(item.Valued(item.End() + next)));
      KeyIsRead(item, item.Valued(item.End() + next));
    }
  }

  lemma EndIsSkipped(item: Item, next: string, labels: map<string, string>)
    requires item.Fits() && (!item.comma ==> TrimStart(next) == "" || TrimStart(next)[0] != ',')
    ensures LabelsSpec(SkipComma(TrimStart(item.End() + next)), labels) == LabelsSpec(next, labels)
  {
    if item.comma {
      assert item.End() + next == item.behind + ("," + next);
      LeadIsTrimmed(item.behind, "," + next);
      assert ("," + next)[1..] == next;
    } else {
      assert item.End() + next == item.behind + next;
      LeadIsTrimmed(item.behind, next);
      TrimmedFirst(next, labels);
    }
  }

  lemma ItemIsRead(item: Item, next: string, labels: map<string, string>)
    requires item.Fits() && (!item.comma ==> TrimStart(next) == "" || TrimStart(next)[0] != ',')
    ensures LabelsSpec(item.Text() + next, labels) == LabelsSpec(next, labels[item.key := Value(item.pieces)])
  {
    ItemThen(item, next);
    hide Item.Text;
    hide Item.Named;
    hide Item.Valued;
    hide Item.End;
    hide LabelsSpec;
    hide QuotedSpec;
    hide Trim;
    hide Before;
    hide Value;
    var after := item.End() + next;
    var value := item.Valued(after);
    var rest := item.Named(value);
    LeadIsTrimmed(item.lead, rest);
    KeyIsRead(item, value);
    ValueIsRead(item, after);
    EndIsSkipped(item, next, labels[item.key := Value(item.pieces)]);
    LabelStep(item.Text() + next, rest, item.key, |item.key| + |item.gap|, value, Value(item.pieces), after, labels);
  }

  lemma LabelStep(
      s: string, rest: string, key: string, eq: nat, text: string, value: string, after: string,
      labels: map<string, string>)
    requires TrimStart(s) == rest && rest != "" && rest[0] != '}' && ValidLabel(key)
    requires eq == Before(rest, '=') < |rest| && Trim(rest[..eq]) == key && rest[eq + 1..] == text
    requires TrimStart(text) != "" && TrimStart(text)[0] == '"'
    requires QuotedSpec(TrimStart(text)[1..], "") == Ok((value, after))
    ensures LabelsSpec(s, labels) == LabelsSpec(SkipComma(TrimStart(after)), labels[key := value])
  {
    hide Trim;
    hide ValidLabel;
    hide QuotedSpec;
  }

  /** However they are spelt, labels mean what they say. */
  lemma {:induction false} LabelsMean(items: seq<Item>, end: string, tail: string, labels: map<string, string>)
    requires ItemsFit(items) && AllSpace(end)
    ensures LabelsSpec(Spelt(items, end) + tail, labels) == Ok((Meaning(items, labels), tail))
  {
    var s := Spelt(items, end) + tail;
    if items == [] {
      assert s == end + ("}" + tail);
      LeadIsTrimmed(end, "}" + tail);
      assert ("}" + tail)[1..] == tail;
    } else {
      var next := Spelt(items[1..], end) + tail;
      assert s == items[0].Text() + next;
      NoCommaNext(items[1..], end, tail);
      ItemIsRead(items[0], next, labels);
      LabelsMean(items[1..], end, tail, labels[items[0].key := Value(items[0].pieces)]);
    }
  }

  lemma LabelsUnfold(s: string, labels: map<string, string>)
    requires LabelsSpec(s, labels).Ok? && TrimStart(s) != "" && TrimStart(s)[0] != '}'
    ensures var rest := TrimStart(s);
            var eq := Before(rest, '=');
            && 0 < eq < |rest| && ValidLabel(Trim(rest[..eq]))
            && var quoted := TrimStart(rest[eq + 1..]);
               && quoted != "" && quoted[0] == '"' && QuotedSpec(quoted[1..], "").Ok?
               && var (value, after) := QuotedSpec(quoted[1..], "").value;
                  LabelsSpec(s, labels) == LabelsSpec(SkipComma(TrimStart(after)), labels[Trim(rest[..eq]) := value])
  {
    assert !ValidLabel("");
    hide QuotedSpec;
    hide ValidLabel;
    assert TrimStart(s)[..0] == "" && Trim("") == "";
  }

  lemma EndIsSpelt(after: string) returns (behind: string, comma: bool)
    ensures AllSpace(behind) && after == behind + (if comma then "," else "") + SkipComma(TrimStart(after))
  {
    behind := TrimSplits(after);
    comma := TrimStart(after) != "" && TrimStart(after)[0] == ',';
  }

  /** The label that stands first in `s`, and what follows it. */
  lemma FirstItem(s: string, labels: map<string, string>) returns (item: Item, next: string)
    requires LabelsSpec(s, labels).Ok? && TrimStart(s) != "" && TrimStart(s)[0] != '}'
    ensures item.Fits() && s == item.Text() + next && |next| < |s|
    ensures LabelsSpec(s, labels) == LabelsSpec(next, labels[item.key := Value(item.pieces)])
  {
    LabelsUnfold(s, labels);
    hide LabelsSpec;
    hide ValidLabel;
    hide AllSpace;
    var rest := TrimStart(s);
    var lead := TrimSplits(s);
    var eq := Before(rest, '=');
    var gap := KeyIsSpelt(rest, eq);
    var text := rest[eq + 1..];
    var before := TrimSplits(text);
    var pieces := QuotedIsSpelt(TrimStart(text)[1..], "");
    var (value, after) := QuotedSpec(TrimStart(text)[1..], "").value;
    assert value == Value(pieces);
    var behind, comma := EndIsSpelt(after);
    next := SkipComma(TrimStart(after));
    item := Item(lead, Trim(rest[..eq]), gap, before, pieces, behind, comma);
    hide TrimStart;
    hide Trim;
    hide QuotedSpec;
    hide Before;
    hide SkipComma;
    AsSpelt(s, rest, text, after, item, next);
    ItemThen(item, next);
  }

  lemma KeyIsSpelt(rest: string, eq: nat) returns (gap: string)
    requires eq == Before(rest, '=') < |rest| && rest[0] != '=' && !IsSpace(rest[0])
    ensures AllSpace(gap) && rest == Trim(rest[..eq]) + gap + "=" + rest[eq + 1..]
  {
    gap := TrimEndSplits(rest[..eq]);
    assert TrimStart(rest[..eq]) == rest[..eq];
    assert rest == rest[..eq] + "=" + rest[eq + 1..];
  }

  lemma AsSpelt(s: string, rest: string, text: string, after: string, item: Item, next: string)
    requires s == item.lead + rest && rest == item.key + item.gap + "=" + text
    requires text == item.before + TrimStart(text) && TrimStart(text) != "" && TrimStart(text)[0] == '"'
    requires TrimStart(text)[1..] == Quoted(item.pieces) + "\"" + after && after == item.End() + next
    ensures s == item.lead + item.Named(item.Valued(item.End() + next))
  {
    assert TrimStart(text) == "\"" + TrimStart(text)[1..];
    assert item.before + ("\"" + (Quoted(item.pieces) + "\"" + after))
        == item.before + "\"" + Quoted(item.pieces) + "\"" + after;
  }

  /** What is read as labels is the spelling of such labels, and they mean what was read. */
  lemma {:induction false} LabelsAreSpelt(s: string, labels: map<string, string>)
      returns (items: seq<Item>, end: string)
    requires LabelsSpec(s, labels).Ok?
    ensures ItemsFit(items) && AllSpace(end)
    ensures var (read, tail) := LabelsSpec(s, labels).value;
            s == Spelt(items, end) + tail && read == Meaning(items, labels)
    decreases |s|
  {
    var (read, tail) := LabelsSpec(s, labels).value;
    items, end := [], "";
    if TrimStart(s) != "" && TrimStart(s)[0] == '}' {
      end := TrimSplits(s);
      assert TrimStart(s) == "}" + tail;
      assert s == end + "}" + tail;
    } else {
      var item, next := FirstItem(s, labels);
      var more;
      more, end := LabelsAreSpelt(next, labels[item.key := Value(item.pieces)]);
      items := [item] + more;
      assert items[1..] == more;
      assert item.Text() + (Spelt(more, end) + tail) == item.Text() + Spelt(more, end) + tail;
    }
  }

  // ------------------------------------------------------------ sample lines

  /** A name, labels in braces or none, white space, a word for the value, and behind more
      white space anything at all, such as a timestamp. */
  datatype Sentence = Sentence(
    name: string, braces: Option<(seq<Item>, string)>, gap: string, token: string, rest: string)
  {
    predicate Fits() {
      && ValidName(name) && AllSpace(gap) && IsToken(token) && (rest != "" ==> IsSpace(rest[0]))
      && match braces
         case None => gap != ""
         case Some((items, end)) => ItemsFit(items) && AllSpace(end)
    }

    function Tail(): string { gap + (token + rest) }

    function Text(): string {
      match braces
      case None => name + Tail()
      case Some((items, end)) => name + ("{" + (Spelt(items, end) + Tail()))
    }

    function Labels(): map<string, string> {
      if braces.Some? then Meaning(braces.value.0, map[]) else map[]
    }
  }

  /** The line says that this name, with these labels, has this value. */
  ghost predicate Says<V(!new)>(
      codec: Codec<V>, line: string, name: string, labels: map<string, string>, value: V)
  {
    exists s: Sentence ::
      && s.Fits() && s.Text() == line
      && s.name == name && s.Labels() == labels && codec.read(s.token) == Some(value)
  }

  lemma NameIsRead(name: string, rest: string)
    requires ValidName(name) && rest != "" && (rest[0] == '{' || IsSpace(rest[0]))
    ensures NameEnd(name + rest) == |name| && (name + rest)[..|name|] == name && (name + rest)[|name|..] == rest
  {
    var line, n := name + rest, NameEnd(name + rest);
    assert line[|name|] == rest[0];
    forall k | 0 <= k < |name| ensures line[k] != '{' && !IsSpace(line[k]) {
      assert line[k] == name[k] && IsNameChar(name[k]);
    }
  }

  lemma WordIsRead(gap: string, token: string, rest: string)
    requires AllSpace(gap) && IsToken(token) && (rest != "" ==> IsSpace(rest[0]))
    ensures FirstWord(gap + (token + rest)) == Some(token)
  {
    LeadIsTrimmed(gap, token + rest);
    assert (token + rest)[0] == token[0];
    WordLengthOf(token, rest);
    assert (token + rest)[..|token|] == token;
  }

  lemma SentenceIsRead<V(!new)>(codec: Codec<V>, s: Sentence)
    requires s.Fits() && codec.read(s.token).Some?
    ensures SampleSpec(codec, s.Text()) == Ok((s.name, s.Labels(), codec.read(s.token).value))
  {
    WordIsRead(s.gap, s.token, s.rest);
    match s.braces
    case None =>
      NameIsRead(s.name, s.Tail());
    case Some((items, end)) =>
      var rest := "{" + (Spelt(items, end) + s.Tail());
      NameIsRead(s.name, rest);
      assert rest[1..] == Spelt(items, end) + s.Tail() && s.Text() == s.name + rest;
      assert s.Text()[|s.name| + 1..] == rest[1..];
      LabelsMean(items, end, s.Tail(), map[]);
  }

  lemma WordIsSpelt(s: string) returns (gap: string, token: string, rest: string)
    requires FirstWord(s).Some?
    ensures s == gap + (token + rest) && AllSpace(gap) && IsToken(token) && (rest != "" ==> IsSpace(rest[0]))
    ensures FirstWord(s) == Some(token)
  {
    gap := TrimSplits(s);
    var t := TrimStart(s);
    token, rest := t[..WordLength(t)], t[WordLength(t)..];
    assert t == token + rest;
  }

  lemma NothingCut(gap: string, token: string, rest: string, s: string)
    requires s == gap + (token + rest) && s != "" && IsSpace(s[0]) && IsToken(token)
    ensures gap != ""
  {
    assert (token + rest)[0] == token[0];
  }

  lemma SampleIsSpelt<V(!new)>(codec: Codec<V>, line: string) returns (s: Sentence)
    requires SampleSpec(codec, line).Ok?
    ensures s.Fits() && s.Text() == line
    ensures codec.read(s.token).Some?
    ensures SampleSpec(codec, line) == Ok((s.name, s.Labels(), codec.read(s.token).value))
  {
    hide LabelsSpec;
    hide FirstWord;
    hide AllSpace;
    hide IsToken;
    hide Spelt;
    hide Meaning;
    var n := NameEnd(line);
    var name, after := line[..n], line[n..];
    assert line == name + after;
    if n < |line| && line[n] == '{' {
      assert after == "{" + line[n + 1..];
      var items, end := LabelsAreSpelt(line[n + 1..], map[]);
      var gap, token, rest := WordIsSpelt(LabelsSpec(line[n + 1..], map[]).value.1);
      s := Sentence(name, Some((items, end)), gap, token, rest);
    } else {
      var gap, token, rest := WordIsSpelt(after);
      NoWord(after);
      assert after[0] == line[n];
      NothingCut(gap, token, rest, after);
      s := Sentence(name, None, gap, token, rest);
    }
  }

  lemma NoWord(s: string)
    ensures FirstWord(s).Some? ==> s != ""
  {
  }

  /** A line is read as a sample if and only if it says one, and as the one it says. */
  lemma ReadExactlyWhatIsSaid<V(!new)>(
      codec: Codec<V>, line: string, name: string, labels: map<string, string>, value: V)
    ensures SampleSpec(codec, line) == Ok((name, labels, value)) <==> Says(codec, line, name, labels, value)
  {
    hide SampleSpec;
    if SampleSpec(codec, line) == Ok((name, labels, value)) {
      var s := SampleIsSpelt(codec, line);
      assert s.Text() == line;
    }
    if Says(codec, line, name, labels, value) {
      var s: Sentence :| s.Fits() && s.Text() == line && s.name == name && s.Labels() == labels
                         && codec.read(s.token) == Some(value);
      SentenceIsRead(codec, s);
    }
  }
}
