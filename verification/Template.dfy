/** Templates: text with placeholders for options and credentials, and the encoding of
    a value that goes into a URL. */
module Template {
  import opened Wrappers
  import opened Text
  import Lists

  datatype Field = Token | Username | Password

  datatype Part = Literal(text: string) | Option(key: string) | Credential(field: Field)

  datatype Error = Unclosed | Stray | BadOptionName | UnknownPlaceholder

  /** Where `s` first holds that character twice in a row, or its length. */
  function Twice(s: string, c: char): (n: nat)
    ensures n <= |s|
    ensures n < |s| ==> n + 2 <= |s| && s[n] == s[n + 1] == c
    ensures forall k :: 0 <= k < n && k + 1 < |s| ==> !(s[k] == s[k + 1] == c)
  {
    if |s| < 2 then |s| else if s[0] == s[1] == c then 0 else 1 + Twice(s[1..], c)
  }

  predicate IsKey(key: string) {
    key != "" && forall k :: 0 <= k < |key| ==> IsAlnum(key[k]) || key[k] == '_'
  }

  function FieldName(field: Field): string {
    match field
    case Token => "credential.token"
    case Username => "credential.username"
    case Password => "credential.password"
  }

  function PlaceholderOf(inner: string): Result<Part, Error> {
    if "option." <= inner then
      if IsKey(inner[7..]) then Ok(Option(inner[7..])) else Err(BadOptionName)
    else if inner == FieldName(Token) then Ok(Credential(Token))
    else if inner == FieldName(Username) then Ok(Credential(Username))
    else if inner == FieldName(Password) then Ok(Credential(Password))
    else Err(UnknownPlaceholder)
  }

  function Before(parts: seq<Part>, rest: Result<seq<Part>, Error>): Result<seq<Part>, Error> {
    match rest
    case Ok(more) => Ok(parts + more)
    case Err(error) => Err(error)
  }

  function TextPart(text: string): seq<Part> {
    if text == "" then [] else [Literal(text)]
  }

  function Parsed(s: string): Result<seq<Part>, Error>
    decreases |s|
  {
    var start := Twice(s, '{');
    if start == |s| then
      if Twice(s, '}') < |s| then Err(Stray) else Ok(TextPart(s))
    else
      var after := s[start + 2..];
      var end := Twice(after, '}');
      if end == |after| then Err(Unclosed)
      else
        match PlaceholderOf(Trim(after[..end]))
        case Err(error) => Err(error)
        case Ok(part) => Before(TextPart(s[..start]) + [part], Parsed(after[end + 2..]))
  }

  method Parse(raw: string) returns (r: Result<seq<Part>, Error>)
    ensures r == Parsed(raw)
  {
    hide PlaceholderOf;
    hide Trim;
    hide Parsed;
    var parts: seq<Part> := [];
    var rest := raw;
    BeforeBefore([], [], Parsed(raw));
    while Twice(rest, '{') < |rest|
      invariant Parsed(raw) == Before(parts, Parsed(rest))
      decreases |rest|
    {
      ParsedUnfolds(rest);
      var start := Twice(rest, '{');
      var after := rest[start + 2..];
      var end := Twice(after, '}');
      if end == |after| {
        return Err(Unclosed);
      }
      var part := PlaceholderOf(Trim(after[..end]));
      if part.Err? {
        return Err(part.error);
      }
      BeforeBefore(parts, TextPart(rest[..start]) + [part.value], Parsed(after[end + 2..]));
      PartsPushed(parts, rest[..start], part.value);
      if start > 0 {
        parts := parts + [Literal(rest[..start])];
      }
      parts := parts + [part.value];
      rest := after[end + 2..];
    }
    ParsedUnfolds(rest);
    if Twice(rest, '}') < |rest| {
      return Err(Stray);
    }
    ghost var whole := parts + TextPart(rest);
    if rest != "" {
      parts := parts + [Literal(rest)];
    }
    assert parts == whole;
    return Ok(parts);
  }

  lemma PartsPushed(parts: seq<Part>, text: string, part: Part)
    ensures (if text == "" then parts else parts + [Literal(text)]) + [part] == parts + (TextPart(text) + [part])
  {
  }

  lemma BeforeBefore(a: seq<Part>, b: seq<Part>, rest: Result<seq<Part>, Error>)
    ensures Before(a, Before(b, rest)) == Before(a + b, rest)
    ensures Before([], rest) == rest
  {
    if rest.Ok? {
      assert a + (b + rest.value) == a + b + rest.value;
      assert [] + rest.value == rest.value;
    }
  }

  // ------------------------------------------------------------ templates as they are written

  predicate IsPlaceholder(part: Part) {
    match part
    case Literal(_) => false
    case Option(key) => IsKey(key)
    case Credential(_) => true
  }

  function Inner(part: Part): string {
    match part
    case Literal(text) => text
    case Option(key) => "option." + key
    case Credential(field) => FieldName(field)
  }

  function Printed(parts: seq<Part>): string {
    if parts == [] then ""
    else if parts[0].Literal? then parts[0].text + Printed(parts[1..])
    else Opened(Inner(parts[0]), Printed(parts[1..]))
  }

  function Opened(inner: string, rest: string): string {
    "{{" + (inner + ("}}" + rest))
  }

  /** Text that opens no placeholder, and that leaves a placeholder after it intact. */
  predicate TextFits(text: string, last: bool) {
    && text != "" && Twice(text, '{') == |text|
    && (if last then Twice(text, '}') == |text| else text[|text| - 1] != '{')
  }

  /** The templates there are: placeholders, and text between them; only the last text
      is free of closing braces. */
  predicate WellFormed(parts: seq<Part>) {
    parts == [] ||
    if parts[0].Literal? then
      && TextFits(parts[0].text, |parts| == 1)
      && (|parts| > 1 ==> IsPlaceholder(parts[1])) && WellFormed(parts[1..])
    else IsPlaceholder(parts[0]) && WellFormed(parts[1..])
  }

  lemma PlaceholderIsPlaceholder(inner: string)
    ensures PlaceholderOf(inner).Ok? ==> IsPlaceholder(PlaceholderOf(inner).value)
  {
  }

  lemma {:induction false} TwicePrefix(s: string, c: char, n: nat)
    requires n <= Twice(s, c)
    ensures Twice(s[..n], c) == n
    decreases n
  {
    if n > 1 {
      assert s[..n][1..] == s[1..][..n - 1];
      TwicePrefix(s[1..], c, n - 1);
    }
  }

  lemma OpeningFits(s: string)
    requires 0 < Twice(s, '{') < |s|
    ensures TextFits(s[..Twice(s, '{')], false)
  {
    TwicePrefix(s, '{', Twice(s, '{'));
  }

  /** What a template gives, from its first placeholder on. */
  lemma ParsedUnfolds(s: string)
    ensures var start := Twice(s, '{');
            if start == |s| then Parsed(s) == if Twice(s, '}') < |s| then Err(Stray) else Ok(TextPart(s))
            else
              var after := s[start + 2..];
              var end := Twice(after, '}');
              if end == |after| then Parsed(s) == Err(Unclosed)
              else
                var part := PlaceholderOf(Trim(after[..end]));
                Parsed(s) == if part.Err? then Err(part.error)
                             else Before(TextPart(s[..start]) + [part.value], Parsed(after[end + 2..]))
  {
    hide Twice;
    hide PlaceholderOf;
    hide Trim;
  }

  /** Everything that parses is of that form. */
  lemma {:induction false} ParsedIsWellFormed(s: string)
    ensures Parsed(s).Ok? ==> WellFormed(Parsed(s).value)
    decreases |s|
  {
    hide PlaceholderOf;
    hide IsPlaceholder;
    hide Trim;
    hide Parsed;
    hide WellFormed;
    ParsedUnfolds(s);
    var start := Twice(s, '{');
    if start == |s| {
      TextIsWellFormed(s);
    } else {
      var after := s[start + 2..];
      var end := Twice(after, '}');
      if end < |after| && PlaceholderOf(Trim(after[..end])).Ok? {
        var part := PlaceholderOf(Trim(after[..end])).value;
        ParsedIsWellFormed(after[end + 2..]);
        PlaceholderIsPlaceholder(Trim(after[..end]));
        if Parsed(after[end + 2..]).Ok? {
          if start > 0 {
            OpeningFits(s);
          }
          OneMorePart(s[..start], part, Parsed(after[end + 2..]).value);
        }
      }
    }
  }

  lemma TextIsWellFormed(s: string)
    requires Twice(s, '{') == |s|
    ensures Twice(s, '}') == |s| ==> WellFormed(TextPart(s))
  {
  }

  lemma OneMorePart(text: string, part: Part, rest: seq<Part>)
    requires (text == "" || TextFits(text, false)) && IsPlaceholder(part) && WellFormed(rest)
    ensures WellFormed(TextPart(text) + [part] + rest)
  {
    hide TextFits;
    var tail := [part] + rest;
    assert tail[1..] == rest && !part.Literal?;
    assert WellFormed(tail);
    if text == "" {
      assert TextPart(text) + [part] + rest == tail;
    } else {
      assert TextPart(text) + [part] + rest == [Literal(text)] + tail;
      assert ([Literal(text)] + tail)[1..] == tail;
    }
  }

  lemma {:induction false} TwiceConcat(a: string, c: char, rest: string)
    requires Twice(a, c) == |a| && (a == "" || a[|a| - 1] != c) && |rest| >= 2 && rest[0] == rest[1] == c
    ensures Twice(a + rest, c) == |a|
  {
    if a == "" {
      assert a + rest == rest;
    } else {
      assert (a + rest)[1..] == a[1..] + rest;
      if |a| > 1 {
        assert (a + rest)[1] == a[1];
      }
      TwiceConcat(a[1..], c, rest);
    }
  }

  lemma {:induction false} NoneTwice(s: string, c: char)
    requires forall k :: 0 <= k < |s| ==> s[k] != c
    ensures Twice(s, c) == |s|
  {
    if |s| >= 2 {
      NoneTwice(s[1..], c);
    }
  }

  lemma InnerReads(part: Part)
    requires IsPlaceholder(part)
    ensures PlaceholderOf(Inner(part)) == Ok(part) && Trimmed(Inner(part)) && Inner(part) != ""
    ensures forall k :: 0 <= k < |Inner(part)| ==> Inner(part)[k] != '}'
  {
    match part
    case Option(key) =>
      var inner := "option." + key;
      assert inner[..7] == "option." && inner[7..] == key;
      assert inner[|inner| - 1] == key[|key| - 1];
    case Credential(field) =>
      var inner := FieldName(field);
      assert inner[0] == 'c';
  }

  /** Where the reader finds things. */
  ghost predicate Splits(s: string, text: string, inner: string, rest: string) {
    var start := Twice(s, '{');
    && start < |s| && s[..start] == text
    && var after := s[start + 2..];
       var end := Twice(after, '}');
       end < |after| && after[..end] == inner && after[end + 2..] == rest
  }

  lemma InnerSplits(inner: string, rest: string)
    requires inner != "" && forall k :: 0 <= k < |inner| ==> inner[k] != '}'
    ensures var after := inner + ("}}" + rest);
            Twice(after, '}') == |inner| && |inner| + 2 <= |after| && after[..|inner|] == inner
              && after[|inner| + 2..] == rest
  {
    NoneTwice(inner, '}');
    TwiceConcat(inner, '}', "}}" + rest);
  }

  lemma OpenedStarts(inner: string, rest: string)
    ensures var s := Opened(inner, rest);
            |s| >= 2 && s[0] == s[1] == '{' && s[2..] == inner + ("}}" + rest)
  {
  }

  lemma Skipped(text: string, tail: string)
    requires |tail| >= 2
    ensures var s := text + tail;
            |text| + 2 <= |s| && s[..|text|] == text && s[|text| + 2..] == tail[2..]
  {
  }

  lemma OpeningSplits(text: string, inner: string, rest: string)
    requires text == "" || TextFits(text, false)
    requires inner != "" && forall k :: 0 <= k < |inner| ==> inner[k] != '}'
    ensures Splits(text + Opened(inner, rest), text, inner, rest)
  {
    hide *;
    var tail, after := Opened(inner, rest), inner + ("}}" + rest);
    InnerSplits(inner, rest);
    OpenedStarts(inner, rest);
    OpeningFound(text, tail);
    Skipped(text, tail);
    SplitsWhen(text + tail, text, after, inner, rest);
  }

  lemma SplitsWhen(s: string, text: string, after: string, inner: string, rest: string)
    requires Twice(s, '{') == |text| < |s| && s[..|text|] == text && |text| + 2 <= |s| && s[|text| + 2..] == after
    requires Twice(after, '}') == |inner| < |after| && after[..|inner|] == inner
    requires |inner| + 2 <= |after| && after[|inner| + 2..] == rest
    ensures Splits(s, text, inner, rest)
  {
  }

  lemma OpeningFound(text: string, tail: string)
    requires text == "" || TextFits(text, false)
    requires |tail| >= 2 && tail[0] == tail[1] == '{'
    ensures Twice(text + tail, '{') == |text|
  {
    TwiceConcat(text, '{', tail);
  }

  lemma SplitReads(s: string, text: string, inner: string, rest: string, part: Part)
    requires Splits(s, text, inner, rest) && PlaceholderOf(Trim(inner)) == Ok(part)
    ensures Parsed(s) == Before(TextPart(text) + [part], Parsed(rest))
  {
    hide PlaceholderOf;
    hide Trim;
    hide Parsed;
    ParsedUnfolds(s);
  }

  /** Text, then a placeholder, then anything: read one after the other. */
  lemma OpeningReads(text: string, part: Part, rest: string)
    requires IsPlaceholder(part) && (text == "" || TextFits(text, false))
    ensures Parsed(text + Opened(Inner(part), rest)) == Before(TextPart(text) + [part], Parsed(rest))
  {
    InnerReads(part);
    TrimmedStays(Inner(part));
    hide *;
    OpeningSplits(text, Inner(part), rest);
    SplitReads(text + Opened(Inner(part), rest), text, Inner(part), rest, part);
  }

  /** A template written out is read back as itself. */
  lemma {:induction false} PrintedReads(parts: seq<Part>)
    requires WellFormed(parts)
    ensures Parsed(Printed(parts)) == Ok(parts)
    decreases |parts|
  {
    hide Inner;
    hide Opened;
    hide IsPlaceholder;
    hide Parsed;
    hide TextFits;
    if parts == [] {
      ParsedUnfolds("");
    } else if |parts| == 1 && parts[0].Literal? {
      assert parts == [Literal(parts[0].text)];
      assert parts[0].text + "" == parts[0].text;
      LastTextReads(parts[0].text);
    } else if parts[0].Literal? {
      var text, part, rest := parts[0].text, parts[1], parts[2..];
      assert parts[1..][1..] == rest && parts[1..][0] == part;
      NotText(part);
      assert Printed(parts[1..]) == Opened(Inner(part), Printed(rest));
      PrintedReads(rest);
      OpeningReads(text, part, Printed(rest));
      TextIsPart(text, part);
      assert Printed(parts) == text + Printed(parts[1..]);
      assert text != "" by { FitsIsText(text); }
      assert parts == [Literal(text), part] + rest;
    } else {
      PrintedReads(parts[1..]);
      OpeningReads("", parts[0], Printed(parts[1..]));
      NothingFirst(Opened(Inner(parts[0]), Printed(parts[1..])));
      TextIsPart("", parts[0]);
      assert parts == [parts[0]] + parts[1..];
    }
  }

  lemma NothingFirst(s: string)
    ensures "" + s == s
  {
  }

  lemma TextIsPart(text: string, part: Part)
    ensures TextPart(text) + [part] == if text == "" then [part] else [Literal(text), part]
  {
  }

  lemma LastTextReads(text: string)
    requires TextFits(text, true)
    ensures Parsed(text) == Ok([Literal(text)])
  {
    hide Parsed;
    ParsedUnfolds(text);
  }

  lemma FitsIsText(text: string)
    requires TextFits(text, false)
    ensures text != ""
  {
  }

  lemma NotText(part: Part)
    requires IsPlaceholder(part)
    ensures !part.Literal?
  {
  }

  /** Whatever string is accepted, writing its parts in the canonical form and reading
      them again gives the same template. */
  lemma ReparseIsStable(s: string)
    requires Parsed(s).Ok?
    ensures Parsed(Printed(Parsed(s).value)) == Parsed(s)
  {
    hide *;
    ParsedIsWellFormed(s);
    PrintedReads(Parsed(s).value);
  }

  /** What follows the last placeholder; None if one of them is unclosed or unknown. */
  function Remainder(s: string): Option<string>
    decreases |s|
  {
    var start := Twice(s, '{');
    if start == |s| then Wrappers.Some(s)
    else
      var after := s[start + 2..];
      var end := Twice(after, '}');
      if end == |after| || PlaceholderOf(Trim(after[..end])).Err? then Wrappers.None
      else Remainder(after[end + 2..])
  }

  lemma RemainderUnfolds(s: string)
    ensures var start := Twice(s, '{');
            if start == |s| then Remainder(s) == Wrappers.Some(s)
            else
              var after := s[start + 2..];
              var end := Twice(after, '}');
              if end == |after| || PlaceholderOf(Trim(after[..end])).Err? then Remainder(s) == Wrappers.None
              else Remainder(s) == Remainder(after[end + 2..])
  {
    hide Twice;
    hide PlaceholderOf;
    hide Trim;
  }

  ghost predicate Follows(tail: string, s: string) {
    tail == s || (|tail| + 2 <= |s| && s[|s| - |tail|..] == tail && s[|s| - |tail| - 2..|s| - |tail|] == "}}")
  }

  lemma SliceOfSlice(s: string, k: nat, i: nat, j: nat)
    requires k <= |s| && i <= j <= |s| - k
    ensures s[k..][i..j] == s[k + i..k + j] && s[k..][j..] == s[k + j..]
  {
  }

  lemma FollowsFurther(tail: string, s: string, start: nat, end: nat)
    requires start + 2 <= |s| && end + 2 <= |s[start + 2..]| && s[start + 2..][end..end + 2] == "}}"
    requires Follows(tail, s[start + 2..][end + 2..])
    ensures Follows(tail, s)
  {
    var k := start + 2 + end + 2;
    SliceOfSlice(s, start + 2, end, end + 2);
    if tail != s[k..] {
      var n := |s| - |tail|;
      SliceOfSlice(s, k, n - k - 2, n - k);
    }
  }

  /** It opens nothing, and is the whole string or comes after closing braces. */
  lemma {:induction false} RemainderEndsIt(s: string)
    requires Remainder(s).Some?
    ensures Follows(Remainder(s).value, s) && Twice(Remainder(s).value, '{') == |Remainder(s).value|
    decreases |s|
  {
    hide *;
    RemainderUnfolds(s);
    var start := Twice(s, '{');
    if start == |s| {
      FollowsItself(s);
    } else {
      var after := s[start + 2..];
      var end := Twice(after, '}');
      TwiceIsThere(after, '}');
      RemainderEndsIt(after[end + 2..]);
      FollowsFurther(Remainder(s).value, s, start, end);
    }
  }

  lemma TwiceIsThere(s: string, c: char)
    requires Twice(s, c) < |s|
    ensures s[Twice(s, c)..Twice(s, c) + 2] == [c, c]
  {
  }

  lemma FollowsItself(s: string)
    ensures Follows(s, s)
  {
  }

  lemma NeverStray(inner: string)
    ensures PlaceholderOf(inner) != Err(Stray)
  {
  }

  /** A template whose placeholders are all closed and known is refused exactly when
      closing braces follow the last of them; before one they are text like any other. */
  lemma {:induction false} RefusedExactlyWhen(s: string)
    ensures Parsed(s) == Err(Stray) <==> Remainder(s).Some? && Twice(Remainder(s).value, '}') < |Remainder(s).value|
    ensures Parsed(s).Ok? <==> Remainder(s).Some? && Twice(Remainder(s).value, '}') == |Remainder(s).value|
    decreases |s|
  {
    hide *;
    ParsedUnfolds(s);
    RemainderUnfolds(s);
    var start := Twice(s, '{');
    if start < |s| {
      var after := s[start + 2..];
      var end := Twice(after, '}');
      if end < |after| {
        var part := PlaceholderOf(Trim(after[..end]));
        NeverStray(Trim(after[..end]));
        RefusedExactlyWhen(after[end + 2..]);
        if part.Ok? {
          BeforeKeeps(TextPart(s[..start]) + [part.value], Parsed(after[end + 2..]));
        }
      }
    }
  }

  lemma BeforeKeeps(parts: seq<Part>, rest: Result<seq<Part>, Error>)
    ensures Before(parts, rest).Ok? <==> rest.Ok?
    ensures Before(parts, rest) == Err(Stray) <==> rest == Err(Stray)
  {
  }

  // ------------------------------------------------------------ values in a URL

  function Unreserved(b: byte): bool {
    48 <= b <= 57 || 65 <= b <= 90 || 97 <= b <= 122 || b == 45 || b == 46 || b == 95 || b == 126
  }

  function UpperHex(n: nat): (c: char)
    requires n < 16
    ensures '0' <= c <= '9' || 'A' <= c <= 'F'
  {
    if n < 10 then '0' + n as char else 'A' + (n - 10) as char
  }

  function HexDigit(c: char): Option<nat> {
    if '0' <= c <= '9' then Some((c - '0') as int)
    else if 'A' <= c <= 'F' then Some((c - 'A') as int + 10)
    else None
  }

  function EncodedByte(b: byte): string {
    if Unreserved(b) then [b as int as char] else ['%', UpperHex(b as int / 16), UpperHex(b as int % 16)]
  }

  function Encoded(value: Bytes): string {
    if value == [] then "" else EncodedByte(value[0]) + Encoded(value[1..])
  }

  /** The reader's side: a percent sign and two digits, or a character as it is. */
  function Decoded(s: string): Option<Bytes> {
    if s == "" then Some([])
    else if s[0] == '%' then
      if |s| < 3 || HexDigit(s[1]).None? || HexDigit(s[2]).None? then None
      else
        var rest := Decoded(s[3..]);
        if rest.None? then None else Some([(16 * HexDigit(s[1]).value + HexDigit(s[2]).value) as byte] + rest.value)
    else if s[0] >= '\U{100}' then None
    else
      var rest := Decoded(s[1..]);
      if rest.None? then None else Some([s[0] as int as byte] + rest.value)
  }

  /** Unreserved characters and percent triplets, nothing else. */
  predicate IsSafe(s: string) {
    s == ""
    || (s[0] < '\U{100}' && Unreserved(s[0] as int as byte) && IsSafe(s[1..]))
    || (|s| >= 3 && s[0] == '%' && HexDigit(s[1]).Some? && HexDigit(s[2]).Some? && IsSafe(s[3..]))
  }

  lemma PlainByteReads(b: byte, rest: string)
    requires Unreserved(b)
    ensures var s := EncodedByte(b) + rest;
            && (IsSafe(rest) ==> IsSafe(s))
            && Decoded(s) == if Decoded(rest).None? then None else Some([b] + Decoded(rest).value)
  {
    var s := EncodedByte(b) + rest;
    assert s[1..] == rest && s[0] == b as int as char && s[0] != '%';
    hide Unreserved;
  }

  lemma HexReads(n: nat)
    requires n < 16
    ensures HexDigit(UpperHex(n)) == Some(n)
  {
  }

  lemma TripletReads(b: byte, rest: string)
    requires !Unreserved(b)
    ensures var s := EncodedByte(b) + rest;
            && (IsSafe(rest) ==> IsSafe(s))
            && Decoded(s) == if Decoded(rest).None? then None else Some([b] + Decoded(rest).value)
  {
    var s := EncodedByte(b) + rest;
    var high, low := b as int / 16, b as int % 16;
    assert s[3..] == rest && s[0] == '%' && s[1] == UpperHex(high) && s[2] == UpperHex(low);
    HexReads(high);
    HexReads(low);
    hide Unreserved;
    hide UpperHex;
    hide HexDigit;
    assert b as int == 16 * high + low;
  }

  /** A value put into a URL is made of unreserved characters and percent triplets, and
      is read back as it was; sections 2.1 and 2.3 of RFC 3986. */
  lemma {:induction false} EncodedReads(value: Bytes)
    ensures IsSafe(Encoded(value)) && Decoded(Encoded(value)) == Some(value)
  {
    if value != [] {
      EncodedReads(value[1..]);
      if Unreserved(value[0]) {
        PlainByteReads(value[0], Encoded(value[1..]));
      } else {
        TripletReads(value[0], Encoded(value[1..]));
      }
      assert value == [value[0]] + value[1..];
    }
  }

  // ------------------------------------------------------------ rendering

  datatype Secret = NoSecret | ApiToken(token: string) | UserPassword(username: string, password: string) | Another

  datatype Encoding = Url | Raw

  /** `utf8` is the encoding of strings. */
  datatype Context = Context(options: map<string, string>, secret: Secret, utf8: string -> Bytes)

  function SecretValue(secret: Secret, field: Field): Result<string, Field> {
    match (secret, field)
    case (ApiToken(token), Token) => Ok(token)
    case (UserPassword(username, _), Username) => Ok(username)
    case (UserPassword(_, password), Password) => Ok(password)
    case _ => Err(field)
  }

  function Inserted(context: Context, encoding: Encoding, value: string): string {
    match encoding
    case Url => Encoded(context.utf8(value))
    case Raw => value
  }

  function PartText(context: Context, encoding: Encoding, part: Part): Result<string, Field> {
    match part
    case Literal(text) => Ok(text)
    case Option(key) => Ok(Inserted(context, encoding, if key in context.options then context.options[key] else ""))
    case Credential(field) =>
      var value := SecretValue(context.secret, field);
      if value.Err? then Err(value.error) else Ok(Inserted(context, encoding, value.value))
  }

  function Rendered(context: Context, encoding: Encoding, parts: seq<Part>): Result<string, Field> {
    if parts == [] then Ok("")
    else
      var before := Rendered(context, encoding, parts[..|parts| - 1]);
      var last := PartText(context, encoding, parts[|parts| - 1]);
      if before.Err? then before else if last.Err? then last else Ok(before.value + last.value)
  }

  lemma {:induction false} FailsForGood(context: Context, encoding: Encoding, parts: seq<Part>, i: nat)
    requires i <= |parts| && Rendered(context, encoding, parts[..i]).Err?
    ensures Rendered(context, encoding, parts) == Rendered(context, encoding, parts[..i])
    decreases |parts| - i
  {
    if i == |parts| {
      assert parts[..i] == parts;
    } else {
      assert parts[..i + 1][..i] == parts[..i];
      FailsForGood(context, encoding, parts, i + 1);
    }
  }

  method Render(context: Context, encoding: Encoding, parts: seq<Part>) returns (r: Result<string, Field>)
    ensures r == Rendered(context, encoding, parts)
  {
    hide Inserted;
    hide SecretValue;
    var out := "";
    for i := 0 to |parts|
      invariant Rendered(context, encoding, parts[..i]) == Ok(out)
    {
      assert parts[..i + 1][..i] == parts[..i];
      match parts[i]
      case Literal(text) => out := out + text;
      case Option(key) =>
        out := out + Inserted(context, encoding, if key in context.options then context.options[key] else "");
      case Credential(field) =>
        var value := SecretValue(context.secret, field);
        if value.Err? {
          FailsForGood(context, encoding, parts, i + 1);
          return Err(value.error);
        }
        out := out + Inserted(context, encoding, value.value);
    }
    assert parts[..|parts|] == parts;
    return Ok(out);
  }

  predicate UsesCredential(parts: seq<Part>) {
    exists k :: 0 <= k < |parts| && parts[k].Credential?
  }

  /** The secret holds no such field. */
  predicate Lacks(secret: Secret, field: Field) {
    if field == Token then !secret.ApiToken? else !secret.UserPassword?
  }

  predicate MissesAt(context: Context, parts: seq<Part>, k: int) {
    0 <= k < |parts| && parts[k].Credential? && Lacks(context.secret, parts[k].field)
  }

  /** Rendering fails exactly when a cited field of the credential is missing, and tells
      the first that is. */
  lemma {:induction false} RenderFailsWhen(context: Context, encoding: Encoding, parts: seq<Part>)
    ensures Rendered(context, encoding, parts).Err? <==> exists k :: MissesAt(context, parts, k)
    ensures Rendered(context, encoding, parts).Err? ==>
      exists k :: MissesAt(context, parts, k) && parts[k].field == Rendered(context, encoding, parts).error
        && forall j | j < k :: !MissesAt(context, parts, j)
    decreases |parts|
  {
    hide Inserted;
    if parts != [] {
      var rest, n := parts[..|parts| - 1], |parts| - 1;
      RenderFailsWhen(context, encoding, rest);
      assert forall k :: k < n ==> (MissesAt(context, rest, k) <==> MissesAt(context, parts, k));
      assert forall k :: MissesAt(context, rest, k) ==> k < n;
      if Rendered(context, encoding, rest).Ok? && PartText(context, encoding, parts[n]).Err? {
        assert MissesAt(context, parts, n);
      }
    }
  }

  /** The text stands for the value: in a URL it is made of unreserved characters and
      percent triplets that decode to it, and elsewhere it is the value. */
  predicate Stands(context: Context, encoding: Encoding, value: string, text: string) {
    match encoding
    case Url => IsSafe(text) && Decoded(text) == Some(context.utf8(value))
    case Raw => text == value
  }

  predicate Writes(context: Context, encoding: Encoding, part: Part, text: string) {
    match part
    case Literal(literal) => text == literal
    case Option(key) =>
      if key in context.options then Stands(context, encoding, context.options[key], text)
      else Stands(context, encoding, "", text)
    case Credential(Token) => context.secret.ApiToken? && Stands(context, encoding, context.secret.token, text)
    case Credential(Username) =>
      context.secret.UserPassword? && Stands(context, encoding, context.secret.username, text)
    case Credential(Password) =>
      context.secret.UserPassword? && Stands(context, encoding, context.secret.password, text)
  }

  lemma InsertedStands(context: Context, encoding: Encoding, value: string)
    ensures Stands(context, encoding, value, Inserted(context, encoding, value))
  {
    EncodedReads(context.utf8(value));
    hide IsSafe;
    hide Decoded;
    hide Encoded;
  }

  lemma PartIsWritten(context: Context, encoding: Encoding, part: Part)
    requires PartText(context, encoding, part).Ok?
    ensures Writes(context, encoding, part, PartText(context, encoding, part).value)
  {
    hide Stands;
    hide Inserted;
    forall value ensures Stands(context, encoding, value, Inserted(context, encoding, value)) {
      InsertedStands(context, encoding, value);
    }
  }

  /** What is rendered is one text for each part, in order: the literal text as it is, an
      option or a field of the credential as what stands for it, and an option that is
      not set as what stands for nothing. */
  lemma {:induction false} RenderedIsItsParts(context: Context, encoding: Encoding, parts: seq<Part>)
      returns (texts: seq<string>)
    requires Rendered(context, encoding, parts).Ok?
    ensures |texts| == |parts| && Rendered(context, encoding, parts).value == Lists.Flat(texts)
    ensures forall k | 0 <= k < |parts| :: Writes(context, encoding, parts[k], texts[k])
    decreases |parts|
  {
    hide Writes;
    hide PartText;
    texts := [];
    if parts != [] {
      var rest, last := parts[..|parts| - 1], parts[|parts| - 1];
      var before := RenderedIsItsParts(context, encoding, rest);
      PartIsWritten(context, encoding, last);
      var text := PartText(context, encoding, last).value;
      Lists.FlatMore(before, text);
      texts := before + [text];
      assert forall k | 0 <= k < |rest| :: rest[k] == parts[k] && texts[k] == before[k];
    }
  }

  /** A template that cites no credential renders alike whatever the credential is: none
      of it can reach a URL. */
  lemma {:induction false} CredentialStaysOut(context: Context, other: Secret, encoding: Encoding, parts: seq<Part>)
    requires !UsesCredential(parts)
    ensures Rendered(context, encoding, parts) == Rendered(context.(secret := other), encoding, parts)
    decreases |parts|
  {
    if parts != [] {
      var rest := parts[..|parts| - 1];
      assert forall k :: 0 <= k < |rest| ==> rest[k] == parts[k];
      CredentialStaysOut(context, other, encoding, rest);
    }
  }

  function Times(s: string, c: char): nat {
    if s == "" then 0 else (if s[0] == c then 1 else 0) + Times(s[1..], c)
  }

  function Texts(parts: seq<Part>): string {
    if parts == [] then ""
    else Texts(parts[..|parts| - 1]) + if parts[|parts| - 1].Literal? then parts[|parts| - 1].text else ""
  }

  lemma {:induction false} TimesConcat(a: string, b: string, c: char)
    ensures Times(a + b, c) == Times(a, c) + Times(b, c)
  {
    if a == "" {
      assert a + b == b;
    } else {
      assert (a + b)[1..] == a[1..] + b;
      TimesConcat(a[1..], b, c);
    }
  }

  /** A character that encoding never writes: a delimiter, a space, a line end. */
  predicate IsDelimiter(c: char) {
    c != '%' && !(c < '\U{100}' && Unreserved(c as int as byte))
  }

  lemma {:induction false} SafeHasNoDelimiter(s: string, c: char)
    requires IsSafe(s) && IsDelimiter(c)
    ensures Times(s, c) == 0
  {
    if s != "" {
      if s[0] < '\U{100}' && Unreserved(s[0] as int as byte) && IsSafe(s[1..]) {
        SafeHasNoDelimiter(s[1..], c);
      } else {
        SafeHasNoDelimiter(s[3..], c);
        assert s == [s[0], s[1], s[2]] + s[3..];
        TimesConcat([s[0], s[1], s[2]], s[3..], c);
        NoDelimiterHere(s[0], s[1], s[2], c);
      }
    }
  }

  lemma HexIsUnreserved(c: char)
    requires HexDigit(c).Some?
    ensures c < '\U{100}' && Unreserved(c as int as byte)
  {
    assert 48 <= c as int <= 57 || 65 <= c as int <= 70;
  }

  lemma NoDelimiterHere(a: char, b: char, d: char, c: char)
    requires a == '%' && HexDigit(b).Some? && HexDigit(d).Some? && IsDelimiter(c)
    ensures Times([a, b, d], c) == 0
  {
    HexIsUnreserved(b);
    HexIsUnreserved(d);
    hide Unreserved;
    hide HexDigit;
    assert [a, b, d][1..] == [b, d] && [b, d][1..] == [d] && [d][1..] == "";
    assert Times([d], c) == 0;
    assert Times([b, d], c) == 0;
  }

  /** Every slash, question mark, hash sign, space or line end of a rendered URL is one
      the template wrote: a value can neither add a segment, nor change the host, nor
      open a second request. */
  lemma {:induction false} DelimitersAreTheTemplates(context: Context, parts: seq<Part>, c: char)
    requires IsDelimiter(c) && Rendered(context, Url, parts).Ok?
    ensures Times(Rendered(context, Url, parts).value, c) == Times(Texts(parts), c)
    decreases |parts|
  {
    hide IsDelimiter;
    hide Encoded;
    if parts != [] {
      var rest, last := parts[..|parts| - 1], parts[|parts| - 1];
      DelimitersAreTheTemplates(context, rest, c);
      var text := PartText(context, Url, last).value;
      TimesConcat(Rendered(context, Url, rest).value, text, c);
      TimesConcat(Texts(rest), if last.Literal? then last.text else "", c);
      if !last.Literal? {
        var value := if last.Credential? then SecretValue(context.secret, last.field).value
                     else if last.key in context.options then context.options[last.key] else "";
        EncodedReads(context.utf8(value));
        SafeHasNoDelimiter(text, c);
      }
    }
  }
}
