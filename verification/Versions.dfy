/** Versions, their order, and the choice of the newest release. */
module Versions {
  import opened Wrappers
  import opened Text

  const MAX_U64 := 0xFFFF_FFFF_FFFF_FFFF

  datatype Ident = Num(n: nat) | Word(text: string)

  /** `core` holds three numbers. */
  datatype Version = Version(core: seq<nat>, pre: seq<Ident>)

  // ------------------------------------------------------------ orders

  datatype Ordering = Less | Equal | Greater

  function Flip(o: Ordering): Ordering {
    match o
    case Less => Greater
    case Equal => Equal
    case Greater => Less
  }

  function Then(first: Ordering, second: Ordering): Ordering {
    if first == Equal then second else first
  }

  function CompareNats(a: nat, b: nat): Ordering {
    if a < b then Less else if a == b then Equal else Greater
  }

  /** Strings, by code points. */
  function CompareTexts(a: string, b: string): Ordering {
    if a == "" then (if b == "" then Equal else Less)
    else if b == "" then Greater
    else Then(CompareNats(a[0] as nat, b[0] as nat), CompareTexts(a[1..], b[1..]))
  }

  /** A number is below any word. */
  function CompareIdents(a: Ident, b: Ident): Ordering {
    match (a, b)
    case (Num(x), Num(y)) => CompareNats(x, y)
    case (Word(x), Word(y)) => CompareTexts(x, y)
    case (Num(_), Word(_)) => Less
    case (Word(_), Num(_)) => Greater
  }

  /** Element by element; a list is above its own beginning. */
  function CompareLists<T>(compare: (T, T) -> Ordering, a: seq<T>, b: seq<T>): Ordering {
    if a == [] then (if b == [] then Equal else Less)
    else if b == [] then Greater
    else Then(compare(a[0], b[0]), CompareLists(compare, a[1..], b[1..]))
  }

  function ComparePre<T>(compare: (T, T) -> Ordering, a: seq<T>, b: seq<T>): Ordering {
    if a == [] && b == [] then Equal
    else if a == [] then Greater
    else if b == [] then Less
    else CompareLists(compare, a, b)
  }

  function Compare(a: Version, b: Version): Ordering {
    Then(CompareLists(CompareNats, a.core, b.core), ComparePre(CompareIdents, a.pre, b.pre))
  }

  /** A total order in which only equal things are equivalent. */
  ghost predicate IsOrder<T(!new)>(compare: (T, T) -> Ordering) {
    && (forall a, b :: compare(a, b) == Equal <==> a == b)
    && (forall a, b :: compare(a, b) == Flip(compare(b, a)))
    && forall a, b, c :: compare(a, b) == Less && compare(b, c) == Less ==> compare(a, c) == Less
  }

  lemma {:induction false} ListsReflect<T(!new)>(compare: (T, T) -> Ordering, a: seq<T>, b: seq<T>)
    requires IsOrder(compare)
    ensures CompareLists(compare, a, b) == Equal <==> a == b
    ensures CompareLists(compare, a, b) == Flip(CompareLists(compare, b, a))
  {
    if a != [] && b != [] {
      ListsReflect(compare, a[1..], b[1..]);
      assert compare(a[0], b[0]) == Flip(compare(b[0], a[0]));
      assert a == [a[0]] + a[1..] && b == [b[0]] + b[1..];
    }
  }

  lemma {:induction false} ListsChain<T(!new)>(compare: (T, T) -> Ordering, a: seq<T>, b: seq<T>, c: seq<T>)
    requires IsOrder(compare)
    requires CompareLists(compare, a, b) == Less && CompareLists(compare, b, c) == Less
    ensures CompareLists(compare, a, c) == Less
  {
    if a != [] {
      if compare(a[0], b[0]) == Equal && compare(b[0], c[0]) == Equal {
        ListsChain(compare, a[1..], b[1..], c[1..]);
      }
    }
  }

  lemma {:induction false} TextsReflect(a: string, b: string)
    ensures CompareTexts(a, b) == Equal <==> a == b
    ensures CompareTexts(a, b) == Flip(CompareTexts(b, a))
  {
    if a != "" && b != "" {
      TextsReflect(a[1..], b[1..]);
      assert a == [a[0]] + a[1..] && b == [b[0]] + b[1..];
    }
  }

  lemma {:induction false} TextsChain(a: string, b: string, c: string)
    requires CompareTexts(a, b) == Less && CompareTexts(b, c) == Less
    ensures CompareTexts(a, c) == Less
  {
    if a != "" && a[0] == b[0] == c[0] {
      TextsChain(a[1..], b[1..], c[1..]);
    }
  }

  lemma NatsAreOrdered()
    ensures IsOrder(CompareNats)
  {
  }

  lemma IdentsAreOrdered()
    ensures IsOrder(CompareIdents)
  {
    forall a, b
      ensures CompareIdents(a, b) == Equal <==> a == b
      ensures CompareIdents(a, b) == Flip(CompareIdents(b, a))
    {
      if a.Word? && b.Word? {
        TextsReflect(a.text, b.text);
      }
    }
    forall a, b, c | CompareIdents(a, b) == Less && CompareIdents(b, c) == Less ensures CompareIdents(a, c) == Less {
      if a.Word? && b.Word? && c.Word? {
        TextsChain(a.text, b.text, c.text);
      }
    }
  }

  lemma VersionsReflect(a: Version, b: Version)
    ensures Compare(a, b) == Equal <==> a == b
    ensures Compare(a, b) == Flip(Compare(b, a))
  {
    NatsAreOrdered();
    IdentsAreOrdered();
    ListsReflect(CompareNats, a.core, b.core);
    ListsReflect(CompareIdents, a.pre, b.pre);
  }

  lemma VersionsChain(a: Version, b: Version, c: Version)
    requires Compare(a, b) == Less && Compare(b, c) == Less
    ensures Compare(a, c) == Less
  {
    NatsAreOrdered();
    IdentsAreOrdered();
    ListsReflect(CompareNats, a.core, b.core);
    ListsReflect(CompareNats, b.core, c.core);
    if a.core != b.core && b.core != c.core {
      ListsChain(CompareNats, a.core, b.core, c.core);
    } else if a.core == b.core == c.core && a.pre != [] && b.pre != [] && c.pre != [] {
      ListsChain(CompareIdents, a.pre, b.pre, c.pre);
    }
  }

  /** The order of versions is total, and agrees with equality. */
  lemma VersionsAreOrdered()
    ensures IsOrder(Compare)
  {
    hide Compare;
    forall a, b ensures Compare(a, b) == Equal <==> a == b ensures Compare(a, b) == Flip(Compare(b, a)) {
      VersionsReflect(a, b);
    }
    forall a, b, c | Compare(a, b) == Less && Compare(b, c) == Less ensures Compare(a, c) == Less {
      VersionsChain(a, b, c);
    }
  }

  // ------------------------------------------------------------ reading a version

  function Digit(c: char): nat
    requires IsDigit(c)
  {
    (c - '0') as nat
  }

  function Value(s: string): nat
    requires forall k :: 0 <= k < |s| ==> IsDigit(s[k])
  {
    if s == "" then 0 else 10 * Value(s[..|s| - 1]) + Digit(s[|s| - 1])
  }

  predicate IsNumeric(s: string) {
    s != "" && forall k :: 0 <= k < |s| ==> IsDigit(s[k])
  }

  /** `str::parse::<u64>`. */
  function ParseU64(s: string): Option<nat> {
    var digits := if s != "" && s[0] == '+' then s[1..] else s;
    if IsNumeric(digits) && Value(digits) <= MAX_U64 then Some(Value(digits)) else None
  }

  /** `str::split`. */
  function Split(s: string, c: char): (r: seq<string>)
    ensures r != []
  {
    var n := Before(s, c);
    if n == |s| then [s] else [s[..n]] + Split(s[n + 1..], c)
  }

  function StripV(s: string): string {
    if s != "" && s[0] == 'v' then StripV(s[1..]) else s
  }

  /** The fields of a version as they are written. */
  datatype Fields = Fields(core: seq<string>, pre: Option<seq<string>>)

  function FieldsOf(text: string): Fields {
    var bare := StripV(Trim(text));
    var s := bare[..Before(bare, '+')];
    var n := Before(s, '-');
    Fields(Split(s[..n], '.'), if n == |s| then None else Some(Split(s[n + 1..], '.')))
  }

  function IdentOf(field: string): Option<Ident> {
    var n := ParseU64(field);
    if n.Some? then Some(Num(n.value)) else if field != "" then Some(Word(field)) else None
  }

  predicate Parses(text: string) {
    var f := FieldsOf(text);
    && |f.core| == 3 && (forall k :: 0 <= k < 3 ==> ParseU64(f.core[k]).Some?)
    && (f.pre.Some? ==> forall k :: 0 <= k < |f.pre.value| ==> IdentOf(f.pre.value[k]).Some?)
  }

  function Numbers(fields: seq<string>): seq<nat>
    requires forall k :: 0 <= k < |fields| ==> ParseU64(fields[k]).Some?
  {
    seq(|fields|, i requires 0 <= i < |fields| => ParseU64(fields[i]).value)
  }

  function Idents(fields: seq<string>): seq<Ident>
    requires forall k :: 0 <= k < |fields| ==> IdentOf(fields[k]).Some?
  {
    seq(|fields|, i requires 0 <= i < |fields| => IdentOf(fields[i]).value)
  }

  function Parsed(text: string): Option<Version> {
    if !Parses(text) then None
    else
      var f := FieldsOf(text);
      Some(Version(Numbers(f.core), if f.pre.None? then [] else Idents(f.pre.value)))
  }

  method Parse(text: string) returns (r: Option<Version>)
    ensures r == Parsed(text)
  {
    hide Split;
    hide ParseU64;
    hide IdentOf;
    hide FieldsOf;
    var f := FieldsOf(text);
    var numbers := new nat[3](_ => 0);
    for i := 0 to 3
      invariant i <= |f.core|
      invariant forall k :: 0 <= k < i ==> ParseU64(f.core[k]) == Some(numbers[k])
    {
      if i == |f.core| {
        return None;
      }
      var n := ParseU64(f.core[i]);
      if n.None? {
        return None;
      }
      numbers[i] := n.value;
    }
    if |f.core| > 3 {
      return None;
    }
    var pre: seq<Ident> := [];
    if f.pre.Some? {
      var fields := f.pre.value;
      for i := 0 to |fields|
        invariant |pre| == i && forall k :: 0 <= k < i ==> IdentOf(fields[k]) == Some(pre[k])
      {
        var ident := IdentOf(fields[i]);
        if ident.None? {
          return None;
        }
        pre := pre + [ident.value];
      }
      assert Parses(text) && pre == Idents(fields);
    }
    assert numbers[..] == Numbers(f.core);
    return Some(Version(numbers[..], pre));
  }

  // ------------------------------------------------------------ agreement with Semantic Versioning

  /** Section 11.4 of Semantic Versioning 2.0.0, on identifiers as they are written:
      numbers by value, others by their characters, numbers first. */
  function FieldPrecedence(a: string, b: string): Ordering {
    if IsNumeric(a) && IsNumeric(b) then CompareNats(Value(a), Value(b))
    else if IsNumeric(a) then Less
    else if IsNumeric(b) then Greater
    else CompareTexts(a, b)
  }

  function Values(fields: seq<string>): (r: seq<nat>)
    requires forall k :: 0 <= k < |fields| ==> IsNumeric(fields[k])
  {
    if fields == [] then [] else
      assert IsNumeric(fields[0]);
      [Value(fields[0])] + Values(fields[1..])
  }

  /** Section 11 on whole versions: the three numbers first, then the pre-release, of
      which having one ranks lower. */
  function Precedence(a: Fields, b: Fields): Ordering
    requires forall k :: 0 <= k < |a.core| ==> IsNumeric(a.core[k])
    requires forall k :: 0 <= k < |b.core| ==> IsNumeric(b.core[k])
  {
    Then(CompareLists(CompareNats, Values(a.core), Values(b.core)),
         ComparePre(FieldPrecedence, if a.pre.None? then [] else a.pre.value, if b.pre.None? then [] else b.pre.value))
  }

  /** A number that does not fit in 64 bits: it is kept as a word. */
  predicate IsHuge(field: string) {
    IsNumeric(field) && Value(field) > MAX_U64
  }

  predicate Unsigned(field: string) { field == "" || field[0] != '+' }

  lemma IdentsAgree(a: string, b: string)
    requires IdentOf(a).Some? && IdentOf(b).Some? && Unsigned(a) && Unsigned(b)
    requires !IsHuge(a) && !IsHuge(b)
    ensures CompareIdents(IdentOf(a).value, IdentOf(b).value) == FieldPrecedence(a, b)
  {
  }

  /** An identifier ranks as the standard says against every identifier of reasonable
      size exactly when it is not itself a number beyond 64 bits. */
  lemma AgreesUnlessHuge(a: string)
    requires IdentOf(a).Some? && Unsigned(a)
    ensures (forall b | IdentOf(b).Some? && Unsigned(b) && !IsHuge(b) ::
               CompareIdents(IdentOf(a).value, IdentOf(b).value) == FieldPrecedence(a, b))
            <==> !IsHuge(a)
  {
    if IsHuge(a) {
      HugeAgainstHyphen(a);
      assert Unsigned("-");
    } else {
      forall b | IdentOf(b).Some? && Unsigned(b) && !IsHuge(b)
        ensures CompareIdents(IdentOf(a).value, IdentOf(b).value) == FieldPrecedence(a, b)
      {
        IdentsAgree(a, b);
      }
    }
  }

  ghost predicate Modest(fields: seq<string>) {
    forall k :: 0 <= k < |fields| ==> IdentOf(fields[k]).Some? && Unsigned(fields[k]) && !IsHuge(fields[k])
  }

  lemma {:induction false} ListsAgree(a: seq<string>, b: seq<string>)
    requires Modest(a) && Modest(b)
    ensures CompareLists(CompareIdents, Idents(a), Idents(b)) == CompareLists(FieldPrecedence, a, b)
  {
    hide IdentOf;
    hide FieldPrecedence;
    hide CompareIdents;
    if a != [] && b != [] {
      assert Idents(a)[1..] == Idents(a[1..]) && Idents(b)[1..] == Idents(b[1..]);
      IdentsAgree(a[0], b[0]);
      ListsAgree(a[1..], b[1..]);
    }
  }

  lemma {:induction false} SplitHasNot(s: string, c: char, d: char)
    requires forall k :: 0 <= k < |s| ==> s[k] != d
    ensures forall i, k :: 0 <= i < |Split(s, c)| && 0 <= k < |Split(s, c)[i]| ==> Split(s, c)[i][k] != d
    decreases |s|
  {
    var n := Before(s, c);
    if n < |s| {
      SplitHasNot(s[n + 1..], c, d);
    }
  }

  /** No field has a plus sign: it would have started the build metadata. */
  lemma FieldsAreUnsigned(text: string)
    ensures var f := FieldsOf(text);
            && (forall k :: 0 <= k < |f.core| ==> Unsigned(f.core[k]))
            && (f.pre.Some? ==> forall k :: 0 <= k < |f.pre.value| ==> Unsigned(f.pre.value[k]))
  {
    var bare := StripV(Trim(text));
    var s := bare[..Before(bare, '+')];
    var n := Before(s, '-');
    SplitHasNot(s[..n], '.', '+');
    if n < |s| {
      SplitHasNot(s[n + 1..], '.', '+');
    }
  }

  /** No identifier of the pre-release is a number beyond 64 bits. */
  ghost predicate NoHugeIdent(f: Fields) {
    f.pre.Some? ==> forall k :: 0 <= k < |f.pre.value| ==> !IsHuge(f.pre.value[k])
  }

  /** The two rank as section 11 of Semantic Versioning 2.0.0 says of what is written. */
  ghost predicate Agree(a: string, b: string)
    requires Parses(a) && Parses(b)
  {
    var f, g := FieldsOf(a), FieldsOf(b);
    && (forall k :: 0 <= k < |f.core| ==> IsNumeric(f.core[k]))
    && (forall k :: 0 <= k < |g.core| ==> IsNumeric(g.core[k]))
    && Compare(Parsed(a).value, Parsed(b).value) == Precedence(f, g)
  }

  /** Versions rank as section 11 of Semantic Versioning 2.0.0 says of what is written,
      unless a pre-release identifier is a number that does not fit in 64 bits. */
  lemma VersionsAgree(a: string, b: string)
    requires Parses(a) && Parses(b) && NoHugeIdent(FieldsOf(a)) && NoHugeIdent(FieldsOf(b))
    ensures Agree(a, b)
  {
    FieldsAreUnsigned(a);
    FieldsAreUnsigned(b);
    hide FieldsOf;
    var f, g := FieldsOf(a), FieldsOf(b);
    var x, y := if f.pre.None? then [] else f.pre.value, if g.pre.None? then [] else g.pre.value;
    hide IsNumeric;
    ListsAgree(x, y);
    CoresAgree(f.core);
    CoresAgree(g.core);
    hide FieldPrecedence;
    hide CompareIdents;
    assert Parsed(a).value.pre == Idents(x) && Parsed(b).value.pre == Idents(y);
  }

  lemma {:induction false} CoresAgree(fields: seq<string>)
    requires forall k :: 0 <= k < |fields| ==> ParseU64(fields[k]).Some? && Unsigned(fields[k])
    ensures forall k :: 0 <= k < |fields| ==> IsNumeric(fields[k])
    ensures Numbers(fields) == Values(fields)
  {
    if fields != [] {
      CoresAgree(fields[1..]);
      assert Numbers(fields) == [Numbers(fields)[0]] + Numbers(fields[1..]);
    }
  }

  function Joined(fields: seq<string>, c: char): string {
    if fields == [] then "" else if |fields| == 1 then fields[0] else fields[0] + [c] + Joined(fields[1..], c)
  }

  lemma {:induction false} JoinedSplits(fields: seq<string>, c: char)
    requires fields != [] && forall k :: 0 <= k < |fields| ==> !Has(fields[k], c)
    ensures Split(Joined(fields, c), c) == fields
  {
    var s := Joined(fields, c);
    if |fields| == 1 {
      assert Before(s, c) == |s|;
      assert fields == [fields[0]];
    } else {
      var rest := Joined(fields[1..], c);
      BeforeConcat(fields[0], c, rest);
      assert s[..|fields[0]|] == fields[0] && s[|fields[0]| + 1..] == rest;
      JoinedSplits(fields[1..], c);
    }
  }

  lemma {:induction false} JoinedHasNot(fields: seq<string>, c: char, d: char)
    requires c != d && forall k :: 0 <= k < |fields| ==> !Has(fields[k], d)
    ensures !Has(Joined(fields, c), d)
  {
    if |fields| > 1 {
      JoinedHasNot(fields[1..], c, d);
    }
  }

  lemma {:induction false} SplitHasNone(s: string, c: char)
    ensures forall i :: 0 <= i < |Split(s, c)| ==> !Has(Split(s, c)[i], c)
    decreases |s|
  {
    var n := Before(s, c);
    if n < |s| {
      SplitHasNone(s[n + 1..], c);
    }
  }

  /** A text whose parts are given reads as these parts. */
  lemma WrittenReads(core: string, pre: seq<string>)
    requires core != "" && IsDigit(core[0]) && !Has(core, '-') && !Has(core, '+')
    requires pre != [] && pre[|pre| - 1] == "-"
    requires forall k :: 0 <= k < |pre| ==> !Has(pre[k], '.') && !Has(pre[k], '+')
    ensures FieldsOf(core + "-" + Joined(pre, '.')) == Fields(Split(core, '.'), Some(pre))
  {
    hide Split;
    hide Joined;
    var tail := Joined(pre, '.');
    var text := core + "-" + tail;
    JoinedHasNot(pre, '.', '+');
    JoinedSplits(pre, '.');
    JoinedEnds(pre);
    assert text[0] == core[0] && text[|text| - 1] == '-';
    TrimmedStays(text);
    assert StripV(text) == text;
    assert !Has(text, '+');
    assert Before(text, '+') == |text| && text[..|text|] == text;
    BeforeConcat(core, '-', tail);
    assert text[..|core|] == core && text[|core| + 1..] == tail;
  }

  lemma {:induction false} JoinedEnds(pre: seq<string>)
    requires pre != [] && pre[|pre| - 1] == "-"
    ensures var s := Joined(pre, '.');
            s != "" && s[|s| - 1] == '-'
  {
    if |pre| > 1 {
      JoinedEnds(pre[1..]);
    }
  }

  lemma {:induction false} FirstDifference<T(!new)>(
      compare: (T, T) -> Ordering, same: seq<T>, a: T, rest: seq<T>, b: T)
    requires compare(a, b) != Equal && forall e :: compare(e, e) == Equal
    ensures CompareLists(compare, same + [a] + rest, same + [b]) == compare(a, b)
  {
    if same != [] {
      FirstDifference(compare, same[1..], a, rest, b);
      assert (same + [a] + rest)[1..] == same[1..] + [a] + rest && (same + [b])[1..] == same[1..] + [b];
    }
  }

  lemma ReflexiveOrders()
    ensures forall e :: CompareIdents(e, e) == Equal
    ensures forall e :: FieldPrecedence(e, e) == Equal
    ensures forall e :: CompareNats(e, e) == Equal
  {
    forall e ensures CompareIdents(e, e) == Equal {
      if e.Word? {
        TextsReflect(e.text, e.text);
      }
    }
    forall e ensures FieldPrecedence(e, e) == Equal {
      TextsReflect(e, e);
    }
  }

  /** A number beyond 64 bits and a hyphen: the code and the standard disagree. */
  lemma HugeAgainstHyphen(a: string)
    requires IdentOf(a).Some? && Unsigned(a) && IsHuge(a)
    ensures IdentOf(a) == Some(Word(a)) && IdentOf("-") == Some(Word("-")) && !IsHuge("-")
    ensures CompareIdents(Word(a), Word("-")) == Greater && FieldPrecedence(a, "-") == Less
  {
    assert !IsDigit("-"[0]) && !IsNumeric("-");
  }

  /** `pre` up to its first number beyond 64 bits, and then a hyphen. */
  lemma FirstHuge(pre: seq<string>) returns (k: nat)
    requires exists i :: 0 <= i < |pre| && IsHuge(pre[i])
    ensures k < |pre| && IsHuge(pre[k]) && forall i :: 0 <= i < k ==> !IsHuge(pre[i])
  {
    k := 0;
    while !IsHuge(pre[k])
      invariant k < |pre| && forall i :: 0 <= i < k ==> !IsHuge(pre[i])
      decreases |pre| - k
    {
      k := k + 1;
    }
  }

  /** The three numbers as they are written, and what is known of the fields. */
  lemma CoreIsWritten(a: string) returns (core: string)
    requires Parses(a)
    ensures Split(core, '.') == FieldsOf(a).core
    ensures core != "" && IsDigit(core[0]) && !Has(core, '-') && !Has(core, '+')
    ensures FieldsOf(a).pre.Some? ==>
      forall k :: 0 <= k < |FieldsOf(a).pre.value| ==>
        !Has(FieldsOf(a).pre.value[k], '.') && !Has(FieldsOf(a).pre.value[k], '+')
  {
    FieldsAreUnsigned(a);
    var bare := StripV(Trim(a));
    var s := bare[..Before(bare, '+')];
    var n := Before(s, '-');
    core := s[..n];
    CoresAgree(FieldsOf(a).core);
    assert IsNumeric(FieldsOf(a).core[0]) && FieldsOf(a).core[0] <= core;
    if n < |s| {
      SplitHasNone(s[n + 1..], '.');
      SplitHasNot(s[n + 1..], '.', '+');
    }
  }

  lemma IdentsSplit(pre: seq<string>, k: nat)
    requires k < |pre| && forall i :: 0 <= i < |pre| ==> IdentOf(pre[i]).Some?
    ensures Idents(pre) == Idents(pre[..k]) + [IdentOf(pre[k]).value] + Idents(pre[k + 1..])
  {
  }

  lemma SplitAt(pre: seq<string>, k: nat)
    requires k < |pre|
    ensures pre == pre[..k] + [pre[k]] + pre[k + 1..]
  {
  }

  lemma SamePrecedence(fields: seq<nat>)
    ensures CompareLists(CompareNats, fields, fields) == Equal
  {
    NatsAreOrdered();
    ListsReflect(CompareNats, fields, fields);
  }

  lemma HyphenInstead(pre: seq<string>, k: nat)
    requires k < |pre| && forall i :: 0 <= i < |pre| ==> IdentOf(pre[i]).Some?
    requires IsHuge(pre[k]) && Unsigned(pre[k])
    ensures var other := pre[..k] + ["-"];
            && (forall i :: 0 <= i < |other| ==> IdentOf(other[i]).Some?)
            && ComparePre(CompareIdents, Idents(pre), Idents(other)) == Greater
            && ComparePre(FieldPrecedence, pre, other) == Less
  {
    var same := pre[..k];
    HugeAgainstHyphen(pre[k]);
    ReflexiveOrders();
    hide IdentOf;
    hide IsHuge;
    hide CompareIdents;
    hide FieldPrecedence;
    hide CompareLists;
    IdentsSplit(pre, k);
    IdentsSplit(same + ["-"], k);
    SplitAt(pre, k);
    assert (same + ["-"])[..k] == same && (same + ["-"])[k + 1..] == [] && Idents([]) == [];
    assert Idents(same + ["-"]) == Idents(same) + [Word("-")];
    FirstDifference(CompareIdents, Idents(same), Word(pre[k]), Idents(pre[k + 1..]), Word("-"));
    FirstDifference(FieldPrecedence, same, pre[k], pre[k + 1..], "-");
  }

  /** The same numbers, the same identifiers up to the first that is beyond 64 bits, and
      a hyphen in its place. */
  lemma WithHyphen(a: string) returns (b: string, k: nat)
    requires Parses(a) && !NoHugeIdent(FieldsOf(a))
    ensures var f := FieldsOf(a);
            && k < |f.pre.value| && IsHuge(f.pre.value[k]) && Unsigned(f.pre.value[k])
            && FieldsOf(b) == Fields(f.core, Some(f.pre.value[..k] + ["-"]))
            && forall i :: 0 <= i < k ==> !IsHuge(f.pre.value[i])
  {
    var f := FieldsOf(a);
    k := FirstHuge(f.pre.value);
    var core := CoreIsWritten(a);
    FieldsAreUnsigned(a);
    var other := f.pre.value[..k] + ["-"];
    hide FieldsOf;
    WrittenReads(core, other);
    b := core + "-" + Joined(other, '.');
  }

  lemma CoresCancel(core: seq<nat>, a: seq<Ident>, b: seq<Ident>)
    ensures Compare(Version(core, a), Version(core, b)) == ComparePre(CompareIdents, a, b)
  {
    SamePrecedence(core);
  }

  lemma FieldsCancel(core: seq<string>, a: seq<string>, b: seq<string>)
    requires forall k :: 0 <= k < |core| ==> IsNumeric(core[k])
    ensures Precedence(Fields(core, Some(a)), Fields(core, Some(b))) == ComparePre(FieldPrecedence, a, b)
  {
    SamePrecedence(Values(core));
  }

  lemma ParsesLike(a: string, b: string, pre: seq<string>)
    requires Parses(a) && FieldsOf(b) == Fields(FieldsOf(a).core, Some(pre))
    requires forall i :: 0 <= i < |pre| ==> IdentOf(pre[i]).Some?
    ensures Parses(b) && Parsed(b) == Some(Version(Numbers(FieldsOf(a).core), Idents(pre)))
  {
    hide FieldsOf;
    hide IdentOf;
    hide ParseU64;
  }

  /** Whoever has a number beyond 64 bits disagrees with some version that has none. */
  lemma HugeDisagrees(a: string) returns (b: string)
    requires Parses(a) && !NoHugeIdent(FieldsOf(a))
    ensures Parses(b) && NoHugeIdent(FieldsOf(b)) && !Agree(a, b)
  {
    var k;
    b, k := WithHyphen(a);
    hide FieldsOf;
    var f := FieldsOf(a);
    var other := f.pre.value[..k] + ["-"];
    HyphenInstead(f.pre.value, k);
    HugeAgainstHyphen(f.pre.value[k]);
    ParsesLike(a, b, other);
    CoresCancel(Numbers(f.core), Idents(f.pre.value), Idents(other));
    hide IdentOf;
    hide IsHuge;
    hide IsNumeric;
    hide ComparePre;
    hide Compare;
    hide Precedence;
    hide Numbers;
    hide Idents;
    if Agree(a, b) {
      FieldsCancel(f.core, f.pre.value, other);
    }
  }

  /** A version ranks as the standard says against every version without a number
      beyond 64 bits exactly when it has none itself. */
  lemma VersionAgreesUnlessHuge(a: string)
    requires Parses(a)
    ensures (forall b | Parses(b) && NoHugeIdent(FieldsOf(b)) :: Agree(a, b)) <==> NoHugeIdent(FieldsOf(a))
  {
    hide Agree;
    hide NoHugeIdent;
    hide Parses;
    if NoHugeIdent(FieldsOf(a)) {
      forall b | Parses(b) && NoHugeIdent(FieldsOf(b)) ensures Agree(a, b) {
        VersionsAgree(a, b);
      }
    } else {
      var b := HugeDisagrees(a);
    }
  }

  // ------------------------------------------------------------ the newest release

  datatype Release = Release(tag: string, url: Option<string>, draft: bool)

  predicate Admissible(r: Release, current: Version) {
    !r.draft && Parsed(r.tag).Some? && (current.pre != [] || Parsed(r.tag).value.pre == [])
  }

  /** Of equal versions the last one listed is kept. */
  function Newest(releases: seq<Release>, current: Version): (r: Option<Release>)
    ensures r.Some? ==> Admissible(r.value, current)
  {
    if releases == [] then None
    else
      var best, last := Newest(releases[..|releases| - 1], current), releases[|releases| - 1];
      if !Admissible(last, current) then best
      else if best.Some? && Compare(Parsed(best.value.tag).value, Parsed(last.tag).value) == Greater then best
      else Some(last)
  }

  ghost predicate IsNewest(releases: seq<Release>, current: Version, i: nat) {
    && i < |releases| && Admissible(releases[i], current)
    && forall j :: 0 <= j < |releases| && Admissible(releases[j], current) ==>
         var order := Compare(Parsed(releases[j].tag).value, Parsed(releases[i].tag).value);
         order == Less || (order == Equal && j <= i)
  }

  lemma NotLess(a: Version, b: Version, c: Version)
    requires Compare(a, b) != Greater && Compare(b, c) != Greater
    ensures Compare(a, c) != Greater
    ensures Compare(a, c) == Equal ==> Compare(a, b) == Equal
  {
    VersionsReflect(a, b);
    VersionsReflect(b, c);
    if Compare(a, b) == Less && Compare(b, c) == Less {
      VersionsChain(a, b, c);
    }
  }

  /** The release that is offered is admissible and no other admissible one exceeds it;
      there is none exactly when no release is admissible. */
  lemma {:induction false} NewestIsNewest(releases: seq<Release>, current: Version)
    ensures match Newest(releases, current)
            case None => forall j :: 0 <= j < |releases| ==> !Admissible(releases[j], current)
            case Some(r) => exists i: nat :: IsNewest(releases, current, i) && releases[i] == r
    decreases |releases|
  {
    hide Compare;
    hide Admissible;
    if releases != [] {
      var rest, n := releases[..|releases| - 1], |releases| - 1;
      NewestIsNewest(rest, current);
      var best := Newest(rest, current);
      if best.Some? {
        var i: nat :| IsNewest(rest, current, i) && rest[i] == best.value;
        NewestOfMore(releases, current, i);
      } else if Admissible(releases[n], current) {
        AdmissibleParses(releases[n], current);
        VersionsReflect(Parsed(releases[n].tag).value, Parsed(releases[n].tag).value);
        assert forall j :: 0 <= j < n ==> rest[j] == releases[j];
        assert IsNewest(releases, current, n);
      } else {
        assert forall j :: 0 <= j < n ==> rest[j] == releases[j];
      }
    }
  }

  lemma AdmissibleParses(r: Release, current: Version)
    requires Admissible(r, current)
    ensures Parsed(r.tag).Some?
  {
  }

  lemma NewestOfMore(releases: seq<Release>, current: Version, i: nat)
    requires releases != [] && IsNewest(releases[..|releases| - 1], current, i)
    ensures var n := |releases| - 1;
            if !Admissible(releases[n], current)
               || Compare(Parsed(releases[i].tag).value, Parsed(releases[n].tag).value) == Greater
            then IsNewest(releases, current, i)
            else IsNewest(releases, current, n)
  {
    hide Compare;
    hide Parsed;
    var n := |releases| - 1;
    var rest := releases[..n];
    assert forall j :: 0 <= j < n ==> rest[j] == releases[j];
    if Admissible(releases[n], current) {
      var a, b := Parsed(releases[i].tag).value, Parsed(releases[n].tag).value;
      VersionsReflect(a, b);
      VersionsReflect(b, b);
      if Compare(a, b) != Greater {
        forall j | 0 <= j < n && Admissible(releases[j], current)
          ensures Compare(Parsed(releases[j].tag).value, b) != Greater
        {
          assert Admissible(rest[j], current);
          NotLess(Parsed(releases[j].tag).value, a, b);
        }
      }
    }
  }

  // ------------------------------------------------------------ the tag, shown without its prefix

  lemma {:induction false} TrimEndKeepsFirst(c: char, s: string)
    requires !IsSpace(c)
    ensures TrimEnd([c] + s) == [c] + TrimEnd(s)
    decreases |s|
  {
    if s != "" && IsSpace(s[|s| - 1]) {
      assert ([c] + s)[..|s|] == [c] + s[..|s| - 1];
      TrimEndKeepsFirst(c, s[..|s| - 1]);
    }
  }

  lemma {:induction false} StripThenTrim(s: string)
    ensures StripV(TrimEnd(s)) == StripV(TrimEnd(StripV(s)))
  {
    if s != "" && s[0] == 'v' {
      assert s == ['v'] + s[1..];
      TrimEndKeepsFirst('v', s[1..]);
      assert (['v'] + TrimEnd(s[1..]))[1..] == TrimEnd(s[1..]);
      StripThenTrim(s[1..]);
    }
  }

  lemma ParsesFromDigit(text: string)
    requires Parses(text)
    ensures var s := StripV(Trim(text)); s != "" && IsDigit(s[0])
  {
    FieldsAreUnsigned(text);
    var f := FieldsOf(text);
    assert IsNumeric(f.core[0]) && IsDigit(f.core[0][0]);
  }

  lemma StrippedTrims(tag: string)
    requires tag != "" && tag[0] == 'v'
    requires var s := StripV(Trim(tag)); s != "" && IsDigit(s[0])
    ensures StripV(Trim(StripV(tag))) == StripV(Trim(tag))
  {
    var t := StripV(tag);
    assert Trim(tag) == TrimEnd(tag);
    StripThenTrim(tag);
    StrippedStarts(tag);
    var u := TrimEnd(t);
    assert StripV(u) == StripV(Trim(tag));
    if u != "" {
      assert u[0] == t[0] != 'v';
      assert StripV(u) == u;
      assert TrimStart(t) == t;
    }
  }

  /** The version shown to the user, the tag without its prefix, is the one that was
      compared. */
  lemma StrippingKeepsVersion(tag: string)
    requires Parsed(tag).Some?
    ensures Parsed(StripV(tag)) == Parsed(tag)
  {
    if tag != "" && tag[0] == 'v' {
      ParsesFromDigit(tag);
      StrippedTrims(tag);
    }
  }

  lemma {:induction false} StrippedStarts(s: string)
    ensures StripV(s) != "" ==> StripV(s)[0] != 'v'
  {
    if s != "" && s[0] == 'v' {
      StrippedStarts(s[1..]);
    }
  }

  // ------------------------------------------------------------ the checker

  /** Times in milliseconds. */
  const DAY := 86_400_000
  const HOUR := 3_600_000
  const MINUTE := 60_000

  datatype Latest = Latest(version: string, url: Option<string>)

  datatype Cache = Cache(latest: Option<Latest>, checkedAt: Option<int>, lastAttempt: Option<int>,
    error: Option<string>)

  datatype Info = Info(latest: Option<Latest>, updateAvailable: bool, checkedAt: Option<int>, enabled: bool,
    error: Option<string>)

  /** One request, with what GitHub would answer. */
  datatype Call = Call(now: int, enabled: bool, force: bool, answer: Result<seq<Release>, string>)

  function LatestOf(r: Release): Latest {
    Latest(StripV(r.tag), if r.url.Some? && "https://github.com/" <= r.url.value then r.url else None)
  }

  predicate Newer(current: string, cache: Cache) {
    && cache.latest.Some? && Parsed(current).Some? && Parsed(cache.latest.value.version).Some?
    && Compare(Parsed(cache.latest.value.version).value, Parsed(current).value) == Greater
  }

  function InfoOf(current: string, cache: Cache, enabled: bool): Info {
    Info(cache.latest, enabled && Newer(current, cache), cache.checkedAt, enabled, cache.error)
  }

  /** How long a forced check still has to wait, if at all. */
  function Wait(cache: Cache, call: Call): int {
    if call.enabled && call.force && cache.lastAttempt.Some? then MINUTE - (call.now - cache.lastAttempt.value) else 0
  }

  function TimeToLive(cache: Cache): int { if cache.error.Some? then HOUR else DAY }

  predicate Fetches(cache: Cache, call: Call) {
    && call.enabled && Wait(cache, call) <= 0
    && (call.force || cache.lastAttempt.None? || call.now - cache.lastAttempt.value >= TimeToLive(cache))
  }

  function Offered(current: string, releases: seq<Release>): Option<Latest> {
    if Parsed(current).None? then None
    else
      var r := Newest(releases, Parsed(current).value);
      if r.None? then None else Some(LatestOf(r.value))
  }

  function After(current: string, cache: Cache, call: Call): Cache {
    if !Fetches(cache, call) then cache
    else
      match call.answer
      case Ok(releases) => Cache(Offered(current, releases), Some(call.now), Some(call.now), None)
      case Err(error) => cache.(lastAttempt := Some(call.now), error := Some(error))
  }

  class Checker {
    const current: string
    var cache: Cache
    ghost var fetched: seq<int>

    constructor (current: string)
      ensures this.current == current && cache == Cache(None, None, None, None) && fetched == []
    {
      this.current, cache, fetched := current, Cache(None, None, None, None), [];
    }

    method Get(call: Call) returns (r: Result<Info, int>)
      modifies this
      ensures cache == After(current, old(cache), call)
      ensures fetched == old(fetched) + if Fetches(old(cache), call) then [call.now] else []
      ensures r == if Wait(old(cache), call) > 0
        then Err(if Wait(old(cache), call) / 1000 >= 1 then Wait(old(cache), call) / 1000 else 1)
                   else Ok(InfoOf(current, After(current, old(cache), call), call.enabled))
      ensures r.Err? <==>
        && call.enabled && call.force && old(cache).lastAttempt.Some?
        && call.now - old(cache).lastAttempt.value < 60_000
      ensures r.Err? ==> fetched == old(fetched) && cache == old(cache)
      ensures r.Ok? ==>
        && r.value.latest == cache.latest && r.value.checkedAt == cache.checkedAt && r.value.error == cache.error
        && r.value.enabled == call.enabled && (!call.enabled ==> !r.value.updateAvailable)
    {
      hide Offered;
      hide Newer;
      if !call.enabled {
        return Ok(InfoOf(current, cache, false));
      }
      if call.force && cache.lastAttempt.Some? {
        var wait := MINUTE - (call.now - cache.lastAttempt.value);
        if wait > 0 {
          return Err(if wait / 1000 >= 1 then wait / 1000 else 1);
        }
      }
      var ttl := if cache.error.Some? then HOUR else DAY;
      var stale := cache.lastAttempt.None? || call.now - cache.lastAttempt.value >= ttl;
      if call.force || stale {
        fetched := fetched + [call.now];
        cache := cache.(lastAttempt := Some(call.now));
        match call.answer {
          case Ok(releases) =>
            cache := cache.(latest := Offered(current, releases));
            cache := cache.(checkedAt := Some(call.now));
            cache := cache.(error := None);
          case Err(error) =>
            cache := cache.(error := Some(error));
        }
      }
      return Ok(InfoOf(current, cache, true));
    }
  }

  // ------------------------------------------------------------ whole runs

  function CacheAfter(current: string, calls: seq<Call>): Cache {
    if calls == [] then Cache(None, None, None, None)
    else After(current, CacheAfter(current, calls[..|calls| - 1]), calls[|calls| - 1])
  }

  /** The calls that reached GitHub. */
  function Fetched(current: string, calls: seq<Call>): seq<Call> {
    if calls == [] then []
    else
      var before, last := calls[..|calls| - 1], calls[|calls| - 1];
      Fetched(current, before) + if Fetches(CacheAfter(current, before), last) then [last] else []
  }

  /** The cache remembers the last attempt, and whether it failed. */
  lemma {:induction false} CacheTellsLastFetch(current: string, calls: seq<Call>)
    ensures var fetched, cache := Fetched(current, calls), CacheAfter(current, calls);
            if fetched == [] then cache.lastAttempt == None && cache.error == None
            else var last := fetched[|fetched| - 1];
                 cache.lastAttempt == Some(last.now) && (cache.error.Some? <==> last.answer.Err?)
    decreases |calls|
  {
    hide Offered;
    if calls != [] {
      CacheTellsLastFetch(current, calls[..|calls| - 1]);
    }
  }

  /** A call is fetched exactly when checks are enabled and the last fetch is long enough
      ago: a minute if the call is forced, and otherwise an hour if that fetch failed and
      a day if it did not. */
  lemma FetchedExactlyWhenDue(current: string, calls: seq<Call>, call: Call)
    ensures var before, all := Fetched(current, calls), Fetched(current, calls + [call]);
            all == before + if call.enabled && (before == [] || LongAgo(before[|before| - 1], call)) then [call] else []
  {
    CacheTellsLastFetch(current, calls);
    assert (calls + [call])[..|calls|] == calls;
    hide CacheAfter;
  }

  predicate LongAgo(last: Call, call: Call) {
    call.now - last.now >= if call.force then 60_000 else if last.answer.Err? then 3_600_000 else 86_400_000
  }

  /** What a list of releases offers to the running version: the newest admissible one,
      under its tag without the prefix, with its address if that is on GitHub. */
  ghost predicate Offers(current: string, releases: seq<Release>, latest: Option<Latest>) {
    match latest
    case None =>
      Parsed(current).Some? ==> forall j :: 0 <= j < |releases| ==> !Admissible(releases[j], Parsed(current).value)
    case Some(shown) => Parsed(current).Some? && exists i: nat :: OffersThat(Parsed(current).value, releases, shown, i)
  }

  ghost predicate OffersThat(current: Version, releases: seq<Release>, shown: Latest, i: nat) {
    && IsNewest(releases, current, i)
    && shown.version == StripV(releases[i].tag)
    && (shown.url.Some? <==> releases[i].url.Some? && "https://github.com/" <= releases[i].url.value)
    && (shown.url.Some? ==> shown.url == releases[i].url)
  }

  lemma OfferedOffers(current: string, releases: seq<Release>)
    ensures Offers(current, releases, Offered(current, releases))
  {
    hide Parsed;
    hide Admissible;
    hide StripV;
    hide Newest;
    if Parsed(current).Some? {
      var version := Parsed(current).value;
      NewestIsNewest(releases, version);
      if Newest(releases, version).Some? {
        var i: nat :| IsNewest(releases, version, i) && releases[i] == Newest(releases, version).value;
        assert OffersThat(version, releases, Offered(current, releases).value, i);
      }
    }
  }

  /** What the cache shows comes from the last fetch that succeeded, `i` of all fetches,
      whatever has failed since; -1 stands for none. */
  lemma {:induction false} CacheShowsLastGood(current: string, calls: seq<Call>) returns (i: int)
    ensures var fetched, cache := Fetched(current, calls), CacheAfter(current, calls);
            && -1 <= i < |fetched| && (forall k | i < k < |fetched| :: fetched[k].answer.Err?)
            && if i == -1 then cache.latest == None && cache.checkedAt == None
               else fetched[i].answer.Ok? && Offers(current, fetched[i].answer.value, cache.latest)
                    && cache.checkedAt == Some(fetched[i].now)
    decreases |calls|
  {
    hide Offers;
    hide Offered;
    i := -1;
    if calls != [] {
      var before, last := calls[..|calls| - 1], calls[|calls| - 1];
      i := CacheShowsLastGood(current, before);
      if Fetches(CacheAfter(current, before), last) && last.answer.Ok? {
        i := |Fetched(current, before)|;
        OfferedOffers(current, last.answer.value);
      }
    }
  }

  ghost predicate Exceeds(current: string, releases: seq<Release>, i: nat) {
    && Parsed(current).Some? && IsNewest(releases, Parsed(current).value, i)
    && Compare(Parsed(releases[i].tag).value, Parsed(current).value) == Greater
  }

  /** At any point of a run an update is announced if and only if checks are enabled and
      the newest admissible release of the last fetch that succeeded exceeds the version
      that runs. */
  lemma AnnouncedFromLastGood(current: string, calls: seq<Call>, enabled: bool) returns (i: int)
    ensures var fetched := Fetched(current, calls);
            && -1 <= i < |fetched| && (forall k | i < k < |fetched| :: fetched[k].answer.Err?)
            && (i >= 0 ==> fetched[i].answer.Ok?)
            && (InfoOf(current, CacheAfter(current, calls), enabled).updateAvailable <==>
                  enabled && i >= 0 && exists k :: Exceeds(current, fetched[i].answer.value, k))
  {
    i := CacheShowsLastGood(current, calls);
    hide Fetched;
    hide CacheAfter;
    if i >= 0 {
      OfferIsCompared(current, Fetched(current, calls)[i].answer.value, CacheAfter(current, calls));
    }
  }

  lemma OfferIsCompared(current: string, releases: seq<Release>, cache: Cache)
    requires Offers(current, releases, cache.latest)
    ensures Newer(current, cache) <==> exists k :: Exceeds(current, releases, k)
  {
    hide Compare;
    hide Parsed;
    hide StripV;
    if cache.latest.Some? {
      var shown, version := cache.latest.value, Parsed(current).value;
      var i: nat :| OffersThat(version, releases, shown, i);
      AdmissibleParses(releases[i], version);
      StrippingKeepsVersion(releases[i].tag);
      forall k | Exceeds(current, releases, k) ensures k == i {
        NewestIsOne(releases, version, i, k);
      }
      assert Newer(current, cache) <==> Exceeds(current, releases, i);
    }
  }

  lemma NewestIsOne(releases: seq<Release>, current: Version, i: nat, k: nat)
    requires IsNewest(releases, current, i) && IsNewest(releases, current, k)
    ensures i == k
  {
    hide Compare;
    VersionsReflect(Parsed(releases[i].tag).value, Parsed(releases[k].tag).value);
  }

  /** Two fetches in a row: a minute apart, and when the second was not forced, an hour
      after a failure and a day after a success.  No assumption on the clock is needed. */
  ghost predicate Spaced(fetched: seq<Call>) {
    forall i :: 0 <= i < |fetched| - 1 ==>
      var wait := fetched[i + 1].now - fetched[i].now;
      && wait >= MINUTE
      && (!fetched[i + 1].force ==> wait >= if fetched[i].answer.Err? then HOUR else DAY)
  }

  lemma {:induction false} FetchesAreSpaced(current: string, calls: seq<Call>)
    ensures Spaced(Fetched(current, calls))
    decreases |calls|
  {
    hide Offered;
    if calls != [] {
      FetchesAreSpaced(current, calls[..|calls| - 1]);
      CacheTellsLastFetch(current, calls[..|calls| - 1]);
    }
  }

  lemma {:induction false} FetchesAreFarApart(fetched: seq<Call>, i: nat, j: nat)
    requires Spaced(fetched) && i <= j < |fetched|
    ensures fetched[j].now - fetched[i].now >= MINUTE * (j - i)
    decreases j
  {
    if i < j {
      FetchesAreFarApart(fetched, i, j - 1);
    }
  }

  /** A window of so many seconds holds at most one fetch and one more a minute. */
  lemma FetchesAreFew(current: string, calls: seq<Call>, i: nat, j: nat, seconds: nat)
    requires var fetched := Fetched(current, calls);
             i <= j < |fetched| && fetched[j].now - fetched[i].now <= seconds * 1000
    ensures j - i + 1 <= 1 + seconds / 60
  {
    FetchesAreSpaced(current, calls);
    FetchesAreFarApart(Fetched(current, calls), i, j);
    assert 60 * (j - i) <= seconds;
  }

  lemma {:induction false} FetchesAreEnabled(current: string, calls: seq<Call>, i: nat)
    requires i < |Fetched(current, calls)|
    ensures Fetched(current, calls)[i].enabled
    decreases |calls|
  {
    if i < |Fetched(current, calls[..|calls| - 1])| {
      FetchesAreEnabled(current, calls[..|calls| - 1], i);
    }
  }

  /** What is announced after a successful check is an update exactly when the newest
      admissible release exceeds the version that runs. */
  lemma AnnouncedExactlyWhenNewer(current: string, cache: Cache, call: Call, releases: seq<Release>)
    requires Fetches(cache, call) && call.answer == Ok(releases) && Parsed(current).Some?
    ensures var best := Newest(releases, Parsed(current).value);
            InfoOf(current, After(current, cache, call), true).updateAvailable
            <==> best.Some? && Compare(Parsed(best.value.tag).value, Parsed(current).value) == Greater
  {
    hide Compare;
    var best := Newest(releases, Parsed(current).value);
    if best.Some? {
      StrippingKeepsVersion(best.value.tag);
    }
  }
}
