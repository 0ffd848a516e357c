/** Strings as the Rust standard library treats them: white space, trimming,
    splitting, and the order of keys in a sorted map. */
module Text {
  import opened Wrappers

  /** The Unicode White_Space property. */
  predicate IsSpace(c: char) {
    || '\t' <= c <= '\r' || c == ' ' || c == '\U{85}' || c == '\U{A0}' || c == '\U{1680}'
    || '\U{2000}' <= c <= '\U{200A}' || c == '\U{2028}' || c == '\U{2029}' || c == '\U{202F}'
    || c == '\U{205F}' || c == '\U{3000}'
  }

  predicate IsDigit(c: char) { '0' <= c <= '9' }

  predicate IsAlnum(c: char) {
    IsDigit(c) || 'a' <= c <= 'z' || 'A' <= c <= 'Z'
  }

  function Lower(s: string): (r: string)
    ensures |r| == |s|
  {
    seq(|s|, i requires 0 <= i < |s| => if 'A' <= s[i] <= 'Z' then s[i] - 'A' + 'a' else s[i])
  }

  function TrimStart(s: string): (r: string)
    ensures |r| <= |s|
    ensures r != "" ==> !IsSpace(r[0])
  {
    if s != "" && IsSpace(s[0]) then TrimStart(s[1..]) else s
  }

  function TrimEnd(s: string): (r: string)
    ensures r <= s
    ensures r != "" ==> !IsSpace(r[|r| - 1])
  {
    if s != "" && IsSpace(s[|s| - 1]) then TrimEnd(s[..|s| - 1]) else s
  }

  function Trim(s: string): string {
    TrimEnd(TrimStart(s))
  }

  /** Nothing to trim. */
  predicate Trimmed(s: string) {
    s != "" ==> !IsSpace(s[0]) && !IsSpace(s[|s| - 1])
  }

  lemma TrimmedStays(s: string)
    requires Trimmed(s)
    ensures TrimStart(s) == TrimEnd(s) == Trim(s) == s
  {
  }

  predicate Has(s: string, c: char) {
    exists k :: 0 <= k < |s| && s[k] == c
  }

  /** The length of the part before the first `c`, or of the whole string. */
  function Before(s: string, c: char): (n: nat)
    ensures n <= |s|
    ensures forall k :: 0 <= k < n ==> s[k] != c
    ensures n < |s| ==> s[n] == c
  {
    if s == "" || s[0] == c then 0 else 1 + Before(s[1..], c)
  }

  lemma BeforeConcat(a: string, c: char, b: string)
    requires !Has(a, c)
    ensures Before(a + [c] + b, c) == |a|
  {
    var s := a + [c] + b;
    assert s[|a|] == c;
    forall k | 0 <= k < |a| ensures s[k] != c {
      assert s[k] == a[k];
    }
  }

  /** The pieces of `s` between line ends; a final line end opens no new line.  A
      carriage return before a line end is left to trimming. */
  function Lines(s: string): seq<string> {
    if s == "" then []
    else
      var n := Before(s, '\n');
      if n == |s| then [s] else [s[..n]] + Lines(s[n + 1..])
  }

  function Unlines(lines: seq<string>): string {
    if lines == [] then "" else lines[0] + "\n" + Unlines(lines[1..])
  }

  /** Writing lines and reading them back. */
  lemma {:induction false} LinesOfUnlines(lines: seq<string>)
    requires forall k :: 0 <= k < |lines| ==> !Has(lines[k], '\n')
    ensures Lines(Unlines(lines)) == lines
  {
    if lines != [] {
      var rest := Unlines(lines[1..]);
      var s := lines[0] + ['\n'] + rest;
      assert Unlines(lines) == s;
      BeforeConcat(lines[0], '\n', rest);
      assert s[..|lines[0]|] == lines[0] && s[|lines[0]| + 1..] == rest;
      LinesOfUnlines(lines[1..]);
    }
  }

  lemma {:induction false} UnlinesConcat(a: seq<string>, b: seq<string>)
    ensures Unlines(a + b) == Unlines(a) + Unlines(b)
  {
    if a == [] {
      assert a + b == b;
    } else {
      assert (a + b)[1..] == a[1..] + b;
      UnlinesConcat(a[1..], b);
    }
  }

  /** The first word of `s`, if it has one. */
  function FirstWord(s: string): (r: Option<string>) {
    var t := TrimStart(s);
    if t == "" then None else Some(t[..WordLength(t)])
  }

  function AfterFirstWord(s: string): string {
    var t := TrimStart(s);
    t[WordLength(t)..]
  }

  function WordLength(s: string): (n: nat)
    ensures n <= |s|
    ensures forall k :: 0 <= k < n ==> !IsSpace(s[k])
    ensures n < |s| ==> IsSpace(s[n])
  {
    if s == "" || IsSpace(s[0]) then 0 else 1 + WordLength(s[1..])
  }

  predicate IsToken(s: string) {
    s != "" && forall k :: 0 <= k < |s| ==> !IsSpace(s[k])
  }

  lemma TokenIsFirstWord(token: string, rest: string)
    requires IsToken(token)
    requires rest == "" || IsSpace(rest[0])
    ensures FirstWord(" " + token + rest) == Some(token)
    ensures AfterFirstWord(" " + token + rest) == rest
  {
    var t := token + rest;
    var s := " " + token + rest;
    assert s[1..] == t;
    assert t[0] == token[0];
    assert TrimStart(s) == TrimStart(t) == t;
    WordLengthOf(token, rest);
    assert t[..|token|] == token && t[|token|..] == rest;
  }

  lemma WordLengthOf(token: string, rest: string)
    requires IsToken(token)
    requires rest == "" || IsSpace(rest[0])
    ensures WordLength(token + rest) == |token|
  {
    var t := token + rest;
    forall k | 0 <= k < |token| ensures !IsSpace(t[k]) {
      assert t[k] == token[k];
    }
    if rest != "" {
      assert t[|token|] == rest[0];
    }
  }

  lemma LowerStays(s: string)
    requires forall k :: 0 <= k < |s| ==> !('A' <= s[k] <= 'Z')
    ensures Lower(s) == s
  {
  }

  // ------------------------------------------------------------ the order of keys

  /** Lexicographic order on code points, which is the order of UTF-8 bytes. */
  predicate Leq(a: string, b: string) {
    a == "" || (b != "" && (a[0] < b[0] || (a[0] == b[0] && Leq(a[1..], b[1..]))))
  }

  lemma {:induction false} LeqReflexive(a: string)
    ensures Leq(a, a)
  {
    if a != "" {
      LeqReflexive(a[1..]);
    }
  }

  lemma {:induction false} LeqTotal(a: string, b: string)
    ensures Leq(a, b) || Leq(b, a)
    ensures Leq(a, b) && Leq(b, a) ==> a == b
  {
    if a != "" && b != "" && a[0] == b[0] {
      LeqTotal(a[1..], b[1..]);
      if Leq(a, b) && Leq(b, a) {
        assert a == [a[0]] + a[1..] && b == [b[0]] + b[1..];
      }
    }
  }

  lemma {:induction false} LeqTransitive(a: string, b: string, c: string)
    requires Leq(a, b) && Leq(b, c)
    ensures Leq(a, c)
  {
    if a != "" && a[0] == b[0] && b[0] == c[0] {
      LeqTransitive(a[1..], b[1..], c[1..]);
    }
  }

  /** `x` put before the first element that is not below it. */
  function Insert(x: string, s: seq<string>): (r: seq<string>)
    ensures multiset(r) == multiset(s) + multiset{x}
    ensures |r| == |s| + 1
  {
    if s == [] then [x]
    else if Leq(x, s[0]) then
      assert [x] + s == [x] + s && multiset([x] + s) == multiset{x} + multiset(s);
      [x] + s
    else
      assert s == [s[0]] + s[1..];
      [s[0]] + Insert(x, s[1..])
  }

  /** `lines.sort()`. */
  function Sort(s: seq<string>): (r: seq<string>)
    ensures multiset(r) == multiset(s)
    ensures |r| == |s|
  {
    if s == [] then [] else
      assert s == [s[0]] + s[1..];
      Insert(s[0], Sort(s[1..]))
  }

  predicate Sorted(s: seq<string>) {
    forall i, j :: 0 <= i < j < |s| ==> Leq(s[i], s[j])
  }

  lemma {:induction false} InsertSorts(x: string, s: seq<string>)
    requires Sorted(s)
    ensures Sorted(Insert(x, s))
  {
    if s == [] {
    } else if Leq(x, s[0]) {
      forall j | 0 <= j < |s| ensures Leq(x, s[j]) {
        if j > 0 {
          LeqTransitive(x, s[0], s[j]);
        }
      }
    } else {
      LeqTotal(x, s[0]);
      InsertSorts(x, s[1..]);
      var r := Insert(x, s[1..]);
      forall j | 0 <= j < |r| ensures Leq(s[0], r[j]) {
        assert r[j] in multiset(r);
        assert r[j] == x || r[j] in multiset(s[1..]);
        if r[j] != x {
          assert r[j] in s[1..];
        }
      }
    }
  }

  lemma {:induction false} SortSorts(s: seq<string>)
    ensures Sorted(Sort(s))
  {
    if s != [] {
      SortSorts(s[1..]);
      InsertSorts(s[0], Sort(s[1..]));
    }
  }

  lemma HeadIsLeast(a: seq<string>, x: string)
    requires Sorted(a) && x in a
    ensures Leq(a[0], x)
  {
    LeqReflexive(a[0]);
    var i :| 0 <= i < |a| && a[i] == x;
  }

  lemma TailBag(a: seq<string>)
    requires a != []
    ensures multiset(a[1..]) == multiset(a) - multiset{a[0]}
  {
    assert a == [a[0]] + a[1..];
  }

  lemma SameHead(a: seq<string>, b: seq<string>)
    requires Sorted(a) && Sorted(b) && multiset(a) == multiset(b) && a != []
    ensures b != [] && a[0] == b[0]
  {
    assert a[0] in multiset(b);
    assert b[0] in multiset(a);
    HeadIsLeast(a, b[0]);
    HeadIsLeast(b, a[0]);
    LeqTotal(a[0], b[0]);
  }

  /** There is only one way to sort. */
  lemma {:induction false} SortedIsUnique(a: seq<string>, b: seq<string>)
    requires Sorted(a) && Sorted(b) && multiset(a) == multiset(b)
    ensures a == b
  {
    if a == [] {
      assert |b| == |multiset(b)| == 0;
    } else {
      SameHead(a, b);
      TailBag(a);
      TailBag(b);
      SortedIsUnique(a[1..], b[1..]);
      assert a == [a[0]] + a[1..] && b == [b[0]] + b[1..];
    }
  }

  /** Sorting forgets the order, and nothing else. */
  lemma SortForgetsOrder(a: seq<string>, b: seq<string>)
    ensures Sort(a) == Sort(b) <==> multiset(a) == multiset(b)
  {
    SortSorts(a);
    SortSorts(b);
    if multiset(a) == multiset(b) {
      SortedIsUnique(Sort(a), Sort(b));
    }
  }

  ghost predicate IsLeast(m: string, s: set<string>) {
    m in s && forall x :: x in s ==> Leq(m, x)
  }

  lemma LesserOfTwo(s: set<string>, a: string, m: string)
    requires a in s && IsLeast(m, s - {a})
    ensures IsLeast(if Leq(a, m) then a else m, s)
  {
    LeqTotal(a, m);
    LeqReflexive(a);
    forall x | x in s ensures Leq(if Leq(a, m) then a else m, x) {
      if x != a {
        assert x in s - {a};
        if Leq(a, m) {
          LeqTransitive(a, m, x);
        }
      }
    }
  }

  lemma LeastExists(s: set<string>)
    requires s != {}
    ensures exists m :: IsLeast(m, s)
    decreases |s|
  {
    var a :| a in s;
    LeqReflexive(a);
    if s - {a} == {} {
      forall x | x in s ensures x == a {
        assert x == a || x in s - {a};
      }
      assert IsLeast(a, s);
    } else {
      LeastExists(s - {a});
      var m :| IsLeast(m, s - {a});
      LesserOfTwo(s, a, m);
    }
  }

  lemma AntisymmetricEverywhere()
    ensures forall a, b :: Leq(a, b) && Leq(b, a) ==> a == b
  {
    forall a, b | Leq(a, b) && Leq(b, a) ensures a == b {
      LeqTotal(a, b);
    }
  }

  /** The keys of a sorted map, in the order it is walked in. */
  function InOrder(s: set<string>): (r: seq<string>)
    ensures forall x :: x in r <==> x in s
    ensures |r| == |s|
    ensures forall i, j :: 0 <= i < j < |r| ==> r[i] != r[j]
    decreases |s|
  {
    if s == {} then [] else
      LeastExists(s);
      AntisymmetricEverywhere();
      assert exists m :: m in s && forall x :: x in s ==> Leq(m, x);
      var m :| m in s && forall x :: x in s ==> Leq(m, x);
      [m] + InOrder(s - {m})
  }

  lemma KeysInOrder<V>(m: map<string, V>)
    ensures forall k :: 0 <= k < |InOrder(m.Keys)| ==> InOrder(m.Keys)[k] in m
  {
    hide InOrder;
    forall k | 0 <= k < |InOrder(m.Keys)| ensures InOrder(m.Keys)[k] in m {
      assert InOrder(m.Keys)[k] in InOrder(m.Keys);
    }
  }

  /** The entries of `labels` put into `acc`, one key after the other. */
  function AddAll(acc: map<string, string>, keys: seq<string>, labels: map<string, string>): map<string, string>
    requires forall k :: 0 <= k < |keys| ==> keys[k] in labels
    decreases |keys|
  {
    if keys == [] then acc else AddAll(acc[keys[0] := labels[keys[0]]], keys[1..], labels)
  }

  lemma {:induction false} AddAllAdds(acc: map<string, string>, keys: seq<string>, labels: map<string, string>)
    requires forall k :: 0 <= k < |keys| ==> keys[k] in labels
    ensures AddAll(acc, keys, labels).Keys == acc.Keys + set k | k in keys
    ensures forall k :: k in AddAll(acc, keys, labels) ==>
      AddAll(acc, keys, labels)[k] == if k in keys then labels[k] else acc[k]
    decreases |keys|
  {
    if keys != [] {
      AddAllAdds(acc[keys[0] := labels[keys[0]]], keys[1..], labels);
      assert keys == [keys[0]] + keys[1..];
    }
  }
}
