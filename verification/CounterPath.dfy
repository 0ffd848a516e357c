/** Windows counter paths, `\\machine\object(instance)\counter`: which strings are read,
    and which of them come back from being written out. */
module CounterPath {
  import opened Wrappers
  import opened Text

  const BAR := '\\'

  /** `category` is what the platform calls the object. */
  datatype Path = Path(machine: Option<string>, category: string, instance: Option<string>, counter: string)

  datatype Error = NoObjectAfterMachine | NoBackslash | NoCounter | Unbalanced | NoObject

  /** Where `s` last holds that character, if it does. */
  function LastOf(s: string, c: char): (r: Option<nat>)
    ensures r.Some? ==> r.value < |s| && s[r.value] == c
    ensures r.Some? ==> forall k :: r.value < k < |s| ==> s[k] != c
    ensures r.None? ==> forall k :: 0 <= k < |s| ==> s[k] != c
  {
    if s == "" then None
    else if s[|s| - 1] == c then Some(|s| - 1)
    else LastOf(s[..|s| - 1], c)
  }

  /** The machine, and what follows the bar after it. */
  function MachineOf(path: string): Result<(Option<string>, string), Error> {
    if |path| >= 2 && path[0] == path[1] == BAR then
      var after := path[2..];
      var n := Before(after, BAR);
      if n == |after| then Err(NoObjectAfterMachine) else Ok((Some(after[..n]), after[n + 1..]))
    else if path != "" && path[0] == BAR then Ok((None, path[1..]))
    else Err(NoBackslash)
  }

  /** The instance is between the first opening parenthesis and a closing one at the
      very end. */
  function ObjectOf(part: string): Result<(string, Option<string>), Error> {
    var n := Before(part, '(');
    if n == |part| then Ok((part, None))
    else
      var inner := part[n + 1..];
      if inner == "" || inner[|inner| - 1] != ')' then Err(Unbalanced)
      else Ok((part[..n], if |inner| == 1 then None else Some(inner[..|inner| - 1])))
  }

  function RestOf(machine: Option<string>, rest: string): Result<Path, Error> {
    var n := LastOf(rest, BAR);
    if n.None? then Err(NoCounter)
    else
      var counter := Trim(rest[n.value + 1..]);
      if counter == "" then Err(NoCounter)
      else
        match ObjectOf(rest[..n.value])
        case Err(error) => Err(error)
        case Ok((category, instance)) =>
          if Trim(category) == "" then Err(NoObject) else Ok(Path(machine, Trim(category), instance, counter))
  }

  function Parsed(raw: string): Result<Path, Error> {
    match MachineOf(Trim(raw))
    case Err(error) => Err(error)
    case Ok((machine, rest)) => RestOf(machine, rest)
  }

  function ObjectText(path: Path): string {
    path.category + if path.instance.Some? then "(" + path.instance.value + ")" else ""
  }

  function Printed(path: Path): string {
    (if path.machine.Some? then [BAR, BAR] + path.machine.value else "")
    + [BAR] + (ObjectText(path) + [BAR] + path.counter)
  }

  predicate Without(s: string, c: char) {
    forall k :: 0 <= k < |s| ==> s[k] != c
  }

  /** What a parsed path looks like.  An instance may hold anything, parentheses and
      backslashes included. */
  predicate WellFormed(path: Path) {
    && path.category != "" && Trimmed(path.category) && Without(path.category, '(')
    && path.counter != "" && Trimmed(path.counter) && Without(path.counter, BAR)
    && (path.machine.Some? ==> Without(path.machine.value, BAR))
    && (path.instance.Some? ==> path.instance.value != "")
  }

  lemma {:induction false} TrimStartTakes(s: string)
    ensures |TrimStart(s)| <= |s| && TrimStart(s) == s[|s| - |TrimStart(s)|..]
  {
    if s != "" && IsSpace(s[0]) {
      TrimStartTakes(s[1..]);
    }
  }

  lemma SliceOfSlice(s: string, i: nat, n: nat)
    requires i + n <= |s|
    ensures s[i..][..n] == s[i..i + n]
  {
  }

  /** Trimming takes a part of the string, and leaves nothing to trim. */
  lemma TrimTakes(s: string)
    ensures Trimmed(Trim(s))
    ensures exists i: nat, j: nat :: i <= j <= |s| && Trim(s) == s[i..j]
  {
    TrimStartTakes(s);
    var t := TrimStart(s);
    var u := TrimEnd(t);
    var i := |s| - |t|;
    SliceOfSlice(s, i, |u|);
    assert u == t[..|u|];
    assert u != "" ==> u[0] == t[0];
  }

  lemma WithoutPart(s: string, c: char)
    requires Without(s, c)
    ensures Without(Trim(s), c)
  {
    TrimTakes(s);
    var i: nat, j: nat :| i <= j <= |s| && Trim(s) == s[i..j];
  }

  /** Everything that is read is of that form. */
  lemma ParsedIsWellFormed(raw: string)
    ensures Parsed(raw).Ok? ==> WellFormed(Parsed(raw).value)
  {
    var machine := MachineOf(Trim(raw));
    if machine.Ok? {
      RestIsWellFormed(machine.value.0, machine.value.1);
    }
  }

  lemma RestIsWellFormed(machine: Option<string>, rest: string)
    requires machine.Some? ==> Without(machine.value, BAR)
    ensures RestOf(machine, rest).Ok? ==> WellFormed(RestOf(machine, rest).value)
  {
    hide Trim;
    var n := LastOf(rest, BAR);
    if n.Some? {
      var counter, part := rest[n.value + 1..], rest[..n.value];
      WithoutPart(counter, BAR);
      TrimTakes(counter);
      var category := ObjectOf(part);
      if category.Ok? {
        WithoutPart(category.value.0, '(');
        TrimTakes(category.value.0);
      }
    }
  }

  // ------------------------------------------------------------ written out and read back

  lemma BeforeBar(s: string, c: char, rest: string)
    requires Without(s, c)
    ensures Before(s + [c] + rest, c) == |s|
    ensures Before(s, c) == |s|
  {
    BeforeConcat(s, c, rest);
  }

  lemma ObjectReads(path: Path)
    requires WellFormed(path)
    ensures ObjectOf(ObjectText(path)) == Ok((path.category, path.instance))
  {
    var text := ObjectText(path);
    if path.instance.None? {
      BeforeBar(path.category, '(', "");
      assert text == path.category;
    } else {
      var inner := path.instance.value + ")";
      assert text == path.category + ['('] + inner;
      BeforeBar(path.category, '(', inner);
      assert text[..|path.category|] == path.category && text[|path.category| + 1..] == inner;
      assert inner[..|inner| - 1] == path.instance.value;
    }
  }

  lemma {:induction false} LastBar(a: string, c: char, b: string)
    requires Without(b, c)
    ensures LastOf(a + [c] + b, c) == Some(|a|)
    decreases |b|
  {
    var s := a + [c] + b;
    if b != "" {
      assert s[..|s| - 1] == a + [c] + b[..|b| - 1];
      LastBar(a, c, b[..|b| - 1]);
    }
  }

  lemma RestReads(path: Path)
    requires WellFormed(path)
    ensures RestOf(path.machine, ObjectText(path) + [BAR] + path.counter) == Ok(path)
  {
    hide ObjectText;
    var text := ObjectText(path);
    var rest := text + [BAR] + path.counter;
    LastBar(text, BAR, path.counter);
    assert rest[..|text|] == text && rest[|text| + 1..] == path.counter;
    TrimmedStays(path.counter);
    TrimmedStays(path.category);
    ObjectReads(path);
  }

  lemma PrintedIsTrimmed(path: Path)
    requires WellFormed(path)
    ensures Trim(Printed(path)) == Printed(path)
  {
    hide ObjectText;
    var s := Printed(path);
    assert s[0] == BAR && s[|s| - 1] == path.counter[|path.counter| - 1];
    TrimmedStays(s);
  }

  /** The object would be taken for a machine. */
  predicate LooksLikeMachine(path: Path) {
    path.machine.None? && path.category != "" && path.category[0] == BAR
  }

  lemma MachineReads(path: Path)
    requires WellFormed(path) && !LooksLikeMachine(path)
    ensures MachineOf(Printed(path)) == Ok((path.machine, ObjectText(path) + [BAR] + path.counter))
  {
    var rest := ObjectText(path) + [BAR] + path.counter;
    assert rest[0] == path.category[0];
    hide ObjectText;
    var s := Printed(path);
    if path.machine.Some? {
      var machine := path.machine.value;
      assert s[2..] == machine + [BAR] + rest;
      BeforeBar(machine, BAR, rest);
      assert s[2..][..|machine|] == machine && s[2..][|machine| + 1..] == rest;
    } else {
      assert s == [BAR] + rest;
      assert s[1] == rest[0] && s[1..] == rest;
    }
  }

  /** A path that is written out is read back as itself, exactly when it does not start
      like one that names a machine. */
  lemma PrintedReads(path: Path)
    requires WellFormed(path)
    ensures Parsed(Printed(path)) == Ok(path) <==> !LooksLikeMachine(path)
  {
    PrintedIsTrimmed(path);
    if LooksLikeMachine(path) {
      TakenForMachine(path);
    } else {
      MachineReads(path);
      RestReads(path);
    }
  }

  lemma TakenForMachine(path: Path)
    requires WellFormed(path) && LooksLikeMachine(path)
    ensures var m := MachineOf(Printed(path));
            m.Ok? ==> m.value.0.Some?
  {
    var s := Printed(path);
    assert s[0] == BAR && s[1] == path.category[0] == BAR;
  }

  /** Whatever string is accepted, the path it gives survives being written out and read
      again, unless its object starts with a backslash and it names no machine. */
  lemma ReparseIsStable(raw: string)
    requires Parsed(raw).Ok?
    ensures Parsed(Printed(Parsed(raw).value)) == Parsed(raw) <==> !LooksLikeMachine(Parsed(raw).value)
  {
    hide *;
    ParsedIsWellFormed(raw);
    PrintedReads(Parsed(raw).value);
  }

  /** With an object free of backslashes there is no exception. */
  lemma PlainPathsComeBack(path: Path)
    requires WellFormed(path) && Without(path.category, BAR)
    ensures Parsed(Printed(path)) == Ok(path)
  {
    PrintedReads(path);
  }

  /** There is such a string: a space between the first backslash and the next. */
  lemma SpacedObjectIsLost()
    ensures var raw := [BAR, ' ', BAR, 'o', BAR, 'c'];
            Parsed(raw) == Ok(Path(None, [BAR, 'o'], None, "c"))
  {
    var raw := [BAR, ' ', BAR, 'o', BAR, 'c'];
    TrimmedStays(raw);
    var rest := [' ', BAR, 'o', BAR, 'c'];
    assert raw[1..] == rest;
    assert rest == [' ', BAR, 'o'] + [BAR] + "c";
    LastBar([' ', BAR, 'o'], BAR, "c");
    assert rest[..3] == [' ', BAR, 'o'] && rest[4..] == "c";
    TrimmedStays("c");
    BeforeBar([' ', BAR, 'o'], '(', "");
    assert [' ', BAR, 'o'][1..] == [BAR, 'o'];
    TrimmedStays([BAR, 'o']);
    assert Trim([' ', BAR, 'o']) == [BAR, 'o'];
  }
}
