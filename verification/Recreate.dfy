/** Turning the inspection of a container into the request that recreates it: what the
    old image supplied is taken out, so that the new image can supply its own; named
    volumes are bound again; networks are split, one at creation, the others after. */
module Recreate {
  import opened Wrappers
  import opened Text
  import opened Lists

  datatype Value =
    | Null
    | Bool(flag: bool)
    | Number(digits: string)
    | String(chars: string)
    | Array(items: seq<Value>)
    | Object(fields: map<string, Value>)

  type Fields = map<string, Value>

  function Get(v: Value, key: string): Option<Value> {
    if v.Object? && key in v.fields then Some(v.fields[key]) else None
  }

  /** Indexing: a missing member reads as null. */
  function At(v: Value, key: string): Value {
    if v.Object? && key in v.fields then v.fields[key] else Null
  }

  function Items(v: Value): seq<Value> {
    if v.Array? then v.items else []
  }

  // ------------------------------------------------------------ what the image supplied

  const LIST_KEYS := ["Env", "ExposedPorts", "Volumes", "Labels"]

  const PLAIN_KEYS := ["Cmd", "Entrypoint", "WorkingDir", "User"]

  /** The entries that are not among the inherited ones. */
  function Without(entries: seq<Value>, inherited: seq<Value>): (r: seq<Value>)
    ensures forall e :: e in r <==> e in entries && e !in inherited
  {
    if entries == [] then []
    else
      var before, last := Without(entries[..|entries| - 1], inherited), entries[|entries| - 1];
      assert forall e :: e in entries <==> e in entries[..|entries| - 1] || e == last;
      if last in inherited then before else before + [last]
  }

  /** The members that the image does not hold with the same value. */
  function Outside(fields: Fields, inherited: Fields): Fields {
    map k | k in fields && !(k in inherited && inherited[k] == fields[k]) :: fields[k]
  }

  function Reduced(current: Value, inherited: Value): Value {
    match current
    case Array(entries) => Array(Without(entries, Items(inherited)))
    case Object(fields) => if inherited.Object? then Object(Outside(fields, inherited.fields)) else current
    case _ => current
  }

  function Supplied(image: Value, key: string): Option<Value> {
    var v := Get(image, key);
    if v == Some(Null) then None else v
  }

  function Subtracted(config: Fields, image: Value): Fields {
    map k | k in config && !(k in PLAIN_KEYS && Get(image, k) == Some(config[k])) ::
      if k in LIST_KEYS && Supplied(image, k).Some? then Reduced(config[k], Supplied(image, k).value) else config[k]
  }

  method RetainEntries(entries: seq<Value>, inherited: seq<Value>) returns (r: seq<Value>)
    ensures r == Without(entries, inherited)
  {
    r := [];
    for i := 0 to |entries|
      invariant r == Without(entries[..i], inherited)
    {
      assert entries[..i + 1][..i] == entries[..i];
      if entries[i] !in inherited {
        r := r + [entries[i]];
      }
    }
    assert entries[..|entries|] == entries;
  }

  method RetainFields(fields: Fields, inherited: Fields) returns (r: Fields)
    ensures r == Outside(fields, inherited)
  {
    r := fields;
    var todo := fields.Keys;
    while todo != {}
      invariant todo <= fields.Keys
      invariant forall k :: k in r <==> k in fields && (k in todo || !(k in inherited && inherited[k] == fields[k]))
      invariant forall k :: k in r ==> r[k] == fields[k]
      decreases |todo|
    {
      var k :| k in todo;
      todo := todo - {k};
      if k in inherited && inherited[k] == fields[k] {
        r := r - {k};
      }
    }
  }

  function ReducedAt(config: Fields, image: Value, key: string): Fields {
    var inherited := Supplied(image, key);
    if key in config && inherited.Some? then config[key := Reduced(config[key], inherited.value)] else config
  }

  method ReduceAt(config: Fields, image: Value, key: string) returns (r: Fields)
    ensures r == ReducedAt(config, image, key)
  {
    r := config;
    var inherited := Supplied(image, key);
    if inherited.Some? && key in config {
      match config[key]
      case Array(entries) =>
        var kept := RetainEntries(entries, Items(inherited.value));
        r := config[key := Array(kept)];
      case Object(fields) =>
        if inherited.value.Object? {
          var kept := RetainFields(fields, inherited.value.fields);
          r := config[key := Object(kept)];
        }
      case _ =>
    }
  }

  function ListsReduced(config: Fields, image: Value, keys: seq<string>): Fields {
    map k | k in config ::
      if k in keys && Supplied(image, k).Some? then Reduced(config[k], Supplied(image, k).value) else config[k]
  }

  lemma ListsReducedSnoc(config: Fields, image: Value, keys: seq<string>, key: string)
    requires key !in keys
    ensures ListsReduced(config, image, keys + [key]) == ReducedAt(ListsReduced(config, image, keys), image, key)
  {
    hide Reduced;
    hide Supplied;
  }

  function PlainRemoved(config: Fields, image: Value, keys: seq<string>): Fields {
    map k | k in config && !(k in keys && Get(image, k) == Some(config[k])) :: config[k]
  }

  lemma PlainRemovedSnoc(config: Fields, image: Value, keys: seq<string>, key: string)
    ensures var r := PlainRemoved(config, image, keys);
            PlainRemoved(config, image, keys + [key])
            == if key in r && Get(image, key) == Some(r[key]) then r - {key} else r
  {
    hide Get;
  }

  lemma SubtractedInTwoPasses(config: Fields, image: Value)
    ensures PlainRemoved(ListsReduced(config, image, LIST_KEYS), image, PLAIN_KEYS) == Subtracted(config, image)
  {
    hide Reduced;
    hide Supplied;
    hide Get;
    assert forall k :: k in PLAIN_KEYS ==> k !in LIST_KEYS;
  }

  method SubtractImageDefaults(config: Fields, image: Value) returns (r: Fields)
    ensures r == Subtracted(config, image)
  {
    hide ReducedAt;
    hide Get;
    r := config;
    assert ListsReduced(config, image, []) == config;
    assert LIST_KEYS[..0] == [];
    for i := 0 to |LIST_KEYS|
      invariant r == ListsReduced(config, image, LIST_KEYS[..i])
    {
      assert LIST_KEYS[..i + 1] == LIST_KEYS[..i] + [LIST_KEYS[i]];
      ListsReducedSnoc(config, image, LIST_KEYS[..i], LIST_KEYS[i]);
      r := ReduceAt(r, image, LIST_KEYS[i]);
    }
    assert LIST_KEYS[..4] == LIST_KEYS;
    ghost var reduced := r;
    assert PLAIN_KEYS[..0] == [];
    assert PlainRemoved(reduced, image, []) == reduced;
    for i := 0 to |PLAIN_KEYS|
      invariant r == PlainRemoved(reduced, image, PLAIN_KEYS[..i])
    {
      var key := PLAIN_KEYS[i];
      assert PLAIN_KEYS[..i + 1] == PLAIN_KEYS[..i] + [key];
      PlainRemovedSnoc(reduced, image, PLAIN_KEYS[..i], key);
      if key in r && Get(image, key) == Some(r[key]) {
        r := r - {key};
      }
    }
    assert PLAIN_KEYS[..4] == PLAIN_KEYS;
    SubtractedInTwoPasses(config, image);
  }

  // ------------------------------------------------------------ what the daemon makes of the request

  /** The variable an entry of `Env` sets. */
  function EntryKey(entry: Value): string {
    if entry.String? then entry.chars[..Before(entry.chars, '=')] else ""
  }

  predicate UniqueKeys(entries: seq<Value>) {
    forall i, j :: 0 <= i < j < |entries| ==> EntryKey(entries[i]) != EntryKey(entries[j])
  }

  predicate HasKey(entries: seq<Value>, key: string) {
    exists i :: 0 <= i < |entries| && EntryKey(entries[i]) == key
  }

  /** The entries of the image that the request does not override. */
  function Missing(own: seq<Value>, image: seq<Value>): (r: seq<Value>)
    ensures forall e :: e in r <==> e in image && !HasKey(own, EntryKey(e))
    decreases |image|
  {
    if image == [] then []
    else
      assert forall e :: e in image <==> e == image[0] || e in image[1..];
      (if HasKey(own, EntryKey(image[0])) then [] else [image[0]]) + Missing(own, image[1..])
  }

  function OverlaidEntries(own: seq<Value>, image: seq<Value>): seq<Value> {
    own + Missing(own, image)
  }

  function OverlaidFields(own: Fields, image: Fields): Fields {
    image + own
  }

  /** The same entries, in any order. */
  ghost predicate SameEntries(a: seq<Value>, b: seq<Value>) {
    forall e :: e in a <==> e in b
  }

  ghost predicate KeysWithin(image: seq<Value>, config: seq<Value>) {
    forall e :: e in image ==> HasKey(config, EntryKey(e))
  }

  lemma OnlyOne(entries: seq<Value>, a: Value, b: Value)
    requires UniqueKeys(entries) && a in entries && b in entries && EntryKey(a) == EntryKey(b)
    ensures a == b
  {
    hide EntryKey;
    var i :| 0 <= i < |entries| && entries[i] == a;
    var j :| 0 <= j < |entries| && entries[j] == b;
  }

  lemma KeptIffChosen(config: seq<Value>, image: seq<Value>, e: Value)
    requires UniqueKeys(config) && UniqueKeys(image) && e in image
    ensures HasKey(Without(config, image), EntryKey(e)) <==> HasKey(config, EntryKey(e)) && e !in config
  {
    hide EntryKey;
    var kept := Without(config, image);
    if HasKey(kept, EntryKey(e)) {
      var i :| 0 <= i < |kept| && EntryKey(kept[i]) == EntryKey(e);
      assert kept[i] in kept && kept[i] in config;
      var j :| 0 <= j < |config| && config[j] == kept[i];
      if e in config {
        OnlyOne(config, kept[i], e);
      }
    }
    if HasKey(config, EntryKey(e)) && e !in config {
      var j :| 0 <= j < |config| && EntryKey(config[j]) == EntryKey(e);
      if config[j] in image {
        OnlyOne(image, config[j], e);
      }
      assert config[j] in kept;
      var i :| 0 <= i < |kept| && kept[i] == config[j];
    }
  }

  /** Laid over the same old image, the reduced list gives back the inspected one,
      exactly when every key of the image is still set in the container. */
  lemma EntriesComeBack(config: seq<Value>, image: seq<Value>)
    requires UniqueKeys(config) && UniqueKeys(image)
    ensures SameEntries(OverlaidEntries(Without(config, image), image), config) <==> KeysWithin(image, config)
  {
    hide EntryKey;
    hide HasKey;
    hide UniqueKeys;
    var kept := Without(config, image);
    var all := OverlaidEntries(kept, image);
    forall e | e in image ensures e in all <==> e in config || !HasKey(config, EntryKey(e)) {
      KeptIffChosen(config, image, e);
    }
    forall e | e in config ensures HasKey(config, EntryKey(e)) {
      InHasKey(config, e);
    }
    if SameEntries(all, config) {
      forall e | e in image ensures HasKey(config, EntryKey(e)) {
        assert e in all <==> e in config;
      }
    }
  }

  lemma InHasKey(entries: seq<Value>, e: Value)
    requires e in entries
    ensures HasKey(entries, EntryKey(e))
  {
    hide EntryKey;
    var i :| 0 <= i < |entries| && entries[i] == e;
  }

  /** Laid over a new image: what the user chose stays, everything else is the new
      image's. */
  lemma EntriesOnNewImage(config: seq<Value>, image: seq<Value>, fresh': seq<Value>)
    requires UniqueKeys(config) && UniqueKeys(image) && UniqueKeys(fresh')
    ensures var all := OverlaidEntries(Without(config, image), fresh');
            && UniqueKeys(all)
            && forall e :: e in all <==>
                 if e in config && e !in image then true
                 else e in fresh' && !HasKey(Without(config, image), EntryKey(e))
  {
    hide EntryKey;
    var kept := Without(config, image);
    WithoutIsUnique(config, image);
    MissingIsUnique(kept, fresh');
    var added := Missing(kept, fresh');
    var all := kept + added;
    forall i, j | 0 <= i < j < |all| ensures EntryKey(all[i]) != EntryKey(all[j]) {
      if i < |kept| <= j {
        assert all[j] == added[j - |kept|];
        assert all[j] in added && all[i] in kept;
        InHasKey(kept, all[i]);
      } else if i >= |kept| {
        assert all[i] == added[i - |kept|] && all[j] == added[j - |kept|];
      }
    }
  }

  lemma {:induction false} WithoutIsUnique(config: seq<Value>, image: seq<Value>)
    requires UniqueKeys(config)
    ensures UniqueKeys(Without(config, image))
    decreases |config|
  {
    hide EntryKey;
    if config != [] {
      var rest := config[..|config| - 1];
      WithoutIsUnique(rest, image);
      var r := Without(rest, image);
      forall i | 0 <= i < |r| ensures EntryKey(r[i]) != EntryKey(config[|config| - 1]) {
        assert r[i] in r && r[i] in rest;
      }
    }
  }

  lemma {:induction false} MissingIsUnique(own: seq<Value>, image: seq<Value>)
    requires UniqueKeys(image)
    ensures UniqueKeys(Missing(own, image))
    decreases |image|
  {
    hide EntryKey;
    if image != [] {
      MissingIsUnique(own, image[1..]);
      var r := Missing(own, image[1..]);
      forall i | 0 <= i < |r| ensures EntryKey(r[i]) != EntryKey(image[0]) {
        assert r[i] in r && r[i] in image[1..];
      }
    }
  }

  lemma FieldsComeBack(config: Fields, image: Fields)
    ensures OverlaidFields(Outside(config, image), image) == config <==> image.Keys <= config.Keys
  {
    var all := OverlaidFields(Outside(config, image), image);
    assert all.Keys == config.Keys + image.Keys by {
      assert forall k :: k in config ==> k in Outside(config, image) || k in image;
    }
    forall k | k in config ensures all[k] == config[k] {
    }
    if image.Keys <= config.Keys {
      assert all.Keys == config.Keys;
    }
  }

  lemma FieldsOnNewImage(config: Fields, image: Fields, fresh': Fields, k: string)
    ensures var all := OverlaidFields(Outside(config, image), fresh');
            if k in config && !(k in image && image[k] == config[k]) then k in all && all[k] == config[k]
            else (k in all <==> k in fresh') && (k in all ==> all[k] == fresh'[k])
  {
  }

  /** A setting the daemon takes for one that was not made. */
  predicate Unset(v: Option<Value>) {
    v in {None, Some(Null), Some(Array([])), Some(Object(map[])), Some(String(""))}
  }

  /** What the daemon runs with, key by key.  Lists are merged; the image fills in the
      other keys that the request leaves out, except its command when the request has
      an entry point of its own. */
  function OverlaidAt(own: Fields, image: Value, key: string): Option<Value> {
    var mine, theirs := Get(Object(own), key), Get(image, key);
    if key in LIST_KEYS then OverlaidList(mine, Supplied(image, key))
    else if key == "Cmd" then
      if Unset(mine) && Unset(Get(Object(own), "Entrypoint")) then theirs else mine
    else if key == "Entrypoint" then
      if mine in {None, Some(Null)} then theirs else mine
    else if key in PLAIN_KEYS && Unset(mine) then theirs
    else mine
  }

  function OverlaidList(mine: Option<Value>, theirs: Option<Value>): Option<Value> {
    if theirs.None? then mine
    else if mine in {None, Some(Null)} then theirs
    else
      match (mine.value, theirs.value)
      case (Array(a), Array(b)) => Some(Array(OverlaidEntries(a, b)))
      case (Object(a), Object(b)) => Some(Object(OverlaidFields(a, b)))
      case _ => mine
  }

  ghost predicate SameSetting(a: Option<Value>, b: Option<Value>) {
    || a == b || (Unset(a) && Unset(b))
    || (a.Some? && b.Some? && a.value.Array? && b.value.Array? && SameEntries(a.value.items, b.value.items))
  }

  /** In the lists of the container and of its image no key is set twice. */
  ghost predicate SetOnce(config: Fields, image: Value) {
    forall key | key in LIST_KEYS :: UniqueKeys(Items(At(Object(config), key))) && UniqueKeys(Items(At(image, key)))
  }

  /** The container still has every key of the image's list. */
  ghost predicate HoldsList(current: Option<Value>, inherited: Option<Value>) {
    if inherited.None? then true
    else if current in {None, Some(Null)} then Unset(inherited)
    else
      match (current.value, inherited.value)
      case (Array(a), Array(b)) => KeysWithin(b, a)
      case (Object(a), Object(b)) => b.Keys <= a.Keys
      case _ => true
  }

  /** The user gave the container an entry point of his own. */
  predicate OwnEntrypoint(config: Fields, image: Value) {
    var current := Get(Object(config), "Entrypoint");
    !Unset(current) && current != Get(image, "Entrypoint")
  }

  /** When a setting survives recreation on the same image.  A list must hold the keys
      of the image's.  A setting must not have been cleared where the image has one,
      and a command beside the user's own entry point must not repeat the image's. */
  ghost predicate ComesBack(config: Fields, image: Value, key: string) {
    var current, inherited := Get(Object(config), key), Get(image, key);
    if key in LIST_KEYS then HoldsList(current, Supplied(image, key))
    else if key == "Cmd" then
      if OwnEntrypoint(config, image) then current == inherited ==> Unset(current)
      else Unset(current) ==> Unset(inherited)
    else if key == "Entrypoint" then current in {None, Some(Null)} ==> Unset(inherited)
    else if key in PLAIN_KEYS then Unset(current) ==> Unset(inherited)
    else true
  }

  lemma SomeEntryIsThere(entries: seq<Value>)
    ensures (forall e :: e !in entries) <==> entries == []
  {
    assert entries != [] ==> entries[0] in entries;
  }

  /** Merged with what the image has, what was left of a list is the list again exactly
      when it holds the keys of the image. */
  lemma ListComesBack(current: Value, inherited: Value)
    requires UniqueKeys(Items(current)) && UniqueKeys(Items(inherited)) && inherited != Null
    ensures SameSetting(OverlaidList(Some(Reduced(current, inherited)), Some(inherited)), Some(current))
            <==> HoldsList(Some(current), Some(inherited))
  {
    hide Without;
    hide Outside;
    hide OverlaidEntries;
    hide OverlaidFields;
    hide KeysWithin;
    hide UniqueKeys;
    if current.Array? && inherited.Array? {
      var a, b := current.items, inherited.items;
      EntriesComeBack(a, b);
      SomeEntryIsThere(a);
      SomeEntryIsThere(OverlaidEntries(Without(a, b), b));
    } else if current.Object? && inherited.Object? {
      FieldsComeBack(current.fields, inherited.fields);
    } else if current.Array? {
      assert SameEntries(Without(current.items, []), current.items);
    }
  }

  lemma ListKeyComesBack(config: Fields, image: Value, key: string)
    requires SetOnce(config, image) && key in LIST_KEYS
    ensures SameSetting(OverlaidAt(Subtracted(config, image), image, key), Get(Object(config), key))
            <==> ComesBack(config, image, key)
  {
    hide Reduced;
    hide UniqueKeys;
    hide HoldsList;
    hide OverlaidList;
    hide SameSetting;
    assert key !in PLAIN_KEYS;
    var r := Subtracted(config, image);
    var theirs := Supplied(image, key);
    if theirs.None? || key !in config {
      assert Get(Object(r), key) == Get(Object(config), key);
      MissingListComesBack(Get(Object(config), key), theirs);
    } else {
      ListComesBack(config[key], theirs.value);
      assert Get(Object(r), key) == Some(Reduced(config[key], theirs.value));
    }
  }

  lemma MissingListComesBack(current: Option<Value>, theirs: Option<Value>)
    requires current.None? || theirs.None?
    ensures SameSetting(OverlaidList(current, theirs), current) <==> HoldsList(current, theirs)
  {
  }

  /** What the subtraction leaves of a setting that is no list. */
  function Chosen(current: Option<Value>, inherited: Option<Value>): Option<Value> {
    if current == inherited then None else current
  }

  lemma ChosenIsLeft(config: Fields, image: Value, key: string)
    requires key in PLAIN_KEYS
    ensures Get(Object(Subtracted(config, image)), key) == Chosen(Get(Object(config), key), Get(image, key))
  {
    assert key !in LIST_KEYS;
  }

  lemma AtIsGet(v: Value, key: string)
    ensures At(v, key) == if Get(v, key).Some? then Get(v, key).value else Null
  {
  }

  lemma PlainKeyComesBack(config: Fields, image: Value, key: string)
    requires key in PLAIN_KEYS
    ensures SameSetting(OverlaidAt(Subtracted(config, image), image, key), Get(Object(config), key))
            <==> ComesBack(config, image, key)
  {
    hide Subtracted;
    hide Get;
    SomeEntryIsThere(Items(At(image, key)));
    AtIsGet(image, key);
    assert key !in LIST_KEYS;
    ChosenIsLeft(config, image, key);
    ChosenIsLeft(config, image, "Entrypoint");
  }

  /** Recreated on the same image, the container runs with the settings it had: its
      environment, labels, ports, volumes, command, entry point, directory and user,
      each of them exactly when it `ComesBack`. */
  lemma RecreationKeepsSettings(config: Fields, image: Value, key: string)
    requires SetOnce(config, image)
    ensures SameSetting(OverlaidAt(Subtracted(config, image), image, key), Get(Object(config), key))
            <==> ComesBack(config, image, key)
  {
    if key in LIST_KEYS {
      ListKeyComesBack(config, image, key);
    } else if key in PLAIN_KEYS {
      PlainKeyComesBack(config, image, key);
    }
  }

  /** Every container started with an entry point of its own and the very command of its
      image comes back without any command. */
  lemma RepeatedCommandIsLost(config: Fields, image: Value)
    requires OwnEntrypoint(config, image)
    requires Get(Object(config), "Cmd") == Get(image, "Cmd") && !Unset(Get(image, "Cmd"))
    ensures OverlaidAt(Subtracted(config, image), image, "Cmd") == None
  {
    ChosenIsLeft(config, image, "Cmd");
    ChosenIsLeft(config, image, "Entrypoint");
  }

  /** Every container whose entry point was cleared comes back with that of its image. */
  lemma ClearedEntrypointReturns(config: Fields, image: Value)
    requires Get(Object(config), "Entrypoint") in {None, Some(Null)}
    ensures OverlaidAt(Subtracted(config, image), image, "Entrypoint") == Get(image, "Entrypoint")
  {
    ChosenIsLeft(config, image, "Entrypoint");
  }

  // ------------------------------------------------------------ on another image

  /** The entry for that key, in a list that sets no key twice. */
  function EntryAt(entries: seq<Value>, part: string): Option<Value> {
    if entries == [] then None
    else if EntryKey(entries[0]) == part then Some(entries[0])
    else EntryAt(entries[1..], part)
  }

  /** One variable, label, port or volume of a setting. */
  function PartOf(v: Option<Value>, part: string): Option<Value> {
    match v
    case Some(Array(entries)) => EntryAt(entries, part)
    case Some(Object(fields)) => if part in fields then Some(fields[part]) else None
    case _ => None
  }

  /** All that are set are lists, or all are maps. */
  ghost predicate OneForm(settings: seq<Option<Value>>) {
    || (forall i | 0 <= i < |settings| :: settings[i] in {None, Some(Null)} || settings[i].value.Array?)
    || (forall i | 0 <= i < |settings| :: settings[i] in {None, Some(Null)} || settings[i].value.Object?)
  }

  lemma {:induction false} EntryAtIs(entries: seq<Value>, part: string)
    requires UniqueKeys(entries)
    ensures forall e :: EntryAt(entries, part) == Some(e) <==> e in entries && EntryKey(e) == part
  {
    hide EntryKey;
    if entries != [] {
      EntryAtIs(entries[1..], part);
      forall e | e in entries && EntryKey(e) == part ensures EntryAt(entries, part) == Some(e) {
        OnlyOneEntry(entries, e);
      }
    }
  }

  lemma OnlyOneEntry(entries: seq<Value>, e: Value)
    requires UniqueKeys(entries) && e in entries
    ensures e == entries[0] || (e in entries[1..] && EntryKey(e) != EntryKey(entries[0]))
  {
    hide EntryKey;
    var i :| 0 <= i < |entries| && entries[i] == e;
    if i > 0 {
      assert entries[1..][i - 1] == e;
    }
  }

  lemma HasKeyMeans(entries: seq<Value>, part: string)
    requires UniqueKeys(entries)
    ensures HasKey(entries, part) <==> EntryAt(entries, part).Some?
  {
    hide EntryKey;
    EntryAtIs(entries, part);
    if HasKey(entries, part) {
      var i :| 0 <= i < |entries| && EntryKey(entries[i]) == part;
      assert entries[i] in entries && EntryAt(entries, part) == Some(entries[i]);
    }
    if EntryAt(entries, part).Some? {
      InHasKey(entries, EntryAt(entries, part).value);
    }
  }

  lemma EntryOnNewImage(config: seq<Value>, image: seq<Value>, newImage: seq<Value>, part: string)
    requires UniqueKeys(config) && UniqueKeys(image) && UniqueKeys(newImage)
    ensures var all := OverlaidEntries(Without(config, image), newImage);
            EntryAt(all, part) == var mine := Chosen(EntryAt(config, part), EntryAt(image, part));
                                  if mine.Some? then mine else EntryAt(newImage, part)
  {
    hide EntryKey;
    hide UniqueKeys;
    hide HasKey;
    var kept := Without(config, image);
    var all := OverlaidEntries(kept, newImage);
    WithoutIsUnique(config, image);
    EntriesOnNewImage(config, image, newImage);
    EntryAtIs(config, part);
    EntryAtIs(image, part);
    EntryAtIs(newImage, part);
    EntryAtIs(kept, part);
    EntryAtIs(all, part);
    HasKeyMeans(kept, part);
    hide EntryAt;
    hide OverlaidEntries;
    var mine := Chosen(EntryAt(config, part), EntryAt(image, part));
    if mine.Some? {
      assert mine.value in all;
    } else {
      assert EntryAt(kept, part) == None;
      forall e | e in all && EntryKey(e) == part ensures e in newImage {
      }
    }
  }

  lemma {:induction false} NoInheritance(entries: seq<Value>)
    ensures Without(entries, []) == entries
  {
    if entries != [] {
      NoInheritance(entries[..|entries| - 1]);
    }
  }

  lemma NothingMissing(own: seq<Value>)
    ensures OverlaidEntries(own, []) == own
  {
  }

  /** What the subtraction leaves of a list. */
  function Remaining(current: Option<Value>, inherited: Option<Value>): Option<Value> {
    if current.Some? && inherited.Some? then Some(Reduced(current.value, inherited.value)) else current
  }

  /** The entries of a list that may not be set. */
  function EntriesOf(v: Option<Value>): seq<Value>
    requires v.Some? ==> v.value.Array?
  {
    if v.Some? then v.value.items else []
  }

  lemma PartIsEntry(v: Option<Value>, part: string)
    requires v.Some? ==> v.value.Array?
    ensures PartOf(v, part) == EntryAt(EntriesOf(v), part)
  {
  }

  lemma MergedEntries(entries: seq<Value>, inherited: Option<Value>, theirs: Option<Value>)
    requires inherited.Some? ==> inherited.value.Array?
    requires theirs.Some? ==> theirs.value.Array?
    ensures OverlaidList(Remaining(Some(Array(entries)), inherited), theirs)
            == Some(Array(OverlaidEntries(Without(entries, EntriesOf(inherited)), EntriesOf(theirs))))
  {
    NoInheritance(entries);
    hide Without;
    NothingMissing(Without(entries, EntriesOf(inherited)));
    hide OverlaidEntries;
  }

  lemma ArrayOnNewImage(entries: seq<Value>, inherited: Option<Value>, theirs: Option<Value>, part: string)
    requires inherited.Some? ==> inherited.value.Array?
    requires theirs.Some? ==> theirs.value.Array?
    requires UniqueKeys(entries) && UniqueKeys(EntriesOf(inherited)) && UniqueKeys(EntriesOf(theirs))
    ensures var current := Some(Array(entries));
            var mine := Chosen(PartOf(current, part), PartOf(inherited, part));
            PartOf(OverlaidList(Remaining(current, inherited), theirs), part)
            == if mine.Some? then mine else PartOf(theirs, part)
  {
    var b, c := EntriesOf(inherited), EntriesOf(theirs);
    assert EntriesOf(Some(Array(entries))) == entries;
    assert EntriesOf(Some(Array(OverlaidEntries(Without(entries, b), c)))) == OverlaidEntries(Without(entries, b), c);
    hide *;
    MergedEntries(entries, inherited, theirs);
    EntryOnNewImage(entries, b, c, part);
    PartIsEntry(Some(Array(entries)), part);
    PartIsEntry(inherited, part);
    PartIsEntry(theirs, part);
    PartIsEntry(Some(Array(OverlaidEntries(Without(entries, b), c))), part);
  }

  lemma ObjectOnNewImage(fields: Fields, inherited: Option<Value>, theirs: Option<Value>, part: string)
    requires inherited.Some? ==> inherited.value.Object?
    requires theirs.Some? ==> theirs.value.Object?
    ensures var current := Some(Object(fields));
            var mine := Chosen(PartOf(current, part), PartOf(inherited, part));
            PartOf(OverlaidList(Remaining(current, inherited), theirs), part)
            == if mine.Some? then mine else PartOf(theirs, part)
  {
    var b := if inherited.Some? then inherited.value.fields else map[];
    var c := if theirs.Some? then theirs.value.fields else map[];
    FieldsOnNewImage(fields, b, c, part);
  }

  lemma NoKeys()
    ensures UniqueKeys([])
  {
  }

  lemma ListOnNewImage(current: Option<Value>, inherited: Option<Value>, theirs: Option<Value>, part: string)
    requires OneForm([current, inherited, theirs]) && inherited != Some(Null) && theirs != Some(Null)
    requires current.Some? ==> UniqueKeys(Items(current.value))
    requires inherited.Some? ==> UniqueKeys(Items(inherited.value))
    requires theirs.Some? ==> UniqueKeys(Items(theirs.value))
    ensures var mine := Chosen(PartOf(current, part), PartOf(inherited, part));
            PartOf(OverlaidList(Remaining(current, inherited), theirs), part)
            == if mine.Some? then mine else PartOf(theirs, part)
  {
    hide Without;
    hide UniqueKeys;
    hide EntryAt;
    var settings := [current, inherited, theirs];
    assert settings[0] == current && settings[1] == inherited && settings[2] == theirs;
    NoKeys();
    if current.Some? && current.value.Array? {
      hide OverlaidList;
      ArrayOnNewImage(current.value.items, inherited, theirs, part);
    } else if current.Some? && current.value.Object? {
      hide OverlaidList;
      ObjectOnNewImage(current.value.fields, inherited, theirs, part);
    }
  }

  lemma SuppliedIsList(config: Fields, image: Value, newImage: Value, key: string)
    requires SetOnce(config, image) && SetOnce(config, newImage) && key in LIST_KEYS
    requires OneForm([Get(Object(config), key), Get(image, key), Get(newImage, key)])
    ensures OneForm([Get(Object(config), key), Supplied(image, key), Supplied(newImage, key)])
    ensures key in config ==> UniqueKeys(Items(config[key]))
    ensures Supplied(image, key).Some? ==> UniqueKeys(Items(Supplied(image, key).value))
    ensures Supplied(newImage, key).Some? ==> UniqueKeys(Items(Supplied(newImage, key).value))
  {
    hide UniqueKeys;
    var was := [Get(Object(config), key), Get(image, key), Get(newImage, key)];
    assert was[0] == Get(Object(config), key) && was[1] == Get(image, key) && was[2] == Get(newImage, key);
    assert UniqueKeys(Items(At(Object(config), key))) && UniqueKeys(Items(At(image, key)));
    assert UniqueKeys(Items(At(newImage, key)));
  }

  lemma ReducedIsLeft(config: Fields, image: Value, key: string)
    requires key in LIST_KEYS
    ensures Get(Object(Subtracted(config, image)), key)
            == Remaining(Get(Object(config), key), Supplied(image, key))
  {
    hide Reduced;
    assert key !in PLAIN_KEYS;
  }

  lemma PartOnNewImage(config: Fields, image: Value, newImage: Value, key: string, part: string)
    requires SetOnce(config, image) && SetOnce(config, newImage) && key in LIST_KEYS
    requires OneForm([Get(Object(config), key), Get(image, key), Get(newImage, key)])
    ensures var mine := Chosen(PartOf(Get(Object(config), key), part), PartOf(Get(image, key), part));
            PartOf(OverlaidAt(Subtracted(config, image), newImage, key), part)
            == if mine.Some? then mine else PartOf(Get(newImage, key), part)
  {
    SuppliedIsList(config, image, newImage, key);
    ReducedIsLeft(config, image, key);
    hide Subtracted;
    hide OneForm;
    hide SetOnce;
    hide Remaining;
    hide OverlaidList;
    hide UniqueKeys;
    hide EntryAt;
    ListOnNewImage(Get(Object(config), key), Supplied(image, key), Supplied(newImage, key), part);
  }

  lemma PlainOnNewImage(config: Fields, image: Value, newImage: Value, key: string)
    requires key !in LIST_KEYS
    ensures var result := OverlaidAt(Subtracted(config, image), newImage, key);
            var current, theirs := Get(Object(config), key), Get(newImage, key);
            var chosen := Chosen(current, Get(image, key));
            && (key in {"WorkingDir", "User"} ==> result == if Unset(chosen) then theirs else chosen)
            && (key == "Entrypoint" ==> result == if chosen in {None, Some(Null)} then theirs else chosen)
            && (key == "Cmd" ==>
                  result == if Unset(chosen) && !OwnEntrypoint(config, image) then theirs else chosen)
            && (key !in PLAIN_KEYS ==> result == current)
  {
    if key in PLAIN_KEYS {
      ChosenIsLeft(config, image, key);
      ChosenIsLeft(config, image, "Entrypoint");
      hide Subtracted;
      assert key in ["Cmd", "Entrypoint", "WorkingDir", "User"];
    }
  }

  /** Recreated on another image, the container keeps what its user chose, and takes the
      rest from the new image: variable by variable, label by label and so on in the
      lists, and as a whole in the other settings.  Beside the user's own entry point
      no command is taken from the image. */
  lemma RecreationOnNewImage(config: Fields, image: Value, newImage: Value, key: string)
    requires SetOnce(config, image) && SetOnce(config, newImage)
    requires key in LIST_KEYS ==> OneForm([Get(Object(config), key), Get(image, key), Get(newImage, key)])
    ensures var result := OverlaidAt(Subtracted(config, image), newImage, key);
            var current, theirs := Get(Object(config), key), Get(newImage, key);
            var chosen := Chosen(current, Get(image, key));
            && (key in LIST_KEYS ==>
                  forall part ::
                    var mine := Chosen(PartOf(current, part), PartOf(Get(image, key), part));
                    PartOf(result, part) == if mine.Some? then mine else PartOf(theirs, part))
            && (key in {"WorkingDir", "User"} ==> result == if Unset(chosen) then theirs else chosen)
            && (key == "Entrypoint" ==> result == if chosen in {None, Some(Null)} then theirs else chosen)
            && (key == "Cmd" ==>
                  result == if Unset(chosen) && !OwnEntrypoint(config, image) then theirs else chosen)
            && (key !in LIST_KEYS && key !in PLAIN_KEYS ==> result == current)
  {
    assert forall k :: k in {"WorkingDir", "User", "Entrypoint", "Cmd"} ==> k !in LIST_KEYS;
    hide *;
    if key in LIST_KEYS {
      forall part
        ensures var mine := Chosen(PartOf(Get(Object(config), key), part), PartOf(Get(image, key), part));
                PartOf(OverlaidAt(Subtracted(config, image), newImage, key), part)
                == if mine.Some? then mine else PartOf(Get(newImage, key), part)
      {
        PartOnNewImage(config, image, newImage, key, part);
      }
    } else {
      PlainOnNewImage(config, image, newImage, key);
    }
  }

  // ------------------------------------------------------------ volumes

  /** The destination a bind names: its second field. */
  function BindTarget(bind: string): Option<string> {
    var n := Before(bind, ':');
    if n == |bind| then None
    else
      var rest := bind[n + 1..];
      Some(rest[..Before(rest, ':')])
  }

  function TargetsOfBinds(binds: seq<Value>): seq<string> {
    if binds == [] then []
    else
      var before, last := TargetsOfBinds(binds[..|binds| - 1]), binds[|binds| - 1];
      if last.String? && BindTarget(last.chars).Some? then before + [BindTarget(last.chars).value] else before
  }

  function TargetsOfMounts(mounts: seq<Value>): seq<string> {
    if mounts == [] then []
    else
      var before, target := TargetsOfMounts(mounts[..|mounts| - 1]), At(mounts[|mounts| - 1], "Target");
      if target.String? then before + [target.chars] else before
  }

  /** A mount of a volume with a name, anonymous volumes included. */
  predicate IsVolume(mount: Value) {
    && At(mount, "Name").String? && At(mount, "Destination").String?
    && At(mount, "Type") == String("volume") && At(mount, "Name").chars != ""
  }

  function Destination(mount: Value): string
    requires IsVolume(mount)
  {
    At(mount, "Destination").chars
  }

  function BindOf(mount: Value): string
    requires IsVolume(mount)
  {
    At(mount, "Name").chars + ":" + At(mount, "Destination").chars
    + if At(mount, "RW") == Bool(false) then ":ro" else ""
  }

  /** The volumes whose destination nothing covers yet are bound by name. */
  function WithVolumes(binds: seq<Value>, covered: seq<string>, mounts: seq<Value>): seq<Value> {
    if mounts == [] then binds
    else
      var before, mount := WithVolumes(binds, covered, mounts[..|mounts| - 1]), mounts[|mounts| - 1];
      if IsVolume(mount) && Destination(mount) !in covered then before + [String(BindOf(mount))] else before
  }

  method CoveredTargets(binds: seq<Value>, mounts: seq<Value>) returns (covered: seq<string>)
    ensures covered == TargetsOfBinds(binds) + TargetsOfMounts(mounts)
  {
    covered := [];
    for i := 0 to |binds|
      invariant covered == TargetsOfBinds(binds[..i])
    {
      assert binds[..i + 1][..i] == binds[..i];
      if binds[i].String? {
        var target := BindTarget(binds[i].chars);
        if target.Some? {
          covered := covered + [target.value];
        }
      }
    }
    assert binds[..|binds|] == binds;
    for i := 0 to |mounts|
      invariant covered == TargetsOfBinds(binds) + TargetsOfMounts(mounts[..i])
    {
      assert mounts[..i + 1][..i] == mounts[..i];
      var target := At(mounts[i], "Target");
      if target.String? {
        covered := covered + [target.chars];
      }
    }
    assert mounts[..|mounts|] == mounts;
  }

  method AttachVolumes(binds: seq<Value>, covered: seq<string>, mounts: seq<Value>) returns (r: seq<Value>)
    ensures r == WithVolumes(binds, covered, mounts)
  {
    r := binds;
    for i := 0 to |mounts|
      invariant r == WithVolumes(binds, covered, mounts[..i])
    {
      assert mounts[..i + 1][..i] == mounts[..i];
      var volume, destination := At(mounts[i], "Name"), At(mounts[i], "Destination");
      if volume.String? && destination.String? {
        if !(At(mounts[i], "Type") != String("volume") || volume.chars == "" || destination.chars in covered) {
          var mode := if At(mounts[i], "RW") == Bool(false) then ":ro" else "";
          r := r + [String(volume.chars + ":" + destination.chars + mode)];
        }
      }
    }
    assert mounts[..|mounts|] == mounts;
  }

  /** How many volumes are mounted there. */
  function VolumesAt(mounts: seq<Value>, destination: string): nat {
    if mounts == [] then 0
    else
      var mount := mounts[|mounts| - 1];
      VolumesAt(mounts[..|mounts| - 1], destination)
      + if IsVolume(mount) && Destination(mount) == destination then 1 else 0
  }

  /** Neither volumes nor their destinations have a colon in their name. */
  ghost predicate PlainNames(mounts: seq<Value>) {
    forall k :: 0 <= k < |mounts| && IsVolume(mounts[k]) ==>
      !Has(At(mounts[k], "Name").chars, ':') && !Has(At(mounts[k], "Destination").chars, ':')
  }

  lemma BindTargetReads(volume: string, destination: string, mode: string)
    requires !Has(volume, ':') && !Has(destination, ':') && (mode == "" || mode == ":ro")
    ensures BindTarget(volume + ":" + destination + mode) == Some(destination)
  {
    var rest := destination + mode;
    var bind := volume + ":" + destination + mode;
    assert bind == volume + [':'] + rest;
    BeforeConcat(volume, ':', rest);
    assert bind[|volume| + 1..] == rest;
    if mode == "" {
      assert rest == destination;
      BeforeNone(destination, ':');
      assert rest[..|rest|] == destination;
    } else {
      assert rest == destination + [':'] + "ro";
      BeforeConcat(destination, ':', "ro");
      assert rest[..|destination|] == destination;
    }
  }

  lemma BeforeNone(s: string, c: char)
    requires !Has(s, c)
    ensures Before(s, c) == |s|
  {
  }

  /** How often each destination is bound: as often as it was, and once more for each
      volume mounted there if nothing covered it. */
  lemma {:induction false} TimesBound(binds: seq<Value>, covered: seq<string>, mounts: seq<Value>, destination: string)
    requires PlainNames(mounts)
    ensures multiset(TargetsOfBinds(WithVolumes(binds, covered, mounts)))[destination]
            == multiset(TargetsOfBinds(binds))[destination]
               + if destination in covered then 0 else VolumesAt(mounts, destination)
    decreases |mounts|
  {
    hide Has;
    if mounts != [] {
      var rest, mount := mounts[..|mounts| - 1], mounts[|mounts| - 1];
      TimesBound(binds, covered, rest, destination);
      if IsVolume(mount) && Destination(mount) !in covered {
        var before, bind := WithVolumes(binds, covered, rest), String(BindOf(mount));
        var mode := if At(mount, "RW") == Bool(false) then ":ro" else "";
        BindTargetReads(At(mount, "Name").chars, At(mount, "Destination").chars, mode);
        assert (before + [bind])[..|before|] == before;
      }
    }
  }

  /** What a bind says: from where to where, and in which mode. */
  datatype Bind = Bind(source: string, target: string, mode: string)

  function CutAtColon(s: string): Option<(string, string)> {
    var n := Before(s, ':');
    if n == |s| then None else Some((s[..n], s[n + 1..]))
  }

  function ReadBind(bind: string): Option<Bind> {
    match CutAtColon(bind)
    case None => None
    case Some((source, rest)) =>
      match CutAtColon(rest)
      case None => Some(Bind(source, rest, ""))
      case Some((target, mode)) => Some(Bind(source, target, mode))
  }

  ghost predicate Reads(v: Value, bind: Bind) {
    v.String? && ReadBind(v.chars) == Some(bind)
  }

  lemma CutsAtColon(first: string, rest: string)
    requires !Has(first, ':')
    ensures CutAtColon(first + ":" + rest) == Some((first, rest)) && CutAtColon(first) == None
  {
    BeforeConcat(first, ':', rest);
    BeforeNone(first, ':');
    hide Has;
    var all := first + ":" + rest;
    assert all == first + [':'] + rest;
    assert all[..|first|] == first && all[|first| + 1..] == rest;
  }

  lemma BindReads(volume: string, destination: string, mode: string)
    requires !Has(volume, ':') && !Has(destination, ':')
    ensures ReadBind(volume + ":" + destination) == Some(Bind(volume, destination, ""))
    ensures ReadBind(volume + ":" + (destination + ":" + mode)) == Some(Bind(volume, destination, mode))
  {
    CutsAtColon(volume, destination);
    CutsAtColon(volume, destination + ":" + mode);
    CutsAtColon(destination, mode);
    hide CutAtColon;
    hide Has;
  }

  /** The volume is the source, its place in the container the target, and the bind is
      read-only exactly when the mount was. */
  function BindFor(mount: Value): Bind
    requires At(mount, "Name").String? && At(mount, "Destination").String?
  {
    Bind(At(mount, "Name").chars, At(mount, "Destination").chars, if At(mount, "RW") == Bool(false) then "ro" else "")
  }

  /** A named volume that nothing covers yet. */
  ghost function Uncovered(covered: seq<string>): Value -> bool {
    (mount: Value) =>
      && At(mount, "Type") == String("volume") && At(mount, "Name").String? && At(mount, "Name").chars != ""
      && At(mount, "Destination").String? && At(mount, "Destination").chars !in covered
  }

  ghost function Binds(): (Value, Value) -> bool {
    (mount: Value, bind: Value) =>
      At(mount, "Name").String? && At(mount, "Destination").String? && Reads(bind, BindFor(mount))
  }

  lemma VolumeIsBound(mount: Value)
    requires IsVolume(mount) && !Has(At(mount, "Name").chars, ':') && !Has(At(mount, "Destination").chars, ':')
    ensures Reads(String(BindOf(mount)), BindFor(mount))
  {
    var volume, destination := At(mount, "Name").chars, At(mount, "Destination").chars;
    BindReads(volume, destination, "ro");
    hide ReadBind;
    hide Has;
    if At(mount, "RW") == Bool(false) {
      assert BindOf(mount) == volume + ":" + (destination + ":" + "ro");
    } else {
      assert BindOf(mount) == volume + ":" + destination;
    }
  }

  lemma OneBound(binds: seq<Value>, added: seq<Value>, before: seq<Value>, more: seq<Value>)
    requires before == binds + added
    ensures before + more == binds + (added + more)
  {
  }

  lemma OneVolumeMore(mounts: seq<Value>, added: seq<Value>, mount: Value, covered: seq<string>)
      returns (more: seq<Value>)
    requires Yields(mounts, added, Uncovered(covered), Binds())
    requires IsVolume(mount) ==> !Has(At(mount, "Name").chars, ':') && !Has(At(mount, "Destination").chars, ':')
    ensures more == if IsVolume(mount) && Destination(mount) !in covered then [String(BindOf(mount))] else []
    ensures Yields(mounts + [mount], added + more, Uncovered(covered), Binds())
  {
    hide Has;
    hide Reads;
    hide Yields;
    more := [];
    if IsVolume(mount) && Destination(mount) !in covered {
      VolumeIsBound(mount);
      more := [String(BindOf(mount))];
    }
    hide BindOf;
    hide BindFor;
    YieldsMore(mounts, added, mount, more, Uncovered(covered), Binds());
  }

  /** The binds that were there stay, and after them comes one for each volume that
      nothing covers, in the order of the mounts, and nothing else. */
  lemma {:induction false} VolumesAreAdded(binds: seq<Value>, covered: seq<string>, mounts: seq<Value>)
      returns (added: seq<Value>)
    requires PlainNames(mounts)
    ensures WithVolumes(binds, covered, mounts) == binds + added
    ensures Yields(mounts, added, Uncovered(covered), Binds())
    decreases |mounts|
  {
    hide Yields;
    hide Has;
    hide Binds;
    hide Uncovered;
    hide BindOf;
    hide IsVolume;
    added := [];
    if mounts == [] {
      YieldsNothing(Uncovered(covered), Binds());
    } else {
      var rest, mount := mounts[..|mounts| - 1], mounts[|mounts| - 1];
      var before := VolumesAreAdded(binds, covered, rest);
      var more := OneVolumeMore(rest, before, mount, covered);
      added := before + more;
      assert rest + [mount] == mounts;
      OneBound(binds, before, WithVolumes(binds, covered, rest), more);
    }
  }

  /** A bind has that target. */
  ghost predicate BoundThere(binds: seq<Value>, destination: string) {
    exists k, source, mode :: 0 <= k < |binds| && Reads(binds[k], Bind(source, destination, mode))
  }

  ghost predicate MountedThere(mounts: seq<Value>, destination: string) {
    exists k :: 0 <= k < |mounts| && At(mounts[k], "Target") == String(destination)
  }

  lemma TargetIsRead(bind: string)
    ensures BindTarget(bind) == if ReadBind(bind).Some? then Some(ReadBind(bind).value.target) else None
  {
    hide Before;
    assert forall s: string :: s[..|s|] == s;
  }

  lemma {:induction false} BoundIsCovered(binds: seq<Value>, destination: string)
    ensures destination in TargetsOfBinds(binds) <==> BoundThere(binds, destination)
    decreases |binds|
  {
    hide ReadBind;
    hide BindTarget;
    if binds != [] {
      var rest, last := binds[..|binds| - 1], binds[|binds| - 1];
      BoundIsCovered(rest, destination);
      if last.String? {
        TargetIsRead(last.chars);
      }
      if BoundThere(rest, destination) {
        var k, source, mode :| 0 <= k < |rest| && Reads(rest[k], Bind(source, destination, mode));
        assert Reads(binds[k], Bind(source, destination, mode));
      }
      if last.String? && BindTarget(last.chars) == Some(destination) {
        var bind := ReadBind(last.chars).value;
        assert Reads(binds[|rest|], Bind(bind.source, destination, bind.mode));
      }
      if BoundThere(binds, destination) {
        var k, source, mode :| 0 <= k < |binds| && Reads(binds[k], Bind(source, destination, mode));
        assert k < |rest| ==> Reads(rest[k], Bind(source, destination, mode));
      }
    }
  }

  lemma {:induction false} MountedIsCovered(mounts: seq<Value>, destination: string)
    ensures destination in TargetsOfMounts(mounts) <==> MountedThere(mounts, destination)
    decreases |mounts|
  {
    if mounts != [] {
      var rest := mounts[..|mounts| - 1];
      MountedIsCovered(rest, destination);
      if MountedThere(rest, destination) {
        var k :| 0 <= k < |rest| && At(rest[k], "Target") == String(destination);
        assert At(mounts[k], "Target") == String(destination);
      }
      if MountedThere(mounts, destination) {
        var k :| 0 <= k < |mounts| && At(mounts[k], "Target") == String(destination);
        assert k < |rest| ==> At(rest[k], "Target") == String(destination);
      }
    }
  }

  /** The host configuration of the new container: of its binds the old ones come first,
      and the others bind, by name and in its mode, each volume whose destination no bind
      and no mount of the configuration reaches.  Nothing else is changed. */
  lemma HostKeepsItsVolumes(host: Fields, mounts: seq<Value>) returns (added: seq<Value>)
    requires PlainNames(mounts)
    ensures var binds, hostMounts := Items(At(Object(host), "Binds")), Items(At(Object(host), "Mounts"));
            && Items(At(Object(HostWith(host, mounts)), "Binds")) == binds + added
            && Yields(mounts, added, Unreached(binds, hostMounts), Binds())
    ensures forall key | key != "Binds" :: Get(Object(HostWith(host, mounts)), key) == Get(Object(host), key)
  {
    var binds, hostMounts := Items(At(Object(host), "Binds")), Items(At(Object(host), "Mounts"));
    var covered := TargetsOfBinds(binds) + TargetsOfMounts(hostMounts);
    added := VolumesAreAdded(binds, covered, mounts);
    hide *;
    forall m | 0 <= m < |mounts|
      ensures Uncovered(covered)(mounts[m]) <==> Unreached(binds, hostMounts)(mounts[m])
    {
      UncoveredIsUnreached(binds, hostMounts, mounts[m]);
    }
    YieldsAlike(mounts, added, Uncovered(covered), Binds(), Unreached(binds, hostMounts), Binds());
    HostBinds(host, mounts);
  }

  lemma HostBinds(host: Fields, mounts: seq<Value>)
    ensures var binds, hostMounts := Items(At(Object(host), "Binds")), Items(At(Object(host), "Mounts"));
            Items(At(Object(HostWith(host, mounts)), "Binds"))
            == WithVolumes(binds, TargetsOfBinds(binds) + TargetsOfMounts(hostMounts), mounts)
    ensures forall key | key != "Binds" :: Get(Object(HostWith(host, mounts)), key) == Get(Object(host), key)
  {
    hide TargetsOfBinds;
    hide TargetsOfMounts;
    BindsStay(Items(At(Object(host), "Binds")), [], mounts);
    var binds, hostMounts := Items(At(Object(host), "Binds")), Items(At(Object(host), "Mounts"));
    BindsStay(binds, TargetsOfBinds(binds) + TargetsOfMounts(hostMounts), mounts);
  }

  lemma {:induction false} BindsStay(binds: seq<Value>, covered: seq<string>, mounts: seq<Value>)
    ensures binds <= WithVolumes(binds, covered, mounts)
    decreases |mounts|
  {
    hide BindOf;
    if mounts != [] {
      BindsStay(binds, covered, mounts[..|mounts| - 1]);
    }
  }

  /** A named volume whose destination is reached by no bind and no mount. */
  ghost function Unreached(binds: seq<Value>, hostMounts: seq<Value>): Value -> bool {
    (mount: Value) =>
      && At(mount, "Type") == String("volume") && At(mount, "Name").String? && At(mount, "Name").chars != ""
      && At(mount, "Destination").String?
      && !BoundThere(binds, At(mount, "Destination").chars)
      && !MountedThere(hostMounts, At(mount, "Destination").chars)
  }

  lemma UncoveredIsUnreached(binds: seq<Value>, hostMounts: seq<Value>, mount: Value)
    ensures Uncovered(TargetsOfBinds(binds) + TargetsOfMounts(hostMounts))(mount)
            <==> Unreached(binds, hostMounts)(mount)
  {
    hide BoundThere;
    hide MountedThere;
    hide TargetsOfBinds;
    hide TargetsOfMounts;
    if At(mount, "Destination").String? {
      BoundIsCovered(binds, At(mount, "Destination").chars);
      MountedIsCovered(hostMounts, At(mount, "Destination").chars);
    }
  }

  /** With one volume to a destination, every volume is reached after recreation by
      exactly one bind, which names it and has its mode, or by what already covered its
      destination. */
  lemma VolumesAreBoundOnce(binds: seq<Value>, hostMounts: seq<Value>, mounts: seq<Value>, m: nat)
    requires PlainNames(mounts) && m < |mounts| && IsVolume(mounts[m])
    requires VolumesAt(mounts, Destination(mounts[m])) == 1
    ensures var covered := TargetsOfBinds(binds) + TargetsOfMounts(hostMounts);
            var all := WithVolumes(binds, covered, mounts);
            var there := multiset(TargetsOfBinds(all) + TargetsOfMounts(hostMounts))[Destination(mounts[m])];
            if Destination(mounts[m]) in covered then there == multiset(covered)[Destination(mounts[m])]
            else there == 1 && exists k :: 0 <= k < |all| && Reads(all[k], BindFor(mounts[m]))
  {
    hide PlainNames;
    hide WithVolumes;
    hide Reads;
    hide Yields;
    hide VolumesAt;
    var destination := Destination(mounts[m]);
    var covered := TargetsOfBinds(binds) + TargetsOfMounts(hostMounts);
    TimesBound(binds, covered, mounts, destination);
    assert destination !in covered ==> multiset(covered)[destination] == 0;
    var added := VolumesAreAdded(binds, covered, mounts);
    if destination !in covered {
      var k := GivenTo(mounts, added, m, Uncovered(covered), Binds());
      assert (binds + added)[|binds| + k] == added[k];
    }
  }

  // ------------------------------------------------------------ networks

  /** The aliases, each once, without the one that repeats the old identifier. */
  function AliasesOf(items: seq<Value>, shortId: string): seq<Value> {
    if items == [] then []
    else
      var before, last := AliasesOf(items[..|items| - 1], shortId), items[|items| - 1];
      if last.String? && last.chars != shortId && last !in before then before + [last] else before
  }

  lemma {:induction false} AliasesAreDistinct(items: seq<Value>, shortId: string)
    ensures var r := AliasesOf(items, shortId);
            && (forall i, j :: 0 <= i < j < |r| ==> r[i] != r[j])
            && forall a :: a in r <==> a in items && a.String? && a.chars != shortId
    decreases |items|
  {
    if items != [] {
      AliasesAreDistinct(items[..|items| - 1], shortId);
      assert forall a :: a in items <==> a in items[..|items| - 1] || a == items[|items| - 1];
    }
  }

  const ENDPOINT_KEYS := ["IPAMConfig", "Links", "DriverOpts"]

  function KeptSettings(endpoint: Value, keys: seq<string>): Fields {
    map k | k in keys && Supplied(endpoint, k).Some? :: Supplied(endpoint, k).value
  }

  function Cleaned(endpoint: Value, shortId: string): Value {
    var aliases := AliasesOf(Items(At(endpoint, "Aliases")), shortId);
    var first: Fields := if aliases == [] then map[] else map["Aliases" := Array(aliases)];
    Object(first + KeptSettings(endpoint, ENDPOINT_KEYS))
  }

  /** What an endpoint keeps: its aliases but the old identifier, three settings unless
      they are null, and nothing else, so that no old address is asked for again. */
  lemma EndpointKeeps(endpoint: Value, shortId: string, key: string)
    ensures var c := Cleaned(endpoint, shortId);
            && (key in {"IPAMConfig", "Links", "DriverOpts"} ==>
                  Get(c, key) == if Get(endpoint, key) == Some(Null) then None else Get(endpoint, key))
            && (key !in {"Aliases", "IPAMConfig", "Links", "DriverOpts"} ==> Get(c, key) == None)
            && Get(c, "Aliases") != Some(Array([]))
            && forall a :: a in Items(At(c, "Aliases")) <==>
                 a in Items(At(endpoint, "Aliases")) && a.String? && a.chars != shortId
  {
    AliasesAreDistinct(Items(At(endpoint, "Aliases")), shortId);
    hide AliasesOf;
    assert forall k :: k in ENDPOINT_KEYS <==> k in {"IPAMConfig", "Links", "DriverOpts"};
  }

  method CleanAliases(items: seq<Value>, shortId: string) returns (aliases: seq<Value>)
    ensures aliases == AliasesOf(items, shortId)
  {
    aliases := [];
    for i := 0 to |items|
      invariant aliases == AliasesOf(items[..i], shortId)
    {
      assert items[..i + 1][..i] == items[..i];
      if items[i].String? && items[i].chars != shortId && items[i] !in aliases {
        aliases := aliases + [items[i]];
      }
    }
    assert items[..|items|] == items;
  }

  method KeepSettings(endpoint: Value) returns (r: Fields)
    ensures r == KeptSettings(endpoint, ENDPOINT_KEYS)
  {
    hide Supplied;
    r := map[];
    assert ENDPOINT_KEYS[..0] == [];
    for i := 0 to |ENDPOINT_KEYS|
      invariant r == KeptSettings(endpoint, ENDPOINT_KEYS[..i])
    {
      KeptSnoc(endpoint, ENDPOINT_KEYS[..i], ENDPOINT_KEYS[i]);
      assert ENDPOINT_KEYS[..i + 1] == ENDPOINT_KEYS[..i] + [ENDPOINT_KEYS[i]];
      var value := Supplied(endpoint, ENDPOINT_KEYS[i]);
      if value.Some? {
        r := r[ENDPOINT_KEYS[i] := value.value];
      }
    }
    assert ENDPOINT_KEYS[..3] == ENDPOINT_KEYS;
  }

  method CleanEndpoint(endpoint: Value, shortId: string) returns (r: Value)
    ensures r == Cleaned(endpoint, shortId)
  {
    hide KeptSettings;
    var aliases := CleanAliases(Items(At(endpoint, "Aliases")), shortId);
    var first: Fields := if aliases == [] then map[] else map["Aliases" := Array(aliases)];
    var settings := KeepSettings(endpoint);
    r := Object(first + settings);
  }

  lemma KeptSnoc(endpoint: Value, keys: seq<string>, key: string)
    ensures KeptSettings(endpoint, keys + [key])
            == if Supplied(endpoint, key).Some? then KeptSettings(endpoint, keys)[key := Supplied(endpoint, key).value]
               else KeptSettings(endpoint, keys)
  {
  }

  function CleanedAll(networks: Fields, keys: seq<string>, shortId: string): seq<(string, Value)>
    requires forall k :: 0 <= k < |keys| ==> keys[k] in networks
  {
    seq(|keys|, i requires 0 <= i < |keys| => (keys[i], Cleaned(networks[keys[i]], shortId)))
  }

  function InspectedNetworks(inspect: Value): Fields {
    var networks := At(At(inspect, "NetworkSettings"), "Networks");
    if networks.Object? then networks.fields else map[]
  }

  /** Every network of the container, in the order of their names, cleaned. */
  function NetworksOf(inspect: Value, shortId: string): seq<(string, Value)> {
    var networks := InspectedNetworks(inspect);
    KeysInOrder(networks);
    CleanedAll(networks, InOrder(networks.Keys), shortId)
  }

  function Endpoints(networks: seq<(string, Value)>): Fields {
    if networks == [] then map[] else map[networks[0].0 := networks[0].1]
  }

  function Extra(networks: seq<(string, Value)>): seq<(string, Value)> {
    if networks == [] then [] else networks[1..]
  }

  ghost predicate Connects(endpoints: Fields, extra: seq<(string, Value)>, name: string, endpoint: Value) {
    (name in endpoints && endpoints[name] == endpoint) || (name, endpoint) in extra
  }

  /** The split loses no network and connects none twice: the container joins exactly
      the networks it was on, one at creation and the others after. */
  lemma NetworksAreSplit(inspect: Value, shortId: string)
    ensures var all := NetworksOf(inspect, shortId);
            var networks := At(At(inspect, "NetworkSettings"), "Networks");
            var before := if networks.Object? then networks.fields else map[];
            && |Endpoints(all)| + |Extra(all)| == |before|
            && |Endpoints(all)| <= 1
            && (forall name :: name in before ==>
                  Connects(Endpoints(all), Extra(all), name, Cleaned(before[name], shortId)))
            && (forall i, j :: 0 <= i < j < |Extra(all)| ==> Extra(all)[i].0 != Extra(all)[j].0)
            && forall k :: 0 <= k < |Extra(all)| ==> Extra(all)[k].0 !in Endpoints(all)
  {
    hide Cleaned;
    var before := InspectedNetworks(inspect);
    var keys := InOrder(before.Keys);
    KeysInOrder(before);
    SplitByKeys(before, keys, shortId);
    assert |before| == |before.Keys|;
    hide InOrder;
  }

  lemma SplitByKeys(before: Fields, keys: seq<string>, shortId: string)
    requires forall k :: 0 <= k < |keys| ==> keys[k] in before
    requires forall i, j :: 0 <= i < j < |keys| ==> keys[i] != keys[j]
    requires forall k :: k in before ==> k in keys
    ensures var all := CleanedAll(before, keys, shortId);
            && |Endpoints(all)| + |Extra(all)| == |keys|
            && |Endpoints(all)| <= 1
            && (forall name :: name in before ==>
                  Connects(Endpoints(all), Extra(all), name, Cleaned(before[name], shortId)))
            && (forall i, j :: 0 <= i < j < |Extra(all)| ==> Extra(all)[i].0 != Extra(all)[j].0)
            && forall k :: 0 <= k < |Extra(all)| ==> Extra(all)[k].0 !in Endpoints(all)
  {
    hide Cleaned;
    var all := CleanedAll(before, keys, shortId);
    forall name | name in before ensures Connects(Endpoints(all), Extra(all), name, Cleaned(before[name], shortId)) {
      var i :| 0 <= i < |keys| && keys[i] == name;
      if i > 0 {
        assert Extra(all)[i - 1] == (name, Cleaned(before[name], shortId));
      }
    }
  }

  // ------------------------------------------------------------ the request

  datatype CreateSpec = CreateSpec(body: Fields, extraNetworks: seq<(string, Value)>)

  function Short(id: string): string {
    var bare := if "sha256:" <= id then id[7..] else id;
    if |bare| >= 12 then bare[..12] else bare
  }

  function IdOf(inspect: Value): string {
    var id := At(inspect, "Id");
    if id.String? then id.chars else ""
  }

  function OwnConfig(config: Fields, image: Option<Value>): Fields {
    if image.None? then config else Subtracted(config, image.value)
  }

  /** Every other member of the configuration is passed on as it was inspected, except
      a host name that only repeats the old identifier. */
  ghost predicate Carries(body: Fields, own: Fields, shortId: string) {
    forall key | key != "HostConfig" && key != "NetworkingConfig" ::
      if key == "Hostname" && key in own && own[key] == String(shortId) then key !in body
      else key in body <==> key in own && (key in body ==> body[key] == own[key])
  }

  lemma IdentifierIs(inspect: Value)
    ensures At(inspect, "Id").String? ==> IdOf(inspect) == At(inspect, "Id").chars
  {
  }

  /** A host name is dropped exactly when it is the first twelve characters of the
      identifier, which Docker gave it. */
  lemma OwnNameIsDropped(body: Fields, own: Fields, id: string)
    requires Carries(body, own, Short(id)) && |id| >= 12 && !("sha256:" <= id)
    ensures "Hostname" in body <==> "Hostname" in own && own["Hostname"] != String(id[..12])
    ensures "Hostname" in body ==> body["Hostname"] == own["Hostname"]
  {
    assert "Hostname" != "HostConfig" && "Hostname" != "NetworkingConfig";
  }

  /** The host configuration, its binds completed. */
  function HostWith(host: Fields, mounts: seq<Value>): Fields {
    var binds, hostMounts := Items(At(Object(host), "Binds")), Items(At(Object(host), "Mounts"));
    var all := WithVolumes(binds, TargetsOfBinds(binds) + TargetsOfMounts(hostMounts), mounts);
    if all == [] then host else host["Binds" := Array(all)]
  }

  method CompleteHost(host: Fields, mounts: seq<Value>) returns (r: Fields)
    ensures r == HostWith(host, mounts)
  {
    hide WithVolumes;
    var binds := Items(At(Object(host), "Binds"));
    var covered := CoveredTargets(binds, Items(At(Object(host), "Mounts")));
    binds := AttachVolumes(binds, covered, mounts);
    r := if binds == [] then host else host["Binds" := Array(binds)];
  }

  method BodyOf(config: Fields, image: Option<Value>, shortId: string, host: Value, networking: Value)
      returns (r: Fields)
    ensures Carries(r, OwnConfig(config, image), shortId)
    ensures "HostConfig" in r && "NetworkingConfig" in r && r["HostConfig"] == host
      && r["NetworkingConfig"] == networking
  {
    hide Subtracted;
    r := config;
    if image.Some? {
      r := SubtractImageDefaults(config, image.value);
    }
    if "Hostname" in r && r["Hostname"] == String(shortId) {
      r := r - {"Hostname"};
    }
    r := r["HostConfig" := host]["NetworkingConfig" := networking];
  }

  method FromInspect(inspect: Value, image: Option<Value>) returns (r: Result<CreateSpec, string>)
    ensures r.Ok? <==> At(inspect, "Config").Object? && At(inspect, "HostConfig").Object?
    ensures r.Ok? ==> Carries(r.value.body, OwnConfig(At(inspect, "Config").fields, image), Short(IdOf(inspect)))
    ensures r.Ok? ==>
      var networks := NetworksOf(inspect, Short(IdOf(inspect)));
      && "HostConfig" in r.value.body && "NetworkingConfig" in r.value.body
      && r.value.body["HostConfig"] == Object(HostWith(At(inspect, "HostConfig").fields, Items(At(inspect, "Mounts"))))
      && r.value.body["NetworkingConfig"] == Object(map["EndpointsConfig" := Object(Endpoints(networks))])
      && r.value.extraNetworks == Extra(networks)
    ensures r.Ok? && At(inspect, "Id").String? && |At(inspect, "Id").chars| >= 12
            && !("sha256:" <= At(inspect, "Id").chars) ==>
      var own, short := OwnConfig(At(inspect, "Config").fields, image), String(At(inspect, "Id").chars[..12]);
      "Hostname" in r.value.body <==> "Hostname" in own && own["Hostname"] != short
  {
    hide Carries;
    hide OwnConfig;
    hide HostWith;
    hide NetworksOf;
    hide Short;
    hide IdOf;
    hide Items;
    var shortId := Short(IdOf(inspect));
    var config, host := At(inspect, "Config"), At(inspect, "HostConfig");
    if !config.Object? {
      return Err("inspection without a Config block");
    }
    if !host.Object? {
      return Err("inspection without a HostConfig block");
    }
    var completed := CompleteHost(host.fields, Items(At(inspect, "Mounts")));
    var networks := CleanNetworks(inspect, shortId);
    var networking := Object(map["EndpointsConfig" := Object(Endpoints(networks))]);
    var body := BodyOf(config.fields, image, shortId, Object(completed), networking);
    IdentifierIs(inspect);
    if |IdOf(inspect)| >= 12 && !("sha256:" <= IdOf(inspect)) {
      OwnNameIsDropped(body, OwnConfig(config.fields, image), IdOf(inspect));
    }
    return Ok(CreateSpec(body, Extra(networks)));
  }

  method CleanNetworks(inspect: Value, shortId: string) returns (r: seq<(string, Value)>)
    ensures r == NetworksOf(inspect, shortId)
  {
    hide Cleaned;
    var networks := InspectedNetworks(inspect);
    KeysInOrder(networks);
    r := CleanAll(networks, InOrder(networks.Keys), shortId);
  }

  method CleanAll(networks: Fields, keys: seq<string>, shortId: string) returns (r: seq<(string, Value)>)
    requires forall k :: 0 <= k < |keys| ==> keys[k] in networks
    ensures r == CleanedAll(networks, keys, shortId)
  {
    hide Cleaned;
    r := [];
    for i := 0 to |keys|
      invariant r == CleanedAll(networks, keys, shortId)[..i]
    {
      var endpoint := CleanEndpoint(networks[keys[i]], shortId);
      r := r + [(keys[i], endpoint)];
    }
  }
}
