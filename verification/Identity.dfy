/** The labels that say which target a sample belongs to.  The server lays them over
    whatever a collector produced; for the samples of a pack nothing is lost. */
module Identity {
  import opened Wrappers
  import opened Text
  import opened Exposition
  import opened Compile
  import opened Extract
  import opened Coverage

  /** `id` as it is printed. */
  datatype Target = Target(id: string, name: string, tags: map<string, string>)

  function TagChar(c: char): char {
    if IsAlnum(c) || c == '_' then c else '_'
  }

  function TagKey(key: string): (r: string)
    ensures |r| == 4 + |key|
  {
    "tag_" + seq(|key|, i requires 0 <= i < |key| => TagChar(key[i]))
  }

  function TagLabels(labels: map<string, string>, tags: map<string, string>, keys: seq<string>): map<string, string>
    requires forall k :: 0 <= k < |keys| ==> keys[k] in tags
    decreases |keys|
  {
    if keys == [] then labels
    else TagLabels(labels, tags, keys[..|keys| - 1])[TagKey(keys[|keys| - 1]) := tags[keys[|keys| - 1]]]
  }

  function Identities(target: Target): map<string, string> {
    map["target" := target.id, "host" := target.name]
  }

  lemma IdentitiesAre(target: Target)
    ensures Identities(target).Keys == {"target", "host"}
    ensures Identities(target)["target"] == target.id && Identities(target)["host"] == target.name
  {
  }

  function BaseOf(target: Target): map<string, string> {
    KeysInOrder(target.tags);
    TagLabels(Identities(target), target.tags, InOrder(target.tags.Keys))
  }

  method AddTags(first: map<string, string>, tags: map<string, string>, keys: seq<string>)
      returns (labels: map<string, string>)
    requires forall k :: 0 <= k < |keys| ==> keys[k] in tags
    ensures labels == TagLabels(first, tags, keys)
  {
    hide TagKey;
    labels := first;
    for i := 0 to |keys|
      invariant labels == TagLabels(first, tags, keys[..i])
    {
      assert keys[..i + 1][..i] == keys[..i];
      labels := labels[TagKey(keys[i]) := tags[keys[i]]];
    }
    assert keys[..|keys|] == keys;
  }

  method BaseLabels(target: Target) returns (labels: map<string, string>)
    ensures labels == BaseOf(target)
  {
    labels := map["target" := target.id, "host" := target.name];
    KeysInOrder(target.tags);
    labels := AddTags(labels, target.tags, InOrder(target.tags.Keys));
  }

  // ------------------------------------------------------------ the base labels

  lemma TagKeyIsReserved(key: string)
    ensures Reserved(TagKey(key)) && ValidLabel(TagKey(key)) && TagKey(key) != "target" && TagKey(key) != "host"
  {
    var r := TagKey(key);
    assert r[..4] == "tag_";
    assert r[3] == '_' && "target"[3] == 'g';
  }

  lemma TagKeyCleans(key: string, k: nat)
    requires k < |key|
    ensures TagKey(key)[..4] == "tag_"
    ensures IsAlnum(key[k]) || key[k] == '_' ==> TagKey(key)[4 + k] == key[k]
    ensures !IsAlnum(key[k]) ==> TagKey(key)[4 + k] == '_'
  {
  }

  ghost function TagKeys(keys: seq<string>): set<string> {
    set k | k in keys :: TagKey(k)
  }

  lemma {:induction false} TagLabelsKeys(first: map<string, string>, tags: map<string, string>, keys: seq<string>)
    requires forall k :: 0 <= k < |keys| ==> keys[k] in tags
    ensures TagLabels(first, tags, keys).Keys == first.Keys + TagKeys(keys)
    ensures forall k :: k in first && k !in TagKeys(keys) ==> TagLabels(first, tags, keys)[k] == first[k]
    decreases |keys|
  {
    hide TagKey;
    if keys != [] {
      TagLabelsKeys(first, tags, keys[..|keys| - 1]);
      assert keys == keys[..|keys| - 1] + [keys[|keys| - 1]];
    }
  }

  /** The tag `keys[i]`, when no later one comes to the same name. */
  lemma {:induction false} LastTagWins(first: map<string, string>, tags: map<string, string>, keys: seq<string>, i: nat)
    requires i < |keys| && forall k :: 0 <= k < |keys| ==> keys[k] in tags
    requires forall k :: i < k < |keys| ==> TagKey(keys[k]) != TagKey(keys[i])
    ensures TagKey(keys[i]) in TagLabels(first, tags, keys)
    ensures TagLabels(first, tags, keys)[TagKey(keys[i])] == tags[keys[i]]
    decreases |keys|
  {
    hide TagKey;
    if i < |keys| - 1 {
      LastTagWins(first, tags, keys[..|keys| - 1], i);
    }
  }

  ghost predicate LastOfItsName(keys: seq<string>, i: nat)
    requires i < |keys|
  {
    forall k :: i < k < |keys| ==> TagKey(keys[k]) != TagKey(keys[i])
  }

  ghost predicate Shows(labels: map<string, string>, target: Target, tag: string) {
    tag in target.tags && TagKey(tag) in labels && labels[TagKey(tag)] == target.tags[tag]
  }

  /** Whatever the tags are called, the two identity labels are untouched, and each tag
      shows under its cleaned-up name, the last of those that come to one name winning. */
  ghost predicate Complete(labels: map<string, string>, target: Target, keys: seq<string>) {
    && labels.Keys == {"target", "host"} + TagKeys(keys)
    && labels["target"] == target.id && labels["host"] == target.name
    && forall i | 0 <= i < |keys| && LastOfItsName(keys, i) :: Shows(labels, target, keys[i])
  }

  lemma TagsSpareIdentities(keys: seq<string>)
    ensures "target" !in TagKeys(keys) && "host" !in TagKeys(keys)
  {
    forall k | k in keys ensures TagKey(k) != "target" && TagKey(k) != "host" {
      TagKeyIsReserved(k);
    }
  }

  lemma TagsAreComplete(target: Target, keys: seq<string>)
    requires forall k :: 0 <= k < |keys| ==> keys[k] in target.tags
    ensures Complete(TagLabels(Identities(target), target.tags, keys), target, keys)
  {
    hide TagKey;
    var first := Identities(target);
    var labels := TagLabels(first, target.tags, keys);
    TagsSpareIdentities(keys);
    TagLabelsKeys(first, target.tags, keys);
    IdentitiesAre(target);
    hide Identities;
    hide TagKeys;
    forall i | 0 <= i < |keys| && LastOfItsName(keys, i) ensures Shows(labels, target, keys[i]) {
      LastTagWins(first, target.tags, keys, i);
    }
    hide Shows;
    hide LastOfItsName;
  }

  lemma BaseIsComplete(target: Target)
    ensures Complete(BaseOf(target), target, InOrder(target.tags.Keys))
  {
    hide Complete;
    KeysInOrder(target.tags);
    TagsAreComplete(target, InOrder(target.tags.Keys));
  }

  lemma BaseIsReserved(target: Target, key: string)
    requires key in BaseOf(target)
    ensures Reserved(key) && ValidLabel(key)
  {
    hide *;
    BaseIsComplete(target);
    CompleteIsReserved(BaseOf(target), target, InOrder(target.tags.Keys), key);
  }

  lemma IdentitiesAreReserved()
    ensures Reserved("target") && ValidLabel("target") && Reserved("host") && ValidLabel("host")
  {
  }

  lemma CompleteIsReserved(labels: map<string, string>, target: Target, keys: seq<string>, key: string)
    requires Complete(labels, target, keys) && key in labels
    ensures Reserved(key) && ValidLabel(key)
  {
    IdentitiesAreReserved();
    hide Reserved;
    hide ValidLabel;
    hide TagKey;
    if key in TagKeys(keys) {
      var tag :| tag in keys && key == TagKey(tag);
      TagKeyIsReserved(tag);
    }
  }

  // ------------------------------------------------------------ the overlay

  method Merge(labels: map<string, string>, base: map<string, string>, keys: seq<string>)
      returns (r: map<string, string>)
    requires forall k :: k in keys <==> k in base
    ensures r == labels + base
  {
    assert forall k :: 0 <= k < |keys| ==> keys[k] in keys;
    r := labels;
    for i := 0 to |keys|
      invariant r == AddAll(labels, keys[..i], base)
    {
      AddOne(labels, keys, i, base);
      r := r[keys[i] := base[keys[i]]];
    }
    assert keys[..|keys|] == keys;
    AddedIsSum(labels, keys, base);
  }

  /** The sample as it was, with these labels besides its own, over which they win. */
  ghost predicate Labelled(sample: Sample<Float>, base: map<string, string>, r: Sample<Float>) {
    && r.metric == sample.metric && r.value == sample.value && r.kind == sample.kind
    && r.labels.Keys == sample.labels.Keys + base.Keys
    && (forall k | k in base :: r.labels[k] == base[k])
    && forall k | k in sample.labels && k !in base :: r.labels[k] == sample.labels[k]
  }

  method OverlayOne(sample: Sample<Float>, base: map<string, string>) returns (r: Sample<Float>)
    ensures Labelled(sample, base, r)
  {
    hide InOrder;
    var labels := Merge(sample.labels, base, InOrder(base.Keys));
    r := sample.(labels := labels);
  }

  /** Lays the base labels over every sample, in place. */
  method Overlay(samples: array<Sample<Float>>, base: map<string, string>)
    modifies samples
    ensures forall k :: 0 <= k < samples.Length ==> Labelled(old(samples[k]), base, samples[k])
  {
    hide Labelled;
    for i := 0 to samples.Length
      invariant forall k :: 0 <= k < i ==> Labelled(old(samples[k]), base, samples[k])
      invariant forall k :: i <= k < samples.Length ==> samples[k] == old(samples[k])
    {
      samples[i] := OverlayOne(samples[i], base);
    }
  }

  lemma {:induction false} AddOne(acc: map<string, string>, keys: seq<string>, j: nat, base: map<string, string>)
    requires j < |keys| && forall k :: 0 <= k < |keys| ==> keys[k] in base
    ensures AddAll(acc, keys[..j + 1], base) == AddAll(acc, keys[..j], base)[keys[j] := base[keys[j]]]
    decreases j
  {
    if j > 0 {
      assert keys[..j + 1][1..] == keys[1..][..j] && keys[..j][1..] == keys[1..][..j - 1];
      AddOne(acc[keys[0] := base[keys[0]]], keys[1..], j - 1, base);
    }
  }

  lemma AddedIsSum(acc: map<string, string>, keys: seq<string>, base: map<string, string>)
    requires forall k :: k in keys <==> k in base
    ensures AddAll(acc, keys, base) == acc + base
  {
    AddAllAdds(acc, keys, base);
  }

  lemma UnlabelledTakesAll(sample: Sample<Float>, base: map<string, string>, r: Sample<Float>)
    requires Labelled(sample, base, r) && sample.labels == map[]
    ensures r == Sample(sample.metric, base, sample.value, sample.kind)
  {
    assert r.labels == base;
  }

  /** The samples of a collector as they are stored, the witness `up` added last. */
  method Probe(collected: seq<Sample<Float>>, one: Float, target: Target) returns (r: seq<Sample<Float>>)
    ensures |r| == |collected| + 1
    ensures forall k :: 0 <= k < |collected| ==> Labelled(collected[k], BaseOf(target), r[k])
    ensures r[|collected|] == Sample("up", BaseOf(target), one, Gauge)
    ensures forall k :: 0 <= k < |r| ==>
      && "target" in r[k].labels && r[k].labels["target"] == target.id
      && "host" in r[k].labels && r[k].labels["host"] == target.name
  {
    BaseIsComplete(target);
    hide BaseOf;
    hide TagKeys;
    hide Shows;
    hide LastOfItsName;
    var all := collected + [Sample("up", map[], one, Gauge)];
    var samples := new Sample<Float>[|all|](i requires 0 <= i < |all| => all[i]);
    var base := BaseLabels(target);
    Overlay(samples, base);
    r := samples[..];
    UnlabelledTakesAll(all[|collected|], base, r[|collected|]);
    hide Complete;
    forall k | 0 <= k < |r|
      ensures "target" in r[k].labels && r[k].labels["target"] == target.id
      ensures "host" in r[k].labels && r[k].labels["host"] == target.name
    {
      assert Labelled(all[k], base, r[k]);
    }
  }

  /** Nothing a pack exports is overwritten by the identity labels, and no identity
      label is lost: on every sample the overlay is a disjoint union. */
  lemma OverlayLosesNothing(target: Target, sample: Sample<Float>, stored: Sample<Float>)
    requires CleanLabels(sample.labels) && Labelled(sample, BaseOf(target), stored)
    ensures var labels, all := sample.labels, stored.labels;
            && labels.Keys !! BaseOf(target).Keys
            && (forall k :: k in labels ==> k in all && all[k] == labels[k])
            && (forall k :: k in BaseOf(target) ==> k in all && all[k] == BaseOf(target)[k])
            && |all| == |labels| + |BaseOf(target)|
  {
    var labels, base := sample.labels, BaseOf(target);
    forall key | key in labels ensures key !in base {
      if key in base {
        BaseIsReserved(target, key);
      }
    }
    hide BaseOf;
    assert |labels| == |labels.Keys| && |base| == |base.Keys| && |stored.labels| == |stored.labels.Keys|;
  }

  /** Every sample of every accepted pack is stored with all its own labels and all the
      target's. */
  lemma PackSamplesKeepTheirLabels(
      syntax: Syntax, m: Manifest, lib: Libraries, bodies: map<string, Bytes>, target: Target, k: nat,
      stored: Sample<Float>)
    requires Accepted(syntax, m)
    requires AllSamples(lib, PackOf(m).sources, bodies).Ok? && k < |AllSamples(lib, PackOf(m).sources, bodies).value|
    requires Labelled(AllSamples(lib, PackOf(m).sources, bodies).value[k], BaseOf(target), stored)
    ensures var sample := AllSamples(lib, PackOf(m).sources, bodies).value[k];
            && (forall key :: key in sample.labels ==> key in stored.labels && stored.labels[key] == sample.labels[key])
            && (forall key :: key in BaseOf(target) ==>
                  key in stored.labels && stored.labels[key] == BaseOf(target)[key])
            && |stored.labels| == |sample.labels| + |BaseOf(target)|
  {
    hide AllSamples;
    hide Accepted;
    hide PackOf;
    hide BaseOf;
    AcceptedPacksStayInTheirNames(syntax, m, lib, bodies);
    var sample := AllSamples(lib, PackOf(m).sources, bodies).value[k];
    assert Proper(NamesOf(PackOf(m)), sample);
    OverlayLosesNothing(target, sample, stored);
  }
}
