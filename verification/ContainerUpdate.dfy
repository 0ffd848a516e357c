/** The `update` command: pull, set the old container aside under another name,
    create and start its replacement, and either drop the old one once the new
    one is seen healthy or put it back.  The methods follow the agent call by
    call; what they promise is about the whole trace of calls, so it holds for
    every schedule of failures and, because every prefix of a trace is covered,
    for every point at which the agent may be killed. */
module ContainerUpdate {
  import opened Wrappers
  import opened Docker
  import opened Replacement

  ghost predicate SeenRunning(t: Trace, id: Id) {
    Opening(t).Some? && id in Opening(t).value.before && Opening(t).value.before[id].running
  }

  ghost predicate AlwaysThere(t: Trace, id: Id) {
    t.Then? ==> id in t.step.after && AlwaysThere(t.past, id)
  }

  /** No container was made, connected, started or stopped. */
  ghost predicate OnlyRenamesAndRemoves(t: Trace) {
    t.Then? ==>
      && !(t.step.call.Create? || t.step.call.Connect? || t.step.call.Start? || t.step.call.Stop?)
      && OnlyRenamesAndRemoves(t.past)
  }

  /** The command begins with the inspection of `name`, which finds the containers
      `s0` up to drift. */
  ghost predicate BeginsAt(t: Trace, s0: Containers, name: string) {
    && Opening(t).Some? && Opening(t).value.call == Find(name)
    && Drifted(s0, Opening(t).value.before)
  }

  lemma {:induction false} QuietTraceIsSafe(t: Trace, watched: Id, wasRunning: bool, prev: Id, id: Id)
    ensures AlwaysThere(t, watched) ==> CrashSafe(t, watched, wasRunning)
    ensures OnlyRenamesAndRemoves(t) ==> StartsAlone(t, prev, id) && !Created(t, id) && NeverSwitches(t)
  {
    if t.Then? {
      QuietTraceIsSafe(t.past, watched, wasRunning, prev, id);
    }
  }

  lemma DriftsAddUp(a: Containers, b: Containers, c: Containers)
    requires Drifted(a, b) && Drifted(b, c)
    ensures Drifted(a, c)
  {
    forall id | id in a
      ensures c[id] == a[id].(running := c[id].running, health := c[id].health)
      ensures c[id].running ==> a[id].running
    {
      assert id in b;
    }
  }

  predicate IsHex(c: char) {
    '0' <= c <= '9' || 'a' <= c <= 'f' || 'A' <= c <= 'F'
  }

  predicate LooksLikeAnImageId(reference: string) {
    "sha256:" <= reference
    || (|reference| == 64 && forall k | 0 <= k < 64 :: IsHex(reference[k]))
  }

  /** What a leftover of an interrupted update is recognised by. */
  predicate IsOurPrevious(stale: Container, current: Container) {
    stale.reference == current.reference && stale.labels == current.labels
  }

  /** Since `base`, only calls that ask and change no container. */
  ghost predicate QuietSince(t: Trace, base: Trace) {
    t == base ||
    (t.Then? && (t.step.call.Pull? || t.step.call.InspectImage? || t.step.call.Find?)
     && QuietSince(t.past, base))
  }

  lemma {:induction false} QuietKeeps(t: Trace, base: Trace)
    requires IsRun(t) && QuietSince(t, base) && base.Then?
    ensures t.Then? && Drifted(base.step.after, t.step.after)
    ensures OnlyRenamesAndRemoves(base) ==> OnlyRenamesAndRemoves(t)
    ensures Opening(t) == Opening(base)
  {
    if t != base {
      QuietKeeps(t.past, base);
      DriftsAddUp(base.step.after, t.past.step.after, t.step.after);
    }
  }

  lemma {:induction false} QuietKeepsThere(t: Trace, base: Trace, id: Id)
    requires IsRun(t) && QuietSince(t, base) && base.Then? && AlwaysThere(base, id)
    ensures AlwaysThere(t, id)
  {
    if t != base {
      QuietKeepsThere(t.past, base, id);
    }
  }

  lemma {:induction false} QuietTouchesNothing(t: Trace, base: Trace, ids: set<Id>)
    requires QuietSince(t, base) && TouchesOnly(base, ids)
    ensures TouchesOnly(t, ids)
  {
    if t != base {
      QuietTouchesNothing(t.past, base, ids);
    }
  }

  /** A call that asks and changes no container. */
  method Ask(d: Daemon, call: Call, ghost base: Trace) returns (reply: Reply)
    requires d.Valid() && QuietSince(d.trace, base)
    requires call.Pull? || call.InspectImage? || call.Find?
    modifies d
    ensures d.Valid() && QuietSince(d.trace, base) && d.nextId == old(d.nextId)
    ensures !call.Pull? ==> d.images == old(d.images)
    ensures call.Pull? && reply == Done ==> call.reference in d.images
    ensures d.trace.Then? && d.trace.past == old(d.trace) && d.trace.step.call == call && d.trace.step.reply == reply
    ensures reply == Done || (call.Find? && reply == NotFound) || EndsWith(d.trace, call)
    ensures call.Find? && reply == Done ==> exists id :: id in d.containers && d.containers[id].name == call.wanted
    ensures call.Find? && reply == NotFound ==> call.wanted !in NamesOf(d.containers)
  {
    ghost var step;
    reply, step := d.Perform(call);
  }

  datatype Plan = Plan(prev: Id, current: Container, request: Request)

  /** The new container asks for the same reference and the same networks, one at
      creation and the others afterwards. */
  ghost predicate Recreates(req: Request, current: Container) {
    && req.reference == current.reference
    && req.first + req.extra == current.networks
    && |req.first| <= 1
  }

  /** The reference names another image than the one the container was made from. */
  ghost predicate Outdated(c: Container, images: map<string, string>) {
    c.reference in images && images[c.reference] != c.image
  }

  ghost predicate Latest(c: Container, images: map<string, string>) {
    c.reference in images && images[c.reference] == c.image
  }

  /** Why a container is not compared with its image, or cannot be made again. */
  ghost predicate Declines(error: Error, t: Trace, c: Container) {
    match error
    case PullFailed => EndsWith(t, Pull(c.reference))
    case ImageUnreadable => EndsWith(t, InspectImage(c.reference))
    case NotRecreatable => !c.recreatable
    case _ => false
  }

  /** Pulls, compares the image ids, and prepares the request. */
  method PullAndCompare(d: Daemon, prev: Id, current: Container, ghost base: Trace)
    returns (r: Result<Option<Plan>, Error>)
    requires d.Valid() && QuietSince(d.trace, base)
    modifies d
    ensures d.Valid() && QuietSince(d.trace, base) && d.trace.Then? && d.nextId == old(d.nextId)
    ensures r.Err? ==> Declines(r.error, d.trace, current)
    ensures r.Ok? ==> Answered(d.trace, Pull(current.reference))
    ensures r.Ok? && r.value.Some? ==>
      && r.value.value.prev == prev && r.value.value.current == current && current.recreatable
      && Recreates(r.value.value.request, current) && Outdated(current, d.images)
    ensures r == Ok(None) ==> Latest(current, d.images)
  {
    var reply := Ask(d, Pull(current.reference), base);
    if reply != Done {
      return Err(PullFailed);
    }
    ghost var pulled := d.trace;
    reply := Ask(d, InspectImage(current.reference), base);
    if reply != Done {
      return Err(ImageUnreadable);
    }
    if d.images[current.reference] == current.image {
      return Ok(None);
    }
    reply := Ask(d, InspectImage(current.image), base);
    assert Answered(d.trace.past.past, Pull(current.reference));
    // Which labels are asked for depends on the old image, when it can still be read.
    var labels: map<string, string> := *;
    if !current.recreatable {
      return Err(NotRecreatable);
    }
    var cut := if |current.networks| == 0 then 0 else 1;
    var request := Request(current.reference, labels, current.networks[..cut], current.networks[cut..]);
    return Ok(Some(Plan(prev, current, request)));
  }

  /** What is known once everything has been decided and no container touched. */
  ghost predicate Surveyed(plan: Plan, name: string, s0: Containers, s: Containers, t: Trace) {
    && Bears(s0, plan.prev, name)
    && SameContainer(s0[plan.prev], plan.current)
    && plan.current.running == SeenRunning(t, plan.prev)
    && (!plan.current.running ==> Stopped(s, plan.prev))
    && Recreates(plan.request, plan.current) && plan.current.recreatable
  }

  predicate Pullable(reference: string) {
    reference != "" && !LooksLikeAnImageId(reference)
  }

  /** The container may be updated, and its reference was pulled. */
  ghost predicate Accepted(t: Trace, s0: Containers, prev: Id, name: string, own: Option<Id>) {
    && Bears(s0, prev, name) && !OffLimits(s0[prev], prev, own) && Pullable(s0[prev].reference)
    && Answered(t, Pull(s0[prev].reference))
  }

  /** Some container bears the reserved name and is not this one's leftover. */
  ghost predicate HasStranger(s: Containers, prev: Id, name: string) {
    prev in s && exists x :: Bears(s, x, name + PREVIOUS_SUFFIX) && !IsOurPrevious(s[x], s[prev])
  }

  /** Why a command ends before the replacement: what it met, or the call that failed. */
  ghost predicate Excused(error: Error, t: Trace, s0: Containers, prev: Id, name: string, own: Option<Id>) {
    match error
    case NoSuchContainer => name !in NamesOf(s0)
    case NoAnswer => EndsWith(t, Find(name)) || EndsWith(t, Find(name + PREVIOUS_SUFFIX))
    case Reserved => Bears(s0, prev, name) && OffLimits(s0[prev], prev, own)
    case NotPullable => Bears(s0, prev, name) && !Pullable(s0[prev].reference)
    case NotOurs => Bears(s0, prev, name) && HasStranger(s0, prev, name)
    case RenameFailed => Bears(s0, prev, name) && EndsWith(t, Rename(prev, name + PREVIOUS_SUFFIX))
    case _ => Bears(s0, prev, name) && Declines(error, t, s0[prev])
  }

  lemma DriftKeepsNames(s: Containers, s': Containers)
    requires Drifted(s, s')
    ensures NamesOf(s) == NamesOf(s')
  {
    assert forall id :: id in s ==> s[id].name == s'[id].name;
    assert forall id :: id in s ==> s[id].name in NamesOf(s) && s'[id].name in NamesOf(s');
  }

  lemma FirstInspection(t: Trace, step: Step)
    requires t == Then(Nothing, step) && step.call.Find?
    ensures OnlyRenamesAndRemoves(t) && TouchesOnly(t, {}) && Opening(t) == Some(step)
    ensures forall id | id in step.after :: AlwaysThere(t, id)
  {
    assert OnlyRenamesAndRemoves(t.past) && TouchesOnly(t.past, {});
    assert forall id :: AlwaysThere(t.past, id);
  }

  lemma SameExcuse(error: Error, t: Trace, c: Container, c': Container)
    requires SameContainer(c, c') && Declines(error, t, c')
    ensures Declines(error, t, c)
  {
  }

  /** What follows the inspection that found `prev`. */
  method SurveyFound(d: Daemon, name: string, own: Option<Id>, prev: Id, ghost s0: Containers)
    returns (r: Result<Option<Plan>, Error>)
    requires d.Valid() && BeginsAt(d.trace, s0, name) && Opening(d.trace).value.before == d.containers
    requires Bears(s0, prev, name) && !OffLimits(s0[prev], prev, own) && AlwaysThere(d.trace, prev)
    requires OnlyRenamesAndRemoves(d.trace) && TouchesOnly(d.trace, {})
    modifies d
    ensures d.Valid() && d.nextId == old(d.nextId) && Drifted(s0, d.containers)
    ensures AlwaysThere(d.trace, prev) && OnlyRenamesAndRemoves(d.trace) && TouchesOnly(d.trace, {})
    ensures BeginsAt(d.trace, s0, name)
    ensures r.Err? ==> Excused(r.error, d.trace, s0, prev, name, own)
    ensures r.Ok? ==> Accepted(d.trace, s0, prev, name, own)
    ensures r.Ok? && r.value.Some? ==>
      && r.value.value.prev == prev && Surveyed(r.value.value, name, s0, d.containers, d.trace)
      && Outdated(r.value.value.current, d.images)
    ensures r == Ok(None) ==> Latest(s0[prev], d.images)
  {
    hide OnlyRenamesAndRemoves;
    hide TouchesOnly;
    hide AlwaysThere;
    hide Declines;
    hide Recreates;
    ghost var base, seen := d.trace, d.containers;
    assert base.Then? && base.step.after == seen;
    var current := d.containers[prev];
    assert SameContainer(s0[prev], current);
    if current.reference == "" || LooksLikeAnImageId(current.reference) {
      return Err(NotPullable);
    }
    r := PullAndCompare(d, prev, current, base);
    QuietKeeps(d.trace, base);
    QuietTouchesNothing(d.trace, base, {});
    QuietKeepsThere(d.trace, base, prev);
    DriftsAddUp(s0, seen, d.containers);
    if r.Err? {
      SameExcuse(r.error, d.trace, s0[prev], current);
    }
  }

  /** Everything that is decided before a container is touched.  `prev` is the one that
      bears the name, if one was found. */
  method Survey(d: Daemon, name: string, own: Option<Id>, ghost watched: Id)
    returns (r: Result<Option<Plan>, Error>, ghost prev: Id)
    requires d.Valid() && d.trace == Nothing
    modifies d
    ensures d.Valid() && d.nextId == old(d.nextId) && d.trace.Then?
    ensures Drifted(old(d.containers), d.containers)
    ensures Bears(old(d.containers), watched, name) ==> prev == watched && AlwaysThere(d.trace, watched)
    ensures OnlyRenamesAndRemoves(d.trace) && TouchesOnly(d.trace, {})
    ensures BeginsAt(d.trace, old(d.containers), name)
    ensures r.Err? ==> Excused(r.error, d.trace, old(d.containers), prev, name, own)
    ensures r.Ok? ==> Accepted(d.trace, old(d.containers), prev, name, own)
    ensures r.Ok? && r.value.Some? ==>
      && r.value.value.prev == prev
      && Surveyed(r.value.value, name, old(d.containers), d.containers, d.trace)
      && Outdated(r.value.value.current, d.images)
      && AlwaysThere(d.trace, prev)
    ensures r == Ok(None) ==> prev in old(d.containers) && Latest(old(d.containers)[prev], d.images)
  {
    hide OnlyRenamesAndRemoves;
    hide TouchesOnly;
    hide AlwaysThere;
    hide Declines;
    hide Surveyed;
    hide Accepted;
    hide Latest;
    hide Outdated;
    ghost var s0 := d.containers;
    var found, at, step := InspectName(d, name, own);
    ghost var base := d.trace;
    ghost var seen := d.containers;
    FirstInspection(base, step);
    DriftKeepsNames(s0, seen);
    prev := watched;
    if found.Err? {
      if found.error == Reserved {
        prev := at;
      }
      return Err(found.error), prev;
    }
    var id := found.value;
    prev := id;
    assert Bears(s0, id, name) && Opening(base).value.before == d.containers;
    r := SurveyFound(d, name, own, id, s0);
  }

  /** No container bore the reserved name but the one that `stale` tells. */
  ghost predicate NoOtherLeftover(s0: Containers, stale: Option<Id>, name: string) {
    forall x | x in s0 && s0[x].name == name + PREVIOUS_SUFFIX :: stale == Some(x)
  }

  /** Up to drift, `s` is `s0`, except that the container `stale` may be gone. */
  ghost predicate DriftedButFor(s0: Containers, s: Containers, stale: Option<Id>) {
    && s.Keys <= s0.Keys
    && (forall x | x in s0 :: x in s || stale == Some(x))
    && (forall x | x in s :: SameContainer(s0[x], s[x]) && (s[x].running ==> s0[x].running))
  }

  function Touched(prev: Id, stale: Option<Id>): set<Id> {
    {prev} + if stale.Some? then {stale.value} else {}
  }

  /** The only bystander a command may remove: one with the reserved name, the
      same image reference and the same labels. */
  ghost predicate StaleOf(s0: Containers, stale: Option<Id>, prev: Id, name: string) {
    stale.Some? ==>
      && stale.value != prev && stale.value in s0 && prev in s0
      && s0[stale.value].name == name + PREVIOUS_SUFFIX
      && IsOurPrevious(s0[stale.value], s0[prev])
  }

  lemma RemovalIsDrift(s0: Containers, a: Containers, b: Containers, c: Containers, stale: Id)
    requires Drifted(s0, a) && Drifted(a, b) && (c == b || c == b - {stale})
    ensures DriftedButFor(s0, c, Some(stale))
  {
    DriftsAddUp(s0, a, b);
  }

  method RemoveLeftover(d: Daemon, id: Id, ghost prev: Id, ghost s0: Containers) returns (ghost step: Step)
    requires d.Valid() && Drifted(s0, d.containers)
    modifies d
    ensures d.Valid() && d.images == old(d.images) && d.nextId == old(d.nextId)
    ensures d.trace == Then(old(d.trace), step) && step.call == Remove(id)
    ensures DriftedButFor(s0, d.containers, Some(id))
    ensures forall x :: x in s0 && x != id ==> x in d.containers
    ensures Stopped(old(d.containers), prev) ==> Stopped(d.containers, prev)
    ensures step.after == d.containers
  {
    var reply;
    reply, step := d.Perform(Remove(id));
    RemovalIsDrift(s0, old(d.containers), step.before, d.containers, id);
  }

  /** Looks for a leftover, and refuses a stranger with its name. */
  method FindLeftover(d: Daemon, previousName: string, current: Container, ghost base: Trace)
    returns (r: Result<Option<Id>, Error>)
    requires d.Valid() && QuietSince(d.trace, base)
    modifies d
    ensures d.Valid() && QuietSince(d.trace, base) && d.trace.Then?
    ensures d.images == old(d.images) && d.nextId == old(d.nextId)
    ensures match r
            case Ok(_) => true
            case Err(NoAnswer) => EndsWith(d.trace, Find(previousName))
            case Err(NotOurs) => exists id :: Bears(d.containers, id, previousName)
                                  && !IsOurPrevious(d.containers[id], current)
            case Err(_) => false
    ensures r.Ok? && r.value.Some? ==>
      && r.value.value in d.containers && d.containers[r.value.value].name == previousName
      && IsOurPrevious(d.containers[r.value.value], current)
    ensures r.Ok? ==> forall id | id in d.containers && d.containers[id].name == previousName ::
      r.value == Some(id) && IsOurPrevious(d.containers[id], current)
  {
    var reply := Ask(d, Find(previousName), base);
    if reply == NotFound {
      assert forall id :: id in d.containers ==> d.containers[id].name in NamesOf(d.containers);
      return Ok(None);
    }
    if reply != Done {
      return Err(NoAnswer);
    }
    var id :| id in d.containers && d.containers[id].name == previousName;
    assert Bears(d.containers, id, previousName);
    return if IsOurPrevious(d.containers[id], current) then Ok(Some(id)) else Err(NotOurs);
  }

  lemma StrangersStay(s0: Containers, s: Containers, prev: Id, current: Container, name: string)
    requires Drifted(s0, s) && prev in s0 && SameContainer(s0[prev], current)
    requires exists id :: Bears(s, id, name + PREVIOUS_SUFFIX) && !IsOurPrevious(s[id], current)
    ensures HasStranger(s0, prev, name)
  {
    var id :| Bears(s, id, name + PREVIOUS_SUFFIX) && !IsOurPrevious(s[id], current);
    assert Bears(s0, id, name + PREVIOUS_SUFFIX) && !IsOurPrevious(s0[id], s0[prev]);
  }

  lemma {:induction false} QuietIsCut(t: Trace, base: Trace)
    requires QuietSince(t, base)
    ensures IsCut(base, t)
  {
    if t != base {
      QuietIsCut(t.past, base);
    }
  }

  lemma RemovalIsQuiet(t: Trace, step: Step, prev: Id, id: Id, watched: Id)
    requires step.call == Remove(id) && watched in step.after && t.Then?
    requires OnlyRenamesAndRemoves(t) && AlwaysThere(t, watched) && TouchesOnly(t, Touched(prev, None))
    ensures OnlyRenamesAndRemoves(Then(t, step)) && AlwaysThere(Then(t, step), watched)
    ensures TouchesOnly(Then(t, step), Touched(prev, Some(id))) && Opening(Then(t, step)) == Opening(t)
  {
    TouchesMore(t, Touched(prev, None), Touched(prev, Some(id)));
  }

  /** A leftover is removed only if it is recognised; a stranger with that name
      stops the update. */
  method RemoveStalePrevious(
      d: Daemon, name: string, prev: Id, current: Container, ghost s0: Containers, ghost watched: Id,
      ghost own: Option<Id>)
    returns (r: Result<(), Error>, ghost stale: Option<Id>)
    requires d.Valid() && d.trace.Then? && Drifted(s0, d.containers)
    requires prev in s0 && s0[prev].name == name && SameContainer(s0[prev], current)
    requires OnlyRenamesAndRemoves(d.trace) && TouchesOnly(d.trace, {})
    requires watched in s0 && s0[watched].name == name && AlwaysThere(d.trace, watched)
    modifies d
    ensures d.Valid() && d.images == old(d.images) && d.nextId == old(d.nextId) && d.trace.Then?
    ensures OnlyRenamesAndRemoves(d.trace) && AlwaysThere(d.trace, watched)
    ensures Opening(d.trace) == Opening(old(d.trace))
    ensures DriftedButFor(s0, d.containers, stale) && StaleOf(s0, stale, prev, name)
    ensures TouchesOnly(d.trace, Touched(prev, stale))
    ensures IsCut(old(d.trace), d.trace)
    ensures stale.Some? ==> Asked(d.trace, Remove(stale.value))
    ensures r.Ok? ==> NoOtherLeftover(s0, stale, name)
    ensures r.Err? ==> stale.None? && Excused(r.error, d.trace, s0, prev, name, own)
    ensures Stopped(old(d.containers), prev) ==> Stopped(d.containers, prev)
  {
    hide AlwaysThere;
    hide OnlyRenamesAndRemoves;
    hide TouchesOnly;
    stale := None;
    ghost var base := d.trace;
    var previousName := name + PREVIOUS_SUFFIX;
    assert previousName != name;
    var found := FindLeftover(d, previousName, current, base);
    QuietKeeps(d.trace, base);
    QuietKeepsThere(d.trace, base, watched);
    TouchesMore(base, {}, Touched(prev, None));
    QuietTouchesNothing(d.trace, base, Touched(prev, None));
    QuietIsCut(d.trace, base);
    DriftsAddUp(s0, old(d.containers), d.containers);
    if found.Err? {
      if found.error == NotOurs {
        StrangersStay(s0, d.containers, prev, current, name);
      }
      return Err(found.error), None;
    }
    assert forall x | x in s0 && s0[x].name == previousName :: d.containers[x].name == previousName;
    if found.value.Some? {
      var id := found.value.value;
      assert s0[id].name == previousName;
      ghost var t := d.trace;
      ghost var step := RemoveLeftover(d, id, prev, s0);
      stale := Some(id);
      RemovalIsQuiet(t, step, prev, id, watched);
    }
    r := Ok(());
  }

  /** The old container waits under the reserved name; nothing was started. */
  ghost predicate Aside(plan: Plan, name: string, s0: Containers, d: Daemon, stale: Option<Id>)
    reads d
  {
    && d.trace.Then? && d.trace.step.after == d.containers
    && Surveyed(plan, name, s0, d.containers, d.trace)
    && Outdated(plan.current, d.images)
    && AlwaysThere(d.trace, plan.prev) && OnlyRenamesAndRemoves(d.trace)
    && TouchesOnly(d.trace, Touched(plan.prev, stale))
    && StaleOf(s0, stale, plan.prev, name)
    && d.containers.Keys <= s0.Keys
    && (forall x | x in s0 :: x in d.containers || stale == Some(x))
    && plan.prev in d.containers
    && SameContainer(s0[plan.prev].(name := name + PREVIOUS_SUFFIX), d.containers[plan.prev])
    && d.trace.step.call == Rename(plan.prev, name + PREVIOUS_SUFFIX) && d.trace.step.reply == Done
  }

  /** The rename got no answer, so it may have happened or not. */
  ghost predicate RenameLost(t: Trace, s0: Containers, s: Containers, prev: Id, name: string) {
    && t.Then? && t.step.call == Rename(prev, name + PREVIOUS_SUFFIX) && t.step.reply == Lost
    && prev in s0 && prev in s && s[prev].name in {name, name + PREVIOUS_SUFFIX}
    && SameContainer(s0[prev].(name := s[prev].name), s[prev])
  }

  lemma RenamedAfterRemoval(
      s0: Containers, before: Containers, s: Containers, stale: Option<Id>, prev: Id, name: string)
    requires DriftedButFor(s0, before, stale) && s.Keys == before.Keys && prev in before
    requires SameContainer(before[prev].(name := s[prev].name), s[prev]) && s[prev].name == name
    ensures s.Keys <= s0.Keys && forall x | x in s0 :: x in s || stale == Some(x)
    ensures SameContainer(s0[prev].(name := name), s[prev])
  {
  }

  lemma DriftAfterRemoval(a: Containers, b: Containers, c: Containers, stale: Option<Id>)
    requires DriftedButFor(a, b, stale) && Drifted(b, c)
    ensures DriftedButFor(a, c, stale)
  {
    forall x | x in c ensures SameContainer(a[x], c[x]) && (c[x].running ==> a[x].running) {
      assert x in b;
    }
  }

  /** Renames the old container, which until then bears the name. */
  method MoveAside(d: Daemon, name: string, plan: Plan, ghost s0: Containers, ghost stale: Option<Id>)
    returns (r: Result<(), Error>)
    requires d.Valid() && d.trace.Then? && plan.prev in s0 && DriftedButFor(s0, d.containers, stale)
    requires Surveyed(plan, name, s0, d.containers, d.trace) && StaleOf(s0, stale, plan.prev, name)
    requires Outdated(plan.current, d.images) && AlwaysThere(d.trace, plan.prev) && OnlyRenamesAndRemoves(d.trace)
    requires TouchesOnly(d.trace, Touched(plan.prev, stale))
    modifies d
    ensures d.Valid() && d.nextId == old(d.nextId) && d.images == old(d.images)
    ensures OnlyRenamesAndRemoves(d.trace) && AlwaysThere(d.trace, plan.prev)
    ensures TouchesOnly(d.trace, Touched(plan.prev, stale)) && Opening(d.trace) == Opening(old(d.trace))
    ensures d.containers.Keys == old(d.containers).Keys
    ensures IsCut(old(d.trace), d.trace)
    ensures r.Err? ==> r.error == RenameFailed && EndsWith(d.trace, Rename(plan.prev, name + PREVIOUS_SUFFIX))
    ensures r.Err? ==>
      DriftedButFor(s0, d.containers, stale) || RenameLost(d.trace, s0, d.containers, plan.prev, name)
    ensures r.Ok? ==> Aside(plan, name, s0, d, stale)
  {
    hide StaleOf;
    hide Recreates;
    ghost var before := d.containers;
    assert plan.prev in before;
    var renamed, step := RenameContainer(d, plan.prev, name + PREVIOUS_SUFFIX, plan.prev + 1);
    assert AlwaysThere(d.trace, plan.prev) && OnlyRenamesAndRemoves(d.trace)
      && Opening(d.trace) == Opening(d.trace.past);
    assert TouchesOnly(d.trace, Touched(plan.prev, stale));
    if renamed != Done {
      if renamed != Lost {
        DriftAfterRemoval(s0, before, d.containers, stale);
      }
      return Err(RenameFailed);
    }
    RenamedAfterRemoval(s0, before, d.containers, stale, plan.prev, name + PREVIOUS_SUFFIX);
    r := Ok(());
  }

  lemma AcceptedStays(t: Trace, cut: Trace, s0: Containers, prev: Id, name: string, own: Option<Id>)
    requires Accepted(cut, s0, prev, name, own) && IsCut(cut, t)
    ensures Accepted(t, s0, prev, name, own)
  {
    AskedStays(t, cut, Pull(s0[prev].reference));
  }

  /** The container is to be replaced: it may be updated, its freshly pulled reference
      names another image, and a leftover `stale` has been asked to go. */
  ghost predicate Chosen(
      t: Trace, s0: Containers, images: map<string, string>, prev: Id, stale: Option<Id>, name: string,
      own: Option<Id>)
  {
    && Accepted(t, s0, prev, name, own) && s0[prev].recreatable && Outdated(s0[prev], images)
    && (stale.Some? ==> Asked(t, Remove(stale.value)))
  }

  lemma ChosenStays(
      t: Trace, cut: Trace, s0: Containers, images: map<string, string>, prev: Id, stale: Option<Id>, name: string,
      own: Option<Id>)
    requires Chosen(cut, s0, images, prev, stale, name, own) && IsCut(cut, t)
    ensures Chosen(t, s0, images, prev, stale, name, own)
  {
    AcceptedStays(t, cut, s0, prev, name, own);
    if stale.Some? {
      AskedStays(t, cut, Remove(stale.value));
    }
  }

  lemma SurveyChooses(
      t: Trace, plan: Plan, s0: Containers, s: Containers, images: map<string, string>, name: string, own: Option<Id>)
    requires Surveyed(plan, name, s0, s, t) && Outdated(plan.current, images) && Accepted(t, s0, plan.prev, name, own)
    ensures Chosen(t, s0, images, plan.prev, None, name, own)
    ensures SameContainer(s0[plan.prev], plan.current)
  {
  }

  function Ending(r: Result<Option<Plan>, Error>): Outcome {
    if r.Err? then Failed(r.error) else UpToDate
  }

  /** How a command ends that does not come to the replacement. */
  ghost predicate Declined(
      d: Daemon, outcome: Outcome, name: string, s0: Containers, prev: Id, stale: Option<Id>, own: Option<Id>)
    reads d
  {
    && OnlyRenamesAndRemoves(d.trace)
    && match outcome
       case Updated => false
       case UpToDate =>
         && stale.None? && TouchesOnly(d.trace, {}) && Drifted(s0, d.containers)
         && Accepted(d.trace, s0, prev, name, own) && Latest(s0[prev], d.images)
       case Failed(error) =>
         && Excused(error, d.trace, s0, prev, name, own)
         && (DriftedButFor(s0, d.containers, stale) || RenameLost(d.trace, s0, d.containers, prev, name))
  }

  lemma NothingStale(s0: Containers, prev: Id, name: string)
    ensures StaleOf(s0, None, prev, name)
  {
  }

  lemma DeclinedAtOnce(
      d: Daemon, r: Result<Option<Plan>, Error>, name: string, s0: Containers, prev: Id, own: Option<Id>)
    requires OnlyRenamesAndRemoves(d.trace) && TouchesOnly(d.trace, {}) && Drifted(s0, d.containers)
    requires DriftedButFor(s0, d.containers, None)
    requires r.Err? ==> Excused(r.error, d.trace, s0, prev, name, own)
    requires r.Ok? ==> prev in s0 && Accepted(d.trace, s0, prev, name, own) && Latest(s0[prev], d.images)
    ensures Declined(d, Ending(r), name, s0, prev, None, own)
  {
  }

  lemma DeclinedAtTheRename(
      d: Daemon, name: string, s0: Containers, prev: Id, stale: Option<Id>, own: Option<Id>)
    requires OnlyRenamesAndRemoves(d.trace) && EndsWith(d.trace, Rename(prev, name + PREVIOUS_SUFFIX))
    requires Bears(s0, prev, name)
    requires DriftedButFor(s0, d.containers, stale) || RenameLost(d.trace, s0, d.containers, prev, name)
    ensures Declined(d, Failed(RenameFailed), name, s0, prev, stale, own)
  {
  }

  lemma ChosenThen(
      t: Trace, cut: Trace, s0: Containers, images: map<string, string>, prev: Id, stale: Option<Id>, name: string,
      own: Option<Id>)
    requires Chosen(cut, s0, images, prev, None, name, own) && IsCut(cut, t)
    requires stale.Some? ==> Asked(t, Remove(stale.value))
    ensures Chosen(t, s0, images, prev, stale, name, own)
  {
    AcceptedStays(t, cut, s0, prev, name, own);
  }

  lemma DriftIsHarmless(s0: Containers, s: Containers)
    requires Drifted(s0, s)
    ensures DriftedButFor(s0, s, None) && forall x | x in s0 :: x in s
  {
  }

  /** Until the old container is aside, nothing is started or made, and nothing but
      a recognised leftover can be missing. */
  method SetAside(d: Daemon, name: string, own: Option<Id>, ghost watched: Id)
    returns (r: Result<Option<Plan>, Error>, ghost prev: Id, ghost stale: Option<Id>)
    requires d.Valid() && d.trace == Nothing
    modifies d
    ensures d.Valid() && d.nextId == old(d.nextId)
    ensures OnlyRenamesAndRemoves(d.trace) && TouchesOnly(d.trace, Touched(prev, stale))
    ensures BeginsAt(d.trace, old(d.containers), name)
    ensures Bears(old(d.containers), watched, name) ==> prev == watched && AlwaysThere(d.trace, watched)
    ensures StaleOf(old(d.containers), stale, prev, name)
    ensures forall x | x in old(d.containers) :: x in d.containers || stale == Some(x)
    ensures stale.Some? ==> Chosen(d.trace, old(d.containers), d.images, prev, stale, name, own)
    ensures r.Err? || r.value.None? ==> Declined(d, Ending(r), name, old(d.containers), prev, stale, own)
    ensures r.Ok? && r.value.Some? ==>
      && r.value.value.prev == prev && Aside(r.value.value, name, old(d.containers), d, stale)
      && Chosen(d.trace, old(d.containers), d.images, prev, stale, name, own)
      && NoOtherLeftover(old(d.containers), stale, name)
  {
    stale := None;
    ghost var s0 := d.containers;
    var surveyed;
    surveyed, prev := Survey(d, name, own, watched);
    if surveyed.Err? || surveyed.value.None? {
      TouchesMore(d.trace, {}, Touched(prev, None));
      DriftIsHarmless(s0, d.containers);
      hide *;
      NothingStale(s0, prev, name);
      DeclinedAtOnce(d, surveyed, name, s0, prev, own);
      return surveyed, prev, None;
    }
    var plan := surveyed.value.value;
    ghost var base, seen := d.trace, d.containers;
    SurveyChooses(base, plan, s0, seen, d.images, name, own);
    assert Bears(s0, plan.prev, name) && (Bears(s0, watched, name) ==> watched == plan.prev);
    var cleared;
    cleared, stale := RemoveStalePrevious(d, name, plan.prev, plan.current, s0, prev, own);
    ChosenThen(d.trace, base, s0, d.images, prev, stale, name, own);
    if cleared.Err? {
      hide Excused;
      hide StaleOf;
      return Err(cleared.error), prev, stale;
    }
    assert forall x | x in s0 :: x in d.containers || stale == Some(x);
    assert Surveyed(plan, name, s0, d.containers, d.trace);
    hide *;
    ghost var cleaned := d.trace;
    var moved := MoveAside(d, name, plan, s0, stale);
    ChosenStays(d.trace, cleaned, s0, d.images, prev, stale, name, own);
    if moved.Err? {
      DeclinedAtTheRename(d, name, s0, prev, stale, own);
      return Err(moved.error), prev, stale;
    }
    return Ok(Some(plan)), prev, stale;
  }

  /** The new container carries the name and everything that was asked for. */
  ghost predicate TookOver(d: Daemon, name: string, id: Id, plan: Plan)
    reads d
  {
    && id in d.containers
    && Outdated(plan.current, d.images)
    && SameContainer(Blueprint(name, d.images[plan.current.reference], plan.request, plan.current.networks),
                     d.containers[id])
  }

  /** The end of a successful update: the old container is on its way out. */
  ghost predicate Settling(d: Daemon, name: string, plan: Plan, id: Id, ids: set<Id>)
    reads d
  {
    && d.trace.Then? && TookOver(d, name, id, plan)
    && RemovedOnceReplaced(d.trace, plan.prev, plan.current.running)
    && CrashSafe(d.trace, plan.prev, plan.current.running)
    && StartsAlone(d.trace, plan.prev, id) && TouchesOnly(d.trace, ids)
    && (plan.current.running ==> Stopped(d.containers, plan.prev))
    && (plan.prev in d.containers ==> d.containers[plan.prev].name == name + PREVIOUS_SUFFIX)
  }

  /** After `cut`, exactly the calls that settle an update: the old container is
      removed, and so is its image when that was asked for. */
  ghost predicate SettledAfter(t: Trace, cut: Trace, prev: Id, image: string, prune: bool) {
    var pruned := prune && image != "";
    && (pruned ==> t.Then? && t.step.call == RemoveImage(image))
    && var removed := if pruned then t.past else t;
       removed.Then? && removed.step.call == Remove(prev) && removed.past == cut
  }

  method PruneImage(d: Daemon, image: string, ghost name: string, ghost plan: Plan, ghost id: Id, ghost ids: set<Id>)
    requires d.Valid() && Settling(d, name, plan, id, ids)
    modifies d
    ensures d.Valid() && Settling(d, name, plan, id, ids) && d.images == old(d.images)
    ensures Opening(d.trace) == Opening(old(d.trace))
    ensures d.containers.Keys == old(d.containers).Keys
    ensures d.trace.Then? && d.trace.past == old(d.trace) && d.trace.step.call == RemoveImage(image)
  {
    var reply, step := d.Perform(RemoveImage(image));
  }

  /** Once the new container has proved itself: drop the old one, and its image
      when asked to. */
  method Settle(d: Daemon, name: string, plan: Plan, prune: bool, ghost id: Id, ghost ids: set<Id>)
    requires d.Valid() && d.trace.Then? && plan.prev in d.containers && plan.prev != id
    requires TookOver(d, name, id, plan)
    requires CrashSafe(d.trace, plan.prev, plan.current.running) && StartsAlone(d.trace, plan.prev, id)
    requires Replaced(d.trace, plan.current.running) && TouchesOnly(d.trace, ids) && plan.prev in ids
    requires plan.current.running ==> Stopped(d.containers, plan.prev)
    requires d.containers[plan.prev].name == name + PREVIOUS_SUFFIX
    modifies d
    ensures d.Valid() && Settling(d, name, plan, id, ids) && d.images == old(d.images)
    ensures Opening(d.trace) == Opening(old(d.trace))
    ensures SettledAfter(d.trace, old(d.trace), plan.prev, plan.current.image, prune)
    ensures d.containers.Keys <= old(d.containers).Keys <= d.containers.Keys + {plan.prev}
  {
    var removed, removal := RemoveContainer(d, plan.prev, id);
    assert RemovedOnceReplaced(d.trace, plan.prev, plan.current.running);
    assert Settling(d, name, plan, id, ids);
    if prune && plan.current.image != "" {
      PruneImage(d, plan.current.image, name, plan, id, ids);
    }
  }

  lemma {:induction false} ReplaceKeepsOpening(t: Trace, base: Trace, born: Container, prev: Id, id: Id)
    requires ReplaceSince(t, base, born, prev, id) && base.Then?
    ensures t.Then? && Opening(t) == Opening(base)
  {
    if t != base {
      ReplaceKeepsOpening(t.past, base, born, prev, id);
    }
  }

  /** What precedes the settling or the undoing: the old container was set aside,
      and then nothing was called but what makes a replacement. */
  ghost predicate Attempted(cut: Trace, name: string, prev: Id, id: Id) {
    exists base: Trace, born: Container ::
      && ReplaceSince(cut, base, born, prev, id) && born.name == name
      && OnlyRenamesAndRemoves(base) && base.Then?
      && base.step.call == Rename(prev, name + PREVIOUS_SUFFIX) && base.step.reply == Done
  }

  /** A failed update that had to be undone, once the undoing is over. */
  ghost predicate Undone(d: Daemon, name: string, plan: Plan, id: Id, s: Containers, cut: Trace)
    reads d
  {
    && plan.prev in d.containers
    && RolledBack(d.trace, cut, name, plan.prev, id, plan.current.running)
    && (WorkedSince(d.trace, Length(cut)) ==>
          && d.containers[plan.prev].name == name
          && d.containers[plan.prev].running == plan.current.running
          && d.containers.Keys == s.Keys)
  }

  /** Undoes a replacement that failed. */
  method Undo(d: Daemon, name: string, plan: Plan, newId: Option<Id>, ghost id: Id, ghost s: Containers)
    requires d.Valid() && d.trace.Then? && plan.prev in d.containers && plan.prev != id
    requires newId.Some? ==> newId.value == id
    requires newId.Some? <==> Created(d.trace, id)
    requires newId.None? ==> Stopped(d.containers, id)
    requires !plan.current.running ==> Stopped(d.containers, plan.prev)
    requires CrashSafe(d.trace, plan.prev, plan.current.running) && StartsAlone(d.trace, plan.prev, id)
    requires s.Keys <= d.containers.Keys <= s.Keys + {id} && id !in s
    requires id in d.containers ==> d.containers[id].name == name
    modifies d
    ensures d.Valid() && d.trace.Then? && Opening(d.trace) == Opening(old(d.trace)) && d.images == old(d.images)
    ensures CrashSafe(d.trace, plan.prev, plan.current.running) && StartsAlone(d.trace, plan.prev, id)
    ensures s.Keys <= d.containers.Keys <= s.Keys + {id}
    ensures Undone(d, name, plan, id, s, old(d.trace))
  {
    hide RolledBack;
    hide CrashSafe;
    hide StartsAlone;
    Rollback(d, name, plan.prev, plan.current.running, newId, id);
  }

  lemma {:induction false} ReplaceIsCut(t: Trace, base: Trace, born: Container, prev: Id, id: Id)
    requires ReplaceSince(t, base, born, prev, id)
    ensures IsCut(base, t)
  {
    if t != base {
      ReplaceIsCut(t.past, base, born, prev, id);
    }
  }

  lemma EndIsCut(
      t: Trace, cut: Trace, base: Trace, name: string, prev: Id, id: Id, wasRunning: bool, image: string, prune: bool)
    requires RolledBack(t, cut, name, prev, id, wasRunning) || SettledAfter(t, cut, prev, image, prune)
    requires IsCut(base, cut)
    ensures IsCut(cut, t) && IsCut(base, t)
  {
    assert IsCut(cut, cut);
    if RolledBack(t, cut, name, prev, id, wasRunning) {
      var renamed := if wasRunning then t.past else t;
      assert IsCut(cut, renamed.past);
    } else {
      var removed := if prune && image != "" then t.past else t;
      assert IsCut(cut, removed);
    }
    CutOfACut(base, cut, t);
  }

  lemma SettlingSwitchesNothing(t: Trace, cut: Trace, prev: Id, image: string, prune: bool)
    requires SettledAfter(t, cut, prev, image, prune)
    ensures NeverSwitches(cut) ==> NeverSwitches(t)
  {
    assert NeverSwitches(cut) ==> NeverSwitches(if prune && image != "" then t.past else t);
  }

  /** From the moment the old container is aside: replace it, then settle or
      undo.  `cut` is what had been done when the undoing began. */
  method SwapOrUndo(
      d: Daemon, name: string, plan: Plan, prune: bool, own: Option<Id>, ghost s0: Containers, ghost stale: Option<Id>)
    returns (outcome: Outcome, ghost cut: Trace)
    requires d.Valid() && Aside(plan, name, s0, d, stale)
    modifies d
    ensures d.Valid() && !outcome.UpToDate? && d.images == old(d.images)
    ensures IsCut(old(d.trace), d.trace) && IsCut(cut, d.trace)
    ensures CrashSafe(d.trace, plan.prev, plan.current.running)
    ensures StartsAlone(d.trace, plan.prev, old(d.nextId))
    ensures TouchesOnly(d.trace, Touched(plan.prev, stale) + {old(d.nextId)})
    ensures Opening(d.trace) == Opening(old(d.trace))
    ensures old(d.containers).Keys - {plan.prev} <= d.containers.Keys <= old(d.containers).Keys + {old(d.nextId)}
    ensures outcome.Updated? ==>
      Settling(d, name, plan, old(d.nextId), Touched(plan.prev, stale) + {old(d.nextId)})
    ensures Attempted(cut, name, plan.prev, old(d.nextId))
    ensures !plan.current.running ==> NeverSwitches(d.trace)
    ensures outcome.Updated? ==>
      && Replaced(cut, plan.current.running)
      && SettledAfter(d.trace, cut, plan.prev, plan.current.image, prune)
    ensures outcome.Failed? ==> Undone(d, name, plan, old(d.nextId), old(d.containers), cut)
    ensures outcome.Failed? ==> EndsBadly(cut, old(d.nextId), own)
  {
    ghost var base := d.trace;
    ghost var s := d.containers;
    ghost var id := d.nextId;
    ghost var ids := Touched(plan.prev, stale) + {id};
    ghost var born := Newborn(name, plan.request, d.images);
    QuietTraceIsSafe(base, plan.prev, plan.current.running, plan.prev, id);
    var r, newId := Replace(d, name, plan.prev, plan.current.running, plan.request, own);
    ReplaceKeeps(d.trace, base, born, plan.prev, id);
    ReplaceIsSafe(d.trace, base, born, plan.prev, id, plan.current.running);
    ReplaceKeepsOpening(d.trace, base, born, plan.prev, id);
    TouchesMore(base, Touched(plan.prev, stale), ids);
    ReplaceTouches(d.trace, base, born, plan.prev, id, ids);
    cut := d.trace;
    assert Attempted(cut, name, plan.prev, id);
    ReplaceIsCut(cut, base, born, plan.prev, id);
    if r.Ok? {
      Settle(d, name, plan, prune, id, ids);
      SettlingSwitchesNothing(d.trace, cut, plan.prev, plan.current.image, prune);
      EndIsCut(d.trace, cut, base, name, plan.prev, id, plan.current.running, plan.current.image, prune);
      return Updated, cut;
    }
    Undo(d, name, plan, newId, id, s);
    if !plan.current.running {
      RollbackSwitchesNothing(d.trace, cut, name, plan.prev, id);
    }
    EndIsCut(d.trace, cut, base, name, plan.prev, id, plan.current.running, plan.current.image, prune);
    RollbackTouches(d.trace, cut, name, plan.prev, id, plan.current.running, ids);
    return Failed(r.error), cut;
  }

  /** After an update: `id` carries the name, on the new image the reference now
      names, with the old container's networks; the old one is gone or, if its
      removal failed, waits stopped under the reserved name. */
  ghost predicate UpdatedWell(d: Daemon, name: string, s0: Containers, prev: Id, id: Id)
    reads d
  {
    && prev in s0 && s0[prev].name == name && id !in s0
    && id in d.containers
    && d.containers[id].name == name
    && d.containers[id].reference == s0[prev].reference
    && d.containers[id].networks == s0[prev].networks
    && Outdated(s0[prev], d.images) && d.containers[id].image == d.images[s0[prev].reference]
    && (prev in d.containers ==>
          && d.containers[prev].name == name + PREVIOUS_SUFFIX
          && (SeenRunning(d.trace, prev) ==> !d.containers[prev].running))
  }

  /** After a failed update whose rollback calls all worked: the old container
      has its name back, runs if and only if it ran, and nothing new is left. */
  ghost predicate RestoredWell(d: Daemon, name: string, s0: Containers, prev: Id)
    reads d
  {
    && prev in s0 && s0[prev].name == name
    && prev in d.containers
    && d.containers[prev].name == name
    && d.containers[prev].running == SeenRunning(d.trace, prev)
    && d.containers.Keys <= s0.Keys
  }

  /** What is known of the container that was set aside. */
  ghost predicate Known(plan: Plan, name: string, s0: Containers, t: Trace) {
    && plan.prev in s0 && s0[plan.prev].name == name
    && SameContainer(s0[plan.prev], plan.current)
    && plan.current.running == SeenRunning(t, plan.prev)
    && Recreates(plan.request, plan.current)
  }

  lemma AsideIsKnown(plan: Plan, name: string, s0: Containers, d: Daemon, stale: Option<Id>)
    requires Aside(plan, name, s0, d, stale)
    ensures plan.prev in s0 && s0[plan.prev].image == plan.current.image
    ensures Known(plan, name, s0, d.trace)
    ensures d.containers.Keys <= s0.Keys && plan.prev in d.containers
    ensures forall x | x in s0 :: x in d.containers || stale == Some(x)
  {
  }

  lemma BeginsAlike(t: Trace, t': Trace, s0: Containers, name: string, id: Id)
    requires BeginsAt(t, s0, name) && Opening(t') == Opening(t)
    ensures BeginsAt(t', s0, name) && SeenRunning(t', id) == SeenRunning(t, id)
  {
  }

  lemma KnownAlike(t: Trace, t': Trace, plan: Plan, name: string, s0: Containers)
    requires Known(plan, name, s0, t) && Opening(t') == Opening(t)
    ensures Known(plan, name, s0, t')
  {
  }

  lemma SettlingIsWell(d: Daemon, name: string, s0: Containers, plan: Plan, id: Id, ids: set<Id>)
    requires Settling(d, name, plan, id, ids) && id !in s0 && Known(plan, name, s0, d.trace)
    ensures UpdatedWell(d, name, s0, plan.prev, id)
    ensures plan.current.running == SeenRunning(d.trace, plan.prev)
  {
  }

  lemma UndoneIsWell(d: Daemon, name: string, s0: Containers, plan: Plan, id: Id, s: Containers, cut: Trace)
    requires Undone(d, name, plan, id, s, cut) && s.Keys <= s0.Keys && Known(plan, name, s0, d.trace)
    ensures plan.current.running == SeenRunning(d.trace, plan.prev)
    ensures RolledBack(d.trace, cut, name, plan.prev, id, plan.current.running)
    ensures WorkedSince(d.trace, Length(cut)) ==> RestoredWell(d, name, s0, plan.prev)
    ensures plan.prev in d.containers
  {
  }

  lemma Survivors(before: Containers, s0: Containers, prev: Id, id: Id, stale: Option<Id>, after: Containers)
    requires forall x | x in s0 :: x in before || stale == Some(x)
    requires before.Keys - {prev} <= after.Keys
    ensures forall x | x in s0 :: x in after || stale == Some(x) || x == prev
  {
    forall x | x in s0 && x != prev && stale != Some(x) ensures x in after {
      assert x in before.Keys - {prev};
    }
  }

  /** How a command that came to the replacement ends.  `cut` is what had been done
      when the settling or the undoing began. */
  ghost predicate Concluded(
      d: Daemon, outcome: Outcome, name: string, s0: Containers, prev: Id, id: Id, cut: Trace, prune: bool,
      own: Option<Id>)
    reads d
  {
    && Attempted(cut, name, prev, id)
    && (outcome.Updated? ==>
          && UpdatedWell(d, name, s0, prev, id)
          && Replaced(cut, SeenRunning(d.trace, prev))
          && SettledAfter(d.trace, cut, prev, s0[prev].image, prune))
    && (outcome.Failed? ==>
          && EndsBadly(cut, id, own)
          && RolledBack(d.trace, cut, name, prev, id, SeenRunning(d.trace, prev))
          && (WorkedSince(d.trace, Length(cut)) ==> RestoredWell(d, name, s0, prev)))
  }

  lemma ConcludedWhen(
      d: Daemon, outcome: Outcome, name: string, s0: Containers, prev: Id, id: Id, cut: Trace, prune: bool,
      own: Option<Id>)
    requires Attempted(cut, name, prev, id)
    requires outcome.Updated? ==>
      && UpdatedWell(d, name, s0, prev, id) && Replaced(cut, SeenRunning(d.trace, prev))
    requires outcome.Updated? ==> prev in s0 && SettledAfter(d.trace, cut, prev, s0[prev].image, prune)
    requires outcome.Failed? ==>
      && EndsBadly(cut, id, own) && RolledBack(d.trace, cut, name, prev, id, SeenRunning(d.trace, prev))
    requires outcome.Failed? ==> WorkedSince(d.trace, Length(cut)) ==> RestoredWell(d, name, s0, prev)
    ensures Concluded(d, outcome, name, s0, prev, id, cut, prune, own)
  {
    hide Attempted;
    hide Replaced;
    hide SettledAfter;
    hide RolledBack;
    hide UpdatedWell;
    hide RestoredWell;
  }

  lemma FailureHasACause(
      d: Daemon, outcome: Outcome, name: string, s0: Containers, prev: Id, id: Id, cut: Trace, prune: bool,
      own: Option<Id>)
    requires Concluded(d, outcome, name, s0, prev, id, cut, prune, own)
    ensures outcome.Failed? ==> EndsBadly(cut, id, own)
  {
  }

  /** The rest of the command, once the old container is aside. */
  method Conclude(
      d: Daemon, name: string, plan: Plan, prune: bool, own: Option<Id>, ghost s0: Containers, ghost stale: Option<Id>)
    returns (outcome: Outcome, ghost cut: Trace)
    requires d.Valid() && Aside(plan, name, s0, d, stale) && BeginsAt(d.trace, s0, name) && d.nextId !in s0
    modifies d
    ensures d.Valid() && BeginsAt(d.trace, s0, name) && !outcome.UpToDate? && d.images == old(d.images)
    ensures IsCut(old(d.trace), d.trace) && IsCut(cut, d.trace)
    ensures CrashSafe(d.trace, plan.prev, SeenRunning(d.trace, plan.prev))
    ensures StartsAlone(d.trace, plan.prev, old(d.nextId))
    ensures !SeenRunning(d.trace, plan.prev) ==> NeverSwitches(d.trace)
    ensures TouchesOnly(d.trace, Touched(plan.prev, stale) + {old(d.nextId)})
    ensures Concluded(d, outcome, name, s0, plan.prev, old(d.nextId), cut, prune, own)
    ensures forall x | x in s0 ::
      x in d.containers || stale == Some(x) || (outcome.Updated? && x == plan.prev)
  {
    hide *;
    ghost var id := d.nextId;
    ghost var s := d.containers;
    ghost var base := d.trace;
    AsideIsKnown(plan, name, s0, d, stale);
    outcome, cut := SwapOrUndo(d, name, plan, prune, own, s0, stale);
    BeginsAlike(base, d.trace, s0, name, plan.prev);
    KnownAlike(base, d.trace, plan, name, s0);
    Survivors(s, s0, plan.prev, id, stale, d.containers);
    if outcome.Updated? {
      SettlingIsWell(d, name, s0, plan, id, Touched(plan.prev, stale) + {id});
    } else {
      UndoneIsWell(d, name, s0, plan, id, s, cut);
    }
    ConcludedWhen(d, outcome, name, s0, plan.prev, id, cut, prune, own);
  }

  /** Nothing about the container itself keeps it from being updated. */
  ghost predicate Acceptable(s0: Containers, prev: Id, name: string, own: Option<Id>) {
    && Bears(s0, prev, name) && !OffLimits(s0[prev], prev, own) && Pullable(s0[prev].reference)
    && s0[prev].recreatable
  }

  /** A command that may update the container, and in which nothing goes wrong, updates
      it exactly when its image is outdated. */
  ghost predicate Delivers(
      outcome: Outcome, t: Trace, s0: Containers, images: map<string, string>, prev: Id, id: Id, name: string,
      own: Option<Id>)
  {
    Smooth(t, id, own) && Acceptable(s0, prev, name, own) && !HasStranger(s0, prev, name) ==>
      outcome == if Outdated(s0[prev], images) then Updated else UpToDate
  }

  /** The removal of `x`, which bears the reserved name, is asked for only if it is a
      recognised leftover of an outdated container, and then it is, unless something
      goes wrong or the container may not be updated. */
  ghost predicate Clears(
      t: Trace, s0: Containers, images: map<string, string>, x: Id, prev: Id, id: Id, name: string, own: Option<Id>)
  {
    Bears(s0, prev, name) && Bears(s0, x, name + PREVIOUS_SUFFIX) ==>
      var due := Outdated(s0[prev], images) && IsOurPrevious(s0[x], s0[prev]);
      && (Asked(t, Remove(x)) ==> due)
      && (Smooth(t, id, own) && Acceptable(s0, prev, name, own) && due ==> Asked(t, Remove(x)))
  }

  lemma ExcuseIsARefusal(
      error: Error, t: Trace, s0: Containers, prev: Id, id: Id, name: string, own: Option<Id>)
    requires Excused(error, t, s0, prev, name, own) && Smooth(t, id, own) && Acceptable(s0, prev, name, own)
    ensures error == NotOurs && HasStranger(s0, prev, name)
  {
    assert s0[prev].name in NamesOf(s0);
  }

  lemma SmoothIsDelivered(
      d: Daemon, outcome: Outcome, s0: Containers, prev: Id, id: Id, stale: Option<Id>, cut: Option<Trace>,
      name: string, own: Option<Id>)
    requires cut.None? ==> Declined(d, outcome, name, s0, prev, stale, own)
    requires cut.Some? ==> Chosen(d.trace, s0, d.images, prev, stale, name, own) && IsCut(cut.value, d.trace)
    requires cut.Some? ==> !outcome.UpToDate? && (outcome.Failed? ==> EndsBadly(cut.value, id, own))
    ensures Delivers(outcome, d.trace, s0, d.images, prev, id, name, own)
  {
    hide Excused;
    hide HasStranger;
    hide EndsBadly;
    hide Smooth;
    hide DriftedButFor;
    hide RenameLost;
    hide IsCut;
    if Smooth(d.trace, id, own) && Acceptable(s0, prev, name, own) && !HasStranger(s0, prev, name) {
      if cut.Some? {
        CutIsSmooth(d.trace, cut.value, id, own);
      } else if outcome.Failed? {
        ExcuseIsARefusal(outcome.error, d.trace, s0, prev, id, name, own);
      }
    }
  }

  lemma {:induction false} TargetIsTouched(t: Trace, ids: set<Id>, call: Call)
    requires TouchesOnly(t, ids) && Asked(t, call) && Target(call).Some?
    ensures Target(call).value in ids
  {
    if t.step.call != call {
      TargetIsTouched(t.past, ids, call);
    }
  }

  lemma NoStrangerBesideIt(s0: Containers, x: Id, prev: Id, name: string)
    requires UniqueNames(s0) && Bears(s0, x, name + PREVIOUS_SUFFIX) && prev in s0
    requires IsOurPrevious(s0[x], s0[prev])
    ensures !HasStranger(s0, prev, name)
  {
    forall y | Bears(s0, y, name + PREVIOUS_SUFFIX) ensures y == x {
    }
  }

  lemma LeftoverIsCleared(
      d: Daemon, outcome: Outcome, s0: Containers, x: Id, prev: Id, id: Id, stale: Option<Id>, cut: Option<Trace>,
      name: string, own: Option<Id>)
    requires UniqueNames(s0) && id !in s0 && StaleOf(s0, stale, prev, name)
    requires TouchesOnly(d.trace, Touched(prev, stale) + {id})
    requires stale.Some? ==> Chosen(d.trace, s0, d.images, prev, stale, name, own)
    requires cut.None? ==> Declined(d, outcome, name, s0, prev, stale, own)
    requires cut.Some? ==> Chosen(d.trace, s0, d.images, prev, stale, name, own) && NoOtherLeftover(s0, stale, name)
    ensures Clears(d.trace, s0, d.images, x, prev, id, name, own)
  {
    hide Smooth;
    hide Excused;
    hide HasStranger;
    hide TouchesOnly;
    hide DriftedButFor;
    hide RenameLost;
    hide Accepted;
    hide IsOurPrevious;
    if Bears(s0, prev, name) && Bears(s0, x, name + PREVIOUS_SUFFIX) {
      assert |name + PREVIOUS_SUFFIX| > |name|;
      if Asked(d.trace, Remove(x)) {
        TargetIsTouched(d.trace, Touched(prev, stale) + {id}, Remove(x));
        assert stale == Some(x);
      }
      if Smooth(d.trace, id, own) && Acceptable(s0, prev, name, own) && Outdated(s0[prev], d.images)
         && IsOurPrevious(s0[x], s0[prev]) {
        NoStrangerBesideIt(s0, x, prev, name);
        if cut.None? && outcome.Failed? {
          ExcuseIsARefusal(outcome.error, d.trace, s0, prev, id, name, own);
        }
        assert stale == Some(x);
      }
    }
  }

  lemma StoppedStays(d: Daemon, name: string, s0: Containers, prev: Id, id: Id)
    requires d.Valid() && BeginsAt(d.trace, s0, name) && NeverSwitches(d.trace) && StartsAlone(d.trace, prev, id)
    ensures forall x :: !Asked(d.trace, Start(x)) && !Asked(d.trace, Stop(x))
    ensures forall x | x in d.containers && d.containers[x].running :: x in s0 && s0[x].running
  {
    hide UniqueNames;
    hide NeverSwitches;
    hide StartsAlone;
    forall x ensures !Asked(d.trace, Start(x)) && !Asked(d.trace, Stop(x)) {
      UnaskedSwitches(d.trace, x);
    }
    forall x | x in d.containers && d.containers[x].running ensures x in s0 && s0[x].running {
      if Stopped(s0, x) {
        NothingIsStarted(d.trace, s0, prev, id, x);
      }
    }
  }

  /** The whole command, whose calls `d.trace` records.  `watched` stands for any
      container: whichever bears the name when the command begins is `prev`, and is safe
      at every cut of the trace.  `cut` is the part before the settling or the rollback,
      if it came to that. */
  method Update(d: Daemon, name: string, prune: bool, own: Option<Id>, ghost watched: Id)
    returns (outcome: Outcome, ghost prev: Id, ghost id: Id, ghost stale: Option<Id>, ghost cut: Option<Trace>)
    requires d.Valid() && d.trace == Nothing
    modifies d
    ensures d.Valid() && id == old(d.nextId)
    ensures BeginsAt(d.trace, old(d.containers), name)
    ensures Bears(old(d.containers), watched, name) ==>
      prev == watched && CrashSafe(d.trace, watched, SeenRunning(d.trace, watched))
    ensures StartsAlone(d.trace, prev, id)
    ensures !SeenRunning(d.trace, prev) ==>
      && (forall x :: !Asked(d.trace, Start(x)) && !Asked(d.trace, Stop(x)))
      && forall x | x in d.containers && d.containers[x].running ::
           x in old(d.containers) && old(d.containers)[x].running
    ensures TouchesOnly(d.trace, Touched(prev, stale) + {id})
    ensures cut.None? ==> Declined(d, outcome, name, old(d.containers), prev, stale, own)
    ensures cut.Some? ==> !outcome.UpToDate?
    ensures cut.Some? ==> Concluded(d, outcome, name, old(d.containers), prev, id, cut.value, prune, own)
    ensures cut.Some? ==> NoOtherLeftover(old(d.containers), stale, name)
    ensures cut.Some? || stale.Some? ==> Chosen(d.trace, old(d.containers), d.images, prev, stale, name, own)
    ensures StaleOf(old(d.containers), stale, prev, name)
    ensures Delivers(outcome, d.trace, old(d.containers), d.images, prev, id, name, own)
    ensures forall x :: Clears(d.trace, old(d.containers), d.images, x, prev, id, name, own)
    ensures forall x | x in old(d.containers) ::
      x in d.containers || stale == Some(x) || (outcome.Updated? && x == prev)
  {
    id := d.nextId;
    cut := None;
    ghost var s0 := d.containers;
    assert id !in s0 && UniqueNames(s0);
    hide *;
    var aside;
    aside, prev, stale := SetAside(d, name, own, watched);
    if aside.Ok? && aside.value.Some? {
      ghost var reached;
      ghost var base, images := d.trace, d.images;
      outcome, reached := Conclude(d, name, aside.value.value, prune, own, s0, stale);
      cut := Some(reached);
      ChosenStays(d.trace, base, s0, images, prev, stale, name, own);
      FailureHasACause(d, outcome, name, s0, prev, id, reached, prune, own);
    } else {
      QuietTraceIsSafe(d.trace, watched, SeenRunning(d.trace, watched), prev, id);
      TouchesMore(d.trace, Touched(prev, stale), Touched(prev, stale) + {id});
      outcome := Ending(aside);
    }
    SmoothIsDelivered(d, outcome, s0, prev, id, stale, cut, name, own);
    if !SeenRunning(d.trace, prev) {
      StoppedStays(d, name, s0, prev, id);
    }
    forall x ensures Clears(d.trace, s0, d.images, x, prev, id, name, own) {
      LeftoverIsCleared(d, outcome, s0, x, prev, id, stale, cut, name, own);
    }
  }
}
