/** The replacement of a container and its undoing: the new one is created and started,
    and waited for until it is well; if that fails the old one is put back.  What the
    methods promise is about the trace of calls they make, and what is proved of such
    traces holds at every cut of them. */
module Replacement {
  import opened Wrappers
  import opened Docker
  import Text

  const PREVIOUS_SUFFIX := ".previous"
  /** Milliseconds. */
  const HEALTH_WAIT := 120_000
  const SETTLE_WAIT := 10_000
  const HEALTH_POLL := 2_000
  const MAX_POLLS := 61

  datatype Error =
    | NoSuchContainer
    | Reserved
    | NoAnswer
    | NotPullable
    | PullFailed
    | ImageUnreadable
    | NotRecreatable
    | NotOurs
    | RenameFailed
    | CreationFailed
    | ConnectFailed
    | StopFailed
    | StartFailed
    | NotRunning
    | BadHealth
    | StillNotHealthy

  datatype Outcome = UpToDate | Updated | Failed(error: Error)

  /** What is asked of the daemon to recreate a container: one network at
      creation, the others connected afterwards. */
  datatype Request = Request(
    reference: string, labels: map<string, string>, first: seq<string>, extra: seq<string>)

  // ------------------------------------------------------------ what is proved

  predicate Succeeded(reply: Reply) {
    reply == Done || reply == NotModified
  }

  /** `id` was started, and the daemon said so, no later than `deadline`. */
  ghost predicate StartedBy(t: Trace, id: Id, deadline: int) {
    t.Then? &&
    ((t.step.call == Start(id) && t.step.reply == Done && t.step.at <= deadline)
     || StartedBy(t.past, id, deadline))
  }

  /** The last call is an inspection that saw `id` running and either healthy or,
      with no healthcheck, still up a settle delay after its start. */
  ghost predicate SeenWell(t: Trace, id: Id) {
    && t.Then? && t.step.call == Inspect(id) && t.step.reply == Done
    && id in t.step.before && t.step.before[id].running
    && match t.step.before[id].health
       case Some(Healthy) => true
       case Some(_) => false
       case None => StartedBy(t, id, t.step.at - SETTLE_WAIT)
  }

  ghost predicate Created(t: Trace, id: Id) {
    t.Then? &&
    ((t.step.call.Create? && t.step.call.id == id && t.step.reply == Done) || Created(t.past, id))
  }

  /** A replacement was created and, if the old container was running when the
      command began, has just been seen well. */
  ghost predicate Replaced(t: Trace, wasRunning: bool) {
    exists id :: Created(t, id) && (wasRunning ==> SeenWell(t, id))
  }

  /** At some point `prev` was replaced, and only then was its removal asked for. */
  ghost predicate RemovedOnceReplaced(t: Trace, prev: Id, wasRunning: bool) {
    t.Then? &&
    ((t.step.call == Remove(prev) && Replaced(t.past, wasRunning))
     || RemovedOnceReplaced(t.past, prev, wasRunning))
  }

  /** Wherever the trace is cut, `prev` still exists, unless its removal had
      already been asked for after it was replaced. */
  ghost predicate CrashSafe(t: Trace, prev: Id, wasRunning: bool) {
    t.Then? ==>
      && CrashSafe(t.past, prev, wasRunning)
      && (prev in t.step.after || RemovedOnceReplaced(t, prev, wasRunning))
  }

  /** What is left of a trace when the agent is killed early. */
  ghost predicate IsCut(cut: Trace, t: Trace) {
    cut == t || (t.Then? && IsCut(cut, t.past))
  }

  lemma {:induction false} CutOfACut(a: Trace, b: Trace, t: Trace)
    requires IsCut(a, b) && IsCut(b, t)
    ensures IsCut(a, t)
  {
    if b != t {
      CutOfACut(a, b, t.past);
    }
  }

  ghost predicate Asked(t: Trace, call: Call) {
    t.Then? && (t.step.call == call || Asked(t.past, call))
  }

  ghost predicate Answered(t: Trace, call: Call) {
    t.Then? && ((t.step.call == call && t.step.reply == Done) || Answered(t.past, call))
  }

  lemma {:induction false} AskedStays(t: Trace, cut: Trace, call: Call)
    requires IsCut(cut, t)
    ensures Asked(cut, call) ==> Asked(t, call)
    ensures Answered(cut, call) ==> Answered(t, call)
  {
    if cut != t {
      AskedStays(t.past, cut, call);
    }
  }

  lemma {:induction false} RemovalHasAReason(t: Trace, prev: Id, wasRunning: bool)
    requires RemovedOnceReplaced(t, prev, wasRunning)
    ensures exists r :: IsCut(r, t) && r.Then? && r.step.call == Remove(prev) && Replaced(r.past, wasRunning)
  {
    if t.step.call == Remove(prev) && Replaced(t.past, wasRunning) {
      assert IsCut(t, t);
    } else {
      RemovalHasAReason(t.past, prev, wasRunning);
      var r :| IsCut(r, t.past) && r.Then? && r.step.call == Remove(prev) && Replaced(r.past, wasRunning);
      assert IsCut(r, t);
    }
  }

  /** Killed anywhere, the agent leaves the old container in place, or had just
      seen its replacement well before it asked for the removal. */
  lemma {:induction false} EveryCutKeepsTheOld(t: Trace, cut: Trace, prev: Id, wasRunning: bool)
    requires CrashSafe(t, prev, wasRunning) && IsCut(cut, t) && cut.Then?
    ensures || prev in cut.step.after
            || exists r :: IsCut(r, cut) && r.Then? && r.step.call == Remove(prev) && Replaced(r.past, wasRunning)
  {
    if cut != t {
      EveryCutKeepsTheOld(t.past, cut, prev, wasRunning);
    } else if prev !in t.step.after {
      RemovalHasAReason(t, prev, wasRunning);
    }
  }

  // ------------------------------------------------------------ single calls

  /** The containers of the monitoring itself. */
  predicate IsReserved(name: string) {
    "dumbmonit" <= Text.Lower(name) || "ezymonit" <= Text.Lower(name)
  }

  /** A call that went wrong; to find nothing, or nothing to remove, is no failure. */
  predicate BadReply(step: Step) {
    match step.reply
    case Done => false
    case NotModified => step.call.Start?
    case NotFound => !(step.call.Find? || step.call.Remove?)
    case _ => true
  }

  /** The last call is that one, and it went wrong. */
  ghost predicate EndsWith(t: Trace, call: Call) {
    t.Then? && t.step.call == call && BadReply(t.step)
  }

  /** A container of the monitoring, or the agent's own. */
  predicate OffLimits(c: Container, id: Id, own: Option<Id>) {
    IsReserved(c.name) || own == Some(id)
  }

  ghost predicate Bears(s: Containers, id: Id, name: string) {
    id in s && s[id].name == name
  }

  /** `found` is the container the inspection found, if it found one. */
  method InspectName(d: Daemon, name: string, own: Option<Id>)
    returns (r: Result<Id, Error>, ghost found: Id, ghost step: Step)
    requires d.Valid()
    modifies d
    ensures d.Valid() && d.trace == Then(old(d.trace), step) && step.call == Find(name)
    ensures d.images == old(d.images) && d.nextId == old(d.nextId)
    ensures Drifted(old(d.containers), d.containers) && step.after == d.containers
    ensures Drifted(old(d.containers), step.before)
    ensures match r
            case Ok(id) => id == found && Bears(d.containers, id, name) && !OffLimits(d.containers[id], id, own)
            case Err(Reserved) => Bears(d.containers, found, name) && OffLimits(d.containers[found], found, own)
            case Err(NoSuchContainer) => step.reply == NotFound && name !in NamesOf(d.containers)
            case Err(NoAnswer) => BadReply(step)
            case Err(_) => false
    ensures r.Ok? ==> step.before == d.containers
  {
    var reply;
    found := 0;
    reply, step := d.Perform(Find(name));
    if reply == NotFound {
      return Err(NoSuchContainer), found, step;
    }
    if reply != Done {
      return Err(NoAnswer), found, step;
    }
    var id :| id in d.containers && d.containers[id].name == name;
    found := id;
    if IsReserved(name) || own == Some(id) {
      return Err(Reserved), found, step;
    }
    return Ok(id), found, step;
  }

  method InspectId(d: Daemon, id: Id, own: Option<Id>)
    returns (r: Result<Container, Error>, ghost step: Step)
    requires d.Valid()
    modifies d
    ensures d.Valid() && d.trace == Then(old(d.trace), step) && step.call == Inspect(id)
    ensures d.images == old(d.images) && d.nextId == old(d.nextId)
    ensures step.at == d.now >= old(d.now)
    ensures Succeeded(step.reply) ==> step.reply == Done && id in step.before
    ensures r.Ok? <==> step.reply == Done && !OffLimits(step.before[id], id, own)
    ensures r.Ok? ==> r.value == step.before[id]
  {
    var reply;
    reply, step := d.Perform(Inspect(id));
    if reply == NotFound {
      return Err(NoSuchContainer), step;
    }
    if reply != Done {
      return Err(NoAnswer), step;
    }
    if IsReserved(d.containers[id].name) || own == Some(id) {
      return Err(Reserved), step;
    }
    return Ok(d.containers[id]), step;
  }

  ghost predicate InspectsSince(t: Trace, base: Trace, id: Id) {
    t == base || (t.Then? && t.step.call == Inspect(id) && InspectsSince(t.past, base, id))
  }

  /** Since `base`, only looks at the container that settled nothing. */
  ghost predicate WaitsSince(t: Trace, base: Trace, id: Id, own: Option<Id>, started: int) {
    t == base || (t.Then? && Undecided(t.step, id, own, started) && WaitsSince(t.past, base, id, own, started))
  }

  lemma {:induction false} StartedByLater(t: Trace, id: Id, deadline: int, later: int)
    requires StartedBy(t, id, deadline) && deadline <= later
    ensures StartedBy(t, id, later)
  {
    if !(t.step.call == Start(id) && t.step.reply == Done && t.step.at <= deadline) {
      StartedByLater(t.past, id, deadline, later);
    }
  }

  lemma UndecidedIsEarly(step: Step, id: Id, own: Option<Id>, started: int)
    requires Undecided(step, id, own, started)
    ensures step.at < started + HEALTH_WAIT
  {
  }

  datatype Verdict = Keep | Good | Bad(error: Error)

  /** One look at the container that settles nothing yet, the wait having begun at
      `started`: it runs, and has no healthcheck but is still young, or one that has
      not passed. */
  ghost predicate Undecided(step: Step, id: Id, own: Option<Id>, started: int) {
    && step.call == Inspect(id) && step.reply == Done && id in step.before
    && !OffLimits(step.before[id], id, own) && step.before[id].running
    && match step.before[id].health
       case None => step.at < started + SETTLE_WAIT
       case Some(Other) => step.at < started + HEALTH_WAIT
       case Some(_) => false
  }

  /** The last call is an inspection that failed, or that saw a container which is not
      running, or whose healthcheck does not pass, or does not pass yet so long after
      its start. */
  ghost predicate SeenBadly(t: Trace, id: Id, own: Option<Id>) {
    && t.Then? && t.step.call == Inspect(id)
    && (t.step.reply != Done
        || (id in t.step.before
            && (OffLimits(t.step.before[id], id, own) || !t.step.before[id].running
                || t.step.before[id].health == Some(Unhealthy)
                || (t.step.before[id].health == Some(Other) && StartedBy(t, id, t.step.at - HEALTH_WAIT)))))
  }

  /** A look that settles it shows the container well, or badly. */
  lemma LookSettles(t: Trace, step: Step, id: Id, own: Option<Id>, started: nat)
    requires step.call == Inspect(id) && step.reply == Done && id in step.before && started <= step.at
    requires StartedBy(t, id, started) && !OffLimits(step.before[id], id, own) && !Undecided(step, id, own, started)
    ensures SeenWell(Then(t, step), id) <==> !SeenBadly(Then(t, step), id, own)
    ensures SeenBadly(Then(t, step), id, own) <==>
      !step.before[id].running || step.before[id].health in {Some(Unhealthy), Some(Other)}
  {
    if started <= step.at - SETTLE_WAIT {
      StartedByLater(t, id, started, step.at - SETTLE_WAIT);
    }
    if started <= step.at - HEALTH_WAIT {
      StartedByLater(t, id, started, step.at - HEALTH_WAIT);
    }
  }

  /** One poll: inspect, then judge what was seen. */
  method Poll(d: Daemon, id: Id, own: Option<Id>, started: nat) returns (v: Verdict, ghost step: Step)
    requires d.Valid() && started <= d.now
    modifies d
    ensures d.Valid() && d.trace == Then(old(d.trace), step) && step.call == Inspect(id)
    ensures d.images == old(d.images) && d.nextId == old(d.nextId) && d.now >= old(d.now)
    ensures step.at == d.now
    ensures v.Keep? <==> Undecided(step, id, own, started)
    ensures v.Good? ==> step.reply == Done && !OffLimits(step.before[id], id, own)
    ensures v.Bad? && StartedBy(old(d.trace), id, started) ==> SeenBadly(d.trace, id, own)
    ensures v.Good? && StartedBy(old(d.trace), id, started) ==> SeenWell(d.trace, id)
  {
    hide SeenWell;
    var seen;
    seen, step := InspectId(d, id, own);
    if seen.Err? {
      return Bad(seen.error), step;
    }
    hide SeenBadly;
    if StartedBy(old(d.trace), id, started) && !Undecided(step, id, own, started) {
      LookSettles(old(d.trace), step, id, own, started);
    }
    if !seen.value.running {
      return Bad(NotRunning), step;
    }
    match seen.value.health {
      case None =>
        v := if d.now - started >= SETTLE_WAIT then Good else Keep;
      case Some(Healthy) =>
        v := Good;
      case Some(Unhealthy) =>
        v := Bad(BadHealth);
      case Some(Other) =>
        v := if d.now - started >= HEALTH_WAIT then Bad(StillNotHealthy) else Keep;
    }
  }

  /** The last call went wrong, or saw the new container badly. */
  ghost predicate EndsBadly(t: Trace, id: Id, own: Option<Id>) {
    t.Then? && (BadReply(t.step) || SeenBadly(t, id, own))
  }

  /** No call of the trace went wrong, and none saw the new container badly. */
  ghost predicate Smooth(t: Trace, id: Id, own: Option<Id>) {
    t.Then? ==> !EndsBadly(t, id, own) && Smooth(t.past, id, own)
  }

  lemma {:induction false} CutIsSmooth(t: Trace, cut: Trace, id: Id, own: Option<Id>)
    requires Smooth(t, id, own) && IsCut(cut, t)
    ensures Smooth(cut, id, own) && !EndsBadly(cut, id, own)
  {
    if cut != t {
      CutIsSmooth(t.past, cut, id, own);
    }
  }

  /** No container was started, and none stopped. */
  ghost predicate NeverSwitches(t: Trace) {
    t.Then? ==> !t.step.call.Start? && !t.step.call.Stop? && NeverSwitches(t.past)
  }

  lemma {:induction false} UnaskedSwitches(t: Trace, id: Id)
    requires NeverSwitches(t)
    ensures !Asked(t, Start(id)) && !Asked(t, Stop(id))
  {
    if t.Then? {
      UnaskedSwitches(t.past, id);
    }
  }

  /** Polls until the container is healthy or, without a healthcheck, has
      survived its first seconds.  At most 61 polls, whatever the daemon says. */
  method WaitUntilHealthy(d: Daemon, id: Id, own: Option<Id>) returns (r: Result<(), Error>)
    requires d.Valid() && StartedBy(d.trace, id, d.now)
    modifies d
    ensures d.Valid() && InspectsSince(d.trace, old(d.trace), id)
    ensures d.trace.Then? && WaitsSince(d.trace.past, old(d.trace), id, own, old(d.now))
    ensures Length(d.trace) <= Length(old(d.trace)) + MAX_POLLS
    ensures d.images == old(d.images) && d.nextId == old(d.nextId)
    ensures r.Ok? ==> SeenWell(d.trace, id)
    ensures r.Err? ==> SeenBadly(d.trace, id, own)
  {
    hide SeenBadly;
    hide SeenWell;
    hide Undecided;
    var started := d.now;
    ghost var polls := 0;
    while true
      invariant d.Valid() && InspectsSince(d.trace, old(d.trace), id)
      invariant StartedBy(d.trace, id, started) && WaitsSince(d.trace, old(d.trace), id, own, started)
      invariant Length(d.trace) == Length(old(d.trace)) + polls
      invariant d.images == old(d.images) && d.nextId == old(d.nextId)
      invariant d.now >= started + HEALTH_POLL * polls && polls < MAX_POLLS
      decreases MAX_POLLS - polls
    {
      var verdict, step := Poll(d, id, own, started);
      polls := polls + 1;
      match verdict {
        case Good => return Ok(());
        case Bad(error) => return Err(error);
        case Keep =>
      }
      UndecidedIsEarly(step, id, own, started);
      d.Sleep(HEALTH_POLL);
    }
  }

  // ------------------------------------------------------------ replacing

  /** The only steps a replacement is made of, `id` being the new container: the
      start of the new one finds the old one stopped. */
  ghost predicate ReplaceStep(step: Step, born: Container, prev: Id, id: Id) {
    match step.call
    case Create(id', container) => id' == id && container == born && !born.running
    case Connect(id', _) => id' == id
    case Stop(id') => id' == prev
    case Inspect(id') => id' == id
    case Start(id') => id' == id && Stopped(step.before, prev)
    case _ => false
  }

  ghost predicate ReplaceSince(t: Trace, base: Trace, born: Container, prev: Id, id: Id) {
    t == base || (t.Then? && ReplaceStep(t.step, born, prev, id) && ReplaceSince(t.past, base, born, prev, id))
  }

  /** `id`, if it was there, still is, and is what it was, running state and health apart. */
  ghost predicate Stays(s: Containers, s': Containers, id: Id) {
    id in s ==> id in s' && SameContainer(s[id], s'[id])
  }

  /** Inspections leave every container what it was, and start none. */
  lemma {:induction false} InspectsKeep(t: Trace, base: Trace, inspected: Id, id: Id)
    requires IsRun(t) && InspectsSince(t, base, inspected) && base.Then?
    ensures t.Then?
    ensures Stays(base.step.after, t.step.after, id)
    ensures Stopped(base.step.after, id) ==> Stopped(t.step.after, id)
  {
    if t != base {
      InspectsKeep(t.past, base, inspected, id);
    }
  }

  lemma {:induction false} InspectsAreReplaceSteps(t: Trace, mid: Trace, base: Trace, born: Container, prev: Id, id: Id)
    requires InspectsSince(t, mid, id) && ReplaceSince(mid, base, born, prev, id)
    ensures ReplaceSince(t, base, born, prev, id)
    ensures Created(mid, id) ==> Created(t, id)
  {
    if t != mid {
      InspectsAreReplaceSteps(t.past, mid, base, born, prev, id);
    }
  }

  method StopContainer(d: Daemon, id: Id, ghost other: Id) returns (reply: Reply, ghost step: Step)
    requires d.Valid()
    modifies d
    ensures step.reply == reply
    ensures d.Valid() && d.trace == Then(old(d.trace), step) && step.call == Stop(id)
    ensures d.images == old(d.images) && d.now >= old(d.now)
    ensures Succeeded(reply) ==> Stopped(d.containers, id)
    ensures Stays(old(d.containers), d.containers, other)
  {
    reply, step := d.Perform(Stop(id));
  }

  method StartContainer(d: Daemon, id: Id, ghost other: Id) returns (reply: Reply, ghost step: Step)
    requires d.Valid()
    modifies d
    ensures step.reply == reply
    ensures d.Valid() && d.trace == Then(old(d.trace), step) && step.call == Start(id)
    ensures step.reply == reply && step.at == d.now && step.after == d.containers
    ensures d.images == old(d.images) && d.nextId == old(d.nextId) && d.now >= old(d.now)
    ensures Stopped(old(d.containers), other) ==> Stopped(step.before, other)
    ensures Stopped(old(d.containers), other) && other != id ==> Stopped(d.containers, other)
    ensures Stays(old(d.containers), d.containers, id)
    ensures Stays(old(d.containers), d.containers, other)
    ensures Succeeded(reply) ==> id in d.containers && d.containers[id].running
    ensures d.containers.Keys == old(d.containers).Keys
  {
    reply, step := d.Perform(Start(id));
  }

  method ConnectNetwork(d: Daemon, id: Id, network: string) returns (reply: Reply, ghost step: Step)
    requires d.Valid() && id in d.containers
    modifies d
    ensures step.reply == reply
    ensures d.Valid() && d.trace == Then(old(d.trace), step) && step.call == Connect(id, network)
    ensures reply == Done || BadReply(step)
    ensures d.images == old(d.images)
    ensures reply == Done ==>
      && id in d.containers
      && SameContainer(old(d.containers[id]).(networks := old(d.containers[id].networks) + [network]),
                       d.containers[id])
  {
    reply, step := d.Perform(Connect(id, network));
  }

  lemma OneFurther(first: seq<string>, extra: seq<string>, n: nat)
    requires n < |extra|
    ensures first + extra[..n + 1] == first + extra[..n] + [extra[n]]
  {
  }

  method ConnectNetworks(
      d: Daemon, id: Id, extra: seq<string>,
      ghost base: Trace, ghost born: Container, ghost prev: Id, ghost own: Option<Id>)
    returns (r: Result<(), Error>)
    requires d.Valid() && id in d.containers && ReplaceSince(d.trace, base, born, prev, id)
    requires Created(d.trace, id)
    modifies d
    ensures d.Valid() && ReplaceSince(d.trace, base, born, prev, id) && Created(d.trace, id)
    ensures NeverSwitches(old(d.trace)) ==> NeverSwitches(d.trace)
    ensures d.images == old(d.images)
    ensures r.Err? ==> EndsBadly(d.trace, id, own)
    ensures r.Ok? ==>
      && id in d.containers
      && SameContainer(old(d.containers[id]).(networks := old(d.containers[id].networks) + extra),
                       d.containers[id])
  {
    hide SeenBadly;
    hide IsRun;
    hide UniqueNames;
    for n := 0 to |extra|
      invariant d.Valid() && d.images == old(d.images)
      invariant ReplaceSince(d.trace, base, born, prev, id) && Created(d.trace, id)
      invariant NeverSwitches(old(d.trace)) ==> NeverSwitches(d.trace)
      invariant id in d.containers
      invariant SameContainer(old(d.containers[id]).(networks := old(d.containers[id].networks) + extra[..n]),
                              d.containers[id])
    {
      OneFurther(old(d.containers[id].networks), extra, n);
      var reply, step := ConnectNetwork(d, id, extra[n]);
      assert ReplaceSince(d.trace, base, born, prev, id) && Created(d.trace, id);
      if reply != Done {
        return Err(ConnectFailed);
      }
    }
    assert extra[..|extra|] == extra;
    r := Ok(());
  }

  /** Stops the old container, starts the new one, waits for it to be well. */
  method SwitchOver(d: Daemon, prev: Id, id: Id, own: Option<Id>, ghost base: Trace, ghost born: Container)
    returns (r: Result<(), Error>)
    requires d.Valid() && ReplaceSince(d.trace, base, born, prev, id)
    requires id != prev && id in d.containers && Created(d.trace, id)
    modifies d
    ensures d.Valid() && ReplaceSince(d.trace, base, born, prev, id) && Created(d.trace, id)
    ensures d.images == old(d.images)
    ensures r.Err? ==> EndsBadly(d.trace, id, own)
    ensures r.Ok? ==> SeenWell(d.trace, id)
    ensures r.Ok? ==> id in d.containers && SameContainer(old(d.containers[id]), d.containers[id])
    ensures r.Ok? ==> Stopped(d.containers, prev)
  {
    hide SeenWell;
    hide SeenBadly;
    var stopped, stop := StopContainer(d, prev, id);
    assert ReplaceSince(d.trace, base, born, prev, id) && Created(d.trace, id);
    if !Succeeded(stopped) {
      return Err(StopFailed);
    }
    r := StartAndWatch(d, prev, id, own, base, born);
  }

  method StartAndWatch(d: Daemon, prev: Id, id: Id, own: Option<Id>, ghost base: Trace, ghost born: Container)
    returns (r: Result<(), Error>)
    requires d.Valid() && ReplaceSince(d.trace, base, born, prev, id)
    requires id != prev && id in d.containers && Created(d.trace, id) && Stopped(d.containers, prev)
    modifies d
    ensures d.Valid() && ReplaceSince(d.trace, base, born, prev, id) && Created(d.trace, id)
    ensures d.images == old(d.images)
    ensures r.Err? ==> EndsBadly(d.trace, id, own)
    ensures r.Ok? ==> SeenWell(d.trace, id)
    ensures r.Ok? ==> id in d.containers && SameContainer(old(d.containers[id]), d.containers[id])
    ensures r.Ok? ==> Stopped(d.containers, prev)
  {
    hide SeenWell;
    hide SeenBadly;
    hide UniqueNames;
    hide Allowed;
    hide Drifted;
    var started, start := StartContainer(d, id, prev);
    assert ReplaceSince(d.trace, base, born, prev, id) && Created(d.trace, id);
    if started != Done {
      return Err(StartFailed);
    }
    ghost var mid := d.trace;
    r := WaitUntilHealthy(d, id, own);
    InspectsAreReplaceSteps(d.trace, mid, base, born, prev, id);
    InspectsKeep(d.trace, mid, id, id);
    InspectsKeep(d.trace, mid, id, prev);
  }

  /** What the replacement must be, running state and health apart. */
  function Blueprint(name: string, image: string, req: Request, networks: seq<string>): Container {
    Container(name, false, None, image, req.reference, req.labels, networks, true)
  }

  /** The new container as it is created: stopped, on its first network. */
  function Newborn(name: string, req: Request, images: map<string, string>): Container
    requires req.reference in images
  {
    Blueprint(name, images[req.reference], req, req.first)
  }

  /** Creates the replacement of `prev`, and starts it only if `prev` was running. */
  method Replace(d: Daemon, name: string, prev: Id, wasRunning: bool, req: Request, own: Option<Id>)
    returns (r: Result<(), Error>, newId: Option<Id>)
    requires d.Valid() && prev in d.containers && req.reference in d.images
    modifies d
    ensures d.Valid() && d.images == old(d.images)
    ensures ReplaceSince(d.trace, old(d.trace), Newborn(name, req, d.images), prev, old(d.nextId))
    ensures newId.Some? ==> newId.value == old(d.nextId)
    ensures newId.Some? || Created(old(d.trace), old(d.nextId)) <==> Created(d.trace, old(d.nextId))
    ensures newId.None? ==> r.Err? && Stopped(d.containers, old(d.nextId))
    ensures d.trace.Then? && d.trace.step.after == d.containers
    ensures !wasRunning && NeverSwitches(old(d.trace)) ==> NeverSwitches(d.trace)
    ensures r.Err? ==> EndsBadly(d.trace, old(d.nextId), own)
    ensures r.Ok? ==> newId.Some? && Created(d.trace, newId.value)
    ensures r.Ok? && wasRunning ==> SeenWell(d.trace, newId.value) && Stopped(d.containers, prev)
    ensures r.Ok? ==>
      && newId.value in d.containers
      && SameContainer(Blueprint(name, d.images[req.reference], req, req.first + req.extra),
                       d.containers[newId.value])
  {
    ghost var base := d.trace;
    var id := d.nextId;
    ghost var born := Newborn(name, req, d.images);
    var reply, step := d.Perform(Create(id, Newborn(name, req, d.images)));
    if reply != Done {
      return Err(CreationFailed), None;
    }
    newId := Some(id);
    r := ConnectNetworks(d, id, req.extra, base, born, prev, own);
    if r.Err? {
      return;
    }
    if wasRunning {
      r := SwitchOver(d, prev, id, own, base, born);
    }
  }

  // ------------------------------------------------------------ bystanders

  /** The container a call is out to change. */
  function Target(call: Call): Option<Id> {
    match call
    case Rename(id, _) => Some(id)
    case Create(id, _) => Some(id)
    case Connect(id, _) => Some(id)
    case Stop(id) => Some(id)
    case Start(id) => Some(id)
    case Remove(id) => Some(id)
    case _ => None
  }

  ghost predicate TouchesOnly(t: Trace, ids: set<Id>) {
    t.Then? ==>
      && (Target(t.step.call).Some? ==> Target(t.step.call).value in ids)
      && TouchesOnly(t.past, ids)
  }

  lemma {:induction false} TouchesMore(t: Trace, ids: set<Id>, more: set<Id>)
    requires TouchesOnly(t, ids) && ids <= more
    ensures TouchesOnly(t, more)
  {
    if t.Then? {
      TouchesMore(t.past, ids, more);
    }
  }

  lemma {:induction false} ReplaceTouches(t: Trace, base: Trace, born: Container, prev: Id, id: Id, ids: set<Id>)
    requires ReplaceSince(t, base, born, prev, id) && TouchesOnly(base, ids) && prev in ids && id in ids
    ensures TouchesOnly(t, ids)
  {
    if t != base {
      ReplaceTouches(t.past, base, born, prev, id, ids);
    }
  }

  /** The inspection a command begins with. */
  function Opening(t: Trace): Option<Step> {
    if t.Nothing? then None else if t.past.Nothing? then Some(t.step) else Opening(t.past)
  }

  lemma OneStepSpares(s: Containers, step: Step, x: Id)
    requires Allowed(step) && Drifted(s, step.before) && Target(step.call) != Some(x) && x in s
    ensures x in step.after && SameContainer(s[x], step.after[x])
    ensures step.after[x].running ==> s[x].running
  {
    assert x in step.before && step.before[x] == step.after[x];
  }

  /** A container no call was out to change is, at every point, what it was when
      the command began, and does not run unless it ran. */
  lemma {:induction false} BystandersStay(t: Trace, s0: Containers, ids: set<Id>, x: Id)
    requires IsRun(t) && t.Then? && TouchesOnly(t, ids) && x !in ids && x in s0
    requires Opening(t).Some? && Drifted(s0, Opening(t).value.before)
    ensures x in t.step.after && SameContainer(s0[x], t.step.after[x])
    ensures t.step.after[x].running ==> s0[x].running
  {
    if t.past.Then? {
      BystandersStay(t.past, s0, ids, x);
      OneStepSpares(t.past.step.after, t.step, x);
    } else {
      OneStepSpares(s0, t.step, x);
    }
  }

  // ------------------------------------------------------------ rolling back

  ghost predicate RemovalFailed(t: Trace, id: Id) {
    t.Then? &&
    ((t.step.call == Remove(id) && t.step.reply in {Refused, Lost}) || RemovalFailed(t.past, id))
  }

  /** Neither of the pair is ever started while the other runs, except that the
      old one is put back even when the new one could not be removed.  What is
      created is created stopped. */
  ghost predicate StartsAlone(t: Trace, prev: Id, id: Id) {
    t.Then? ==>
      && StartsAlone(t.past, prev, id)
      && (t.step.call.Create? ==> !t.step.call.container.running)
      && (t.step.call == Start(id) ==> Stopped(t.step.before, prev))
      && (t.step.call == Start(prev) ==> Stopped(t.step.before, id) || RemovalFailed(t.past, id))
  }

  lemma OneStartAlone(t: Trace, step: Step, prev: Id, id: Id)
    requires StartsAlone(t, prev, id) && step.call == Start(prev) && prev != id
    requires Stopped(step.before, id) || RemovalFailed(t, id)
    ensures StartsAlone(Then(t, step), prev, id)
  {
  }

  /** `c` is `born`, running state, health and networks apart. */
  ghost predicate GrownFrom(born: Container, c: Container) {
    c == born.(running := c.running, health := c.health, networks := c.networks)
  }

  lemma OneReplaceStep(s: Containers, step: Step, born: Container, prev: Id, id: Id)
    requires Allowed(step) && Drifted(s, step.before) && ReplaceStep(step, born, prev, id)
    requires prev != id && prev in s && (id in s ==> GrownFrom(born, s[id]))
    ensures Stays(s, step.after, prev) && Stays(s, step.before, prev) && prev in step.before
    ensures s.Keys <= step.after.Keys <= s.Keys + {id}
    ensures id in step.after ==> GrownFrom(born, step.after[id])
    ensures Stopped(s, prev) ==> Stopped(step.after, prev)
  {
    var mid := step.before;
    assert prev in mid && SameContainer(s[prev], mid[prev]) && mid.Keys == s.Keys;
    assert id in s ==> SameContainer(s[id], mid[id]);
    assert step.after == mid || Effect(step.call, mid) == Some(step.after);
  }

  /** What a replacement, complete or cut short, leaves of the containers. */
  lemma {:induction false} ReplaceKeeps(t: Trace, base: Trace, born: Container, prev: Id, id: Id)
    requires IsRun(t) && ReplaceSince(t, base, born, prev, id)
    requires base.Then? && prev != id && prev in base.step.after && id !in base.step.after
    ensures t.Then? && Stays(base.step.after, t.step.after, prev)
    ensures base.step.after.Keys <= t.step.after.Keys <= base.step.after.Keys + {id}
    ensures id in t.step.after ==> GrownFrom(born, t.step.after[id])
    ensures Stopped(base.step.after, prev) ==> Stopped(t.step.after, prev)
  {
    if t != base {
      ReplaceKeeps(t.past, base, born, prev, id);
      OneReplaceStep(t.past.step.after, t.step, born, prev, id);
    }
  }

  /** Cut anywhere, a replacement is safe, and starts nothing beside the old one. */
  lemma {:induction false} ReplaceIsSafe(t: Trace, base: Trace, born: Container, prev: Id, id: Id, wasRunning: bool)
    requires IsRun(t) && ReplaceSince(t, base, born, prev, id)
    requires base.Then? && prev != id && prev in base.step.after && id !in base.step.after
    requires CrashSafe(base, prev, wasRunning) && StartsAlone(base, prev, id)
    ensures CrashSafe(t, prev, wasRunning) && StartsAlone(t, prev, id)
  {
    ReplaceKeeps(t, base, born, prev, id);
    if t != base {
      ReplaceIsSafe(t.past, base, born, prev, id, wasRunning);
    }
  }

  lemma OneStepStartsNothing(s: Containers, step: Step, x: Id)
    requires Allowed(step) && Drifted(s, step.before) && !step.call.Start? && Stopped(s, x)
    requires step.call.Create? ==> !step.call.container.running
    ensures Stopped(step.after, x)
  {
    assert Stopped(step.before, x);
  }

  /** As long as none is started, what does not run at the start of a command does not
      run later, be it an old container or a new one. */
  lemma {:induction false} NothingIsStarted(t: Trace, s0: Containers, prev: Id, id: Id, x: Id)
    requires IsRun(t) && t.Then? && NeverSwitches(t) && StartsAlone(t, prev, id) && Stopped(s0, x)
    requires Opening(t).Some? && Drifted(s0, Opening(t).value.before)
    ensures Stopped(t.step.after, x)
  {
    if t.past.Then? {
      NothingIsStarted(t.past, s0, prev, id, x);
      OneStepStartsNothing(t.past.step.after, t.step, x);
    } else {
      OneStepStartsNothing(s0, t.step, x);
    }
  }

  /** Every call after the first `from` did what it was asked for. */
  ghost predicate WorkedSince(t: Trace, from: nat) {
    from < Length(t) ==>
      && (Succeeded(t.step.reply) || (t.step.call.Remove? && t.step.reply == NotFound))
      && WorkedSince(t.past, from)
  }

  lemma OneMoreWorked(t: Trace, step: Step, from: nat)
    requires from <= Length(t) && !step.call.Remove?
    ensures WorkedSince(Then(t, step), from) <==> WorkedSince(t, from) && Succeeded(step.reply)
  {
  }

  method RemoveContainer(d: Daemon, id: Id, ghost other: Id) returns (reply: Reply, ghost step: Step)
    requires d.Valid() && id != other
    modifies d
    ensures d.Valid() && d.trace == Then(old(d.trace), step) && step.call == Remove(id)
    ensures d.images == old(d.images) && d.nextId == old(d.nextId) && step.reply == reply
    ensures Succeeded(reply) || reply == NotFound ==> id !in d.containers
    ensures d.containers.Keys <= old(d.containers).Keys <= d.containers.Keys + {id}
    ensures Stays(old(d.containers), d.containers, other)
    ensures Stays(d.containers, old(d.containers), id)
    ensures Stopped(old(d.containers), id) ==> Stopped(d.containers, id)
    ensures Stopped(old(d.containers), other) ==> Stopped(d.containers, other)
    ensures step.after == d.containers
  {
    reply, step := d.Perform(Remove(id));
  }

  method RenameContainer(d: Daemon, id: Id, name: string, ghost other: Id) returns (reply: Reply, ghost step: Step)
    requires d.Valid() && id in d.containers && id != other
    modifies d
    ensures d.Valid() && d.trace == Then(old(d.trace), step) && step.call == Rename(id, name)
    ensures d.images == old(d.images) && d.nextId == old(d.nextId) && step.reply == reply
    ensures reply == Done || BadReply(step)
    ensures d.containers.Keys == old(d.containers).Keys
    ensures d.containers[id].name == old(d.containers[id].name)
         || (d.containers[id].name == name && reply in {Done, Lost})
    ensures SameContainer(old(d.containers[id]).(name := d.containers[id].name), d.containers[id])
    ensures Succeeded(reply) ==> d.containers[id].name == name
    ensures reply !in {Done, Lost} ==> Drifted(old(d.containers), d.containers)
    ensures Succeeded(reply) ==> reply == Done
    ensures Stays(old(d.containers), d.containers, other)
    ensures Stopped(old(d.containers), id) ==> Stopped(d.containers, id)
    ensures Stopped(old(d.containers), other) ==> Stopped(d.containers, other)
    ensures step.after == d.containers
  {
    reply, step := d.Perform(Rename(id, name));
  }

  /** After `cut`, exactly the calls that put the old container back: the new one,
      if it had been created, is removed, the old one gets its name again, and is
      started if it used to run. */
  ghost predicate RolledBack(t: Trace, cut: Trace, name: string, prev: Id, id: Id, wasRunning: bool) {
    && (wasRunning ==> t.Then? && t.step.call == Start(prev))
    && var renamed := if wasRunning then t.past else t;
       && renamed.Then? && renamed.step.call == Rename(prev, name)
       && (Created(cut, id) ==>
             renamed.past.Then? && renamed.past.step.call == Remove(id) && renamed.past.past == cut)
       && (!Created(cut, id) ==> renamed.past == cut)
  }

  /** Puts the old container back.  Every step is tried even when the one before
      it failed. */
  method Rollback(d: Daemon, name: string, prev: Id, wasRunning: bool, newId: Option<Id>, ghost id: Id)
    requires d.Valid() && d.trace.Then? && prev in d.containers && prev != id
    requires newId.Some? ==> newId.value == id
    requires newId.Some? <==> Created(d.trace, id)
    requires newId.None? ==> Stopped(d.containers, id)
    requires !wasRunning ==> Stopped(d.containers, prev)
    requires CrashSafe(d.trace, prev, wasRunning) && StartsAlone(d.trace, prev, id)
    modifies d
    ensures d.Valid()
    ensures d.images == old(d.images)
    ensures CrashSafe(d.trace, prev, wasRunning) && StartsAlone(d.trace, prev, id)
    ensures RolledBack(d.trace, old(d.trace), name, prev, id, wasRunning)
    ensures prev in d.containers
    ensures d.containers.Keys <= old(d.containers).Keys <= d.containers.Keys + {id}
    ensures WorkedSince(d.trace, Length(old(d.trace))) ==>
      && d.containers[prev].name == name
      && d.containers[prev].running == wasRunning
      && (newId.Some? ==> id !in d.containers)
    ensures newId.None? ==> Stays(old(d.containers), d.containers, id)
    ensures d.trace.Then?
    ensures Opening(d.trace) == Opening(old(d.trace))
  {
    hide IsRun;
    hide UniqueNames;
    hide Allowed;
    hide Drifted;
    ghost var from := Length(d.trace);
    assert WorkedSince(d.trace, from);
    if newId.Some? {
      var removed, removal := RemoveContainer(d, newId.value, prev);
      assert CrashSafe(d.trace, prev, wasRunning) && StartsAlone(d.trace, prev, id);
      assert RemovalFailed(d.trace, id) || Stopped(d.containers, id);
      assert WorkedSince(d.trace, from) ==> id !in d.containers;
      assert Opening(d.trace) == Opening(old(d.trace));
    }
    assert from <= Length(d.trace);
    ghost var u := d.trace;
    var renamed, renaming := RenameContainer(d, prev, name, id);
    assert CrashSafe(d.trace, prev, wasRunning) && StartsAlone(d.trace, prev, id);
    assert RemovalFailed(d.trace, id) || Stopped(d.containers, id);
    OneMoreWorked(u, renaming, from);
    assert Opening(d.trace) == Opening(old(d.trace));
    assert from <= Length(d.trace);
    if wasRunning {
      ghost var t := d.trace;
      var started, start := StartContainer(d, prev, id);
      OneStartAlone(t, start, prev, id);
      assert Opening(d.trace) == Opening(t);
      assert CrashSafe(d.trace, prev, wasRunning);
      OneMoreWorked(t, start, from);
    }
  }

  /** Undoing starts the old container only if it used to run. */
  lemma RollbackSwitchesNothing(t: Trace, cut: Trace, name: string, prev: Id, id: Id)
    requires RolledBack(t, cut, name, prev, id, false) && NeverSwitches(cut)
    ensures NeverSwitches(t)
  {
    assert NeverSwitches(t.past);
  }

  lemma RollbackTouches(
      t: Trace, cut: Trace, name: string, prev: Id, id: Id, wasRunning: bool, ids: set<Id>)
    requires RolledBack(t, cut, name, prev, id, wasRunning) && TouchesOnly(cut, ids) && prev in ids && id in ids
    ensures TouchesOnly(t, ids)
  {
    var renamed := if wasRunning then t.past else t;
    assert TouchesOnly(renamed.past, ids);
    assert TouchesOnly(renamed, ids);
  }
}
