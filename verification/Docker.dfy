/** The Docker daemon as the agent sees it: containers with fresh ids and unique
    names, and an API in which any call can be refused, or can get no answer at
    all while its effect may still have happened.  Everything a command does to
    the daemon is recorded in a ghost trace, one step per call, so that a
    property of "every point at which the agent may be killed" is a property of
    every prefix of that trace. */
module Docker {
  import opened Wrappers

  type Id = nat

  datatype Health = Healthy | Unhealthy | Other

  /** `health` is None for a container without a healthcheck; `recreatable` tells that
      its inspection holds the blocks a request is made from. */
  datatype Container = Container(
    name: string,
    running: bool,
    health: Option<Health>,
    image: string,
    reference: string,
    labels: map<string, string>,
    networks: seq<string>,
    recreatable: bool)

  type Containers = map<Id, Container>

  datatype Call =
    | Pull(reference: string)
    | InspectImage(reference: string)
    | Find(wanted: string)
    | Inspect(id: Id)
    | Rename(id: Id, name: string)
    | Create(id: Id, container: Container)
    | Connect(id: Id, network: string)
    | Stop(id: Id)
    | Start(id: Id)
    | Remove(id: Id)
    | RemoveImage(image: string)

  /** NotModified is status 304, NotFound 404, Refused any other failure status, or a
      pull whose story ends in an error; Lost is a call that got no answer in time. */
  datatype Reply = Done | NotModified | NotFound | Refused | Lost

  /** One call: the containers it found, the containers it left, and the time of
      its answer in milliseconds. */
  datatype Step = Step(call: Call, reply: Reply, before: Containers, after: Containers, at: nat)

  function NamesOf(s: Containers): set<string> {
    set id | id in s :: s[id].name
  }

  ghost predicate UniqueNames(s: Containers) {
    forall i, j | i in s && j in s && s[i].name == s[j].name :: i == j
  }

  /** What happens between two calls without anybody asking: a process dies, a
      healthcheck changes its mind. */
  ghost predicate Drifted(s: Containers, s': Containers) {
    && s'.Keys == s.Keys
    && forall id | id in s ::
         && s'[id] == s[id].(running := s'[id].running, health := s'[id].health)
         && (s'[id].running ==> s[id].running)
  }

  /** What a call does when the daemon carries it out; None when it cannot. */
  function Effect(call: Call, s: Containers): Option<Containers> {
    match call
    case Rename(id, name) =>
      if id in s && name !in NamesOf(s) then Some(s[id := s[id].(name := name)]) else None
    case Create(id, container) =>
      if id !in s && container.name !in NamesOf(s) then Some(s[id := container]) else None
    case Connect(id, network) =>
      if id in s then Some(s[id := s[id].(networks := s[id].networks + [network])]) else None
    case Stop(id) =>
      if id in s then Some(s[id := s[id].(running := false)]) else None
    case Start(id) =>
      if id in s then Some(s[id := s[id].(running := true)]) else None
    case Remove(id) =>
      if id in s then Some(s - {id}) else None
    case Inspect(id) => if id in s then Some(s) else None
    case Find(name) => if name in NamesOf(s) then Some(s) else None
    case _ => Some(s)
  }

  /** The container a call is about, for the calls that answer 404. */
  predicate Missing(call: Call, s: Containers) {
    match call
    case Rename(id, _) => id !in s
    case Connect(id, _) => id !in s
    case Stop(id) => id !in s
    case Start(id) => id !in s
    case Remove(id) => id !in s
    case Inspect(id) => id !in s
    case Find(name) => name !in NamesOf(s)
    case _ => false
  }

  /** Start on a running container, stop on a stopped one. */
  predicate Already(call: Call, s: Containers) {
    match call
    case Stop(id) => id in s && !s[id].running
    case Start(id) => id in s && s[id].running
    case _ => false
  }

  /** The daemon's side of the protocol. */
  ghost predicate Allowed(step: Step) {
    match step.reply
    case Done => Effect(step.call, step.before) == Some(step.after)
    case NotModified => Already(step.call, step.before) && step.after == step.before
    case NotFound => Missing(step.call, step.before) && step.after == step.before
    case Refused => step.after == step.before
    case Lost => step.after == step.before || Effect(step.call, step.before) == Some(step.after)
  }

  /** No call can give one name to two containers. */
  lemma EffectKeepsNamesUnique(call: Call, s: Containers)
    requires UniqueNames(s)
    requires Effect(call, s).Some?
    ensures UniqueNames(Effect(call, s).value)
    ensures Effect(call, s).value.Keys <= s.Keys + if call.Create? then {call.id} else {}
  {
    forall id | id in s ensures s[id].name in NamesOf(s) {
    }
  }

  lemma DriftKeepsNamesUnique(s: Containers, s': Containers)
    requires UniqueNames(s)
    requires Drifted(s, s')
    ensures UniqueNames(s')
  {
    forall i, j | i in s' && j in s' && s'[i].name == s'[j].name ensures i == j {
      assert s[i].name == s[j].name;
    }
  }

  /** The calls made so far, the latest outermost. */
  datatype Trace = Nothing | Then(past: Trace, step: Step)

  function Length(t: Trace): nat {
    if t.Nothing? then 0 else 1 + Length(t.past)
  }

  /** A trace the daemon can really have produced: every step is allowed, and
      each one finds what the step before it left, up to drift. */
  ghost predicate IsRun(t: Trace) {
    t.Then? ==>
      && IsRun(t.past)
      && Allowed(t.step)
      && (t.past.Then? ==> Drifted(t.past.step.after, t.step.before))
  }

  ghost predicate SameContainer(c: Container, c': Container) {
    c' == c.(running := c'.running, health := c'.health)
  }

  ghost predicate Stopped(s: Containers, id: Id) {
    id in s ==> !s[id].running
  }

  datatype Fault = Works | Refuses | LosesRequest | LosesAnswer

  class Daemon {
    var containers: Containers
    /** Which image a reference names. */
    var images: map<string, string>
    var nextId: Id
    var now: nat
    ghost var trace: Trace

    ghost predicate Valid()
      reads this
    {
      && UniqueNames(containers)
      && (forall id | id in containers :: id < nextId)
      && IsRun(trace)
      && (trace.Then? ==> trace.step.after == containers)
    }

    method Drift() returns (s: Containers)
      ensures Drifted(containers, s)
    {
      var died: set<Id> := *;
      var checks: map<Id, Option<Health>> := *;
      s := map id | id in containers ::
        containers[id].(running := containers[id].running && id !in died,
                        health := if id in checks then checks[id] else containers[id].health);
    }

    /** The daemon's choice of an outcome. */
    static method Answer(call: Call, before: Containers) returns (s: Containers, reply: Reply)
      requires UniqueNames(before)
      ensures Allowed(Step(call, reply, before, s, 0))
      ensures UniqueNames(s)
      ensures s.Keys <= before.Keys + if call.Create? then {call.id} else {}
    {
      var fault: Fault := *;
      var effect := Effect(call, before);
      s := before;
      if fault == LosesRequest {
        reply := Lost;
      } else if fault == Refuses {
        reply := Refused;
      } else if Already(call, before) {
        reply := NotModified;
      } else if effect.None? {
        reply := if Missing(call, before) then NotFound else Refused;
      } else {
        EffectKeepsNamesUnique(call, before);
        s := effect.value;
        reply := if fault == LosesAnswer then Lost else Done;
      }
    }

    /** Any call, with any of the outcomes the daemon and the network allow.  A pull may
        make the reference name another image, whatever comes of it. */
    method Perform(call: Call) returns (reply: Reply, ghost step: Step)
      requires Valid()
      requires call.Create? ==> call.id == nextId
      modifies this
      ensures Valid() && trace == Then(old(trace), step)
      ensures images.Keys >= old(images).Keys
      ensures forall r | r in images && call != Pull(r) :: r in old(images) && images[r] == old(images)[r]
      ensures call.Pull? && reply == Done ==> call.reference in images
      ensures !call.Pull? ==> images == old(images)
      ensures nextId == if call.Create? then old(nextId) + 1 else old(nextId)
      ensures now >= old(now)
      ensures step == Step(call, reply, step.before, containers, now)
      ensures Drifted(old(containers), step.before) && Allowed(step)
    {
      var before := Drift();
      DriftKeepsNamesUnique(containers, before);
      containers, reply := Answer(call, before);
      if call.Create? {
        nextId := nextId + 1;
      }
      if call.Pull? {
        var moved: bool := *;
        if moved || reply == Done {
          var image: string := *;
          images := images[call.reference := image];
        }
      }
      var elapsed: int :| 0 <= elapsed;
      now := now + elapsed;
      step := Step(call, reply, before, containers, now);
      trace := Then(trace, step);
    }

    method Sleep(duration: nat)
      requires Valid()
      modifies this`now
      ensures Valid() && now >= old(now) + duration
    {
      var late: int :| 0 <= late;
      now := now + duration + late;
    }
  }
}
