/** The probe scheduler: one loop that wakes the targets whose time has come.  Times
    are in milliseconds. */
module Scheduler {
  import opened Wrappers

  const RELOAD_EVERY := 15_000

  /** A target's period is never null. */
  datatype Target = Target(id: int, interval: nat)

  /** A probe that was decided, here or handed to a relay agent. */
  datatype Launch = Launch(id: int, at: nat, interval: nat, relay: Option<int>)

  /** One wake-up: the time, and what the database answers if the lists are reloaded. */
  datatype Tick = Tick(now: nat, targets: Option<seq<Target>>, relays: Option<map<int, int>>)

  datatype State = State(nextRun: map<int, nat>, targets: seq<Target>, relays: map<int, int>, lastReload: int)

  function Abs(x: int): nat { if x < 0 then -x else x }

  /** A fixed offset within the period, so that targets do not all fire together. */
  function InitialOffset(id: int, interval: nat): (r: nat)
    ensures r < interval || r == 0
  {
    var seconds := interval / 1000;
    var slots := if seconds < 1 then 1 else seconds;
    (Abs(id) % slots) * 1000
  }

  function Ids(targets: seq<Target>): set<int> {
    set k | 0 <= k < |targets| :: targets[k].id
  }

  predicate Periodic(targets: seq<Target>) {
    forall k :: 0 <= k < |targets| ==> targets[k].interval > 0
  }

  // ------------------------------------------------------------ what a tick does

  function DueTime(nextRun: map<int, nat>, target: Target, now: nat): nat {
    if target.id in nextRun then nextRun[target.id] else now + InitialOffset(target.id, target.interval)
  }

  function Visited(nextRun: map<int, nat>, target: Target, now: nat): map<int, nat> {
    var due := DueTime(nextRun, target, now);
    nextRun[target.id := if due > now then due else now + target.interval]
  }

  function PassedOver(nextRun: map<int, nat>, targets: seq<Target>, now: nat): map<int, nat> {
    if targets == [] then nextRun
    else Visited(PassedOver(nextRun, targets[..|targets| - 1], now), targets[|targets| - 1], now)
  }

  function LaunchOf(nextRun: map<int, nat>, target: Target, relays: map<int, int>, now: nat): seq<Launch> {
    if DueTime(nextRun, target, now) > now then []
    else [Launch(target.id, now, target.interval, if target.id in relays then Some(relays[target.id]) else None)]
  }

  function Launched(nextRun: map<int, nat>, targets: seq<Target>, relays: map<int, int>, now: nat): seq<Launch> {
    if targets == [] then []
    else
      var rest, target := targets[..|targets| - 1], targets[|targets| - 1];
      Launched(nextRun, rest, relays, now) + LaunchOf(PassedOver(nextRun, rest, now), target, relays, now)
  }

  function Reloaded(state: State, tick: Tick): State {
    if tick.now - state.lastReload < RELOAD_EVERY then state
    else
      State(
        if tick.targets.None? then state.nextRun
        else map id | id in state.nextRun && id in Ids(tick.targets.value) :: state.nextRun[id],
        if tick.targets.None? then state.targets else tick.targets.value,
        if tick.relays.None? then state.relays else tick.relays.value,
        tick.now)
  }

  function Ticked(state: State, tick: Tick): State {
    var s := Reloaded(state, tick);
    s.(nextRun := PassedOver(s.nextRun, s.targets, tick.now))
  }

  function LaunchedAt(state: State, tick: Tick): seq<Launch> {
    var s := Reloaded(state, tick);
    Launched(s.nextRun, s.targets, s.relays, tick.now)
  }

  // ------------------------------------------------------------ the loop

  class Scheduler {
    var nextRun: map<int, nat>
    var targets: seq<Target>
    var relays: map<int, int>
    var lastReload: int
    ghost var launches: seq<Launch>

    ghost function Value(): State
      reads this
    {
      State(nextRun, targets, relays, lastReload)
    }

    constructor (now: nat)
      ensures Value() == State(map[], [], map[], now - RELOAD_EVERY) && launches == []
    {
      nextRun, targets, relays, lastReload, launches := map[], [], map[], now - RELOAD_EVERY, [];
    }

    method Reload(tick: Tick)
      modifies this
      ensures Value() == Reloaded(old(Value()), tick) && launches == old(launches)
    {
      if tick.now - lastReload >= RELOAD_EVERY {
        if tick.targets.Some? {
          var live := Ids(tick.targets.value);
          nextRun := map id | id in nextRun && id in live :: nextRun[id];
          targets := tick.targets.value;
        }
        if tick.relays.Some? {
          relays := tick.relays.value;
        }
        lastReload := tick.now;
      }
    }

    method Visit(target: Target, now: nat)
      modifies `nextRun, `launches
      ensures nextRun == Visited(old(nextRun), target, now)
      ensures launches == old(launches) + LaunchOf(old(nextRun), target, relays, now)
    {
      hide InitialOffset;
      var due := if target.id in nextRun then nextRun[target.id] else now + InitialOffset(target.id, target.interval);
      nextRun := nextRun[target.id := due];
      if due > now {
        return;
      }
      nextRun := nextRun[target.id := now + target.interval];
      launches := launches
        + [Launch(target.id, now, target.interval, if target.id in relays then Some(relays[target.id]) else None)];
    }

    method Pass(now: nat)
      modifies `nextRun, `launches
      ensures nextRun == PassedOver(old(nextRun), targets, now)
      ensures launches == old(launches) + Launched(old(nextRun), targets, relays, now)
    {
      hide Visited;
      hide LaunchOf;
      for i := 0 to |targets|
        invariant nextRun == PassedOver(old(nextRun), targets[..i], now)
        invariant launches == old(launches) + Launched(old(nextRun), targets[..i], relays, now)
      {
        assert targets[..i + 1][..i] == targets[..i];
        Visit(targets[i], now);
      }
      assert targets[..|targets|] == targets;
    }

    method Wake(tick: Tick)
      modifies this
      ensures Value() == Ticked(old(Value()), tick)
      ensures launches == old(launches) + LaunchedAt(old(Value()), tick)
      ensures var due := tick.now - old(lastReload) >= 15_000;
              && targets == (if due && tick.targets.Some? then tick.targets.value else old(targets))
              && relays == (if due && tick.relays.Some? then tick.relays.value else old(relays))
              && lastReload == if due then tick.now else old(lastReload)
    {
      ReloadedWhenDue(Value(), tick);
      hide Reloaded;
      Reload(tick);
      Pass(tick.now);
    }
  }

  // ------------------------------------------------------------ what is loaded, what is launched

  /** Every 15 seconds each of the two lists is what the database answers, if it does,
      and then the table forgets the targets that are gone and no others. */
  lemma ReloadedWhenDue(state: State, tick: Tick)
    ensures var due, s := tick.now - state.lastReload >= 15_000, Reloaded(state, tick);
            && s.targets == (if due && tick.targets.Some? then tick.targets.value else state.targets)
            && s.relays == (if due && tick.relays.Some? then tick.relays.value else state.relays)
            && s.lastReload == (if due then tick.now else state.lastReload)
            && (forall id :: id in s.nextRun <==>
                  id in state.nextRun && (due && tick.targets.Some? ==> id in Ids(tick.targets.value)))
            && forall id | id in s.nextRun :: s.nextRun[id] == state.nextRun[id]
  {
  }

  /** The launch is one of a loaded target, now, with its period, and goes to the relay
      it is assigned to, if it is assigned to one. */
  predicate Describes(launch: Launch, target: Target, relays: map<int, int>, now: nat) {
    && launch.id == target.id && launch.at == now && launch.interval == target.interval
    && (launch.relay.Some? <==> target.id in relays)
    && (launch.relay.Some? ==> launch.relay.value == relays[target.id])
  }

  lemma {:induction false} LaunchesDescribe(
      nextRun: map<int, nat>, targets: seq<Target>, relays: map<int, int>, now: nat, launch: Launch)
      returns (target: Target)
    requires launch in Launched(nextRun, targets, relays, now)
    ensures target in targets && Describes(launch, target, relays, now)
    decreases |targets|
  {
    hide InitialOffset;
    var rest, last := targets[..|targets| - 1], targets[|targets| - 1];
    if launch in Launched(nextRun, rest, relays, now) {
      target := LaunchesDescribe(nextRun, rest, relays, now, launch);
    } else {
      target := last;
    }
  }

  /** Whatever is launched in a tick is a target on the list then, for the relay it has then. */
  lemma LaunchHasItsTarget(state: State, tick: Tick, launch: Launch) returns (target: Target)
    requires launch in LaunchedAt(state, tick)
    ensures target in Ticked(state, tick).targets
    ensures Describes(launch, target, Ticked(state, tick).relays, tick.now)
  {
    var s := Reloaded(state, tick);
    target := LaunchesDescribe(s.nextRun, s.targets, s.relays, tick.now, launch);
  }

  lemma {:induction false} PassLaunchesOnce(
      nextRun: map<int, nat>, targets: seq<Target>, relays: map<int, int>, now: nat)
    requires Periodic(targets)
    ensures var all := Launched(nextRun, targets, relays, now);
            forall j, k | 0 <= j < k < |all| :: all[j].id != all[k].id
    decreases |targets|
  {
    hide InitialOffset;
    if targets != [] {
      var rest, last := targets[..|targets| - 1], targets[|targets| - 1];
      PassLaunchesOnce(nextRun, rest, relays, now);
      var before := Launched(nextRun, rest, relays, now);
      forall j | 0 <= j < |before| && before[j].id == last.id
        ensures DueTime(PassedOver(nextRun, rest, now), last, now) > now
      {
        LaunchSetsNext(nextRun, rest, relays, now, before[j]);
      }
    }
  }

  lemma RemaindersDiffer(a: nat, b: nat, n: nat)
    requires a < b < a + n
    ensures a % n != b % n
  {
    var p, q, r := a / n, b / n, b % n;
    if a % n == r {
      assert a == n * p + r && b == n * q + r;
      NoMultipleBetween(n, p, q);
    }
  }

  lemma NoMultipleBetween(n: nat, p: nat, q: nat)
    requires n > 0
    ensures n * q <= n * p || n * q >= n * p + n
  {
    if q > p {
      assert n * q == n * p + n + n * (q - p - 1);
    }
  }

  /** The offsets spread the targets over their period: of as many consecutive targets as
      the period has seconds no two begin together. */
  lemma OffsetsSpread(a: nat, b: nat, interval: nat)
    requires a < b < a + interval / 1000
    ensures InitialOffset(a, interval) != InitialOffset(b, interval)
    ensures InitialOffset(a, interval) < interval && InitialOffset(a, interval) % 1000 == 0
  {
    RemaindersDiffer(a, b, interval / 1000);
  }

  // ------------------------------------------------------------ one pass

  lemma {:induction false} PassKeys(nextRun: map<int, nat>, targets: seq<Target>, now: nat)
    ensures PassedOver(nextRun, targets, now).Keys == nextRun.Keys + Ids(targets)
    decreases |targets|
  {
    hide InitialOffset;
    if targets != [] {
      var rest := targets[..|targets| - 1];
      PassKeys(nextRun, rest, now);
      assert targets == rest + [targets[|targets| - 1]];
      assert Ids(targets) == Ids(rest) + {targets[|targets| - 1].id};
    }
  }

  /** After a pass nothing it went over is still due. */
  lemma {:induction false} PassLeavesNothingDue(nextRun: map<int, nat>, targets: seq<Target>, now: nat, id: int)
    requires Periodic(targets) && id in Ids(targets)
    ensures id in PassedOver(nextRun, targets, now) && PassedOver(nextRun, targets, now)[id] > now
    decreases |targets|
  {
    hide InitialOffset;
    PassKeys(nextRun, targets, now);
    var rest := targets[..|targets| - 1];
    if targets[|targets| - 1].id != id {
      var k :| 0 <= k < |targets| && targets[k].id == id;
      assert rest[k].id == id;
      PassLeavesNothingDue(nextRun, rest, now, id);
    }
  }

  predicate HasLaunch(launches: seq<Launch>, id: int) {
    exists k :: 0 <= k < |launches| && launches[k].id == id
  }

  lemma HasLaunchConcat(a: seq<Launch>, b: seq<Launch>, id: int)
    ensures HasLaunch(a + b, id) <==> HasLaunch(a, id) || HasLaunch(b, id)
  {
    if HasLaunch(a, id) {
      var k :| 0 <= k < |a| && a[k].id == id;
      assert (a + b)[k].id == id;
    }
    if HasLaunch(b, id) {
      var k :| 0 <= k < |b| && b[k].id == id;
      assert (a + b)[|a| + k].id == id;
    }
  }

  /** In a pass a known target is launched only if it was due, is never moved to an
      earlier time, and is not moved at all unless it is launched. */
  lemma {:induction false} PassMoves(
      nextRun: map<int, nat>, targets: seq<Target>, relays: map<int, int>, now: nat, id: int)
    requires id in nextRun
    ensures id in PassedOver(nextRun, targets, now) && PassedOver(nextRun, targets, now)[id] >= nextRun[id]
    ensures if HasLaunch(Launched(nextRun, targets, relays, now), id) then nextRun[id] <= now
            else PassedOver(nextRun, targets, now)[id] == nextRun[id]
    decreases |targets|
  {
    hide InitialOffset;
    if targets != [] {
      var rest, last := targets[..|targets| - 1], targets[|targets| - 1];
      PassMoves(nextRun, rest, relays, now, id);
      HasLaunchConcat(Launched(nextRun, rest, relays, now),
          LaunchOf(PassedOver(nextRun, rest, now), last, relays, now), id);
      assert last.id == id && LaunchOf(PassedOver(nextRun, rest, now), last, relays, now) != [] ==>
        HasLaunch(LaunchOf(PassedOver(nextRun, rest, now), last, relays, now), id) by {
        if LaunchOf(PassedOver(nextRun, rest, now), last, relays, now) != [] {
          assert LaunchOf(PassedOver(nextRun, rest, now), last, relays, now)[0].id == last.id;
        }
      }
    }
  }

  /** A launch leaves the target due one period of that launch later. */
  lemma {:induction false} LaunchSetsNext(
      nextRun: map<int, nat>, targets: seq<Target>, relays: map<int, int>, now: nat, launch: Launch)
    requires Periodic(targets) && launch in Launched(nextRun, targets, relays, now)
    ensures launch.at == now && launch.id in PassedOver(nextRun, targets, now)
    ensures PassedOver(nextRun, targets, now)[launch.id] == now + launch.interval > now
    decreases |targets|
  {
    hide InitialOffset;
    if targets != [] {
      var rest, last := targets[..|targets| - 1], targets[|targets| - 1];
      if launch in Launched(nextRun, rest, relays, now) {
        LaunchSetsNext(nextRun, rest, relays, now, launch);
      }
    }
  }

  /** The period of the first target of that id. */
  function PeriodOf(targets: seq<Target>, id: int): nat
    requires id in Ids(targets)
  {
    var last := targets[|targets| - 1];
    if id in Ids(targets[..|targets| - 1]) then PeriodOf(targets[..|targets| - 1], id)
    else last.interval
  }

  /** A target met for the first time is launched, or put at its offset. */
  lemma {:induction false} PassEnters(
      nextRun: map<int, nat>, targets: seq<Target>, relays: map<int, int>, now: nat, id: int)
    requires id !in nextRun && id in Ids(targets)
    ensures id in PassedOver(nextRun, targets, now)
    ensures HasLaunch(Launched(nextRun, targets, relays, now), id)
            || PassedOver(nextRun, targets, now)[id] == now + InitialOffset(id, PeriodOf(targets, id))
    decreases |targets|
  {
    hide InitialOffset;
    var rest, last := targets[..|targets| - 1], targets[|targets| - 1];
    PassKeys(nextRun, rest, now);
    var before, one :=
      Launched(nextRun, rest, relays, now), LaunchOf(PassedOver(nextRun, rest, now), last, relays, now);
    HasLaunchConcat(before, one, id);
    if one != [] && last.id == id {
      assert one[0].id == id;
    }
    if id in Ids(rest) {
      PassEnters(nextRun, rest, relays, now, id);
    }
  }

  // ------------------------------------------------------------ whole runs

  datatype Trace = Start(now: nat) | Then(past: Trace, tick: Tick)

  function StateOf(run: Trace): State {
    match run
    case Start(now) => State(map[], [], map[], now - RELOAD_EVERY)
    case Then(past, tick) => Ticked(StateOf(past), tick)
  }

  function Latest(run: Trace): seq<Launch> {
    match run
    case Start(_) => []
    case Then(past, tick) => LaunchedAt(StateOf(past), tick)
  }

  predicate AllPeriodic(run: Trace) {
    Periodic(StateOf(run).targets) && (run.Then? ==> AllPeriodic(run.past))
  }

  predicate Loaded(run: Trace, id: int) { id in Ids(StateOf(run).targets) }

  /** `run` continues `since`, and the target is loaded all along. */
  predicate Stays(run: Trace, since: Trace, id: int) {
    Loaded(run, id) && (run == since || (run.Then? && Stays(run.past, since, id)))
  }

  predicate LaunchedSince(run: Trace, since: Trace, id: int) {
    HasLaunch(Latest(run), id) || (run != since && run.Then? && LaunchedSince(run.past, since, id))
  }

  /** The table holds exactly the loaded targets: deleted ones are forgotten. */
  lemma {:induction false} OnlyLoadedAreScheduled(run: Trace)
    ensures StateOf(run).nextRun.Keys == Ids(StateOf(run).targets)
  {
    match run
    case Start(_) =>
    case Then(past, tick) =>
      OnlyLoadedAreScheduled(past);
      var s := Reloaded(StateOf(past), tick);
      PassKeys(s.nextRun, s.targets, tick.now);
      assert s.nextRun.Keys <= Ids(s.targets);
  }

  /** When a tick ends no loaded target is still due at the time it started. */
  lemma NothingIsLeftDue(run: Trace, id: int)
    requires run.Then? && AllPeriodic(run) && Loaded(run, id)
    ensures id in StateOf(run).nextRun && StateOf(run).nextRun[id] > run.tick.now
  {
    var s := Reloaded(StateOf(run.past), run.tick);
    PassLeavesNothingDue(s.nextRun, s.targets, run.tick.now, id);
  }

  lemma OneTick(run: Trace, id: int)
    requires run.Then? && Loaded(run, id) && Loaded(run.past, id)
    ensures var before, after := StateOf(run.past).nextRun, StateOf(run).nextRun;
            && id in before && id in after && after[id] >= before[id]
            && if HasLaunch(Latest(run), id) then before[id] <= run.tick.now else after[id] == before[id]
  {
    OnlyLoadedAreScheduled(run.past);
    var s := Reloaded(StateOf(run.past), run.tick);
    PassMoves(s.nextRun, s.targets, s.relays, run.tick.now, id);
  }

  /** A loaded target is launched by a tick exactly when its time has come, and once. */
  lemma LaunchedExactlyWhenDue(run: Trace, id: int)
    requires run.Then? && AllPeriodic(run) && Loaded(run, id) && Loaded(run.past, id)
    ensures id in StateOf(run.past).nextRun
    ensures HasLaunch(Latest(run), id) <==> StateOf(run.past).nextRun[id] <= run.tick.now
    ensures forall j, k | 0 <= j < k < |Latest(run)| :: Latest(run)[j].id != Latest(run)[k].id
  {
    hide Ticked;
    OneTick(run, id);
    NothingIsLeftDue(run, id);
    TickLaunchesOnce(StateOf(run.past), run.tick);
    assert Latest(run) == LaunchedAt(StateOf(run.past), run.tick);
  }

  lemma TickLaunchesOnce(state: State, tick: Tick)
    requires Periodic(Ticked(state, tick).targets)
    ensures var all := LaunchedAt(state, tick); forall j, k | 0 <= j < k < |all| :: all[j].id != all[k].id
  {
    var s := Reloaded(state, tick);
    PassLaunchesOnce(s.nextRun, s.targets, s.relays, tick.now);
    assert LaunchedAt(state, tick) == Launched(s.nextRun, s.targets, s.relays, tick.now);
  }

  lemma {:induction false} NeverEarlier(run: Trace, since: Trace, id: int)
    requires Stays(run, since, id)
    ensures id in StateOf(since).nextRun && id in StateOf(run).nextRun
    ensures StateOf(run).nextRun[id] >= StateOf(since).nextRun[id]
    decreases run
  {
    if run == since {
      OnlyLoadedAreScheduled(run);
    } else {
      NeverEarlier(run.past, since, id);
      assert Loaded(run.past, id);
      OneTick(run, id);
    }
  }

  /** Two launches of a target that stays loaded are at least the period of the first
      apart, whatever is reloaded in between. */
  lemma LaunchesAreSpaced(run: Trace, since: Trace, first: Launch, second: Launch)
    requires run.Then? && since.Then? && AllPeriodic(since)
    requires first in Latest(since) && second in Latest(run) && first.id == second.id
    requires Stays(run.past, since, first.id) && Loaded(run, first.id)
    ensures second.at >= first.at + first.interval
  {
    hide Periodic;
    var id := first.id;
    var s := Reloaded(StateOf(since.past), since.tick);
    LaunchSetsNext(s.nextRun, s.targets, s.relays, since.tick.now, first);
    NeverEarlier(run.past, since, id);
    assert Loaded(run.past, id);
    OneTick(run, id);
    LaunchIsNow(run, second);
  }

  lemma LaunchIsNow(run: Trace, launch: Launch)
    requires run.Then? && launch in Latest(run)
    ensures launch.at == run.tick.now && HasLaunch(Latest(run), launch.id)
  {
    var s := Reloaded(StateOf(run.past), run.tick);
    LaunchedNow(s.nextRun, s.targets, s.relays, run.tick.now, launch);
  }

  lemma {:induction false} LaunchedNow(
      nextRun: map<int, nat>, targets: seq<Target>, relays: map<int, int>, now: nat, launch: Launch)
    requires launch in Launched(nextRun, targets, relays, now)
    ensures launch.at == now
    decreases |targets|
  {
    if targets != [] && launch in Launched(nextRun, targets[..|targets| - 1], relays, now) {
      LaunchedNow(nextRun, targets[..|targets| - 1], relays, now, launch);
    }
  }

  lemma {:induction false} WaitsForItsOffset(run: Trace, since: Trace, id: int)
    requires since.Then? && !Loaded(since.past, id) && Loaded(since, id) && Stays(run, since, id)
    ensures id in StateOf(run).nextRun
    ensures LaunchedSince(run, since, id)
            || StateOf(run).nextRun[id] == since.tick.now + InitialOffset(id, PeriodOf(StateOf(since).targets, id))
    decreases run
  {
    hide InitialOffset;
    if run == since {
      OnlyLoadedAreScheduled(since.past);
      var s := Reloaded(StateOf(since.past), since.tick);
      PassEnters(s.nextRun, s.targets, s.relays, since.tick.now, id);
    } else {
      WaitsForItsOffset(run.past, since, id);
      assert Loaded(run.past, id);
      OneTick(run, id);
    }
  }

  /** A new target is launched by the first tick that comes one period, or one second if
      the period is shorter, after the tick that loaded it. */
  lemma NewTargetIsLaunched(run: Trace, since: Trace, id: int)
    requires since.Then? && run.Then? && AllPeriodic(run)
    requires !Loaded(since.past, id) && Loaded(since, id) && Stays(run, since, id)
    requires run.tick.now >= since.tick.now
      + (if PeriodOf(StateOf(since).targets, id) > 1000 then PeriodOf(StateOf(since).targets, id) else 1000)
    ensures LaunchedSince(run, since, id)
  {
    WaitsForItsOffset(run, since, id);
    NothingIsLeftDue(run, id);
  }
}
