/** The cache of status-page domains: readers, loaders and invalidators share a
    map behind a read-write lock and an atomic generation counter.  Any number of
    threads take atomic steps in any order; the database is the history of lists
    each instance has had.  The generation check and the insertion are two steps
    under one write lock, so that a bump can land between them. */
module StatusCache {
  import opened Wrappers

  type Key = string
  type Domains = map<string, string>
  type ThreadId = nat

  /** A list as it was read: `version` writes of this instance came before. */
  datatype Listing = Listing(version: nat, domains: Domains)

  /** Where a thread stands.  The first six are a call of `domains()`; `since` is
      a history variable, the writers of its key already acknowledged when the
      call began.  The last three are a write followed by `invalidate()`. */
  datatype Thread =
    | Reading(key: Key, since: set<ThreadId>)
    | Missed(key: Key, since: set<ThreadId>)
    | Counted(key: Key, since: set<ThreadId>, generation: nat)
    | Loaded(key: Key, since: set<ThreadId>, generation: nat, rows: Listing)
    | Holding(key: Key, since: set<ThreadId>, rows: Listing, unmoved: bool)
    | Returned(key: Key, since: set<ThreadId>, result: Option<Listing>)
    | Wrote(key: Key, version: nat)
    | Bumped(key: Key, version: nat)
    | Acknowledged(key: Key, version: nat)
  {
    predicate IsWriter() { Wrote? || Bumped? || Acknowledged? }

    /** The list the thread carries, once it has one. */
    function List(): Option<Listing> {
      if Loaded? || Holding? then Some(rows) else if Returned? then result else None
    }
  }

  datatype State = State(
    generation: nat,
    cache: map<Key, Listing>,
    database: map<Key, seq<Domains>>,
    lock: Option<ThreadId>,
    threads: map<ThreadId, Thread>)
  {
    function History(key: Key): seq<Domains> {
      if key in database then database[key] else []
    }
  }

  /** The list after the writes in `history`. */
  function Current(history: seq<Domains>): Domains {
    if history == [] then map[] else history[|history| - 1]
  }

  ghost predicate Init(s: State) {
    s.cache == map[] && s.database == map[] && s.lock == None && s.threads == map[]
  }

  function AcknowledgedWriters(s: State, key: Key): set<ThreadId> {
    set u | u in s.threads && s.threads[u].Acknowledged? && s.threads[u].key == key
  }

  // ------------------------------------------------------------ atomic steps

  /** `Call` to `InsertAndUnlock` are one call of `domains()`; `Write`, `Bump` and
      `Clear` are one database write and the `invalidate()` that follows it. */
  datatype Action =
    | Call(key: Key)
    | ReadCache
    | LoadGeneration
    | QueryDatabase
    | QueryFails
    | LockAndCheck
    | InsertAndUnlock
    | Write(key: Key, domains: Domains)
    | Bump
    | Clear

  predicate Enabled(s: State, t: ThreadId, a: Action) {
    match a
    case Call(_) => t !in s.threads
    case ReadCache => t in s.threads && s.threads[t].Reading? && s.lock == None
    case LoadGeneration => t in s.threads && s.threads[t].Missed?
    case QueryDatabase => t in s.threads && s.threads[t].Counted?
    case QueryFails => t in s.threads && s.threads[t].Counted?
    case LockAndCheck => t in s.threads && s.threads[t].Loaded? && s.lock == None
    case InsertAndUnlock => t in s.threads && s.threads[t].Holding? && s.lock == Some(t)
    case Write(_, _) => t !in s.threads
    case Bump => t in s.threads && s.threads[t].Wrote?
    case Clear => t in s.threads && s.threads[t].Bumped? && s.lock == None
  }

  /** Where the acting thread goes. */
  function Move(s: State, t: ThreadId, a: Action): Thread
    requires Enabled(s, t, a)
  {
    match a
    case Call(key) => Reading(key, AcknowledgedWriters(s, key))
    case ReadCache =>
      var me := s.threads[t];
      if me.key in s.cache then Returned(me.key, me.since, Some(s.cache[me.key]))
      else Missed(me.key, me.since)
    case LoadGeneration => Counted(s.threads[t].key, s.threads[t].since, s.generation)
    case QueryDatabase =>
      var me := s.threads[t];
      var history := s.History(me.key);
      Loaded(me.key, me.since, me.generation, Listing(|history|, Current(history)))
    // An unreadable database answers an empty list and caches nothing.
    case QueryFails => Returned(s.threads[t].key, s.threads[t].since, None)
    case LockAndCheck =>
      var me := s.threads[t];
      Holding(me.key, me.since, me.rows, s.generation == me.generation)
    case InsertAndUnlock => Returned(s.threads[t].key, s.threads[t].since, Some(s.threads[t].rows))
    case Write(key, _) => Wrote(key, |s.History(key)| + 1)
    case Bump => Bumped(s.threads[t].key, s.threads[t].version)
    case Clear => Acknowledged(s.threads[t].key, s.threads[t].version)
  }

  /** What the step does to the shared state. */
  function After(s: State, t: ThreadId, a: Action): State
    requires Enabled(s, t, a)
  {
    var threads := s.threads[t := Move(s, t, a)];
    match a
    case LockAndCheck => s.(lock := Some(t), threads := threads)
    case InsertAndUnlock =>
      var me := s.threads[t];
      s.(lock := None, threads := threads,
         cache := if me.unmoved then s.cache[me.key := me.rows] else s.cache)
    case Write(key, domains) =>
      s.(database := s.database[key := s.History(key) + [domains]], threads := threads)
    case Bump => s.(generation := s.generation + 1, threads := threads)
    case Clear => s.(cache := map[], threads := threads)
    case _ => s.(threads := threads)
  }

  ghost predicate StepOf(s: State, s': State, t: ThreadId, a: Action) {
    Enabled(s, t, a) && s' == After(s, t, a)
  }

  ghost predicate Next(s: State, s': State) {
    exists t, a :: StepOf(s, s', t, a)
  }

  // ------------------------------------------------------------ the invariant

  /** A list that the history really contained. */
  ghost predicate Genuine(s: State, key: Key, rows: Listing) {
    && rows.version <= |s.History(key)|
    && rows.domains == Current(s.History(key)[..rows.version])
  }

  ghost predicate LockHeldByItsHolder(s: State) {
    forall t :: t in s.threads && s.threads[t].Holding? ==> s.lock == Some(t)
  }

  ghost predicate VersionsExist(s: State) {
    forall u :: u in s.threads && s.threads[u].IsWriter() ==>
      s.threads[u].version <= |s.History(s.threads[u].key)|
  }

  ghost predicate ListsGenuine(s: State) {
    && (forall key :: key in s.cache ==> Genuine(s, key, s.cache[key]))
    && (forall t :: t in s.threads && s.threads[t].List().Some? ==>
          Genuine(s, s.threads[t].key, s.threads[t].List().value))
  }

  /** No acknowledged write is missing from the cache. */
  ghost predicate CacheFresh(s: State) {
    forall key, u | key in s.cache && u in s.threads
                    && s.threads[u].Acknowledged? && s.threads[u].key == key ::
        s.threads[u].version <= s.cache[key].version
  }

  /** A write a loader has not seen, once it has bumped the counter, has bumped it
      past what the loader remembers. */
  ghost predicate BumpSeen(generation: nat, loader: Thread, writer: Thread) {
    loader.Loaded? && (writer.Bumped? || writer.Acknowledged?) && writer.key == loader.key
    && loader.rows.version < writer.version ==>
      loader.generation < generation
  }

  ghost predicate MissedWritesBump(s: State) {
    && (forall t :: t in s.threads && (s.threads[t].Counted? || s.threads[t].Loaded?) ==>
          s.threads[t].generation <= s.generation)
    && (forall t, u :: t in s.threads && u in s.threads ==>
          BumpSeen(s.generation, s.threads[t], s.threads[u]))
  }

  /** A list about to be inserted misses no acknowledged write. */
  ghost predicate HeldCovers(loader: Thread, writer: Thread) {
    loader.Holding? && loader.unmoved && writer.Acknowledged? && writer.key == loader.key ==>
      writer.version <= loader.rows.version
  }

  ghost predicate HeldFresh(s: State) {
    forall t, u :: t in s.threads && u in s.threads ==> HeldCovers(s.threads[t], s.threads[u])
  }

  /** What a call read includes a write acknowledged before it began. */
  ghost predicate CallCovers(loader: Thread, writer: Thread) {
    && writer.Acknowledged? && writer.key == loader.key
    && (loader.List().Some? ==> writer.version <= loader.List().value.version)
  }

  ghost predicate CallsFresh(s: State) {
    forall t, u :: t in s.threads && !s.threads[t].IsWriter() && u in s.threads[t].since ==>
      u in s.threads && CallCovers(s.threads[t], s.threads[u])
  }

  ghost predicate Inv(s: State) {
    && LockHeldByItsHolder(s)
    && VersionsExist(s)
    && ListsGenuine(s)
    && CacheFresh(s)
    && MissedWritesBump(s)
    && HeldFresh(s)
    && CallsFresh(s)
  }

  /** Histories only grow, and a thread that has returned stays as it is. */
  ghost predicate Settled(s: State, s': State) {
    && (forall key :: s.History(key) <= s'.History(key))
    && (forall t :: t in s.threads ==> t in s'.threads)
    && (forall t :: t in s.threads && (s.threads[t].Acknowledged? || s.threads[t].Returned?) ==>
          s'.threads[t] == s.threads[t])
  }

  lemma StepSettles(s: State, s': State)
    requires Next(s, s')
    ensures Settled(s, s')
  {
  }

  lemma GenuineStays(s: State, s': State, key: Key, rows: Listing)
    requires Genuine(s, key, rows) && s.History(key) <= s'.History(key)
    ensures Genuine(s', key, rows)
  {
    assert s'.History(key)[..rows.version] == s.History(key)[..rows.version];
  }

  lemma StepKeepsVersions(s: State, s': State, t: ThreadId, a: Action)
    requires Inv(s) && StepOf(s, s', t, a)
    ensures VersionsExist(s')
  {
    match a {
      case Write(_, _) =>
      case _ =>
    }
  }

  lemma StepKeepsLists(s: State, s': State, t: ThreadId, a: Action)
    requires Inv(s) && StepOf(s, s', t, a)
    ensures ListsGenuine(s')
  {
    forall key ensures s.History(key) <= s'.History(key) {
    }
    forall key | key in s'.cache ensures Genuine(s', key, s'.cache[key]) {
      assert Genuine(s, key, s'.cache[key]);
      GenuineStays(s, s', key, s'.cache[key]);
    }
    forall x | x in s'.threads && s'.threads[x].List().Some?
      ensures Genuine(s', s'.threads[x].key, s'.threads[x].List().value)
    {
      var key, list := s'.threads[x].key, s'.threads[x].List().value;
      if x == t && a.QueryDatabase? {
        assert s.History(key)[..|s.History(key)|] == s.History(key);
      }
      assert Genuine(s, key, list);
      GenuineStays(s, s', key, list);
    }
  }

  lemma StepKeepsLock(s: State, s': State, t: ThreadId, a: Action)
    requires Inv(s) && StepOf(s, s', t, a)
    ensures LockHeldByItsHolder(s')
  {
  }

  lemma StepKeepsCacheFresh(s: State, s': State, t: ThreadId, a: Action)
    requires Inv(s) && StepOf(s, s', t, a)
    ensures CacheFresh(s')
  {
    match a {
      case InsertAndUnlock =>
        forall u | u in s.threads
          ensures HeldCovers(s.threads[t], s.threads[u])
        {
        }
      case Clear =>
      case _ =>
    }
  }

  lemma StepKeepsBumps(s: State, s': State, t: ThreadId, a: Action)
    requires Inv(s) && StepOf(s, s', t, a)
    ensures MissedWritesBump(s')
  {
    hide LockHeldByItsHolder;
    hide ListsGenuine;
    hide CacheFresh;
    hide HeldFresh;
    hide CallsFresh;
    forall x, u | x in s'.threads && u in s'.threads
      ensures BumpSeen(s'.generation, s'.threads[x], s'.threads[u])
    {
      if x in s.threads && u in s.threads {
        assert BumpSeen(s.generation, s.threads[x], s.threads[u]);
      }
      match a {
        case QueryDatabase =>
        case Bump =>
        case Clear =>
        case _ =>
      }
    }
  }

  lemma StepKeepsHeldFresh(s: State, s': State, t: ThreadId, a: Action)
    requires Inv(s) && StepOf(s, s', t, a)
    ensures HeldFresh(s')
  {
    hide CallsFresh;
    forall x, u | x in s'.threads && u in s'.threads
      ensures HeldCovers(s'.threads[x], s'.threads[u])
    {
      if x in s.threads && u in s.threads {
        assert HeldCovers(s.threads[x], s.threads[u]);
        assert BumpSeen(s.generation, s.threads[x], s.threads[u]);
      }
      match a {
        case LockAndCheck =>
        case Clear =>
        case _ =>
      }
    }
  }

  lemma CallStaysCovered(s: State, s': State, t: ThreadId, a: Action, x: ThreadId, u: ThreadId)
    requires StepOf(s, s', t, a) && VersionsExist(s) && CacheFresh(s)
    requires x in s.threads && u in s.threads && !s.threads[x].IsWriter() && CallCovers(s.threads[x], s.threads[u])
    ensures u in s'.threads && CallCovers(s'.threads[x], s'.threads[u])
  {
    match a {
      case ReadCache =>
      case QueryDatabase =>
      case Clear =>
      case _ =>
    }
  }

  lemma StepKeepsCallsFresh(s: State, s': State, t: ThreadId, a: Action)
    requires Inv(s) && StepOf(s, s', t, a)
    ensures CallsFresh(s')
  {
    hide LockHeldByItsHolder;
    hide ListsGenuine;
    hide MissedWritesBump;
    hide HeldFresh;
    hide VersionsExist;
    hide CacheFresh;
    forall x, u | x in s'.threads && !s'.threads[x].IsWriter() && u in s'.threads[x].since
      ensures u in s'.threads && CallCovers(s'.threads[x], s'.threads[u])
    {
      if x in s.threads {
        assert !s.threads[x].IsWriter() && s.threads[x].since == s'.threads[x].since;
        CallStaysCovered(s, s', t, a, x, u);
      }
    }
  }

  /** Every atomic step of every thread keeps the invariant. */
  lemma StepKeepsInv(s: State, s': State)
    requires Inv(s) && Next(s, s')
    ensures Inv(s')
  {
    var t, a :| StepOf(s, s', t, a);
    StepKeepsVersions(s, s', t, a);
    StepKeepsLists(s, s', t, a);
    StepKeepsLock(s, s', t, a);
    StepKeepsCacheFresh(s, s', t, a);
    StepKeepsBumps(s, s', t, a);
    StepKeepsHeldFresh(s, s', t, a);
    StepKeepsCallsFresh(s, s', t, a);
  }

  // ------------------------------------------------------------ whole runs

  ghost predicate IsRun(run: seq<State>) {
    && run != [] && Init(run[0])
    && forall i :: 0 < i < |run| ==> Next(run[i - 1], run[i])
  }

  lemma {:induction false} RunKeepsInv(run: seq<State>, i: nat)
    requires IsRun(run) && i < |run|
    ensures Inv(run[i])
  {
    if i > 0 {
      RunKeepsInv(run, i - 1);
      StepKeepsInv(run[i - 1], run[i]);
    }
  }

  lemma SettledAddsUp(a: State, b: State, c: State)
    requires Settled(a, b) && Settled(b, c)
    ensures Settled(a, c)
  {
    forall key ensures a.History(key) <= c.History(key) {
      assert a.History(key) <= b.History(key) && b.History(key) <= c.History(key);
    }
  }

  lemma {:induction false} RunSettles(run: seq<State>, i: nat, j: nat)
    requires IsRun(run) && i <= j < |run|
    ensures Settled(run[i], run[j])
    decreases j - i
  {
    if i < j {
      RunSettles(run, i, j - 1);
      StepSettles(run[j - 1], run[j]);
      SettledAddsUp(run[i], run[j - 1], run[j]);
    } else {
      assert forall key :: run[i].History(key) <= run[i].History(key);
    }
  }

  lemma StepRemembers(s: State, s': State, t: ThreadId, u: ThreadId)
    requires Next(s, s') && t in s'.threads && !s'.threads[t].IsWriter()
    ensures t in s.threads ==>
      && !s.threads[t].IsWriter()
      && s.threads[t].key == s'.threads[t].key && s.threads[t].since == s'.threads[t].since
    ensures t !in s.threads && u in AcknowledgedWriters(s, s'.threads[t].key) ==> u in s'.threads[t].since
  {
  }

  /** A call remembers the writers acknowledged before it began. */
  lemma {:induction false} CallRemembers(run: seq<State>, j: nat, m: nat, t: ThreadId, u: ThreadId)
    requires IsRun(run) && j <= m < |run|
    requires t !in run[j].threads
    requires u in run[j].threads && run[j].threads[u].Acknowledged?
    requires t in run[m].threads && !run[m].threads[t].IsWriter()
    requires run[m].threads[t].key == run[j].threads[u].key
    ensures u in run[m].threads[t].since
    decreases m - j
  {
    RunSettles(run, j, m - 1);
    assert Next(run[m - 1], run[m]);
    StepRemembers(run[m - 1], run[m], t, u);
    hide Next;
    if t in run[m - 1].threads {
      CallRemembers(run, j, m - 1, t, u);
    }
  }

  // ------------------------------------------------------------ what a call answers

  /** By state `m`, the thread's own query has failed. */
  ghost predicate QueryFailed(run: seq<State>, t: ThreadId, m: nat)
    requires m < |run|
  {
    exists i :: 0 <= i < m && StepOf(run[i], run[i + 1], t, QueryFails)
  }

  lemma ActorMoved(s: State, s': State, t: ThreadId) returns (a: Action)
    requires Next(s, s') && t in s'.threads && (t in s.threads ==> s.threads[t] != s'.threads[t])
    ensures StepOf(s, s', t, a)
  {
    var u, b :| StepOf(s, s', u, b);
    a := b;
  }

  lemma FailureReturns(s: State, s': State, t: ThreadId)
    requires StepOf(s, s', t, QueryFails)
    ensures t in s'.threads && s'.threads[t].Returned? && s'.threads[t].result.None?
  {
  }

  lemma FailedQueryReturns(run: seq<State>, m: nat, t: ThreadId)
    requires IsRun(run) && m < |run| && QueryFailed(run, t, m)
    ensures t in run[m].threads && run[m].threads[t].Returned? && run[m].threads[t].result.None?
  {
    hide StepOf;
    var i :| 0 <= i < m && StepOf(run[i], run[i + 1], t, QueryFails);
    FailureReturns(run[i], run[i + 1], t);
    RunSettles(run, i + 1, m);
  }

  /** A call answers no list if and only if its own query failed. */
  lemma {:induction false} NoListMeansFailure(run: seq<State>, m: nat, t: ThreadId)
    requires IsRun(run) && m < |run| && t in run[m].threads && run[m].threads[t].Returned?
    ensures run[m].threads[t].result.None? <==> QueryFailed(run, t, m)
  {
    if QueryFailed(run, t, m) {
      FailedQueryReturns(run, m, t);
    } else {
      assert Next(run[m - 1], run[m]);
      if t in run[m - 1].threads && run[m - 1].threads[t] == run[m].threads[t] {
        NoListMeansFailure(run, m - 1, t);
        assert QueryFailed(run, t, m - 1) ==> QueryFailed(run, t, m);
      } else {
        var a := ActorMoved(run[m - 1], run[m], t);
        assert a != QueryFails;
      }
    }
  }

  /** Once `invalidate()` has returned for a write, every call of `domains()` that
      begins later and whose own query does not fail returns a list, read at or after
      that write, whatever the other threads do meanwhile; and it is a list the
      database really held. */
  lemma NoStaleAnswer(run: seq<State>, j: nat, m: nat, t: ThreadId, u: ThreadId)
    requires IsRun(run) && j < m < |run|
    requires u in run[j].threads && run[j].threads[u].Acknowledged?
    requires t !in run[j].threads
    requires t in run[m].threads && run[m].threads[t].Returned? && !QueryFailed(run, t, m)
    requires run[m].threads[t].key == run[j].threads[u].key
    ensures run[m].threads[t].result.Some?
    ensures var key, answer := run[j].threads[u].key, run[m].threads[t].result.value;
            && run[j].threads[u].version <= answer.version <= |run[m].History(key)|
            && answer.domains == Current(run[m].History(key)[..answer.version])
  {
    NoListMeansFailure(run, m, t);
    RunKeepsInv(run, m);
    RunSettles(run, j, m);
    CallRemembers(run, j, m, t, u);
    assert CallCovers(run[m].threads[t], run[m].threads[u]);
  }

  /** A call answers for the key it was made with. */
  lemma {:induction false} AnswersItsCall(run: seq<State>, m: nat, t: ThreadId) returns (began: nat)
    requires IsRun(run) && m < |run| && t in run[m].threads && !run[m].threads[t].IsWriter()
    ensures began < m && StepOf(run[began], run[began + 1], t, Call(run[m].threads[t].key))
  {
    assert m > 0 && Next(run[m - 1], run[m]);
    if t in run[m - 1].threads {
      StepRemembers(run[m - 1], run[m], t, t);
      began := AnswersItsCall(run, m - 1, t);
    } else {
      var a := ActorMoved(run[m - 1], run[m], t);
      began := m - 1;
    }
  }

  ghost predicate WroteAt(run: seq<State>, i: nat, w: ThreadId, key: Key, v: nat, domains: Domains)
    requires i + 1 < |run|
  {
    StepOf(run[i], run[i + 1], w, Write(key, domains)) && v == |run[i].History(key)| + 1
  }

  lemma HistoryGrows(s: State, s': State, u: ThreadId, a: Action, key: Key)
    requires StepOf(s, s', u, a)
    ensures s'.History(key) == s.History(key) + if a.Write? && a.key == key then [a.domains] else []
  {
  }

  /** The list after `v` writes is the one that was written then. */
  lemma {:induction false} ListWasWritten(run: seq<State>, m: nat, key: Key, v: nat) returns (i: nat, w: ThreadId)
    requires IsRun(run) && m < |run| && 1 <= v <= |run[m].History(key)|
    ensures i < m && WroteAt(run, i, w, key, v, Current(run[m].History(key)[..v]))
  {
    assert m > 0 && Next(run[m - 1], run[m]);
    var u, a :| StepOf(run[m - 1], run[m], u, a);
    HistoryGrows(run[m - 1], run[m], u, a, key);
    hide StepOf;
    if v <= |run[m - 1].History(key)| {
      i, w := ListWasWritten(run, m - 1, key, v);
      assert run[m - 1].History(key)[..v] == run[m].History(key)[..v];
    } else {
      i, w := m - 1, u;
      assert a == Write(key, a.domains);
    }
  }

  /** What a call answers is a list that somebody wrote for its key, unless nobody had. */
  lemma AnswerWasWritten(run: seq<State>, m: nat, t: ThreadId) returns (i: nat, w: ThreadId)
    requires IsRun(run) && m < |run| && t in run[m].threads && run[m].threads[t].List().Some?
    ensures var rows := run[m].threads[t].List().value;
            if rows.version == 0 then rows.domains == map[]
            else i < m && WroteAt(run, i, w, run[m].threads[t].key, rows.version, rows.domains)
  {
    RunKeepsInv(run, m);
    var rows := run[m].threads[t].List().value;
    i, w := 0, 0;
    if rows.version > 0 {
      i, w := ListWasWritten(run, m, run[m].threads[t].key, rows.version);
    }
  }

  // ------------------------------------------------------------ what the cache is for

  /** From state `j` to state `m`, no counter was bumped and no cache cleared. */
  ghost predicate Undisturbed(run: seq<State>, j: nat, m: nat)
    requires m < |run|
  {
    forall i: nat, u | j <= i < m :: !InvalidatesAt(run, i, u)
  }

  ghost predicate InvalidatesAt(run: seq<State>, i: nat, u: ThreadId)
    requires i + 1 < |run|
  {
    StepOf(run[i], run[i + 1], u, Bump) || StepOf(run[i], run[i + 1], u, Clear)
  }

  /** A loader has remembered the counter as it is, holds a list that may be inserted,
      or has left its key cached. */
  ghost predicate LoadsFor(s: State, loader: Thread) {
    match loader
    case Counted(_, _, generation) => generation == s.generation
    case Loaded(_, _, generation, _) => generation == s.generation
    case Holding(_, _, _, unmoved) => unmoved
    case Returned(key, _, result) => result.Some? ==> key in s.cache
    case _ => true
  }

  lemma StepLoads(s: State, s': State, t: ThreadId, u: ThreadId, a: Action)
    requires StepOf(s, s', u, a) && a != Bump && a != Clear
    requires t in s.threads ==> LoadsFor(s, s.threads[t])
    ensures t in s'.threads ==> LoadsFor(s', s'.threads[t])
    ensures s.cache.Keys <= s'.cache.Keys
  {
  }

  lemma {:induction false} QuietLoads(run: seq<State>, j: nat, m: nat, t: ThreadId)
    requires IsRun(run) && j <= m < |run| && Undisturbed(run, j, m) && t !in run[j].threads
    ensures t in run[m].threads ==> LoadsFor(run[m], run[m].threads[t])
    decreases m - j
  {
    if j < m {
      QuietLoads(run, j, m - 1, t);
      assert Next(run[m - 1], run[m]);
      var u, a :| StepOf(run[m - 1], run[m], u, a);
      assert !InvalidatesAt(run, m - 1, u);
      StepLoads(run[m - 1], run[m], t, u, a);
    }
  }

  /** A call with no invalidation under its way, whose query does not fail, leaves its
      key cached. */
  lemma QuietCallFillsTheCache(run: seq<State>, j: nat, m: nat, t: ThreadId)
    requires IsRun(run) && j <= m < |run| && Undisturbed(run, j, m) && t !in run[j].threads
    requires t in run[m].threads && run[m].threads[t].Returned? && !QueryFailed(run, t, m)
    ensures run[m].threads[t].key in run[m].cache
  {
    QuietLoads(run, j, m, t);
    NoListMeansFailure(run, m, t);
  }

  /** As long as nothing is invalidated, a cached key stays cached, and a call for it
      answers from the cache: it never comes to a query. */
  lemma {:induction false} CachedNeedsNoQuery(run: seq<State>, j: nat, m: nat, key: Key, t: ThreadId)
    requires IsRun(run) && j <= m < |run| && Undisturbed(run, j, m) && t !in run[j].threads && key in run[j].cache
    ensures key in run[m].cache
    ensures t in run[m].threads && !run[m].threads[t].IsWriter() && run[m].threads[t].key == key ==>
      run[m].threads[t].Reading? || (run[m].threads[t].Returned? && run[m].threads[t].result.Some?)
    decreases m - j
  {
    if j < m {
      CachedNeedsNoQuery(run, j, m - 1, key, t);
      assert Next(run[m - 1], run[m]);
      var u, a :| StepOf(run[m - 1], run[m], u, a);
      assert !InvalidatesAt(run, m - 1, u);
    }
  }

  /** Clearing forgets everything: whatever is cached afterwards was inserted afterwards,
      by a loader of that key. */
  lemma {:induction false} CachedSinceClear(run: seq<State>, j: nat, m: nat, c: ThreadId, key: Key)
      returns (i: nat, t: ThreadId)
    requires IsRun(run) && j < m < |run| && StepOf(run[j], run[j + 1], c, Clear) && key in run[m].cache
    ensures j < i < m && StepOf(run[i], run[i + 1], t, InsertAndUnlock) && run[i].threads[t].key == key
    decreases m - j
  {
    assert Next(run[m - 1], run[m]);
    if j + 1 < m && key in run[m - 1].cache {
      i, t := CachedSinceClear(run, j, m - 1, c, key);
    } else {
      var u, a :| StepOf(run[m - 1], run[m], u, a);
      i, t := m - 1, u;
    }
  }

  /** Every write has its writer. */
  ghost predicate WritersKnown(s: State) {
    forall key, v :: 1 <= v <= |s.History(key)| ==> HasWriter(s, key, v)
  }

  ghost predicate HasWriter(s: State, key: Key, v: nat) {
    exists u :: WriterOf(s, u, key, v)
  }

  ghost predicate WriterOf(s: State, u: ThreadId, key: Key, v: nat) {
    u in s.threads && s.threads[u].IsWriter() && s.threads[u].key == key && s.threads[u].version == v
  }

  lemma {:induction false} RunKnowsWriters(run: seq<State>, i: nat)
    requires IsRun(run) && i < |run|
    ensures WritersKnown(run[i])
  {
    if i > 0 {
      RunKnowsWriters(run, i - 1);
      var s, s' := run[i - 1], run[i];
      var t, a :| StepOf(s, s', t, a);
      forall key, v | 1 <= v <= |s'.History(key)| ensures HasWriter(s', key, v) {
        if v <= |s.History(key)| {
          assert HasWriter(s, key, v);
          var u :| WriterOf(s, u, key, v);
          assert WriterOf(s', u, key, v);
        } else {
          assert WriterOf(s', t, key, v);
        }
      }
    }
  }

  /** When no invalidation is under way, whatever is cached is the current list,
      even if a loader was caught between its check and its insertion. */
  lemma QuietCacheIsCurrent(run: seq<State>, i: nat, key: Key)
    requires IsRun(run) && i < |run|
    requires forall u :: u in run[i].threads && run[i].threads[u].IsWriter() ==> run[i].threads[u].Acknowledged?
    requires key in run[i].cache
    ensures run[i].cache[key].domains == Current(run[i].History(key))
  {
    RunKeepsInv(run, i);
    RunKnowsWriters(run, i);
    var s := run[i];
    var history := s.History(key);
    if history != [] {
      assert HasWriter(s, key, |history|);
      var u :| WriterOf(s, u, key, |history|);
      assert s.threads[u].version <= s.cache[key].version;
    }
    assert history[..|history|] == history;
  }

  /** Why the counter matters: a list that misses an acknowledged write is never
      inserted, though its loader goes on to answer it. */
  lemma MissedWriteIsNotInserted(run: seq<State>, i: nat, t: ThreadId, u: ThreadId)
    requires IsRun(run) && i < |run|
    requires Enabled(run[i], t, InsertAndUnlock)
    requires u in run[i].threads && run[i].threads[u].Acknowledged? && run[i].threads[u].key == run[i].threads[t].key
    requires run[i].threads[t].rows.version < run[i].threads[u].version
    ensures After(run[i], t, InsertAndUnlock).cache == run[i].cache
  {
    RunKeepsInv(run, i);
    assert HeldCovers(run[i].threads[t], run[i].threads[u]);
  }
}
