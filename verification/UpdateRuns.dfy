/** Runs of the update command that keep its promises and still fall short: the old
    container and the new one running together, and a second command that removes the
    last good container; and how far such runs go. */
module UpdateRuns {
  import opened Wrappers
  import opened Docker
  import opened Replacement
  import opened ContainerUpdate

  // ------------------------------------------------------------ the pair together

  ghost predicate Runs(s: Containers, id: Id) {
    id in s && s[id].running
  }

  lemma {:induction false} CutOfARun(t: Trace, cut: Trace, prev: Id, id: Id)
    requires IsRun(t) && StartsAlone(t, prev, id) && IsCut(cut, t) && cut.Then?
    ensures IsRun(cut) && StartsAlone(cut, prev, id) && Opening(cut) == Opening(t)
  {
    if cut != t {
      CutOfARun(t.past, cut, prev, id);
    }
  }

  /** A call after which both run found both running, or is the old one put back. */
  lemma OneStepTogether(s: Containers, step: Step, prev: Id, id: Id)
    requires Drifted(s, step.before) && Allowed(step) && prev != id
    requires step.call.Create? ==> !step.call.container.running
    requires step.call == Start(id) ==> Stopped(step.before, prev)
    requires Runs(step.after, prev) && Runs(step.after, id)
    ensures (Runs(s, prev) && Runs(s, id)) || (step.call == Start(prev) && !Stopped(step.before, id))
  {
    assert step.after == step.before || Effect(step.call, step.before) == Some(step.after);
  }

  lemma {:induction false} TogetherAtTheEnd(t: Trace, s0: Containers, prev: Id, id: Id)
    requires IsRun(t) && StartsAlone(t, prev, id) && prev != id && id !in s0
    requires Opening(t).Some? && Drifted(s0, Opening(t).value.before)
    requires Runs(t.step.after, prev) && Runs(t.step.after, id)
    ensures RemovalFailed(t, id)
  {
    if t.past.Nothing? {
      OneStepTogether(s0, t.step, prev, id);
    } else {
      OneStepTogether(t.past.step.after, t.step, prev, id);
      if Runs(t.past.step.after, prev) && Runs(t.past.step.after, id) {
        TogetherAtTheEnd(t.past, s0, prev, id);
      }
    }
  }

  /** Wherever a command is cut, the old container and the new one run together only
      if the removal of the new one had been asked for and had failed. */
  lemma {:induction false} PairRunsTogetherOnlyThen(
      t: Trace, cut: Trace, s0: Containers, name: string, prev: Id, id: Id)
    requires IsRun(t) && BeginsAt(t, s0, name) && StartsAlone(t, prev, id) && prev != id && id !in s0
    requires IsCut(cut, t) && cut.Then? && Runs(cut.step.after, prev) && Runs(cut.step.after, id)
    ensures RemovalFailed(cut, id)
  {
    CutOfARun(t, cut, prev, id);
    TogetherAtTheEnd(cut, s0, prev, id);
  }

  /** What `t` is after one more call, answered at once. */
  function Next(t: Trace, call: Call, reply: Reply, before: Containers, after: Containers): Trace {
    Then(t, Step(call, reply, before, after, 0))
  }

  lemma FirstCall(step: Step)
    requires Allowed(step) && step.call.Find?
    ensures IsRun(Then(Nothing, step)) && OnlyRenamesAndRemoves(Then(Nothing, step))
    ensures Opening(Then(Nothing, step)) == Some(step)
  {
    assert Nothing.Nothing? && OnlyRenamesAndRemoves(Nothing) && IsRun(Nothing);
  }

  /** The calls of a command up to the rename, all of them answered. */
  lemma AsideRun(c: Container) returns (t: Trace, s0: Containers, s: Containers)
    ensures s0 == map[0 := c] && s == map[0 := c.(name := c.name + PREVIOUS_SUFFIX)]
    ensures IsRun(t) && BeginsAt(t, s0, c.name) && t.Then? && t.step.after == s && OnlyRenamesAndRemoves(t)
    ensures t.step.call == Rename(0, c.name + PREVIOUS_SUFFIX) && t.step.reply == Done
    ensures SeenRunning(t, 0) == c.running
  {
    s0 := map[0 := c];
    s := map[0 := c.(name := c.name + PREVIOUS_SUFFIX)];
    assert s0[0].name in NamesOf(s0) && c.name + PREVIOUS_SUFFIX !in NamesOf(s0);
    assert s0[0 := c.(name := c.name + PREVIOUS_SUFFIX)] == s;
    var found := Step(Find(c.name), Done, s0, s0, 0);
    FirstCall(found);
    var t1 := Then(Nothing, found);
    var t2 := Next(t1, Pull(c.reference), Done, s0, s0);
    var t3 := Next(t2, InspectImage(c.reference), Done, s0, s0);
    var t4 := Next(t3, InspectImage(c.image), Done, s0, s0);
    var t5 := Next(t4, Find(c.name + PREVIOUS_SUFFIX), NotFound, s0, s0);
    t := Next(t5, Rename(0, c.name + PREVIOUS_SUFFIX), Done, s0, s);
    assert IsRun(t2) && OnlyRenamesAndRemoves(t2) && Opening(t2) == Some(found);
    assert IsRun(t3) && OnlyRenamesAndRemoves(t3) && Opening(t3) == Some(found);
    assert IsRun(t4) && OnlyRenamesAndRemoves(t4) && Opening(t4) == Some(found);
    assert IsRun(t5) && OnlyRenamesAndRemoves(t5) && Opening(t5) == Some(found);
  }

  lemma OneMoreCall(t: Trace, call: Call, reply: Reply, s: Containers, after: Containers, prev: Id, id: Id)
    requires IsRun(t) && StartsAlone(t, prev, id) && t.Then? && t.step.after == s
    requires Allowed(Step(call, reply, s, after, 0)) && (call.Create? ==> !call.container.running)
    requires call == Start(id) ==> Stopped(s, prev)
    requires call == Start(prev) ==> Stopped(s, id) || RemovalFailed(t, id)
    ensures IsRun(Next(t, call, reply, s, after)) && StartsAlone(Next(t, call, reply, s, after), prev, id)
    ensures Opening(Next(t, call, reply, s, after)) == Opening(t)
  {
  }

  lemma OneMoreReplaceCall(
      t: Trace, base: Trace, born: Container, call: Call, reply: Reply, s: Containers, after: Containers)
    requires IsRun(t) && StartsAlone(t, 0, 1) && t.Then? && t.step.after == s
    requires t == base || ReplaceSince(t, base, born, 0, 1)
    requires Allowed(Step(call, reply, s, after, 0)) && ReplaceStep(Step(call, reply, s, after, 0), born, 0, 1)
    ensures IsRun(Next(t, call, reply, s, after)) && StartsAlone(Next(t, call, reply, s, after), 0, 1)
    ensures Opening(Next(t, call, reply, s, after)) == Opening(t)
    ensures ReplaceSince(Next(t, call, reply, s, after), base, born, 0, 1)
    ensures Created(t, 1) ==> Created(Next(t, call, reply, s, after), 1)
  {
    OneMoreCall(t, call, reply, s, after, 0, 1);
  }

  /** The replacement of a running container, which is started and then cannot be
      inspected. */
  lemma UnseenRun(base: Trace, s: Containers, born: Container) returns (cut: Trace, s3: Containers)
    requires IsRun(base) && StartsAlone(base, 0, 1) && base.Then? && base.step.after == s
    requires s.Keys == {0} && s[0].running && !born.running && born.name != s[0].name
    ensures s3 == map[0 := s[0].(running := false), 1 := born.(running := true)]
    ensures IsRun(cut) && StartsAlone(cut, 0, 1) && cut.Then? && cut.step.after == s3
    ensures Created(cut, 1) && ReplaceSince(cut, base, born, 0, 1) && EndsBadly(cut, 1, None)
    ensures Opening(cut) == Opening(base)
  {
    hide IsRun;
    hide StartsAlone;
    hide ReplaceSince;
    hide Opening;
    var s1 := map[0 := s[0], 1 := born];
    var s2 := map[0 := s[0].(running := false), 1 := born];
    s3 := map[0 := s[0].(running := false), 1 := born.(running := true)];
    assert s == map[0 := s[0]] && NamesOf(s) == {s[0].name};
    assert s[1 := born] == s1 && s1[0 := s2[0]] == s2 && s2[1 := s3[1]] == s3;
    var t1 := Next(base, Create(1, born), Done, s, s1);
    assert Created(t1, 1);
    OneMoreReplaceCall(base, base, born, Create(1, born), Done, s, s1);
    OneMoreReplaceCall(t1, base, born, Stop(0), Done, s1, s2);
    var t2 := Next(t1, Stop(0), Done, s1, s2);
    OneMoreReplaceCall(t2, base, born, Start(1), Done, s2, s3);
    var t3 := Next(t2, Start(1), Done, s2, s3);
    OneMoreReplaceCall(t3, base, born, Inspect(1), Lost, s3, s3);
    cut := Next(t3, Inspect(1), Lost, s3, s3);
  }

  /** The rollback whose removal is refused, and whose rename therefore is too. */
  lemma HaltingRollback(cut: Trace, s: Containers, name: string) returns (t: Trace)
    requires IsRun(cut) && StartsAlone(cut, 0, 1) && cut.Then? && cut.step.after == s
    requires s.Keys == {0, 1} && s[1].running && Created(cut, 1)
    ensures IsRun(t) && StartsAlone(t, 0, 1) && t.Then? && t.step.after == s[0 := s[0].(running := true)]
    ensures RolledBack(t, cut, name, 0, 1, true) && Opening(t) == Opening(cut)
  {
    OneMoreCall(cut, Remove(1), Refused, s, s, 0, 1);
    var t1 := Next(cut, Remove(1), Refused, s, s);
    assert RemovalFailed(t1, 1);
    OneMoreCall(t1, Rename(0, name), Refused, s, s, 0, 1);
    var t2 := Next(t1, Rename(0, name), Refused, s, s);
    assert RemovalFailed(t2, 1);
    OneMoreCall(t2, Start(0), Done, s, s[0 := s[0].(running := true)], 0, 1);
    t := Next(t2, Start(0), Done, s, s[0 := s[0].(running := true)]);
  }

  lemma IsAttempt(cut: Trace, base: Trace, born: Container, name: string, prev: Id, id: Id)
    requires ReplaceSince(cut, base, born, prev, id) && born.name == name
    requires OnlyRenamesAndRemoves(base) && base.Then?
    requires base.step.call == Rename(prev, name + PREVIOUS_SUFFIX) && base.step.reply == Done
    ensures Attempted(cut, name, prev, id)
  {
  }

  lemma BothRun(s: Containers)
    requires s.Keys == {0, 1} && s[1].running
    ensures Runs(s[0 := s[0].(running := true)], 0) && Runs(s[0 := s[0].(running := true)], 1)
  {
  }

  /** For every running container, some command on it keeps all that is promised and
      ends with the pair running together: the inspection of the new one gets no
      answer, and its removal is refused. */
  lemma PairMayRunTogether(c: Container, image: string) returns (t: Trace, cut: Trace)
    requires c.running
    ensures IsRun(t) && BeginsAt(t, map[0 := c], c.name) && StartsAlone(t, 0, 1)
    ensures Attempted(cut, c.name, 0, 1) && EndsBadly(cut, 1, None)
    ensures RolledBack(t, cut, c.name, 0, 1, SeenRunning(t, 0))
    ensures t.Then? && Runs(t.step.after, 0) && Runs(t.step.after, 1)
  {
    assert |PREVIOUS_SUFFIX| > 0;
    hide *;
    var base, s0, s := AsideRun(c);
    QuietTraceIsSafe(base, 0, true, 0, 1);
    var born := c.(running := false, image := image);
    var s3;
    cut, s3 := UnseenRun(base, s, born);
    IsAttempt(cut, base, born, c.name, 0, 1);
    t := HaltingRollback(cut, s3, c.name);
    BeginsAlike(base, t, s0, c.name, 0);
    BothRun(s3);
  }

  // ------------------------------------------------------------ two commands

  /** The calls a command makes between the rename and its settling: those of a
      replacement and those of a rollback. */
  ghost predicate PairStep(step: Step, born: Container, prev: Id, id: Id) {
    || ReplaceStep(step, born, prev, id)
    || step.call == Remove(id) || step.call == Rename(prev, born.name) || step.call == Start(prev)
  }

  ghost predicate PairSince(t: Trace, base: Trace, born: Container, prev: Id, id: Id) {
    t == base || (t.Then? && PairStep(t.step, born, prev, id) && PairSince(t.past, base, born, prev, id))
  }

  lemma {:induction false} ReplaceIsPair(t: Trace, base: Trace, born: Container, prev: Id, id: Id)
    requires ReplaceSince(t, base, born, prev, id)
    ensures PairSince(t, base, born, prev, id)
  {
    if t != base {
      ReplaceIsPair(t.past, base, born, prev, id);
    }
  }

  /** A replacement and its rollback, cut anywhere, are made of such calls. */
  lemma RollbackIsPair(
      t: Trace, u: Trace, cut: Trace, base: Trace, born: Container, prev: Id, id: Id, wasRunning: bool)
    requires ReplaceSince(cut, base, born, prev, id) && RolledBack(t, cut, born.name, prev, id, wasRunning)
    requires IsCut(u, t) && IsCut(cut, u)
    ensures PairSince(u, base, born, prev, id)
  {
    ReplaceIsPair(cut, base, born, prev, id);
    var renamed := if wasRunning then t.past else t;
    assert PairSince(renamed.past, base, born, prev, id);
    assert PairSince(renamed, base, born, prev, id);
    assert PairSince(t, base, born, prev, id);
    PairIsCut(t, u, cut, base, born, prev, id);
  }

  lemma {:induction false} PairIsCut(
      t: Trace, u: Trace, cut: Trace, base: Trace, born: Container, prev: Id, id: Id)
    requires PairSince(t, base, born, prev, id) && PairSince(cut, base, born, prev, id)
    requires IsCut(u, t) && IsCut(cut, u)
    ensures PairSince(u, base, born, prev, id)
  {
    if u != t {
      if t == base {
        CutsAreShort(u, t.past);
        CutsAreShort(cut, u);
        PairIsLonger(cut, base, born, prev, id);
      } else {
        PairIsCut(t.past, u, cut, base, born, prev, id);
      }
    }
  }

  lemma {:induction false} CutsAreShort(cut: Trace, t: Trace)
    requires IsCut(cut, t)
    ensures Length(cut) <= Length(t)
  {
    if cut != t {
      CutsAreShort(cut, t.past);
    }
  }

  lemma {:induction false} PairIsLonger(t: Trace, base: Trace, born: Container, prev: Id, id: Id)
    requires PairSince(t, base, born, prev, id)
    ensures Length(base) <= Length(t)
  {
    if t != base {
      PairIsLonger(t.past, base, born, prev, id);
    }
  }

  lemma OnePairStep(s: Containers, step: Step, born: Container, prev: Id, id: Id)
    requires Allowed(step) && Drifted(s, step.before) && PairStep(step, born, prev, id)
    requires prev != id && prev in s && (id in s ==> GrownFrom(born, s[id]))
    ensures prev in step.after && SameContainer(s[prev].(name := step.after[prev].name), step.after[prev])
    ensures id in step.after ==> GrownFrom(born, step.after[id])
  {
    if ReplaceStep(step, born, prev, id) {
      OneReplaceStep(s, step, born, prev, id);
    } else {
      assert prev in step.before && SameContainer(s[prev], step.before[prev]);
      assert id in step.before ==> id in s && SameContainer(s[id], step.before[id]);
      assert step.after == step.before || Effect(step.call, step.before) == Some(step.after);
    }
  }

  /** The old container keeps all but its name, the new one is what it was made. */
  lemma {:induction false} PairKeeps(t: Trace, base: Trace, born: Container, prev: Id, id: Id)
    requires IsRun(t) && PairSince(t, base, born, prev, id)
    requires base.Then? && prev != id && prev in base.step.after && id !in base.step.after
    ensures t.Then? && prev in t.step.after
    ensures SameContainer(base.step.after[prev].(name := t.step.after[prev].name), t.step.after[prev])
    ensures id in t.step.after ==> GrownFrom(born, t.step.after[id])
  {
    if t != base {
      PairKeeps(t.past, base, born, prev, id);
      OnePairStep(t.past.step.after, t.step, born, prev, id);
    }
  }

  /** The command that follows one which left the pair behind: killed while it replaced
      or rolled back, or after a rollback whose rename was refused.  The old container
      still waits under the reserved name and the new one, whatever became of it, bears
      the name.  The old one's removal is asked for only if the new one has its
      reference and labels and is outdated in turn, and then it is, unless something
      goes wrong or the new one may not be updated. */
  method UpdateAgain(
      d: Daemon, name: string, prune: bool, own: Option<Id>, ghost t: Trace, ghost base: Trace, ghost born: Container,
      ghost prev: Id, ghost id: Id)
    returns (outcome: Outcome)
    requires d.Valid() && d.trace == Nothing
    requires IsRun(t) && PairSince(t, base, born, prev, id) && base.Then? && born.name == name
    requires prev != id && prev in base.step.after && id !in base.step.after
    requires Bears(t.step.after, prev, name + PREVIOUS_SUFFIX) && id in t.step.after
    requires Drifted(t.step.after, d.containers)
    modifies d
    ensures var due := Outdated(born, d.images) && IsOurPrevious(base.step.after[prev], born);
            && (Asked(d.trace, Remove(prev)) ==> due)
            && (Smooth(d.trace, old(d.nextId), own) && !OffLimits(born, id, own) && Pullable(born.reference)
                && born.recreatable && due ==>
                  Asked(d.trace, Remove(prev)))
    ensures prev !in d.containers ==> Asked(d.trace, Remove(prev))
  {
    PairKeeps(t, base, born, prev, id);
    ghost var s0 := d.containers;
    assert Bears(s0, id, name) && GrownFrom(born, s0[id]);
    assert Bears(s0, prev, name + PREVIOUS_SUFFIX);
    assert SameContainer(base.step.after[prev].(name := s0[prev].name), s0[prev]);
    assert |name + PREVIOUS_SUFFIX| > |name|;
    hide Smooth;
    hide Asked;
    hide Declined;
    hide Concluded;
    hide NoOtherLeftover;
    hide CrashSafe;
    hide StartsAlone;
    hide TouchesOnly;
    hide BeginsAt;
    ghost var found, next, stale, cut;
    outcome, found, next, stale, cut := Update(d, name, prune, own, id);
    assert Clears(d.trace, s0, d.images, prev, id, next, name, own);
  }

  /** The creation happens, and its answer is lost. */
  lemma LostCreation(base: Trace, s: Containers, born: Container) returns (cut: Trace, s1: Containers)
    requires IsRun(base) && StartsAlone(base, 0, 1) && base.Then? && base.step.after == s && !Created(base, 1)
    requires s.Keys == {0} && !born.running && born.name != s[0].name
    ensures s1 == map[0 := s[0], 1 := born]
    ensures IsRun(cut) && StartsAlone(cut, 0, 1) && cut.Then? && cut.step.after == s1
    ensures !Created(cut, 1) && ReplaceSince(cut, base, born, 0, 1) && EndsBadly(cut, 1, None)
    ensures Opening(cut) == Opening(base)
  {
    hide IsRun;
    hide StartsAlone;
    hide ReplaceSince;
    hide Opening;
    s1 := map[0 := s[0], 1 := born];
    assert s == map[0 := s[0]] && NamesOf(s) == {s[0].name} && s[1 := born] == s1;
    OneMoreReplaceCall(base, base, born, Create(1, born), Lost, s, s1);
    cut := Next(base, Create(1, born), Lost, s, s1);
  }

  /** The rollback that knows of no new container, finds the name taken, and the old
      container running. */
  lemma IdleRollback(cut: Trace, base: Trace, born: Container, s: Containers) returns (t: Trace)
    requires IsRun(cut) && StartsAlone(cut, 0, 1) && cut.Then? && cut.step.after == s
    requires s.Keys == {0, 1} && s[0].running && !s[1].running && !Created(cut, 1)
    requires ReplaceSince(cut, base, born, 0, 1)
    ensures IsRun(t) && StartsAlone(t, 0, 1) && t.Then? && t.step.after == s
    ensures RolledBack(t, cut, born.name, 0, 1, true) && Opening(t) == Opening(cut)
    ensures PairSince(t, base, born, 0, 1)
  {
    OneMoreCall(cut, Rename(0, born.name), Refused, s, s, 0, 1);
    var t1 := Next(cut, Rename(0, born.name), Refused, s, s);
    OneMoreCall(t1, Start(0), NotModified, s, s, 0, 1);
    t := Next(t1, Start(0), NotModified, s, s);
    ReplaceIsPair(cut, base, born, 0, 1);
    assert PairSince(t1, base, born, 0, 1);
    assert PairSince(t, base, born, 0, 1);
  }

  /** For every running container: its replacement is made, but the answer is lost.  The
      rollback, which knows of nothing to remove, finds the name taken.  Nobody was
      killed, and the pair is left behind. */
  lemma LostCreateLeavesThePair(c: Container, image: string)
    returns (t: Trace, cut: Trace, base: Trace, born: Container)
    requires c.running
    ensures IsRun(t) && BeginsAt(t, map[0 := c], c.name) && StartsAlone(t, 0, 1)
    ensures Attempted(cut, c.name, 0, 1) && EndsBadly(cut, 1, None)
    ensures RolledBack(t, cut, c.name, 0, 1, SeenRunning(t, 0))
    ensures PairSince(t, base, born, 0, 1) && born == c.(running := false, image := image)
    ensures t.Then? && t.step.after == map[0 := c.(name := c.name + PREVIOUS_SUFFIX), 1 := born]
  {
    assert |PREVIOUS_SUFFIX| > 0;
    hide *;
    var s0, s, s1;
    base, s0, s := AsideRun(c);
    QuietTraceIsSafe(base, 0, true, 0, 1);
    born := c.(running := false, image := image);
    cut, s1 := LostCreation(base, s, born);
    IsAttempt(cut, base, born, c.name, 0, 1);
    t := IdleRollback(cut, base, born, s1);
    BeginsAlike(base, t, s0, c.name, 0);
  }

  lemma OneMoreQuietCall(t: Trace, call: Call, s: Containers, after: Containers, id: Id, own: Option<Id>)
    requires IsRun(t) && t.Then? && t.step.after == s && OnlyRenamesAndRemoves(t) && Smooth(t, id, own)
    requires Allowed(Step(call, Done, s, after, 0)) && !call.Inspect?
    requires !(call.Create? || call.Connect? || call.Start? || call.Stop?)
    ensures IsRun(Next(t, call, Done, s, after)) && OnlyRenamesAndRemoves(Next(t, call, Done, s, after))
    ensures Opening(Next(t, call, Done, s, after)) == Opening(t) && Smooth(Next(t, call, Done, s, after), id, own)
    ensures 1 in after && AlwaysThere(t, 1) ==> AlwaysThere(Next(t, call, Done, s, after), 1)
    ensures Asked(t, Remove(0)) || call == Remove(0) ==> Asked(Next(t, call, Done, s, after), Remove(0))
  {
  }

  lemma OnlyName(id: Id, c: Container)
    ensures NamesOf(map[id := c]) == {c.name}
  {
    var s := map[id := c];
    assert forall n :: n in NamesOf(s) ==> n == c.name;
    assert s[id].name in NamesOf(s);
  }

  /** The calls of a command on `half` that ask and change nothing, all done. */
  lemma LeftoverFound(first: Container, half: Container) returns (t: Trace, s0: Containers)
    requires first.name == half.name + PREVIOUS_SUFFIX
    ensures s0 == map[0 := first, 1 := half]
    ensures IsRun(t) && BeginsAt(t, s0, half.name) && OnlyRenamesAndRemoves(t) && t.Then? && t.step.after == s0
    ensures SeenRunning(t, 1) == half.running && AlwaysThere(t, 1) && Smooth(t, 2, None)
  {
    s0 := map[0 := first, 1 := half];
    assert s0[0].name in NamesOf(s0) && s0[1].name in NamesOf(s0);
    var found := Step(Find(half.name), Done, s0, s0, 0);
    var t1 := Then(Nothing, found);
    FirstCall(found);
    FirstInspection(t1, found);
    assert Smooth(Nothing, 2, None) && Smooth(t1, 2, None);
    hide IsRun;
    hide OnlyRenamesAndRemoves;
    hide Opening;
    hide Smooth;
    hide AlwaysThere;
    hide Asked;
    hide NamesOf;
    OneMoreQuietCall(t1, Pull(half.reference), s0, s0, 2, None);
    var t2 := Next(t1, Pull(half.reference), Done, s0, s0);
    OneMoreQuietCall(t2, InspectImage(half.reference), s0, s0, 2, None);
    var t3 := Next(t2, InspectImage(half.reference), Done, s0, s0);
    OneMoreQuietCall(t3, InspectImage(half.image), s0, s0, 2, None);
    var t4 := Next(t3, InspectImage(half.image), Done, s0, s0);
    OneMoreQuietCall(t4, Find(first.name), s0, s0, 2, None);
    t := Next(t4, Find(first.name), Done, s0, s0);
  }

  lemma RemovalAndRename(first: Container, half: Container)
    ensures var s0, s1 := map[0 := first, 1 := half], map[1 := half];
            && Allowed(Step(Remove(0), Done, s0, s1, 0))
            && Allowed(Step(Rename(1, half.name + PREVIOUS_SUFFIX), Done, s1,
                            map[1 := half.(name := half.name + PREVIOUS_SUFFIX)], 0))
  {
    var s0, s1 := map[0 := first, 1 := half], map[1 := half];
    assert |PREVIOUS_SUFFIX| > 0;
    OnlyName(1, half);
    assert s0 - {0} == s1;
    assert s1[1 := half.(name := half.name + PREVIOUS_SUFFIX)] == map[1 := half.(name := half.name + PREVIOUS_SUFFIX)];
  }

  lemma NextIs(t: Trace, call: Call, reply: Reply, before: Containers, after: Containers)
    ensures Next(t, call, reply, before, after) == Then(t, Step(call, reply, before, after, 0))
  {
  }

  /** A command up to its rename, all its calls done: `first` is the leftover, `half` the
      container to update. */
  lemma AsideWithoutTheLeftover(first: Container, half: Container) returns (t: Trace, s: Containers)
    requires first.name == half.name + PREVIOUS_SUFFIX
    ensures IsRun(t) && BeginsAt(t, map[0 := first, 1 := half], half.name) && OnlyRenamesAndRemoves(t)
    ensures t.Then? && t.step.after == s == map[1 := half.(name := half.name + PREVIOUS_SUFFIX)]
    ensures t.step.call == Rename(1, half.name + PREVIOUS_SUFFIX) && t.step.reply == Done
    ensures SeenRunning(t, 1) == half.running && AlwaysThere(t, 1) && Smooth(t, 2, None)
    ensures Asked(t, Remove(0))
  {
    s := map[1 := half.(name := half.name + PREVIOUS_SUFFIX)];
    RemovalAndRename(first, half);
    assert 1 in map[1 := half] && 1 in s;
    hide *;
    var base, s0 := LeftoverFound(first, half);
    var s1 := map[1 := half];
    OneMoreQuietCall(base, Remove(0), s0, s1, 2, None);
    var mid := Next(base, Remove(0), Done, s0, s1);
    NextIs(base, Remove(0), Done, s0, s1);
    OneMoreQuietCall(mid, Rename(1, half.name + PREVIOUS_SUFFIX), s1, s, 2, None);
    t := Next(mid, Rename(1, half.name + PREVIOUS_SUFFIX), Done, s1, s);
    NextIs(mid, Rename(1, half.name + PREVIOUS_SUFFIX), Done, s1, s);
    BeginsAlike(base, t, s0, half.name, 1);
  }

  /** The replacement of a stopped container, which is created and left stopped. */
  lemma StoppedReplacement(base: Trace, s: Containers, born: Container) returns (t: Trace, cut: Trace)
    requires IsRun(base) && OnlyRenamesAndRemoves(base) && AlwaysThere(base, 1) && Smooth(base, 2, None)
    requires base.Then? && base.step.after == s && s.Keys == {1} && !born.running && born.name != s[1].name
    ensures ReplaceSince(cut, base, born, 1, 2) && Replaced(cut, false)
    ensures IsRun(t) && StartsAlone(t, 1, 2) && CrashSafe(t, 1, false) && Smooth(t, 2, None)
    ensures SettledAfter(t, cut, 1, s[1].image, false) && Opening(t) == Opening(base)
    ensures t.Then? && t.step.after == map[2 := born]
  {
    var s1 := map[1 := s[1], 2 := born];
    assert s == map[1 := s[1]] && NamesOf(s) == {s[1].name} && s[2 := born] == s1 && s1 - {1} == map[2 := born];
    QuietTraceIsSafe(base, 1, false, 1, 2);
    OneMoreCall(base, Create(2, born), Done, s, s1, 1, 2);
    cut := Next(base, Create(2, born), Done, s, s1);
    assert CrashSafe(cut, 1, false) && Created(cut, 2) && Replaced(cut, false) && Smooth(cut, 2, None);
    OneMoreCall(cut, Remove(1), Done, s1, map[2 := born], 1, 2);
    t := Next(cut, Remove(1), Done, s1, map[2 := born]);
    assert RemovedOnceReplaced(t, 1, false);
  }

  /** The old container `first`, running or not, and a container `half` that was made to
      replace it and never started, with the same reference and labels.  In the next
      command nothing goes wrong, all that is promised of it holds, and it ends with
      neither of the two: only a newer container is left, and it was never started. */
  lemma NextCommandLosesTheOld(first: Container, half: Container, image: string) returns (t: Trace, cut: Trace)
    requires first.name == half.name + PREVIOUS_SUFFIX && IsOurPrevious(first, half) && !half.running
    ensures IsRun(t) && BeginsAt(t, map[0 := first, 1 := half], half.name)
    ensures StartsAlone(t, 1, 2) && CrashSafe(t, 1, SeenRunning(t, 1)) && Smooth(t, 2, None)
    ensures StaleOf(map[0 := first, 1 := half], Some(0), 1, half.name)
    ensures Attempted(cut, half.name, 1, 2) && Replaced(cut, SeenRunning(t, 1))
    ensures SettledAfter(t, cut, 1, half.image, false) && Asked(t, Remove(0))
    ensures t.Then? && t.step.after == map[2 := half.(image := image)]
  {
    assert |PREVIOUS_SUFFIX| > 0;
    var born := half.(image := image);
    var base, s := AsideWithoutTheLeftover(first, half);
    assert StaleOf(map[0 := first, 1 := half], Some(0), 1, half.name);
    hide *;
    t, cut := StoppedReplacement(base, s, born);
    IsAttempt(cut, base, born, half.name, 1, 2);
    BeginsAlike(base, t, map[0 := first, 1 := half], half.name, 1);
    SettledIsCut(t, cut, 1, half.image);
    ReplaceIsCut(cut, base, born, 1, 2);
    CutOfACut(base, cut, t);
    AskedStays(t, base, Remove(0));
  }

  lemma SettledIsCut(t: Trace, cut: Trace, prev: Id, image: string)
    requires SettledAfter(t, cut, prev, image, false)
    ensures IsCut(cut, t)
  {
    assert IsCut(cut, t.past);
  }
}
