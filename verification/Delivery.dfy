/** The delivery loop of the agent: a bounded buffer, batches taken from its old end,
    put back when a send fails, and evicted, oldest first, when there is no room. */
module Delivery {
  import opened Wrappers

  const MAX_COUNT := 0xFFFF_FFFF_FFFF_FFFF
  const MAX_BATCH_SAMPLES := 10_000
  const MIN_INTERVAL_SECS := 5

  function Min(a: nat, b: nat): nat { if a < b then a else b }

  function Max(a: nat, b: nat): nat { if a < b then b else a }

  function Excess(n: nat, capacity: nat): nat { if n <= capacity then 0 else n - capacity }

  // ------------------------------------------------------------ the buffer as a value

  datatype Buffer<T> = Buffer(samples: seq<T>, dropped: nat)

  /** The newest `capacity` samples; the others are counted, the count sticking at its
      greatest value. */
  function Bound<T>(b: Buffer<T>, capacity: nat): Buffer<T> {
    if |b.samples| <= capacity then b
    else
      var excess := |b.samples| - capacity;
      Buffer(b.samples[excess..], Min(b.dropped + excess, MAX_COUNT))
  }

  function Pushed<T>(b: Buffer<T>, samples: seq<T>, capacity: nat): Buffer<T> {
    Bound(b.(samples := b.samples + samples), capacity)
  }

  function PushedAll<T>(b: Buffer<T>, batches: seq<seq<T>>, capacity: nat): Buffer<T>
    decreases |batches|
  {
    if batches == [] then b else PushedAll(Pushed(b, batches[0], capacity), batches[1..], capacity)
  }

  function Restored<T>(b: Buffer<T>, batch: seq<T>, capacity: nat): Buffer<T> {
    Bound(b.(samples := batch + b.samples), capacity)
  }

  ghost predicate Fits<T>(b: Buffer<T>, capacity: nat) {
    |b.samples| <= capacity && b.dropped <= MAX_COUNT
  }

  function Flat<T>(batches: seq<seq<T>>): seq<T> {
    if batches == [] then [] else batches[0] + Flat(batches[1..])
  }

  /** Evicting on the way or only at the end comes to the same. */
  lemma BoundTwice<T>(b: Buffer<T>, more: seq<T>, capacity: nat)
    requires b.dropped <= MAX_COUNT
    ensures Pushed(Bound(b, capacity), more, capacity) == Bound(b.(samples := b.samples + more), capacity)
  {
    var all := b.samples + more;
    if |b.samples| > capacity {
      var excess := |b.samples| - capacity;
      assert b.samples[excess..] + more == all[excess..];
    }
  }

  lemma {:induction false} PushedAllIsOnePush<T>(b: Buffer<T>, batches: seq<seq<T>>, capacity: nat)
    requires Fits(b, capacity)
    ensures PushedAll(b, batches, capacity) == Pushed(b, Flat(batches), capacity)
    ensures Fits(PushedAll(b, batches, capacity), capacity)
    decreases |batches|
  {
    if batches == [] {
      assert b.samples + [] == b.samples;
    } else {
      PushedAllIsOnePush(Pushed(b, batches[0], capacity), batches[1..], capacity);
      var first := b.(samples := b.samples + batches[0]);
      BoundTwice(first, Flat(batches[1..]), capacity);
      assert b.samples + batches[0] + Flat(batches[1..]) == b.samples + Flat(batches);
    }
  }

  lemma RestoreAfterEviction<T>(taken: seq<T>, rest: seq<T>, dropped: nat, more: seq<T>, capacity: nat)
    requires dropped <= MAX_COUNT
    ensures Restored(Pushed(Buffer(rest, dropped), more, capacity), taken, capacity)
            == Pushed(Buffer(taken + rest, dropped), more, capacity)
  {
    var part, whole := rest + more, taken + rest + more;
    assert taken + part == whole;
    if |part| > capacity {
      var excess := |part| - capacity;
      assert (taken + part[excess..])[|taken|..] == part[excess..] == whole[|whole| - capacity..];
    }
  }

  /** A failed send is invisible: taking a batch, whatever is pushed meanwhile, and
      putting the batch back, leaves the buffer and its count of losses as the pushes
      alone would have, even when they overflow it. */
  lemma FailedSendIsInvisible<T>(b: Buffer<T>, n: nat, batches: seq<seq<T>>, capacity: nat)
    requires Fits(b, capacity) && n <= |b.samples|
    ensures Restored(PushedAll(b.(samples := b.samples[n..]), batches, capacity), b.samples[..n], capacity)
            == PushedAll(b, batches, capacity)
  {
    PushedAllIsOnePush(b.(samples := b.samples[n..]), batches, capacity);
    PushedAllIsOnePush(b, batches, capacity);
    RestoreAfterEviction(b.samples[..n], b.samples[n..], b.dropped, Flat(batches), capacity);
    assert b.samples[..n] + b.samples[n..] == b.samples;
  }

  class PendingBuffer<T> {
    var samples: seq<T>
    const capacity: nat
    var dropped: nat

    ghost predicate Valid()
      reads this
    {
      capacity >= 1 && Fits(Value(), capacity)
    }

    ghost function Value(): Buffer<T>
      reads this
    {
      Buffer(samples, dropped)
    }

    constructor (capacity: nat)
      ensures Valid() && Value() == Buffer([], 0) && this.capacity == Max(capacity, 1)
    {
      this.capacity := Max(capacity, 1);
      samples, dropped := [], 0;
    }

    method Push(more: seq<T>)
      requires Valid()
      modifies this
      ensures Valid() && Value() == Pushed(old(Value()), more, capacity)
    {
      samples := samples + more;
      EnforceCapacity();
    }

    /** The oldest samples, at most `max` of them. */
    method Take(max: nat) returns (batch: seq<T>)
      requires Valid()
      modifies this
      ensures Valid() && dropped == old(dropped)
      ensures |batch| == Min(max, |old(samples)|) && batch + samples == old(samples)
    {
      var count := Min(max, |samples|);
      batch := samples[..count];
      samples := samples[count..];
    }

    method Restore(batch: seq<T>)
      requires Valid()
      modifies this
      ensures Valid() && Value() == Restored(old(Value()), batch, capacity)
    {
      var i := |batch|;
      while i > 0
        invariant 0 <= i <= |batch| && dropped == old(dropped)
        invariant samples == batch[i..] + old(samples)
      {
        i := i - 1;
        assert batch[i..] == [batch[i]] + batch[i + 1..];
        samples := [batch[i]] + samples;
      }
      assert batch[0..] == batch;
      EnforceCapacity();
    }

    method EnforceCapacity()
      requires dropped <= MAX_COUNT && capacity >= 1
      modifies this
      ensures Valid() && Value() == Bound(old(Value()), capacity)
    {
      if |samples| <= capacity {
        return;
      }
      var excess := |samples| - capacity;
      samples := samples[excess..];
      dropped := Min(dropped + excess, MAX_COUNT);
    }
  }

  // ------------------------------------------------------------ what became of each sample

  /** `Lost` happens only when the agent stops. */
  datatype Fate = Acknowledged | Rejected | Dropped | Lost

  function Times(fate: Fate, n: nat): seq<Fate> { seq(n, i => fate) }

  function Count(fates: seq<Fate>, fate: Fate): nat {
    if fates == [] then 0
    else Count(fates[..|fates| - 1], fate) + if fates[|fates| - 1] == fate then 1 else 0
  }

  /** The samples that met that fate, in the order they were collected. */
  function Having<T>(samples: seq<T>, fates: seq<Fate>, fate: Fate): seq<T>
    requires |fates| <= |samples|
    decreases |fates|
  {
    if fates == [] then []
    else
      var n := |fates| - 1;
      Having(samples, fates[..n], fate) + if fates[n] == fate then [samples[n]] else []
  }

  lemma {:induction false} CountMore(fates: seq<Fate>, more: Fate, n: nat, fate: Fate)
    ensures Count(fates + Times(more, n), fate) == Count(fates, fate) + if more == fate then n else 0
  {
    var all := fates + Times(more, n);
    if n == 0 {
      assert all == fates;
    } else {
      assert all[..|all| - 1] == fates + Times(more, n - 1);
      CountMore(fates, more, n - 1, fate);
    }
  }

  lemma {:induction false} HavingMore<T>(samples: seq<T>, fates: seq<Fate>, more: Fate, n: nat, fate: Fate)
    requires |fates| + n <= |samples|
    ensures Having(samples, fates + Times(more, n), fate)
            == Having(samples, fates, fate) + if more == fate then samples[|fates|..|fates| + n] else []
    decreases n
  {
    var all := fates + Times(more, n);
    if n == 0 {
      assert all == fates;
    } else {
      assert all[..|all| - 1] == fates + Times(more, n - 1);
      HavingMore(samples, fates, more, n - 1, fate);
      var a := |fates|;
      assert samples[a..a + n] == samples[a..a + n - 1] + [samples[a + n - 1]];
    }
  }

  lemma {:induction false} HavingFurther<T>(samples: seq<T>, more: seq<T>, fates: seq<Fate>, fate: Fate)
    requires |fates| <= |samples|
    ensures Having(samples + more, fates, fate) == Having(samples, fates, fate)
    decreases |fates|
  {
    if fates != [] {
      HavingFurther(samples, more, fates[..|fates| - 1], fate);
    }
  }

  /** Every decided sample has exactly one fate. */
  lemma {:induction false} FatesAddUp(fates: seq<Fate>)
    ensures Count(fates, Acknowledged) + Count(fates, Rejected) + Count(fates, Dropped) + Count(fates, Lost) == |fates|
  {
    if fates != [] {
      FatesAddUp(fates[..|fates| - 1]);
    }
  }

  // ------------------------------------------------------------ the agent

  datatype PushError = Transport | Unauthorized | Forbidden | Refused(status: nat)

  /** All errors but a refusal of the batch itself are worth another try. */
  predicate Retryable(error: PushError) { !error.Refused? }

  datatype Answer =
    | Ack(intervalSecs: nat, secret: Option<string>)
    | Failure(error: PushError)

  datatype Outcome = Idle | Sent(count: nat) | Failed(error: PushError)

  /** One turn of the loop: the time it starts at, what a collection would give, what
      the server would answer, and the delay of the backoff. */
  datatype Turn<T> = Turn(now: nat, samples: seq<T>, answer: Answer, delay: nat)

  /** All an agent knows, and what became of its samples so far: what it collected,
      the fate of each sample that has one, and what the server acknowledged. */
  datatype Status<T> = Status(
    buffer: Buffer<T>, attempts: nat, interval: nat, secret: Option<string>, nextCollect: nat, nextSend: nat,
    collected: seq<T>, fates: seq<Fate>, received: seq<T>)

  /** The buffer is exactly the samples whose fate is not decided, a suffix of all
      that was ever collected; every earlier one has one fate, the evicted ones are
      counted, and the server holds the acknowledged ones in the order they were
      collected. */
  ghost predicate Sound<T>(a: Status<T>, capacity: nat) {
    && Fits(a.buffer, capacity)
    && |a.fates| <= |a.collected| && a.buffer.samples == a.collected[|a.fates|..]
    && a.buffer.dropped == Min(Count(a.fates, Dropped), MAX_COUNT)
    && a.received == Having(a.collected, a.fates, Acknowledged)
  }

  /** New samples are pending; those they evict are dropped. */
  function AfterCollect<T>(a: Status<T>, samples: seq<T>, capacity: nat): Status<T> {
    a.(buffer := Pushed(a.buffer, samples, capacity),
       collected := a.collected + samples,
       fates := a.fates + Times(Dropped, Excess(|a.buffer.samples| + |samples|, capacity)))
  }

  function BatchSize<T>(a: Status<T>): nat { Min(MAX_BATCH_SAMPLES, |a.buffer.samples|) }

  /** The oldest batch meets its fate. */
  function AfterBatch<T>(a: Status<T>, fate: Fate): Status<T> {
    var n := BatchSize(a);
    a.(buffer := a.buffer.(samples := a.buffer.samples[n..]),
       fates := a.fates + Times(fate, n),
       received := a.received + if fate == Acknowledged then a.buffer.samples[..n] else [])
  }

  predicate WorthRetrying(answer: Answer) { answer.Failure? && Retryable(answer.error) }

  /** A failure that is worth another try leaves the batch where it was. */
  function AfterSend<T>(a: Status<T>, answer: Answer): Status<T> {
    match answer
    case Ack(secs, issued) =>
      AfterBatch(a, Acknowledged).(
        attempts := 0, interval := Max(secs, MIN_INTERVAL_SECS), secret := if issued.Some? then issued else a.secret)
    case Failure(error) =>
      if !Retryable(error) then AfterBatch(a, Rejected)
      else if error == Forbidden then a.(secret := None)
      else a
  }

  /** Collecting goes first; sending waits for its time and for something to send. */
  predicate Collects<T>(a: Status<T>, turn: Turn<T>) { turn.now >= a.nextCollect }

  predicate Sends<T>(a: Status<T>, turn: Turn<T>) {
    !Collects(a, turn) && turn.now >= a.nextSend && |a.buffer.samples| > 0
  }

  function AfterTurn<T>(a: Status<T>, turn: Turn<T>, capacity: nat): Status<T> {
    if Collects(a, turn) then
      AfterCollect(a, turn.samples, capacity).(nextCollect := turn.now + a.interval * 1000)
    else if !Sends(a, turn) then a
    else if WorthRetrying(turn.answer) then
      AfterSend(a, turn.answer).(nextSend := turn.now + turn.delay, attempts := a.attempts + 1)
    else
      AfterSend(a, turn.answer).(nextSend := turn.now)
  }

  function AfterTurns<T>(a: Status<T>, turns: seq<Turn<T>>, capacity: nat): Status<T>
    decreases |turns|
  {
    if turns == [] then a
    else
      var n := |turns| - 1;
      AfterTurn(AfterTurns(a, turns[..n], capacity), turns[n], capacity)
  }

  /** The last send, at the shutdown: an answer that does not come in time loses the
      batch. */
  function AfterLast<T>(a: Status<T>, last: Option<Answer>): Status<T> {
    if |a.buffer.samples| == 0 then a
    else if last.Some? then AfterSend(a, last.value)
    else AfterBatch(a, Lost)
  }

  /** The agent is gone, and its memory with it. */
  function AfterEnd<T>(a: Status<T>): Status<T> {
    a.(buffer := a.buffer.(samples := []), fates := a.fates + Times(Lost, |a.buffer.samples|))
  }

  // ------------------------------------------------------------ what one turn does

  /** A turn in which a batch is due and the server takes it: the oldest samples, as many
      as a batch holds, are with the server, and the next send is due at once. */
  lemma DueBatchIsDelivered<T>(a: Status<T>, turn: Turn<T>, capacity: nat)
    requires a.nextSend <= turn.now < a.nextCollect && a.buffer.samples != [] && turn.answer.Ack?
    ensures var b, n := AfterTurn(a, turn, capacity), Min(10_000, |a.buffer.samples|);
            && b.received == a.received + a.buffer.samples[..n] && b.buffer.samples == a.buffer.samples[n..]
            && b.nextSend == turn.now && b.nextCollect == a.nextCollect && b.attempts == 0
            && b.interval == Max(turn.answer.intervalSecs, 5)
            && (turn.answer.secret.Some? ==> b.secret == turn.answer.secret)
            && (turn.answer.secret.None? ==> b.secret == a.secret)
  {
  }

  /** A batch that the server refuses is given up, and the next send is due at once. */
  lemma RefusedBatchIsGivenUp<T>(a: Status<T>, turn: Turn<T>, capacity: nat)
    requires a.nextSend <= turn.now < a.nextCollect && a.buffer.samples != []
    requires turn.answer.Failure? && turn.answer.error.Refused?
    ensures var b, n := AfterTurn(a, turn, capacity), Min(10_000, |a.buffer.samples|);
            && b.received == a.received && b.buffer.samples == a.buffer.samples[n..]
            && b.nextSend == turn.now && b.nextCollect == a.nextCollect && b.attempts == a.attempts
            && b.interval == a.interval && b.secret == a.secret
  {
  }

  /** After any other failure the batch is pending again, and nothing is sent before the
      delay is over; to be forbidden costs the secret. */
  lemma FailedBatchWaits<T>(a: Status<T>, turn: Turn<T>, capacity: nat)
    requires a.nextSend <= turn.now < a.nextCollect && a.buffer.samples != []
    requires turn.answer.Failure? && !turn.answer.error.Refused?
    ensures AfterTurn(a, turn, capacity)
            == a.(nextSend := turn.now + turn.delay, attempts := a.attempts + 1,
                  secret := if turn.answer.error == Forbidden then None else a.secret)
  {
  }

  /** A collection is followed by the next one an interval later, and changes nothing
      about when to send; what it has no room for is the oldest. */
  lemma CollectionIsPeriodic<T>(a: Status<T>, turn: Turn<T>, capacity: nat)
    requires turn.now >= a.nextCollect
    ensures var b, all := AfterTurn(a, turn, capacity), a.buffer.samples + turn.samples;
            && b.nextCollect == turn.now + a.interval * 1000
            && b.nextSend == a.nextSend && b.attempts == a.attempts && b.interval == a.interval
            && b.secret == a.secret && b.received == a.received && b.collected == a.collected + turn.samples
            && |b.buffer.samples| == Min(|all|, capacity) && b.buffer.samples == all[|all| - |b.buffer.samples|..]
  {
  }

  lemma NothingDue<T>(a: Status<T>, turn: Turn<T>, capacity: nat)
    requires turn.now < a.nextCollect && (turn.now < a.nextSend || a.buffer.samples == [])
    ensures AfterTurn(a, turn, capacity) == a
  {
  }

  /** The last send: an acknowledged batch is with the server all the same. */
  lemma LastBatchIsDelivered<T>(a: Status<T>, last: Answer)
    requires last.Ack?
    ensures var b, n := AfterLast(a, Some(last)), Min(10_000, |a.buffer.samples|);
            b.received == a.received + a.buffer.samples[..n] && b.buffer.samples == a.buffer.samples[n..]
  {
    assert a.buffer.samples == [] ==> a.buffer.samples[..0] == [] && a.buffer.samples[0..] == [];
  }

  // ------------------------------------------------------------ a backlog, an outage

  /** Between two collections, with every batch acknowledged. */
  ghost predicate Answered<T>(a: Status<T>, turns: seq<Turn<T>>) {
    && (forall i | 0 <= i < |turns| :: a.nextSend <= turns[i].now < a.nextCollect && turns[i].answer.Ack?)
    && forall i, j | 0 <= i < j < |turns| :: turns[i].now <= turns[j].now
  }

  lemma TakenTwice<T>(samples: seq<T>, done: nat, n: nat)
    requires done + n <= |samples|
    ensures samples[..done] + samples[done..][..n] == samples[..done + n]
    ensures samples[done..][n..] == samples[done + n..]
  {
  }

  /** The `done` oldest of the samples pending in `a` have reached the server since. */
  ghost predicate Delivered<T>(a: Status<T>, b: Status<T>, done: nat) {
    && done <= |a.buffer.samples|
    && b.buffer.samples == a.buffer.samples[done..] && b.received == a.received + a.buffer.samples[..done]
  }

  lemma OneBatchMore<T>(a: Status<T>, b: Status<T>, turn: Turn<T>, done: nat, capacity: nat)
    requires Delivered(a, b, done) && b.nextSend <= turn.now < b.nextCollect && turn.answer.Ack?
    ensures Delivered(a, AfterTurn(b, turn, capacity), Min(done + 10_000, |a.buffer.samples|))
    ensures AfterTurn(b, turn, capacity).nextSend <= turn.now
    ensures AfterTurn(b, turn, capacity).nextCollect == b.nextCollect
  {
    var n := Min(10_000, |b.buffer.samples|);
    TakenTwice(a.buffer.samples, done, n);
    if b.buffer.samples == [] {
      NothingDue(b, turn, capacity);
    } else {
      DueBatchIsDelivered(b, turn, capacity);
      assert b.received + b.buffer.samples[..n]
          == a.received + (a.buffer.samples[..done] + a.buffer.samples[done..][..n]);
    }
    hide AfterTurn;
  }

  /** A backlog is sent batch after batch: with each turn as many samples as a batch
      holds, oldest first, until nothing is pending. */
  lemma {:induction false} BacklogEmpties<T>(a: Status<T>, turns: seq<Turn<T>>, capacity: nat)
    requires Answered(a, turns)
    ensures Delivered(a, AfterTurns(a, turns, capacity), Min(10_000 * |turns|, |a.buffer.samples|))
    ensures AfterTurns(a, turns, capacity).nextCollect == a.nextCollect
    ensures AfterTurns(a, turns, capacity).nextSend <= if turns == [] then a.nextSend else turns[|turns| - 1].now
    decreases |turns|
  {
    if turns == [] {
      assert a.buffer.samples[0..] == a.buffer.samples && a.buffer.samples[..0] == [];
    } else {
      hide AfterTurn;
      hide Delivered;
      var n := |turns| - 1;
      BacklogEmpties(a, turns[..n], capacity);
      OneBatchMore(a, AfterTurns(a, turns[..n], capacity), turns[n], Min(10_000 * n, |a.buffer.samples|), capacity);
    }
  }

  /** As long as the delay after a failure runs, nothing is sent, however much is
      collected meanwhile. */
  lemma {:induction false} DelayIsRespected<T>(a: Status<T>, turns: seq<Turn<T>>, capacity: nat)
    requires forall i | 0 <= i < |turns| :: turns[i].now < a.nextSend
    ensures var b := AfterTurns(a, turns, capacity);
            && b.received == a.received && b.nextSend == a.nextSend && b.attempts == a.attempts
            && b.secret == a.secret && b.interval == a.interval
            && forall k | |a.fates| <= k < |b.fates| :: b.fates[k] == Dropped
    ensures a.fates <= AfterTurns(a, turns, capacity).fates
    decreases |turns|
  {
    hide AfterTurn;
    if turns != [] {
      var n := |turns| - 1;
      DelayIsRespected(a, turns[..n], capacity);
      var b := AfterTurns(a, turns[..n], capacity);
      OneTurnDecides(b, turns[n], capacity);
      if turns[n].now >= b.nextCollect {
        CollectionIsPeriodic(b, turns[n], capacity);
      } else {
        NothingDue(b, turns[n], capacity);
      }
    }
  }

  // ------------------------------------------------------------ what every run keeps

  lemma Suffixes<T>(all: seq<T>, k: nat, n: nat)
    requires k + n <= |all|
    ensures all[k..][..n] == all[k..k + n] && all[k..][n..] == all[k + n..]
  {
  }

  lemma PushedIsSuffix<T>(b: Buffer<T>, collected: seq<T>, k: nat, samples: seq<T>, capacity: nat)
    requires k <= |collected| && b.samples == collected[k..]
    ensures var excess := Excess(|b.samples| + |samples|, capacity);
            Pushed(b, samples, capacity).samples == (collected + samples)[k + excess..]
  {
    var all := collected + samples;
    assert b.samples + samples == all[k..];
    Suffixes(all, k, Excess(|b.samples| + |samples|, capacity));
  }

  lemma CollectIsSound<T>(a: Status<T>, samples: seq<T>, capacity: nat)
    requires Sound(a, capacity)
    ensures Sound(AfterCollect(a, samples, capacity), capacity)
  {
    hide Count;
    hide Having;
    var excess := Excess(|a.buffer.samples| + |samples|, capacity);
    HavingFurther(a.collected, samples, a.fates, Acknowledged);
    HavingMore(a.collected + samples, a.fates, Dropped, excess, Acknowledged);
    CountMore(a.fates, Dropped, excess, Dropped);
    PushedIsSuffix(a.buffer, a.collected, |a.fates|, samples, capacity);
  }

  lemma BatchIsSound<T>(a: Status<T>, fate: Fate, capacity: nat)
    requires Sound(a, capacity) && fate != Dropped
    ensures Sound(AfterBatch(a, fate), capacity)
  {
    var n := BatchSize(a);
    HavingMore(a.collected, a.fates, fate, n, Acknowledged);
    CountMore(a.fates, fate, n, Dropped);
    Suffixes(a.collected, |a.fates|, n);
  }

  lemma TurnIsSound<T>(a: Status<T>, turn: Turn<T>, capacity: nat)
    requires Sound(a, capacity)
    ensures Sound(AfterTurn(a, turn, capacity), capacity)
  {
    CollectIsSound(a, turn.samples, capacity);
    BatchIsSound(a, Acknowledged, capacity);
    BatchIsSound(a, Rejected, capacity);
  }

  /** Whatever the turns and the answers, nothing goes missing: after every run, and
      so at every point of it, the agent is sound. */
  lemma {:induction false} TurnsAreSound<T>(a: Status<T>, turns: seq<Turn<T>>, capacity: nat)
    requires Sound(a, capacity)
    ensures Sound(AfterTurns(a, turns, capacity), capacity)
    decreases |turns|
  {
    if turns != [] {
      var n := |turns| - 1;
      TurnsAreSound(a, turns[..n], capacity);
      TurnIsSound(AfterTurns(a, turns[..n], capacity), turns[n], capacity);
    }
  }

  lemma LastIsSound<T>(a: Status<T>, last: Option<Answer>, capacity: nat)
    requires Sound(a, capacity)
    ensures Sound(AfterLast(a, last), capacity)
  {
    BatchIsSound(a, Acknowledged, capacity);
    BatchIsSound(a, Rejected, capacity);
    BatchIsSound(a, Lost, capacity);
  }

  /** A sample meets this fate in this turn only: acknowledged and refused ones were in
      the batch of a turn that sent and got that answer, dropped ones were evicted by a
      turn that collected more than there was room for, and no turn loses any. */
  predicate Decides<T>(a: Status<T>, turn: Turn<T>, fate: Fate, capacity: nat) {
    match fate
    case Acknowledged => Sends(a, turn) && turn.answer.Ack?
    case Rejected => Sends(a, turn) && turn.answer.Failure? && !Retryable(turn.answer.error)
    case Dropped => Collects(a, turn) && |a.buffer.samples| + |turn.samples| > capacity
    case Lost => false
  }

  /** Turn `i` of the run decided the fate of the `k`-th sample ever collected. */
  ghost predicate DecidedAt<T>(a: Status<T>, turns: seq<Turn<T>>, i: nat, k: nat, fate: Fate, capacity: nat)
    requires i < |turns|
  {
    var before := AfterTurns(a, turns[..i], capacity);
    && |before.fates| <= k < |AfterTurn(before, turns[i], capacity).fates|
    && Decides(before, turns[i], fate, capacity)
  }

  lemma OneTurnDecides<T>(a: Status<T>, turn: Turn<T>, capacity: nat)
    ensures var fates := AfterTurn(a, turn, capacity).fates;
            a.fates <= fates && forall k | |a.fates| <= k < |fates| :: Decides(a, turn, fates[k], capacity)
    ensures AfterTurn(a, turn, capacity).collected == a.collected + if Collects(a, turn) then turn.samples else []
  {
  }

  /** Every fate has its turn. */
  lemma {:induction false} EveryFateHasItsTurn<T>(a: Status<T>, turns: seq<Turn<T>>, k: nat, capacity: nat)
    requires |a.fates| <= k < |AfterTurns(a, turns, capacity).fates|
    ensures exists i: nat :: i < |turns| && DecidedAt(a, turns, i, k, AfterTurns(a, turns, capacity).fates[k], capacity)
    decreases |turns|
  {
    hide AfterTurn;
    hide Decides;
    var n := |turns| - 1;
    var before := AfterTurns(a, turns[..n], capacity);
    OneTurnDecides(before, turns[n], capacity);
    if k < |before.fates| {
      EveryFateHasItsTurn(a, turns[..n], k, capacity);
      var i: nat :| i < n && DecidedAt(a, turns[..n], i, k, before.fates[k], capacity);
      assert turns[..n][..i] == turns[..i];
      assert DecidedAt(a, turns, i, k, before.fates[k], capacity);
    } else {
      assert DecidedAt(a, turns, n, k, AfterTurns(a, turns, capacity).fates[k], capacity);
    }
  }

  /** The samples of the turns that collect. */
  function Measured<T>(a: Status<T>, turns: seq<Turn<T>>, capacity: nat): seq<T>
    decreases |turns|
  {
    if turns == [] then []
    else
      var n := |turns| - 1;
      Measured(a, turns[..n], capacity)
      + if Collects(AfterTurns(a, turns[..n], capacity), turns[n]) then turns[n].samples else []
  }

  /** What a run adds to what was collected is what its collecting turns measured. */
  lemma {:induction false} CollectedIsMeasured<T>(a: Status<T>, turns: seq<Turn<T>>, capacity: nat)
    ensures AfterTurns(a, turns, capacity).collected == a.collected + Measured(a, turns, capacity)
    decreases |turns|
  {
    hide AfterTurn;
    if turns != [] {
      var n := |turns| - 1;
      CollectedIsMeasured(a, turns[..n], capacity);
      OneTurnDecides(AfterTurns(a, turns[..n], capacity), turns[n], capacity);
    }
  }

  lemma {:induction false} AllAcknowledged<T>(samples: seq<T>, fates: seq<Fate>)
    requires |fates| <= |samples| && forall k | 0 <= k < |fates| :: fates[k] == Acknowledged
    ensures Having(samples, fates, Acknowledged) == samples[..|fates|]
    decreases |fates|
  {
    if fates != [] {
      AllAcknowledged(samples, fates[..|fates| - 1]);
    }
  }

  /** However often sending fails, and with however many turns it takes: if the server
      refuses no batch and the buffer never overflows, then what the server holds and
      what is pending are, together and in order, exactly what was measured. */
  lemma OutagesLoseNothing<T>(a: Status<T>, turns: seq<Turn<T>>, capacity: nat)
    requires Sound(a, capacity) && a.collected == []
    requires forall i | 0 <= i < |turns| :: turns[i].answer.Ack? || Retryable(turns[i].answer.error)
    requires Dropped !in AfterTurns(a, turns, capacity).fates
    ensures var b := AfterTurns(a, turns, capacity);
            b.received + b.buffer.samples == Measured(a, turns, capacity)
  {
    hide AfterTurns;
    hide Measured;
    var b := AfterTurns(a, turns, capacity);
    TurnsAreSound(a, turns, capacity);
    CollectedIsMeasured(a, turns, capacity);
    forall k | 0 <= k < |b.fates| ensures b.fates[k] == Acknowledged {
      EveryFateHasItsTurn(a, turns, k, capacity);
      assert b.fates[k] in b.fates;
    }
    AllAcknowledged(b.collected, b.fates);
  }

  lemma EndIsSound<T>(a: Status<T>, capacity: nat)
    requires Sound(a, capacity)
    ensures Sound(AfterEnd(a), capacity) && |AfterEnd(a).fates| == |a.collected|
  {
    var n := |a.buffer.samples|;
    HavingMore(a.collected, a.fates, Lost, n, Acknowledged);
    CountMore(a.fates, Lost, n, Dropped);
  }

  /** How many samples go down with the agent: all but the last batch, if that was
      settled, and everything if it was not. */
  function Wrecked<T>(before: Status<T>, last: Option<Answer>): nat {
    if last.Some? && !WorthRetrying(last.value) then |before.buffer.samples| - BatchSize(before)
    else |before.buffer.samples|
  }

  /** What a whole run, shutdown included, makes of its samples: each is acknowledged,
      refused, dropped and counted, or lost without being counted.  None is lost if and
      only if nothing is pending at the shutdown, or no more than a batch and the last
      send is acknowledged or refused. */
  lemma RunAddsUp<T>(a: Status<T>, turns: seq<Turn<T>>, last: Option<Answer>, capacity: nat)
    requires Sound(a, capacity) && Lost !in a.fates
    ensures var before := AfterTurns(a, turns, capacity);
            var b := AfterEnd(AfterLast(before, last));
            && Count(b.fates, Acknowledged) + Count(b.fates, Rejected) + Count(b.fates, Dropped)
               + Count(b.fates, Lost) == |b.collected|
            && b.collected == a.collected + Measured(a, turns, capacity)
            && Count(b.fates, Lost) == Wrecked(before, last)
            && (Lost !in b.fates <==>
                  before.buffer.samples == []
                  || (|before.buffer.samples| <= MAX_BATCH_SAMPLES && last.Some? && !WorthRetrying(last.value)))
  {
    var before := AfterTurns(a, turns, capacity);
    var c := AfterLast(before, last);
    var b := AfterEnd(c);
    TurnsAreSound(a, turns, capacity);
    LastIsSound(before, last, capacity);
    EndIsSound(c, capacity);
    FatesAddUp(b.fates);
    CollectedIsMeasured(a, turns, capacity);
    NoTurnLoses(a, turns, capacity);
    NoneLost(before.fates);
    LastLoses(before, last);
    CountMore(c.fates, Lost, |c.buffer.samples|, Lost);
    NoneLost(b.fates);
  }

  lemma LastLoses<T>(a: Status<T>, last: Option<Answer>)
    requires Count(a.fates, Lost) == 0
    ensures var b := AfterLast(a, last);
            b.collected == a.collected && Count(b.fates, Lost) + |b.buffer.samples| == Wrecked(a, last)
  {
    CountMore(a.fates, Lost, BatchSize(a), Lost);
    CountMore(a.fates, Acknowledged, BatchSize(a), Lost);
    CountMore(a.fates, Rejected, BatchSize(a), Lost);
  }

  lemma {:induction false} NoTurnLoses<T>(a: Status<T>, turns: seq<Turn<T>>, capacity: nat)
    requires Lost !in a.fates
    ensures a.fates <= AfterTurns(a, turns, capacity).fates && Lost !in AfterTurns(a, turns, capacity).fates
    decreases |turns|
  {
    hide AfterTurn;
    if turns != [] {
      var n := |turns| - 1;
      NoTurnLoses(a, turns[..n], capacity);
      OneTurnDecides(AfterTurns(a, turns[..n], capacity), turns[n], capacity);
    }
  }

  lemma {:induction false} NoneLost(fates: seq<Fate>)
    ensures Count(fates, Lost) == 0 <==> Lost !in fates
  {
    if fates != [] {
      NoneLost(fates[..|fates| - 1]);
    }
  }

  class Agent<T> {
    const buffer: PendingBuffer<T>
    var attempts: nat
    var interval: nat
    var secret: Option<string>
    var nextCollect: nat
    var nextSend: nat
    ghost var collected: seq<T>
    ghost var fates: seq<Fate>
    ghost var received: seq<T>

    ghost predicate Valid()
      reads this, buffer
    {
      buffer.Valid() && Sound(Value(), buffer.capacity)
    }

    ghost function Value(): Status<T>
      reads this, buffer
    {
      Status(buffer.Value(), attempts, interval, secret, nextCollect, nextSend, collected, fates, received)
    }

    constructor (capacity: nat, interval: nat, secret: Option<string>, now: nat)
      ensures Valid() && fresh(buffer) && buffer.capacity == Max(capacity, 1)
      ensures Value() == Status(Buffer([], 0), 0, interval, secret, now, now, [], [], [])
    {
      var empty := new PendingBuffer<T>(capacity);
      this.buffer := empty;
      this.attempts, this.interval, this.secret := 0, interval, secret;
      nextCollect, nextSend := now, now;
      collected, fates, received := [], [], [];
    }

    method Collect(samples: seq<T>)
      requires Valid()
      modifies this`collected, this`fates, buffer
      ensures Valid() && Value() == AfterCollect(old(Value()), samples, buffer.capacity)
    {
      CollectIsSound(Value(), samples, buffer.capacity);
      fates := fates + Times(Dropped, Excess(|buffer.samples| + |samples|, buffer.capacity));
      collected := collected + samples;
      buffer.Push(samples);
    }

    /** The samples just taken meet their fate. */
    ghost method Decide(fate: Fate, batch: seq<T>)
      modifies this`fates, this`received
      ensures fates == old(fates) + Times(fate, |batch|)
      ensures received == old(received) + if fate == Acknowledged then batch else []
    {
      fates := fates + Times(fate, |batch|);
      if fate == Acknowledged {
        received := received + batch;
      }
    }

    method Flush(answer: Answer) returns (outcome: Outcome)
      requires Valid()
      modifies this`attempts, this`interval, this`secret, this`fates, this`received, buffer
      ensures Valid()
      ensures Value() == if old(buffer.samples) == [] then old(Value()) else AfterSend(old(Value()), answer)
      ensures outcome == if old(buffer.samples) == [] then Idle
                         else if WorthRetrying(answer) then Failed(answer.error)
                         else Sent(BatchSize(old(Value())))
    {
      BatchIsSound(Value(), Acknowledged, buffer.capacity);
      BatchIsSound(Value(), Rejected, buffer.capacity);
      var batch := buffer.Take(MAX_BATCH_SAMPLES);
      if batch == [] {
        return Idle;
      }
      match answer
      case Ack(secs, issued) =>
        Decide(Acknowledged, batch);
        attempts := 0;
        if issued.Some? {
          secret := issued;
        }
        interval := Max(secs, MIN_INTERVAL_SECS);
        return Sent(|batch|);
      case Failure(error) =>
        if Retryable(error) {
          buffer.Restore(batch);
          if error == Forbidden {
            secret := None;
          }
          return Failed(error);
        }
        Decide(Rejected, batch);
        return Sent(|batch|);
    }

    method TakeTurn(turn: Turn<T>)
      requires Valid()
      modifies this, buffer
      ensures Valid() && Value() == AfterTurn(old(Value()), turn, buffer.capacity)
      ensures old(nextSend) <= turn.now < old(nextCollect) && old(buffer.samples) != [] && turn.answer.Ack? ==>
        var n := Min(10_000, |old(buffer.samples)|);
        && received == old(received) + old(buffer.samples)[..n] && buffer.samples == old(buffer.samples)[n..]
        && nextSend == turn.now && nextCollect == old(nextCollect)
      ensures turn.now >= old(nextCollect) ==>
        && collected == old(collected) + turn.samples && received == old(received)
        && nextCollect == turn.now + old(interval) * 1000 && nextSend == old(nextSend)
    {
      if turn.now >= nextCollect {
        CollectionIsPeriodic(Value(), turn, buffer.capacity);
      } else if turn.now >= nextSend && buffer.samples != [] && turn.answer.Ack? {
        DueBatchIsDelivered(Value(), turn, buffer.capacity);
      }
      TurnIsSound(Value(), turn, buffer.capacity);
      hide Sound;
      if turn.now >= nextCollect {
        Collect(turn.samples);
        nextCollect := turn.now + interval * 1000;
      } else if turn.now >= nextSend && buffer.samples != [] {
        var outcome := Flush(turn.answer);
        if outcome.Failed? {
          nextSend := turn.now + turn.delay;
          attempts := attempts + 1;
        } else {
          nextSend := turn.now;
        }
      }
    }

    /** The last send, cut short if the server does not answer in time. */
    method FinalFlush(answer: Option<Answer>)
      requires Valid()
      modifies this, buffer
      ensures Valid() && Value() == AfterLast(old(Value()), answer)
    {
      if buffer.samples == [] {
        return;
      }
      match answer
      case Some(answered) => var outcome := Flush(answered);
      case None =>
        BatchIsSound(Value(), Lost, buffer.capacity);
        var batch := buffer.Take(MAX_BATCH_SAMPLES);
        Decide(Lost, batch);
    }

    /** A whole run: any turns, any answers, then the shutdown, which ends the agent: what
        the last send leaves in its buffer is lost without being counted. */
    method Run(turns: seq<Turn<T>>, last: Option<Answer>)
      requires Valid() && Lost !in fates
      modifies this, buffer
      ensures Valid()
      ensures Value() == AfterEnd(AfterLast(AfterTurns(old(Value()), turns, buffer.capacity), last))
      ensures collected == old(collected) + Measured(old(Value()), turns, buffer.capacity)
      ensures Count(fates, Acknowledged) + Count(fates, Rejected) + Count(fates, Dropped) + Count(fates, Lost)
              == |collected|
      ensures var pending := AfterTurns(old(Value()), turns, buffer.capacity).buffer.samples;
              Lost !in fates <==>
              pending == [] || (|pending| <= MAX_BATCH_SAMPLES && last.Some? && !WorthRetrying(last.value))
    {
      hide AfterTurn;
      hide AfterLast;
      hide Measured;
      hide Sound;
      hide Count;
      hide WorthRetrying;
      for i := 0 to |turns|
        invariant Valid() && Value() == AfterTurns(old(Value()), turns[..i], buffer.capacity)
      {
        assert turns[..i + 1][..i] == turns[..i];
        TakeTurn(turns[i]);
      }
      assert turns[..|turns|] == turns;
      FinalFlush(last);
      EndIsSound(Value(), buffer.capacity);
      var wrecked := buffer.Take(|buffer.samples|);
      Decide(Lost, wrecked);
      assert Value() == AfterEnd(AfterLast(AfterTurns(old(Value()), turns, buffer.capacity), last));
      RunAddsUp(old(Value()), turns, last, buffer.capacity);
    }
  }
}
