/** The activity-log batcher: pushes, timer flushes, insert completions and shutdown, interleaved. */
module LogBatcher {
  const BATCH_SIZE := 50

  /** timer: a flush is scheduled. inFlight: the batches whose insert has been awaited and not returned. */
  datatype Batcher<T> = Batcher(buffer: seq<T>, timer: bool, locked: bool, inFlight: seq<seq<T>>)

  /** flushBatch up to its await. */
  function Flush<T>(b: Batcher<T>): Batcher<T> {
    if b.locked then b
    else if b.buffer == [] then b.(timer := false)
    else Batcher([], false, true, b.inFlight + [b.buffer])
  }

  /** process up to its await. */
  function Process<T>(b: Batcher<T>, x: T): Batcher<T> {
    var b1 := b.(buffer := b.buffer + [x]);
    if |b1.buffer| >= BATCH_SIZE then Flush(b1.(timer := false))
    else if !b1.locked then b1.(timer := true)
    else b1
  }

  /** The scheduled callback runs. */
  function Fire<T>(b: Batcher<T>): Batcher<T> {
    Flush(b.(timer := false))
  }

  /** The k-th awaited insert returns or throws; either way the lock is released. */
  function Finish<T>(b: Batcher<T>, k: nat): Batcher<T>
    requires k < |b.inFlight|
  {
    b.(locked := false, inFlight := b.inFlight[..k] + b.inFlight[k + 1..])
  }

  /** onModuleDestroy. */
  function Shutdown<T>(b: Batcher<T>): Batcher<T> {
    if |b.buffer| > 0 then Flush(b) else b
  }

  // ---------------------------------------------------------------- Runs

  datatype Event<T> = Pushed(item: T) | TimerFired | InsertDone(k: nat, ok: bool) | Destroyed

  datatype Batch<T> = Batch(items: seq<T>, saved: bool)

  /** The batcher with everything pushed so far, the finished batches in order, and how many of the
      buffered items were pushed while an insert held the lock. */
  datatype Trace<T> = Trace(b: Batcher<T>, pushed: seq<T>, done: seq<Batch<T>>, late: nat)

  function Begin<T>(): Trace<T> {
    Trace(Batcher([], false, false, []), [], [], 0)
  }

  predicate Allowed<T>(t: Trace<T>, e: Event<T>) {
    match e
    case Pushed(_) => true
    case TimerFired => t.b.timer
    case InsertDone(k, _) => k < |t.b.inFlight|
    case Destroyed => true
  }

  function Next<T>(t: Trace<T>, e: Event<T>): Trace<T>
    requires Allowed(t, e)
  {
    match e
    case Pushed(x) =>
      var b := Process(t.b, x);
      Trace(b, t.pushed + [x], t.done, if b.buffer == [] then 0 else if t.b.locked then t.late + 1 else t.late)
    case TimerFired =>
      var b := Fire(t.b);
      t.(b := b, late := if b.buffer == [] then 0 else t.late)
    case InsertDone(k, ok) => t.(b := Finish(t.b, k), done := t.done + [Batch(t.b.inFlight[k], ok)])
    case Destroyed =>
      var b := Shutdown(t.b);
      t.(b := b, late := if b.buffer == [] then 0 else t.late)
  }

  predicate AllowedRun<T>(t: Trace<T>, es: seq<Event<T>>)
    decreases |es|
  {
    es != [] ==> Allowed(t, es[0]) && AllowedRun(Next(t, es[0]), es[1..])
  }

  function Run<T>(t: Trace<T>, es: seq<Event<T>>): Trace<T>
    requires AllowedRun(t, es)
    decreases |es|
  {
    if es == [] then t else Run(Next(t, es[0]), es[1..])
  }

  // ---------------------------------------------------------------- Nothing lost, nothing reordered

  function Concat<T>(bs: seq<seq<T>>): seq<T> {
    if bs == [] then [] else Concat(bs[..|bs| - 1]) + bs[|bs| - 1]
  }

  function AllItems<T>(done: seq<Batch<T>>): seq<T> {
    if done == [] then [] else AllItems(done[..|done| - 1]) + done[|done| - 1].items
  }

  function Saved<T>(done: seq<Batch<T>>): seq<T> {
    if done == [] then []
    else Saved(done[..|done| - 1]) + if done[|done| - 1].saved then done[|done| - 1].items else []
  }

  /** One insert at most, held by the lock; a timer only while unlocked; and the pushed sequence is cut
      into finished batches, the batch in flight and the buffer, in this order. */
  ghost predicate Sound<T>(t: Trace<T>) {
    && |t.b.inFlight| == (if t.b.locked then 1 else 0)
    && (t.b.timer ==> !t.b.locked)
    && t.pushed == AllItems(t.done) + Concat(t.b.inFlight) + t.b.buffer
    && t.late <= |t.b.buffer|
    && (t.b.locked ==> t.late == |t.b.buffer|)
    && (t.b.timer <==> t.late < |t.b.buffer|)
  }

  lemma ConcatOne<T>(batch: seq<T>)
    ensures Concat([batch]) == batch
  {
    assert [batch][..0] == [] && Concat<T>([]) == [];
  }

  /** A flush that goes through moves the whole buffer into flight. */
  lemma FlushKeepsSound<T>(t: Trace<T>)
    requires Sound(t.(b := t.b.(timer := t.late < |t.b.buffer|)))
    ensures var b := Flush(t.b.(timer := false));
            (!t.b.locked ==> Sound(t.(b := b, late := 0)) && b.buffer == [])
  {
    if !t.b.locked && t.b.buffer != [] {
      assert t.b.inFlight == [] && Concat(t.b.inFlight) == [];
      assert Flush(t.b.(timer := false)).inFlight == [t.b.buffer];
      ConcatOne(t.b.buffer);
    }
  }

  lemma PushKeepsSound<T>(t: Trace<T>, x: T)
    requires Sound(t)
    ensures Sound(Next(t, Pushed(x)))
  {
    var buffer := t.b.buffer + [x];
    var late := if t.b.locked then t.late + 1 else t.late;
    var u := t.(b := t.b.(buffer := buffer, timer := late < |buffer|), pushed := t.pushed + [x], late := late);
    assert u.pushed == AllItems(u.done) + Concat(u.b.inFlight) + u.b.buffer;
    if |buffer| >= BATCH_SIZE {
      FlushKeepsSound(u);
    }
  }

  lemma DoneKeepsSound<T>(t: Trace<T>, ok: bool)
    requires Sound(t) && |t.b.inFlight| > 0
    ensures Sound(Next(t, InsertDone(0, ok)))
  {
    var batch, t' := t.b.inFlight[0], Next(t, InsertDone(0, ok));
    assert t.b.inFlight == [batch] && t'.b.inFlight == [];
    ConcatOne(batch);
    AppendDone(t.done, Batch(batch, ok));
    assert Concat<T>([]) == [];
    hide AllItems, Concat;
    assert t'.pushed == AllItems(t'.done) + Concat(t'.b.inFlight) + t'.b.buffer;
  }

  lemma AppendDone<T>(done: seq<Batch<T>>, b: Batch<T>)
    ensures AllItems(done + [b]) == AllItems(done) + b.items
  {
    assert (done + [b])[..|done|] == done;
  }

  lemma NextKeepsSound<T>(t: Trace<T>, e: Event<T>)
    requires Sound(t) && Allowed(t, e)
    ensures Sound(Next(t, e))
  {
    match e {
      case Pushed(x) => PushKeepsSound(t, x);
      case InsertDone(k, ok) => DoneKeepsSound(t, ok);
      case TimerFired => FlushKeepsSound(t);
      case Destroyed =>
        if t.b.buffer != [] {
          FlushKeepsSound(t);
        }
    }
  }

  lemma {:induction false} RunIsSound<T>(t: Trace<T>, es: seq<Event<T>>)
    requires Sound(t) && AllowedRun(t, es)
    ensures Sound(Run(t, es))
    decreases |es|
  {
    if es != [] {
      NextKeepsSound(t, es[0]);
      RunIsSound(Next(t, es[0]), es[1..]);
    }
  }

  /** Under every interleaving two inserts are never in flight together, and the pushed sequence is the
      finished batches (each wholly saved or wholly dropped), the one in flight and the buffer. */
  lemma BatchesPartitionThePushes<T>(es: seq<Event<T>>)
    requires AllowedRun(Begin<T>(), es)
    ensures var t := Run(Begin<T>(), es);
            && |t.b.inFlight| <= 1
            && t.pushed == AllItems(t.done) + Concat(t.b.inFlight) + t.b.buffer
  {
    RunIsSound(Begin<T>(), es);
  }

  predicate NoFailure<T>(done: seq<Batch<T>>) {
    forall i | 0 <= i < |done| :: done[i].saved
  }

  lemma {:induction false} SavedUnlessFailed<T>(done: seq<Batch<T>>)
    requires NoFailure(done)
    ensures Saved(done) == AllItems(done)
  {
    if done != [] {
      SavedUnlessFailed(done[..|done| - 1]);
    }
  }

  lemma NothingLostWithoutFailures<T>(es: seq<Event<T>>)
    requires AllowedRun(Begin<T>(), es) && NoFailure(Run(Begin<T>(), es).done)
    ensures var t := Run(Begin<T>(), es);
            Saved(t.done) + Concat(t.b.inFlight) + t.b.buffer == t.pushed
  {
    RunIsSound(Begin<T>(), es);
    SavedUnlessFailed(Run(Begin<T>(), es).done);
  }

  // ---------------------------------------------------------------- Where the promises stop

  /** Buffered items wait without any scheduled flush exactly when all of them arrived while an insert
      held the lock: nothing flushes them until the next push or shutdown. */
  lemma StrandedExactlyWhen<T>(es: seq<Event<T>>)
    requires AllowedRun(Begin<T>(), es)
    ensures var t := Run(Begin<T>(), es);
            !t.b.locked && t.b.buffer != [] ==> (!t.b.timer <==> t.late == |t.b.buffer|)
  {
    RunIsSound(Begin<T>(), es);
  }

  /** A push while no insert is in flight never leaves its item waiting unscheduled: either the buffer,
      under the batch size, has a timer, or everything buffered has gone into one insert. */
  lemma UnlockedPushIsScheduled<T>(es: seq<Event<T>>, x: T)
    requires AllowedRun(Begin<T>(), es) && !Run(Begin<T>(), es).b.locked
    ensures var b, b' := Run(Begin<T>(), es).b, Process(Run(Begin<T>(), es).b, x);
            if |b.buffer| + 1 < 50 then b' == Batcher(b.buffer + [x], true, false, [])
            else b' == Batcher([], false, true, [b.buffer + [x]])
  {
    RunIsSound(Begin<T>(), es);
  }

  /** It does happen: the timer flushes x, y arrives during the insert, the insert returns. */
  lemma StrandedExample<T>(x: T, y: T)
    ensures var es := [Pushed(x), TimerFired, Pushed(y), InsertDone(0, true)];
            && AllowedRun(Begin<T>(), es)
            && Run(Begin<T>(), es).b == Batcher([y], false, false, [])
  {
    var t0 := Begin<T>();
    var t1 := Next(t0, Pushed(x));
    assert t1.b == Batcher([x], true, false, []);
    var t2 := Next(t1, TimerFired);
    assert t2.b == Batcher([], false, true, [[x]]);
    var t3 := Next(t2, Pushed(y));
    assert t3.b == Batcher([y], false, true, [[x]]);
    var t4 := Next(t3, InsertDone(0, true));
    assert t4.b == Batcher([y], false, false, []);
    var es: seq<Event<T>> := [Pushed(x), TimerFired, Pushed(y), InsertDone(0, true)];
    assert es[1..] == [TimerFired, Pushed(y), InsertDone(0, true)];
    assert es[1..][1..] == [Pushed(y), InsertDone(0, true)];
    assert es[1..][1..][1..] == [InsertDone(0, true)];
    assert es[1..][1..][1..][1..] == [];
    assert AllowedRun(t4, []) && Run(t4, []) == t4;
    assert AllowedRun(t3, [InsertDone(0, true)]) && Run(t3, [InsertDone(0, true)]) == t4;
    assert AllowedRun(t2, [Pushed(y), InsertDone(0, true)]) && Run(t2, [Pushed(y), InsertDone(0, true)]) == t4;
    assert AllowedRun(t1, [TimerFired, Pushed(y), InsertDone(0, true)]);
    assert Run(t1, [TimerFired, Pushed(y), InsertDone(0, true)]) == t4;
  }

  /** Let the one insert in flight, if any, return successfully. */
  function Settled<T>(t: Trace<T>): Trace<T> {
    if |t.b.inFlight| > 0 then Next(t, InsertDone(0, true)) else t
  }

  /** The shutdown hook promises that remaining batches are flushed. It keeps the promise exactly when
      no insert is in flight while items are buffered: otherwise its flush returns at the lock. */
  lemma ShutdownSavesAllExactlyWhen<T>(es: seq<Event<T>>)
    requires AllowedRun(Begin<T>(), es) && NoFailure(Run(Begin<T>(), es).done)
    ensures var t := Run(Begin<T>(), es);
            Saved(Settled(Next(t, Destroyed)).done) == t.pushed <==> !(t.b.locked && t.b.buffer != [])
  {
    RunIsSound(Begin<T>(), es);
    ShutdownLeavesWhatTheLockHeld(Run(Begin<T>(), es));
  }

  lemma ShutdownLeavesWhatTheLockHeld<T>(t: Trace<T>)
    requires Sound(t) && NoFailure(t.done)
    ensures var u := Settled(Next(t, Destroyed));
            && u.pushed == t.pushed == Saved(u.done) + u.b.buffer
            && u.b.buffer == if t.b.locked then t.b.buffer else []
  {
    NextKeepsSound(t, Destroyed);
    SettledIsIdle(Next(t, Destroyed));
    IdleMeansSaved(Settled(Next(t, Destroyed)));
    hide Saved, AllItems, Concat;
  }

  lemma SettledIsIdle<T>(t: Trace<T>)
    requires Sound(t) && NoFailure(t.done)
    ensures var u := Settled(t);
            && Sound(u) && NoFailure(u.done) && !u.b.locked
            && u.pushed == t.pushed && u.b.buffer == t.b.buffer
  {
    if |t.b.inFlight| > 0 {
      DoneKeepsSound(t, true);
    }
    hide Saved, AllItems, Concat;
  }

  lemma IdleMeansSaved<T>(t: Trace<T>)
    requires Sound(t) && NoFailure(t.done) && !t.b.locked
    ensures t.pushed == Saved(t.done) + t.b.buffer
  {
    SavedUnlessFailed(t.done);
    assert t.b.inFlight == [] && Concat<T>([]) == [];
    hide Saved, AllItems, Concat;
    assert AllItems(t.done) + [] == AllItems(t.done);
  }

  // ---------------------------------------------------------------- The processor

  class ActivityLogProcessor<T> {
    var batchBuffer: seq<T>
    var batchTimeout: bool
    var locked: bool
    /** The local batch of every flushBatch call suspended at its await. */
    var inserting: seq<seq<T>>
    /** Everything pushed, the finished batches, and how many buffered items came under the lock. */
    ghost var pushed: seq<T>
    ghost var done: seq<Batch<T>>
    ghost var late: nat

    ghost function Fields(): Batcher<T>
      reads this
    {
      Batcher(batchBuffer, batchTimeout, locked, inserting)
    }

    ghost function View(): Trace<T>
      reads this
    {
      Trace(Fields(), pushed, done, late)
    }

    /** One insert at most, and the pushed items are the finished batches, the batch in flight and the
        buffer, in this order. */
    ghost predicate Valid()
      reads this
    {
      Sound(View())
    }

    constructor ()
      ensures Valid() && pushed == [] && done == []
      ensures View() == Begin<T>()
    {
      batchBuffer, batchTimeout, locked, inserting := [], false, false, [];
      pushed, done, late := [], [], 0;
    }

    /** Also called between a push and the scheduling that restores Valid(). */
    method FlushBatch()
      modifies this`batchBuffer, this`batchTimeout, this`locked, this`inserting
      ensures Fields() == Flush(old(Fields()))
    {
      if locked {
        return;
      }
      locked := true;
      if batchTimeout {
        batchTimeout := false;
      }
      var batch := batchBuffer;
      if |batch| == 0 {
        locked := false;
        return;
      }
      batchBuffer := [];
      inserting := inserting + [batch];
    }

    method ProcessJob(data: T)
      requires Valid()
      modifies this
      ensures Valid() && View() == Next(old(View()), Pushed(data))
      ensures pushed == old(pushed) + [data] && done == old(done)
      ensures !old(locked) ==> batchTimeout || inserting == [old(batchBuffer) + [data]]
    {
      NextKeepsSound(View(), Pushed(data));
      hide Sound;
      pushed := pushed + [data];
      batchBuffer := batchBuffer + [data];
      if |batchBuffer| >= BATCH_SIZE {
        if batchTimeout {
          batchTimeout := false;
        }
        FlushBatch();
      } else if !locked {
        batchTimeout := true;
      }
      late := if batchBuffer == [] then 0 else if old(locked) then late + 1 else late;
      assert old(View()).b.locked || old(inserting) == [] by {
        IdleHasNoInsert(old(View()));
      }
    }

    method TimerFires()
      requires Valid() && batchTimeout
      modifies this
      ensures Valid() && View() == Next(old(View()), TimerFired)
      ensures pushed == old(pushed) && done == old(done)
      ensures batchBuffer == [] && !batchTimeout
    {
      NextKeepsSound(View(), TimerFired);
      assert !locked;
      hide Sound;
      batchTimeout := false;
      FlushBatch();
      late := 0;
    }

    /** The finally block of a flush whose insert has returned, or thrown when ok is false. */
    method InsertFinished(k: nat, ok: bool)
      requires Valid() && k < |inserting|
      modifies this
      ensures Valid() && View() == Next(old(View()), InsertDone(k, ok))
      ensures inserting == [] && batchBuffer == old(batchBuffer)
      ensures pushed == old(pushed) && done == old(done) + [Batch(old(inserting)[k], ok)]
    {
      NextKeepsSound(View(), InsertDone(k, ok));
      assert |inserting| == 1;
      hide Sound;
      done := done + [Batch(inserting[k], ok)];
      inserting := inserting[..k] + inserting[k + 1..];
      locked := false;
    }

    method OnModuleDestroy()
      requires Valid()
      modifies this
      ensures Valid() && View() == Next(old(View()), Destroyed)
      ensures pushed == old(pushed) && done == old(done)
      ensures !old(locked) ==> batchBuffer == []
    {
      NextKeepsSound(View(), Destroyed);
      hide Sound;
      if |batchBuffer| > 0 {
        FlushBatch();
      }
      late := if batchBuffer == [] then 0 else late;
    }
  }

  lemma IdleHasNoInsert<T>(t: Trace<T>)
    requires Sound(t)
    ensures t.b.locked || t.b.inFlight == []
  {
  }
}
