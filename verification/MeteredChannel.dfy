/**
 * The metered channel: a bounded queue whose gauge is updated beside it, never together with it.
 *
 * Every send, reservation and receipt is a task that touches the queue, the slots and the gauge in separate
 * steps, and the steps of different tasks interleave freely.
 */
module MeteredChannel {
  import opened Prelude

  /**
   * Where a task of the sending side stands.
   *   send:    Sending, Acquired (slot taken), Pushed (item queued, gauge not yet raised), Finished
   *   reserve: Reserving, Reserved (slot taken, gauge not yet raised), Holding (a permit), then either
   *            Finished by sending, or Releasing (gauge lowered, slot not yet returned) and Finished
   */
  datatype Phase = Sending | Acquired | Pushed | Reserving | Reserved | Holding | Releasing | Finished

  /** Where the receiver stands with the item it is taking out: popped, slot returned, gauge lowered. */
  datatype Receiving<T> = Idle | Popped(item: T) | Freed(item: T) | Lowered(item: T)

  /**
   * `sent`, `received` and `lost` record every item queued, taken out, and discarded with the receiver.
   */
  datatype Channel<T> = Channel(
    capacity: nat,
    free: nat,
    queue: seq<T>,
    gauge: int,
    total: Option<nat>,
    closed: bool,
    alive: bool,
    receiving: Receiving<T>,
    tasks: seq<Phase>,
    sent: seq<T>,
    received: seq<T>,
    lost: seq<T>)

  function NewChannel<T>(capacity: nat, counted: bool): Channel<T> {
    Channel(capacity, capacity, [], 0, if counted then Some(0) else None, false, true, Idle, [], [], [], [])
  }

  datatype Step<T> =
    | CallSend
    | CallReserve
    | Acquire(i: nat)
    | Refuse(i: nat)
    | Push(i: nat, item: T)
    | RaiseForSend(i: nat)
    | RaiseForPermit(i: nat)
    | SendPermit(i: nat, item: T)
    | LowerForPermit(i: nat)
    | ReleasePermit(i: nat)
    | Pop
    | Free
    | LowerForReceive
    | CountTotal
    | Close
    | DropReceiver

  predicate At<T>(s: Channel<T>, i: nat, phase: Phase) {
    i < |s.tasks| && s.tasks[i] == phase
  }

  predicate Waiting<T>(s: Channel<T>, i: nat) {
    At(s, i, Sending) || At(s, i, Reserving)
  }

  /** A closed channel gives out no slots, but permits given out before can still be used. */
  predicate Enabled<T>(s: Channel<T>, step: Step<T>) {
    match step
    case CallSend => true
    case CallReserve => true
    case Acquire(i) => Waiting(s, i) && !s.closed && s.free > 0
    case Refuse(i) => Waiting(s, i)
    case Push(i, _) => At(s, i, Acquired)
    case RaiseForSend(i) => At(s, i, Pushed)
    case RaiseForPermit(i) => At(s, i, Reserved)
    case SendPermit(i, _) => At(s, i, Holding)
    case LowerForPermit(i) => At(s, i, Holding)
    case ReleasePermit(i) => At(s, i, Releasing)
    case Pop => s.alive && s.receiving.Idle? && s.queue != []
    case Free => s.receiving.Popped?
    case LowerForReceive => s.receiving.Freed?
    case CountTotal => s.receiving.Lowered?
    case Close => s.alive
    case DropReceiver => s.alive && s.receiving.Idle?
  }

  function Apply<T>(s: Channel<T>, step: Step<T>): Channel<T>
    requires Enabled(s, step)
  {
    match step
    case CallSend => s.(tasks := s.tasks + [Sending])
    case CallReserve => s.(tasks := s.tasks + [Reserving])
    case Acquire(i) =>
      s.(free := s.free - 1, tasks := s.tasks[i := if s.tasks[i] == Sending then Acquired else Reserved])
    case Refuse(i) => s.(tasks := s.tasks[i := Finished])
    case Push(i, item) => s.(queue := s.queue + [item], sent := s.sent + [item], tasks := s.tasks[i := Pushed])
    case RaiseForSend(i) => s.(gauge := s.gauge + 1, tasks := s.tasks[i := Finished])
    case RaiseForPermit(i) => s.(gauge := s.gauge + 1, tasks := s.tasks[i := Holding])
    case SendPermit(i, item) => s.(queue := s.queue + [item], sent := s.sent + [item], tasks := s.tasks[i := Finished])
    case LowerForPermit(i) => s.(gauge := s.gauge - 1, tasks := s.tasks[i := Releasing])
    case ReleasePermit(i) => s.(free := s.free + 1, tasks := s.tasks[i := Finished])
    case Pop => s.(queue := s.queue[1..], received := s.received + [s.queue[0]], receiving := Popped(s.queue[0]))
    case Free => s.(free := s.free + 1, receiving := Freed(s.receiving.item))
    case LowerForReceive => s.(gauge := s.gauge - 1, receiving := Lowered(s.receiving.item))
    case CountTotal =>
      s.(total := match s.total case None => None case Some(n) => Some(n + 1), receiving := Idle)
    case Close => s.(closed := true)
    case DropReceiver =>
      s.(closed := true, alive := false, free := s.free + |s.queue|, lost := s.lost + s.queue, queue := [])
  }

  function Run<T>(s: Channel<T>, steps: seq<Step<T>>): Option<Channel<T>>
    decreases steps
  {
    if steps == [] then Some(s)
    else if Enabled(s, steps[0]) then Run(Apply(s, steps[0]), steps[1..])
    else None
  }

  // --- The invariant ---

  ghost function Count(tasks: seq<Phase>, phase: Phase): nat {
    if tasks == [] then 0 else Count(tasks[..|tasks| - 1], phase) + if tasks[|tasks| - 1] == phase then 1 else 0
  }

  /** Moving task `i` takes one from the count of its old phase and gives one to its new phase. */
  ghost predicate Moves(tasks: seq<Phase>, i: nat, to: Phase, phase: Phase)
    requires i < |tasks|
  {
    Count(tasks[i := to], phase) == Count(tasks, phase) - (if tasks[i] == phase then 1 else 0) + if to == phase then 1 else 0
  }

  lemma {:induction false} CountUpdate(tasks: seq<Phase>, i: nat, to: Phase, phase: Phase)
    requires i < |tasks|
    ensures Moves(tasks, i, to, phase)
  {
    var n := |tasks| - 1;
    if i < n {
      assert tasks[i := to][..n] == tasks[..n][i := to];
      CountUpdate(tasks[..n], i, to, phase);
    } else {
      assert tasks[i := to][..n] == tasks[..n];
    }
  }

  lemma CountAppend(tasks: seq<Phase>, added: Phase, phase: Phase)
    ensures Count(tasks + [added], phase) == Count(tasks, phase) + if added == phase then 1 else 0
  {
    assert (tasks + [added])[..|tasks|] == tasks;
  }

  /** Slots held by permits, whether counted, not yet counted or no longer counted. */
  ghost function Permits(tasks: seq<Phase>): nat {
    Count(tasks, Reserved) + Count(tasks, Holding) + Count(tasks, Releasing)
  }

  /** Receipts not yet in the total. */
  ghost function InHand<T>(r: Receiving<T>): nat {
    if r.Idle? then 0 else 1
  }

  /** Every slot is free, or held by a queued item, a permit, a send about to push, or the item just popped. */
  ghost predicate SlotsOk<T>(s: Channel<T>) {
    s.free + |s.queue| + Permits(s.tasks) + Count(s.tasks, Acquired) + (if s.receiving.Popped? then 1 else 0) == s.capacity
  }

  /**
   * The gauge is the queued items and the permits, less the sends and reservations not yet counted and the
   * permits already discounted, plus the receipt not yet discounted and what was lost with the receiver.
   */
  ghost predicate GaugeOk<T>(s: Channel<T>) {
    s.gauge == |s.queue| + Permits(s.tasks)
      - Count(s.tasks, Pushed) - Count(s.tasks, Reserved) - Count(s.tasks, Releasing)
      + (if s.receiving.Popped? || s.receiving.Freed? then 1 else 0)
      + |s.lost|
  }

  /** Items leave in the order they were queued. */
  ghost predicate ItemsOk<T>(s: Channel<T>) {
    && s.sent == s.received + s.lost + s.queue
    && (s.alive ==> s.lost == [])
    && (!s.alive ==> s.closed && s.receiving.Idle?)
    && (s.total.Some? ==> s.total.value + InHand(s.receiving) == |s.received|)
  }

  ghost predicate Inv<T>(s: Channel<T>) {
    SlotsOk(s) && GaugeOk(s) && ItemsOk(s)
  }

  lemma NewChannelInv<T>(capacity: nat, counted: bool)
    ensures Inv(NewChannel<T>(capacity, counted))
  {}

  lemma CallKeepsInv<T>(s: Channel<T>, phase: Phase)
    requires Inv(s) && (phase == Sending || phase == Reserving)
    ensures Inv(s.(tasks := s.tasks + [phase]))
  {
    CountAppend(s.tasks, phase, Acquired);
    CountAppend(s.tasks, phase, Pushed);
    CountAppend(s.tasks, phase, Reserved);
    CountAppend(s.tasks, phase, Holding);
    CountAppend(s.tasks, phase, Releasing);
  }

  predicate Moving<T>(step: Step<T>) {
    || step.Acquire? || step.Refuse? || step.Push? || step.RaiseForSend? || step.RaiseForPermit?
    || step.SendPermit? || step.LowerForPermit? || step.ReleasePermit?
  }

  lemma MovedCounts(tasks: seq<Phase>, i: nat, to: Phase)
    requires i < |tasks|
    ensures Moves(tasks, i, to, Acquired) && Moves(tasks, i, to, Pushed)
    ensures Moves(tasks, i, to, Reserved) && Moves(tasks, i, to, Holding) && Moves(tasks, i, to, Releasing)
  {
    CountUpdate(tasks, i, to, Acquired);
    CountUpdate(tasks, i, to, Pushed);
    CountUpdate(tasks, i, to, Reserved);
    CountUpdate(tasks, i, to, Holding);
    CountUpdate(tasks, i, to, Releasing);
  }

  lemma TaskKeepsSlots<T>(s: Channel<T>, step: Step<T>)
    requires SlotsOk(s) && Enabled(s, step) && Moving(step)
    ensures SlotsOk(Apply(s, step))
  {
    MovedCounts(s.tasks, step.i, Apply(s, step).tasks[step.i]);
  }

  lemma TaskKeepsGauge<T>(s: Channel<T>, step: Step<T>)
    requires GaugeOk(s) && Enabled(s, step) && Moving(step)
    ensures GaugeOk(Apply(s, step))
  {
    MovedCounts(s.tasks, step.i, Apply(s, step).tasks[step.i]);
  }

  lemma TaskKeepsItems<T>(s: Channel<T>, step: Step<T>)
    requires ItemsOk(s) && Enabled(s, step) && Moving(step)
    ensures ItemsOk(Apply(s, step))
  {}

  /** The receiver moves. */
  lemma ReceiverKeepsInv<T>(s: Channel<T>, step: Step<T>)
    requires Inv(s) && Enabled(s, step)
    requires step.Pop? || step.Free? || step.LowerForReceive? || step.CountTotal? || step.Close? || step.DropReceiver?
    ensures Inv(Apply(s, step))
  {
    if step.Pop? { assert s.queue == [s.queue[0]] + s.queue[1..]; }
  }

  lemma StepKeepsInv<T>(s: Channel<T>, step: Step<T>)
    requires Inv(s) && Enabled(s, step)
    ensures Inv(Apply(s, step))
  {
    match step
    case CallSend => CallKeepsInv(s, Sending);
    case CallReserve => CallKeepsInv(s, Reserving);
    case Pop => ReceiverKeepsInv(s, step);
    case Free => ReceiverKeepsInv(s, step);
    case LowerForReceive => ReceiverKeepsInv(s, step);
    case CountTotal => ReceiverKeepsInv(s, step);
    case Close => ReceiverKeepsInv(s, step);
    case DropReceiver => ReceiverKeepsInv(s, step);
    case _ =>
      TaskKeepsSlots(s, step);
      TaskKeepsGauge(s, step);
      TaskKeepsItems(s, step);
  }

  lemma {:induction false} RunKeepsInv<T>(s: Channel<T>, steps: seq<Step<T>>)
    requires Inv(s) && Run(s, steps).Some?
    ensures Inv(Run(s, steps).value)
    decreases steps
  {
    if steps == [] {
    } else {
      StepKeepsInv(s, steps[0]);
      RunKeepsInv(Apply(s, steps[0]), steps[1..]);
    }
  }

  // --- What holds of every run ---

  /** `s` is reached by some interleaving from a new channel. */
  ghost predicate Reached<T(!new)>(capacity: nat, counted: bool, s: Channel<T>) {
    exists steps :: Run(NewChannel<T>(capacity, counted), steps) == Some(s)
  }

  lemma ReachedInv<T(!new)>(capacity: nat, counted: bool, s: Channel<T>)
    requires Reached(capacity, counted, s)
    ensures Inv(s) && s.capacity == capacity && (s.total.Some? <==> counted)
  {
    var steps :| Run(NewChannel<T>(capacity, counted), steps) == Some(s);
    NewChannelInv<T>(capacity, counted);
    RunKeepsInv(NewChannel<T>(capacity, counted), steps);
    RunKeepsCapacity(NewChannel<T>(capacity, counted), steps);
  }

  lemma {:induction false} RunKeepsCapacity<T>(s: Channel<T>, steps: seq<Step<T>>)
    requires Run(s, steps).Some?
    ensures Run(s, steps).value.capacity == s.capacity && (Run(s, steps).value.total.Some? <==> s.total.Some?)
    decreases steps
  {
    if steps == [] {
    } else {
      RunKeepsCapacity(Apply(s, steps[0]), steps[1..]);
    }
  }

  /** The accounting identity, under every interleaving; slots are never oversold and items keep their order. */
  lemma Accounting<T(!new)>(capacity: nat, counted: bool, s: Channel<T>)
    requires Reached(capacity, counted, s)
    ensures s.gauge == |s.queue| + Permits(s.tasks)
      - Count(s.tasks, Pushed) - Count(s.tasks, Reserved) - Count(s.tasks, Releasing)
      + (if s.receiving.Popped? || s.receiving.Freed? then 1 else 0) + |s.lost|
    ensures |s.queue| + Permits(s.tasks) <= capacity
    ensures s.sent == s.received + s.lost + s.queue && (s.alive ==> s.lost == [])
    ensures counted ==> s.total.Some? && s.total.value + InHand(s.receiving) == |s.received|
  {
    ReachedInv(capacity, counted, s);
  }

  /** No gauge update is outstanding. */
  ghost predicate Quiescent<T>(s: Channel<T>) {
    && Count(s.tasks, Pushed) == Count(s.tasks, Reserved) == Count(s.tasks, Releasing) == 0
    && s.receiving.Idle?
  }

  /** At rest the gauge is exactly the queued items and the permits held, and within capacity, while the receiver lives. */
  lemma GaugeAtRest<T(!new)>(capacity: nat, counted: bool, s: Channel<T>)
    requires Reached(capacity, counted, s) && Quiescent(s) && s.alive
    ensures s.gauge == |s.queue| + Count(s.tasks, Holding)
    ensures 0 <= s.gauge <= capacity
  {
    ReachedInv(capacity, counted, s);
  }

  /** In between, it can fall below zero only by the sends not yet counted, and exceed the capacity only by one receipt. */
  lemma GaugeInFlight<T(!new)>(capacity: nat, counted: bool, s: Channel<T>)
    requires Reached(capacity, counted, s) && s.alive
    ensures 0 - Count(s.tasks, Pushed) <= s.gauge <= capacity + (if s.receiving.Freed? then 1 else 0)
  {
    ReachedInv(capacity, counted, s);
  }

  lemma {:induction false} RunSnoc<T>(s: Channel<T>, steps: seq<Step<T>>, step: Step<T>)
    requires Run(s, steps).Some? && Enabled(Run(s, steps).value, step)
    ensures Run(s, steps + [step]) == Some(Apply(Run(s, steps).value, step))
    decreases steps
  {
    if steps == [] {
      assert [step][1..] == [] && [] + [step] == [step];
    } else {
      assert (steps + [step])[1..] == steps[1..] + [step];
      RunSnoc(Apply(s, steps[0]), steps[1..], step);
    }
  }

  lemma ReachedStep<T(!new)>(capacity: nat, counted: bool, s: Channel<T>, step: Step<T>) returns (s': Channel<T>)
    requires Reached(capacity, counted, s) && Enabled(s, step)
    ensures s' == Apply(s, step) && Reached(capacity, counted, s')
  {
    var steps :| Run(NewChannel<T>(capacity, counted), steps) == Some(s);
    RunSnoc(NewChannel<T>(capacity, counted), steps, step);
    s' := Apply(s, step);
  }

  /** An item queued by a first send that has not raised the gauge yet. */
  lemma FirstPush<T(!new)>(capacity: nat, item: T) returns (s: Channel<T>)
    requires capacity > 0
    ensures Reached(capacity, false, s)
    ensures s == NewChannel(capacity, false).(free := capacity - 1, queue := [item], sent := [item], tasks := [Pushed])
  {
    s := NewChannel<T>(capacity, false);
    assert Run(s, []) == Some(s);
    s := ReachedStep(capacity, false, s, CallSend);
    s := ReachedStep(capacity, false, s, Acquire(0));
    s := ReachedStep(capacity, false, s, Push(0, item));
  }

  /** Both excursions happen. A receiver quicker than the sender takes the gauge to -1. */
  lemma GaugeCanBeNegative<T(!new)>(capacity: nat, item: T) returns (s: Channel<T>)
    requires capacity > 0
    ensures Reached(capacity, false, s) && s.gauge == -1
  {
    s := FirstPush(capacity, item);
    s := ReachedStep(capacity, false, s, Pop);
    s := ReachedStep(capacity, false, s, Free);
    s := ReachedStep(capacity, false, s, LowerForReceive);
  }

  /** `n` items sent, counted and not yet received. */
  ghost predicate Filled<T>(s: Channel<T>, capacity: nat, n: nat) {
    && s.capacity == capacity && n <= capacity
    && s.free == capacity - n && |s.queue| == n && s.gauge == n
    && s.alive && !s.closed && s.receiving.Idle?
  }

  /** One more send, from call to gauge. */
  lemma SendOne<T(!new)>(capacity: nat, s: Channel<T>, item: T) returns (s': Channel<T>)
    requires Reached(capacity, false, s) && s.free > 0 && !s.closed
    ensures Reached(capacity, false, s')
    ensures s' == s.(free := s.free - 1, queue := s.queue + [item], gauge := s.gauge + 1, sent := s.sent + [item], tasks := s'.tasks)
  {
    var i := |s.tasks|;
    s' := ReachedStep(capacity, false, s, CallSend);
    s' := ReachedStep(capacity, false, s', Acquire(i));
    s' := ReachedStep(capacity, false, s', Push(i, item));
    s' := ReachedStep(capacity, false, s', RaiseForSend(i));
  }

  lemma {:induction false} Fill<T(!new)>(capacity: nat, item: T, n: nat) returns (s: Channel<T>)
    requires n <= capacity
    ensures Reached(capacity, false, s) && Filled(s, capacity, n)
  {
    if n == 0 {
      s := NewChannel<T>(capacity, false);
      assert Run(s, []) == Some(s);
    } else {
      s := Fill(capacity, item, n - 1);
      s := SendOne(capacity, s, item);
    }
  }

  /** A sender quicker than the receiver takes the gauge of any channel past its capacity. */
  lemma GaugeCanExceedCapacity<T(!new)>(capacity: nat, item: T) returns (s: Channel<T>)
    requires capacity > 0
    ensures Reached(capacity, false, s) && s.gauge == capacity + 1
  {
    s := Fill(capacity, item, capacity);
    s := ReachedStep(capacity, false, s, Pop);
    s := ReachedStep(capacity, false, s, Free);
    s := SendOne(capacity, s, item);
  }

  // --- A dropped receiver ---

  lemma {:induction false} LostStays<T>(s: Channel<T>, steps: seq<Step<T>>)
    requires !s.alive && Run(s, steps).Some?
    ensures !Run(s, steps).value.alive && Run(s, steps).value.lost == s.lost
    decreases steps
  {
    if steps == [] {
    } else {
      LostStays(Apply(s, steps[0]), steps[1..]);
    }
  }

  /**
   * Items discarded with the receiver stay in the gauge for ever: at rest it reads what was queued when the receiver
   * went, what was sent on permits since, and the permits still held.
   */
  lemma DroppedReceiverLeaks<T(!new)>(capacity: nat, counted: bool, s: Channel<T>, steps: seq<Step<T>>)
    requires Reached(capacity, counted, s) && Enabled(s, DropReceiver) && Run(Apply(s, DropReceiver), steps).Some?
    requires Quiescent(Run(Apply(s, DropReceiver), steps).value)
    ensures var s' := Run(Apply(s, DropReceiver), steps).value;
      s'.gauge == |s.queue| + |s'.queue| + Count(s'.tasks, Holding)
  {
    ReachedInv(capacity, counted, s);
    StepKeepsInv(s, DropReceiver);
    RunKeepsInv(Apply(s, DropReceiver), steps);
    LostStays(Apply(s, DropReceiver), steps);
  }

  // --- A closed channel ---

  /** Task `i`, if it exists, holds nothing and has queued nothing: it is waiting, or done. */
  ghost predicate Barred<T>(s: Channel<T>, i: nat) {
    i < |s.tasks| ==> s.tasks[i] == Sending || s.tasks[i] == Reserving || s.tasks[i] == Finished
  }

  lemma {:induction false} ClosedBars<T>(s: Channel<T>, steps: seq<Step<T>>, i: nat)
    requires s.closed && Barred(s, i) && Run(s, steps).Some?
    ensures Run(s, steps).value.closed && Barred(Run(s, steps).value, i)
    decreases steps
  {
    if steps == [] {
    } else {
      ClosedBars(Apply(s, steps[0]), steps[1..], i);
    }
  }

  /** After a close no waiting send or reserve, and none called later, ever gets a slot. */
  lemma CloseGivesNoSlots<T>(s: Channel<T>, steps: seq<Step<T>>, i: nat)
    requires Enabled(s, Close) && (i >= |s.tasks| || Waiting(s, i)) && Run(Apply(s, Close), steps).Some?
    ensures Barred(Run(Apply(s, Close), steps).value, i)
  {
    ClosedBars(Apply(s, Close), steps, i);
  }

  // --- Updates in flight can land, and items be received ---

  /** Some run leads from `s` to `s'`. */
  ghost predicate Leads<T(!new)>(s: Channel<T>, s': Channel<T>) {
    exists steps :: Run(s, steps) == Some(s')
  }

  lemma LeadsStep<T(!new)>(s: Channel<T>, s': Channel<T>, step: Step<T>)
    requires Leads(s, s') && Enabled(s', step)
    ensures Leads(s, Apply(s', step))
  {
    var steps :| Run(s, steps) == Some(s');
    RunSnoc(s, steps, step);
  }

  lemma LeadsSelf<T(!new)>(s: Channel<T>)
    ensures Leads(s, s)
  {
    assert Run(s, []) == Some(s);
  }

  lemma {:induction false} SomeTask(tasks: seq<Phase>, phase: Phase) returns (i: nat)
    requires Count(tasks, phase) > 0
    ensures i < |tasks| && tasks[i] == phase
  {
    var n := |tasks| - 1;
    if tasks[n] == phase {
      i := n;
    } else {
      i := SomeTask(tasks[..n], phase);
    }
  }

  /** Gauge updates of the sending side still to come, counting a slot still to be returned. */
  ghost function Unsettled(tasks: seq<Phase>): nat {
    Count(tasks, Pushed) + Count(tasks, Reserved) + Count(tasks, Releasing)
  }

  /** The step that settles a task in flight. */
  ghost function Settling<T>(phase: Phase, i: nat): Step<T>
    requires phase == Pushed || phase == Reserved || phase == Releasing
  {
    if phase == Pushed then RaiseForSend(i) else if phase == Reserved then RaiseForPermit(i) else ReleasePermit(i)
  }

  lemma SettleOne<T>(s: Channel<T>, phase: Phase, i: nat)
    requires (phase == Pushed || phase == Reserved || phase == Releasing) && At(s, i, phase)
    ensures Enabled(s, Settling<T>(phase, i))
    ensures var s' := Apply(s, Settling<T>(phase, i));
      && Unsettled(s'.tasks) + 1 == Unsettled(s.tasks)
      && s'.queue == s.queue && s'.sent == s.sent && s'.received == s.received && s'.receiving == s.receiving && s'.alive == s.alive
  {
    MovedCounts(s.tasks, i, Apply(s, Settling<T>(phase, i)).tasks[i]);
  }

  /** Every update in flight on the sending side can land. */
  lemma {:induction false} Settles<T(!new)>(from: Channel<T>, s: Channel<T>) returns (s': Channel<T>)
    requires Leads(from, s)
    ensures Leads(from, s') && Unsettled(s'.tasks) == 0
    ensures s'.queue == s.queue && s'.sent == s.sent && s'.received == s.received && s'.receiving == s.receiving && s'.alive == s.alive
    decreases Unsettled(s.tasks)
  {
    if Unsettled(s.tasks) == 0 {
      s' := s;
    } else {
      var phase := if Count(s.tasks, Pushed) > 0 then Pushed else if Count(s.tasks, Reserved) > 0 then Reserved else Releasing;
      var i := SomeTask(s.tasks, phase);
      SettleOne(s, phase, i);
      LeadsStep(from, s, Settling<T>(phase, i));
      s' := Settles(from, Apply(s, Settling<T>(phase, i)));
    }
  }

  /** The receipt in hand can be completed. */
  lemma {:induction false} Completes<T(!new)>(from: Channel<T>, s: Channel<T>) returns (s': Channel<T>)
    requires Leads(from, s)
    ensures Leads(from, s') && s'.receiving.Idle?
    ensures s'.queue == s.queue && s'.sent == s.sent && s'.received == s.received && s'.tasks == s.tasks && s'.alive == s.alive
    decreases match s.receiving case Idle => 0 case Lowered(_) => 1 case Freed(_) => 2 case Popped(_) => 3
  {
    if s.receiving.Idle? {
      s' := s;
    } else {
      var step: Step<T> := match s.receiving case Popped(_) => Free case Freed(_) => LowerForReceive case _ => CountTotal;
      LeadsStep(from, s, step);
      s' := Completes(from, Apply(s, step));
    }
  }

  /** From every state some run brings the channel to rest, with the same items queued. */
  lemma CanSettle<T(!new)>(s: Channel<T>) returns (s': Channel<T>)
    ensures Leads(s, s') && Quiescent(s') && s'.queue == s.queue && s'.sent == s.sent
  {
    LeadsSelf(s);
    s' := Completes(s, s);
    s' := Settles(s, s');
  }

  lemma {:induction false} ReceivesAll<T(!new)>(from: Channel<T>, s: Channel<T>) returns (s': Channel<T>)
    requires Leads(from, s) && s.alive
    ensures Leads(from, s') && s'.alive && s'.receiving.Idle? && s'.queue == [] && s'.sent == s.sent
    ensures s'.received == s.received + s.queue
    decreases |s.queue|
  {
    s' := Completes(from, s);
    if s'.queue == [] {
      assert s.received + [] == s.received;
    } else {
      LeadsStep(from, s', Pop);
      var popped := Apply(s', Pop);
      assert s.queue == [s.queue[0]] + s.queue[1..];
      s' := ReceivesAll(from, popped);
    }
  }

  /** While the receiver lives, everything sent can be received, in the order it was sent. */
  lemma EverythingCanBeReceived<T(!new)>(capacity: nat, counted: bool, s: Channel<T>) returns (s': Channel<T>)
    requires Reached(capacity, counted, s) && s.alive
    ensures Leads(s, s') && s'.received == s'.sent == s.sent && s'.queue == []
  {
    ReachedInv(capacity, counted, s);
    LeadsSelf(s);
    s' := ReceivesAll(s, s);
    assert s.received + [] == s.received;
  }
}
