/** The wake-up channel between a signal and the task that reacts to it, one atomic step at a time:
    storing the flag, waking, upgrading, registering, swapping and dropping, in every interleaving. */
module Channels {
  import opened Bytes

  type Waker = int

  /** `notify` stores the flag and then wakes; in between a wake is owed. */
  datatype SenderAt = Ready | Stored | Gone

  /** Between `upgrade` and the end of a poll the receiver holds the channel alive itself. */
  datatype ReceiverAt =
    | Idle
    | Upgraded(waker: Waker)
    | Registered(waker: Waker)
    | Swapped(waker: Waker, got: bool)
    | Parked(waker: Waker)
    | Ended

  /** `woken` holds the wakers woken since their task was last polled; the counters are history. */
  datatype Channel = Channel(flag: bool, slot: Option<Waker>, woken: set<Waker>,
                             sender: SenderAt, receiver: ReceiverAt, notified: nat, yielded: nat)

  datatype Step = Store | Wake | DropSender | Poll(waker: Waker) | Register | Swap | Finish

  function New(): Channel { Channel(false, None, {}, Ready, Idle, 0, 0) }

  predicate Enabled(c: Channel, step: Step) {
    match step
    case Store => c.sender.Ready?
    case Wake => c.sender.Stored?
    case DropSender => c.sender.Ready?
    case Poll(_) => c.receiver.Idle? || c.receiver.Parked?
    case Register => c.receiver.Upgraded?
    case Swap => c.receiver.Registered?
    case Finish => c.receiver.Swapped?
  }

  predicate HoldsInner(r: ReceiverAt) {
    r.Upgraded? || r.Registered? || r.Swapped?
  }

  /** Takes the registered waker, if any, and wakes it. */
  function WakeSlot(c: Channel): Channel {
    if c.slot.Some? then c.(slot := None, woken := c.woken + {c.slot.value}) else c
  }

  /** The channel is dropped with its last strong reference, and wakes once more when it is. */
  function Do(c: Channel, step: Step): Channel
    requires Enabled(c, step)
  {
    match step
    case Store => c.(flag := true, sender := Stored, notified := c.notified + 1)
    case Wake => WakeSlot(c.(sender := Ready))
    case DropSender =>
      var gone := c.(sender := Gone);
      if HoldsInner(c.receiver) then gone else WakeSlot(gone)
    case Poll(w) => c.(woken := c.woken - {w}, receiver := if c.sender.Gone? then Ended else Upgraded(w))
    case Register => c.(slot := Some(c.receiver.waker), receiver := Registered(c.receiver.waker))
    case Swap => c.(flag := false, receiver := Swapped(c.receiver.waker, c.flag))
    case Finish =>
      var done := if c.receiver.got then c.(receiver := Idle, yielded := c.yielded + 1) else c.(receiver := Parked(c.receiver.waker));
      if c.sender.Gone? then WakeSlot(done) else done
  }

  // ---------- no lost wake-up ----------

  function Count(b: bool): nat { if b then 1 else 0 }

  /** The task that polled with this waker is woken, or the next wake finds it. */
  predicate Reachable(c: Channel, w: Waker) {
    w in c.woken || c.slot == Some(w)
  }

  /** A set flag has been or is about to be followed by a wake of this waker. */
  predicate Owed(c: Channel, w: Waker) {
    w in c.woken || (c.slot == Some(w) && (c.flag ==> c.sender.Stored?))
  }

  predicate Good(c: Channel) {
    && c.yielded + Count(c.flag) + Count(c.receiver.Swapped? && c.receiver.got) <= c.notified
    && match c.receiver
       case Registered(w) => Reachable(c, w)
       case Swapped(w, got) => got || Owed(c, w)
       case Parked(w) => Owed(c, w) && (c.sender.Gone? ==> w in c.woken)
       case _ => true
  }

  lemma StepKeepsGood(c: Channel, step: Step)
    requires Good(c) && Enabled(c, step)
    ensures Good(Do(c, step))
  {
  }

  predicate IsRun(c: Channel, steps: seq<Step>)
    decreases |steps|
  {
    steps == [] || (Enabled(c, steps[0]) && IsRun(Do(c, steps[0]), steps[1..]))
  }

  function Ran(c: Channel, steps: seq<Step>): Channel
    requires IsRun(c, steps)
    decreases |steps|
  {
    if steps == [] then c else Ran(Do(c, steps[0]), steps[1..])
  }

  lemma {:induction false} RunKeepsGood(c: Channel, steps: seq<Step>)
    requires Good(c) && IsRun(c, steps)
    ensures Good(Ran(c, steps))
    decreases |steps|
  {
    if steps != [] {
      StepKeepsGood(c, steps[0]);
      RunKeepsGood(Do(c, steps[0]), steps[1..]);
    }
  }

  /** In every interleaving: when the flag is set or the sender is gone, a parked task has been woken
      since it parked, or the sender is about to wake it; and no more items are yielded than were
      notified. */
  lemma NoLostWakeUp(steps: seq<Step>)
    requires IsRun(New(), steps)
    ensures var c := Ran(New(), steps);
      && (c.receiver.Parked? && c.flag && !c.sender.Stored? ==> c.receiver.waker in c.woken)
      && (c.receiver.Parked? && c.flag && c.sender.Stored? ==> c.receiver.waker in Do(c, Wake).woken)
      && (c.receiver.Parked? && c.sender.Gone? ==> c.receiver.waker in c.woken)
      && c.yielded <= c.notified
  {
    RunKeepsGood(New(), steps);
  }

  // ---------- progress ----------

  predicate IsReceivers(step: Step) {
    !step.Store? && !step.Wake? && !step.DropSender?
  }

  function ReceiverSteps(steps: seq<Step>): nat {
    if steps == [] then 0 else Count(IsReceivers(steps[0])) + ReceiverSteps(steps[1..])
  }

  /** Receiver steps until an item is yielded, while a notification is pending. */
  function ToYield(c: Channel): nat {
    match c.receiver
    case Swapped(_, got) => if got then 1 else 5
    case Registered(_) => 2
    case Upgraded(_) => 3
    case _ => 4
  }

  /** A notification that no poll has returned yet. */
  predicate Pending(c: Channel) {
    c.flag || (c.receiver.Swapped? && c.receiver.got)
  }

  lemma StepTowardsYield(c: Channel, step: Step)
    requires Enabled(c, step) && !step.DropSender? && Pending(c) && !c.sender.Gone? && !c.receiver.Ended?
    ensures var next := Do(c, step);
      && next.yielded >= c.yielded && !next.sender.Gone? && !next.receiver.Ended?
      && (next.yielded > c.yielded || (Pending(next) && ToYield(next) + Count(IsReceivers(step)) <= ToYield(c)))
  {
  }

  lemma {:induction false} YieldsAreKept(c: Channel, steps: seq<Step>)
    requires IsRun(c, steps)
    ensures Ran(c, steps).yielded >= c.yielded
    decreases |steps|
  {
    if steps != [] {
      YieldsAreKept(Do(c, steps[0]), steps[1..]);
    }
  }

  /** A pending notification is yielded within five steps of the receiver, however they interleave
      with a sender that is not dropped. A task parked meanwhile has been woken or is about to be. */
  lemma {:induction false} PendingIsYielded(c: Channel, steps: seq<Step>)
    requires IsRun(c, steps) && DropSender !in steps && Pending(c) && !c.sender.Gone? && !c.receiver.Ended?
    requires ReceiverSteps(steps) >= ToYield(c)
    ensures Ran(c, steps).yielded > c.yielded
    decreases |steps|
  {
    assert steps != [];
    assert steps[0] in steps;
    StepTowardsYield(c, steps[0]);
    var next := Do(c, steps[0]);
    if next.yielded > c.yielded {
      YieldsAreKept(next, steps[1..]);
    } else {
      PendingIsYielded(next, steps[1..]);
    }
  }

  function ToEnd(c: Channel): nat {
    match c.receiver
    case Ended => 0
    case Upgraded(_) => 4
    case Registered(_) => 3
    case Swapped(_, _) => 2
    case _ => 1
  }

  /** Once the sender is dropped every run ends: at most four steps are left, all of them the
      receiver's, and a run that cannot go on has reached the end of the stream. */
  lemma {:induction false} DroppedSenderEndsTheStream(c: Channel, steps: seq<Step>)
    requires IsRun(c, steps) && c.sender.Gone?
    ensures |steps| + ToEnd(Ran(c, steps)) == ToEnd(c)
    ensures (forall step :: !Enabled(Ran(c, steps), step)) <==> Ran(c, steps).receiver.Ended?
    decreases |steps|
  {
    if steps != [] {
      DroppedSenderEndsTheStream(Do(c, steps[0]), steps[1..]);
    } else if !c.receiver.Ended? {
      assert Enabled(c, Register) || Enabled(c, Swap) || Enabled(c, Finish) || Enabled(c, Poll(0));
    }
  }

  /** A poll that will still fetch the notification: it has upgraded and not swapped yet, or it has
      swapped and taken the flag. */
  predicate Fetching(c: Channel) {
    (c.flag && (c.receiver.Upgraded? || c.receiver.Registered?)) || (c.receiver.Swapped? && c.receiver.got)
  }

  /** What the end of the stream costs, exactly: every run after the sender's drop that reaches the end
      yields one more item if a poll was fetching at the drop, and none otherwise. */
  lemma {:induction false} YieldsAfterTheDrop(c: Channel, steps: seq<Step>)
    requires IsRun(c, steps) && c.sender.Gone? && Ran(c, steps).receiver.Ended?
    ensures Ran(c, steps).yielded == c.yielded + Count(Fetching(c))
    decreases |steps|
  {
    if steps != [] {
      YieldsAfterTheDrop(Do(c, steps[0]), steps[1..]);
    }
  }

  /** So a flag that is set when the sender is dropped is swallowed if and only if no poll stands between
      its upgrade and its swap: then no run to the end yields more than what a poll had already taken,
      otherwise every run does. */
  lemma SwallowedIffNoPollIsFetching(c: Channel, steps: seq<Step>)
    requires Enabled(c, DropSender) && c.flag && IsRun(Do(c, DropSender), steps)
    requires Ran(Do(c, DropSender), steps).receiver.Ended?
    ensures Ran(Do(c, DropSender), steps).yielded == c.yielded + Count(c.receiver.Swapped? && c.receiver.got) <==>
      !c.receiver.Upgraded? && !c.receiver.Registered?
  {
    YieldsAfterTheDrop(Do(c, DropSender), steps);
  }

  /** It does happen: nobody polls between the notification and the drop. */
  lemma DroppedSenderSwallowsANotification(w: Waker)
    ensures var steps := [Store, Wake, DropSender, Poll(w)];
      && IsRun(New(), steps) && Ran(New(), steps).receiver.Ended?
      && Ran(New(), steps).notified == 1 && Ran(New(), steps).yielded == 0
  {
    var c1 := Do(New(), Store);
    var c2 := Do(c1, Wake);
    var c3 := Do(c2, DropSender);
    Prepends(c3, Poll(w), []);
    Prepends(c2, DropSender, [Poll(w)]);
    Prepends(c1, Wake, [DropSender, Poll(w)]);
    Prepends(New(), Store, [Wake, DropSender, Poll(w)]);
    assert [Wake] + [DropSender, Poll(w)] == [Wake, DropSender, Poll(w)];
    assert [Store] + [Wake, DropSender, Poll(w)] == [Store, Wake, DropSender, Poll(w)];
    assert [DropSender] + [Poll(w)] == [DropSender, Poll(w)] && [Poll(w)] + [] == [Poll(w)];
  }

  lemma Prepends(c: Channel, step: Step, steps: seq<Step>)
    requires Enabled(c, step) && IsRun(Do(c, step), steps)
    ensures IsRun(c, [step] + steps) && Ran(c, [step] + steps) == Ran(Do(c, step), steps)
  {
    assert ([step] + steps)[1..] == steps;
  }

  // ---------- the operations, without interference ----------

  datatype Polled = Item | Pend | End

  class Inner {
    var flag: bool
    var slot: Option<Waker>
    ghost var woken: set<Waker>
    ghost var sender: SenderAt
    ghost var receiver: ReceiverAt
    ghost var notified: nat
    ghost var yielded: nat

    ghost function State(): Channel
      reads this
    {
      Channel(flag, slot, woken, sender, receiver, notified, yielded)
    }

    constructor ()
      ensures State() == New()
    {
      flag, slot, woken, sender, receiver, notified, yielded := false, None, {}, Ready, Idle, 0, 0;
    }

    method WakeWaker()
      modifies this`slot, this`woken
      ensures State() == WakeSlot(old(State()))
    {
      if slot.Some? {
        woken := woken + {slot.value};
      }
      slot := None;
    }

    method Notify()
      requires sender.Ready?
      modifies this
      ensures State() == Do(Do(old(State()), Store), Wake)
    {
      flag := true;
      sender, notified := Stored, notified + 1;
      WakeWaker();
      sender := Ready;
    }

    /** The sender's end; with no poll in progress it takes the channel with it. */
    method Drop()
      requires sender.Ready? && !HoldsInner(receiver)
      modifies this
      ensures State() == Do(old(State()), DropSender)
    {
      sender := Gone;
      WakeWaker();
    }

    /** `upgraded` says whether the channel was still alive. */
    method PollNext(w: Waker, upgraded: bool) returns (result: Polled)
      requires (receiver.Idle? || receiver.Parked?) && upgraded == !sender.Gone?
      modifies this
      ensures !upgraded ==> State() == Do(old(State()), Poll(w)) && result == End
      ensures upgraded ==>
        && State() == Do(Do(Do(Do(old(State()), Poll(w)), Register), Swap), Finish)
        && result == if old(flag) then Item else Pend
    {
      woken := woken - {w};
      if !upgraded {
        receiver := Ended;
        return End;
      }
      slot := Some(w);
      var was := flag;
      flag := false;
      if was {
        result := Item;
        receiver, yielded := Idle, yielded + 1;
      } else {
        result := Pend;
        receiver := Parked(w);
      }
    }
  }
}
