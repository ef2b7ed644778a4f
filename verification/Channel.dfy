/** One linked channel across live migration.

  Serials restart with every transport, so the channel keeps a base that makes
  the effective serial survive a swap. Replacements arrive through a queue that
  the migration manager fills; what its owner meets while it waits is given as a
  script, in the order in which it becomes visible.
*/
module Channel {
  import opened Basics
  import opened Migration
  import Progress
  import opened AckWindow

  /** A linked transport ready to take over; `lastSerial` counts what its handshake already read. */
  datatype Replacement = Replacement(generation: nat, seamless: bool, immediate: bool, lastSerial: nat)

  /** One server message: its serial under full headers, whether its envelope counts for acknowledgement,
      and what its logical messages ask for. */
  datatype Frame = Frame(serial: Option<nat>, migrationData: bool, countsForAck: bool, actions: seq<Action>)

  /** The manager's steps, as they reach this channel: a preparation takes its generation, later sends
      this channel's replacement, and may fail after that; a cancel comes at any time. */
  datatype ManagerStep =
    | Take
    | Send(target: Target)
    | Revoke

  /** A linked transport, before it gets its generation. */
  datatype Target = Target(seamless: bool, immediate: bool, lastSerial: nat)

  /** A preparation that this channel's owner waits for. */
  datatype Preparation = Preparation(sent: Option<Target>, succeeds: bool)

  datatype Action =
    | Ordinary
    | SetAck(generation: nat, window: nat)
    | Barrier(waits: seq<Progress.Wait>, sights: seq<Progress.Sight>)
    | Migrate(needsData: bool)
    | MigrateBegin(preparation: Preparation)
    | MigrateCancel
    | MigrateEnd
    | SwitchHost(preparation: Preparation, generation: nat, window: nat, counted: nat)

  datatype Event =
    | Arrived(frame: Frame)
    | TransportLost
    | ReplacementReady
    | PathClosed
    | CancelRaised
    | ManagerMoved(step: ManagerStep)

  datatype Failure =
    | Stalled
    | Io
    | SerialRegression
    | Uncoordinated
    | MissingCancelPath
    | Cancelled
    | TaskTerminated
    | ExpectedMigrationData
    | EndWithoutBegin
    | SwitchFailed
    | Barred(error: Progress.Error)

  /** A transport with a generation has joined the end of the queue, as it was linked; without one, none has. */
  ghost predicate Delivered(
      queue: seq<Replacement>, queue': seq<Replacement>, generation: Option<nat>, target: Target)
  {
    if generation.None? then queue' == queue
    else
      && |queue'| == |queue| + 1 && queue <= queue'
      && queue'[|queue|].generation == generation.value && queue'[|queue|].lastSerial == target.lastSerial
      && queue'[|queue|].seamless == target.seamless && queue'[|queue|].immediate == target.immediate
  }

  /** What the transport of the last swap had read when it took over. */
  ghost function LastRead(swaps: seq<Activation>): nat {
    if swaps == [] then 0 else swaps[|swaps| - 1].replacement.lastSerial
  }

  /** A replacement that is to take over at once. */
  predicate Urgent(r: Option<Replacement>) {
    r.Some? && r.value.immediate
  }

  /** The swaps since were to replacements of that kind. */
  ghost predicate AllImmediate(before: seq<Activation>, swaps: seq<Activation>) {
    forall i :: |before| <= i < |swaps| ==> swaps[i].replacement.immediate
  }

  /** How a swap, or the wait for one, can fail. */
  predicate SwapFails(f: Failure) {
    f.Uncoordinated? || f.MissingCancelPath? || f.Stalled? || f.Cancelled? || f.TaskTerminated?
  }

  /** A swap: what was activated, and the manager's ledger at that moment. */
  datatype Activation = Activation(replacement: Replacement, ledger: Ledger)

  /** What happened to generations, in order: one was activated, or all issued so far were invalidated. */
  datatype Record = Activated(generation: nat) | Invalid(issued: set<nat>)

  /** The generations activated, in order. */
  ghost function Activations(history: seq<Record>): seq<nat> {
    if history == [] then []
    else
      var before := Activations(history[..|history| - 1]);
      match history[|history| - 1]
      case Activated(generation) => before + [generation]
      case Invalid(_) => before
  }

  /** Nothing that a cancel or a failure has invalidated is activated after it. */
  ghost predicate NoneAfterwards(history: seq<Record>) {
    forall i, j :: 0 <= i < j < |history| && history[i].Invalid? && history[j].Activated? ==>
      history[j].generation !in history[i].issued
  }

  /** What the ledger says of the invalidations on record. */
  ghost predicate Recorded(history: seq<Record>, l: Ledger) {
    forall i :: 0 <= i < |history| && history[i].Invalid? ==> history[i].issued <= l.revoked
  }

  ghost function Generations(swaps: seq<Activation>): seq<nat> {
    seq(|swaps|, i requires 0 <= i < |swaps| => swaps[i].replacement.generation)
  }

  ghost predicate HistoryOk(history: seq<Record>, swaps: seq<Activation>, l: Ledger) {
    && NoneAfterwards(history)
    && Recorded(history, l)
    && Activations(history) == Generations(swaps)
  }

  lemma HistoryActivated(history: seq<Record>, swaps: seq<Activation>, a: Activation)
    requires HistoryOk(history, swaps, a.ledger) && Current(a)
    ensures HistoryOk(history + [Activated(a.replacement.generation)], swaps + [a], a.ledger)
  {
    var g := a.replacement.generation;
    assert (history + [Activated(g)])[..|history|] == history;
    assert Generations(swaps + [a]) == Generations(swaps) + [g];
  }

  lemma HistoryInvalidated(history: seq<Record>, swaps: seq<Activation>, l: Ledger)
    requires HistoryOk(history, swaps, l)
    ensures HistoryOk(history + [Invalid(l.issued)], swaps, Invalidated(l)) && HistoryOk(history, swaps, Prepared(l))
  {
    assert (history + [Invalid(l.issued)])[..|history|] == history;
  }

  /** The serial a frame gets after `last`; none for a regression. */
  function Stamp(serial: Option<nat>, last: nat): Option<nat> {
    match serial
    case Some(s) => if s > last then Some(s) else None
    case None => Some(last + 1)
  }

  // ---------------------------------------------------------------------------
  // Replacements under way
  // ---------------------------------------------------------------------------

  ghost predicate Handed(r: Replacement, floor: nat, l: Ledger) {
    floor < r.generation && r.generation in l.issued
  }

  /** Queued replacements carry issued generations, above `floor` and in order. */
  ghost predicate QueueOk(queue: seq<Replacement>, floor: nat, l: Ledger) {
    && (forall i :: 0 <= i < |queue| ==> Handed(queue[i], floor, l))
    && (forall i, j :: 0 <= i < j < |queue| ==> queue[i].generation < queue[j].generation)
  }

  /** Each swap took a generation that was current, issued and not invalidated, and a later one than the swap before. */
  ghost predicate SwapsOk(swaps: seq<Activation>) {
    && (forall i :: 0 <= i < |swaps| ==> Current(swaps[i]))
    && (forall i, j :: 0 <= i < j < |swaps| ==> swaps[i].replacement.generation < swaps[j].replacement.generation)
  }

  ghost predicate Current(a: Activation) {
    && a.replacement.generation == a.ledger.active
    && a.replacement.generation in a.ledger.issued
    && a.replacement.generation !in a.ledger.revoked
  }

  ghost function LastGeneration(swaps: seq<Activation>): nat {
    if swaps == [] then 0 else swaps[|swaps| - 1].replacement.generation
  }

  lemma PopKeepsQueue(queue: seq<Replacement>, floor: nat, l: Ledger)
    requires QueueOk(queue, floor, l) && queue != []
    ensures Handed(queue[0], floor, l)
    ensures QueueOk(queue[1..], floor, l) && QueueOk(queue[1..], queue[0].generation, l)
  {
  }

  lemma LowerFloor(queue: seq<Replacement>, floor: nat, lower: nat, l: Ledger)
    requires QueueOk(queue, floor, l) && lower <= floor
    ensures QueueOk(queue, lower, l)
  {
  }

  lemma InvalidateKeepsQueue(queue: seq<Replacement>, floor: nat, l: Ledger)
    requires QueueOk(queue, floor, l)
    ensures QueueOk(queue, floor, Invalidated(l))
  {
    forall i | 0 <= i < |queue|
      ensures Handed(queue[i], floor, Invalidated(l))
    {
      assert Handed(queue[i], floor, l);
    }
  }

  /** A preparation's replacement goes behind the others under a greater generation. */
  lemma PushKeepsQueue(queue: seq<Replacement>, floor: nat, l: Ledger, r: Replacement)
    requires Orderly(l) && QueueOk(queue, floor, l) && floor <= l.active && r.generation == l.active + 1
    ensures QueueOk(queue + [r], floor, Prepared(l)) && QueueOk(queue, floor, Prepared(l))
  {
    forall i | 0 <= i < |queue|
      ensures Handed(queue[i], floor, Prepared(l)) && queue[i].generation < r.generation
    {
      assert Handed(queue[i], floor, l);
    }
  }

  lemma SentInLine(queue: seq<Replacement>, rest: seq<Replacement>, floor: nat, l: Ledger)
    requires QueueOk(queue + rest, floor, l)
    ensures QueueOk(queue, floor, l)
  {
    assert forall i :: 0 <= i < |queue| ==> (queue + rest)[i] == queue[i];
  }

  /** The replacement itself takes the place kept for it. */
  lemma SendKeeps(queue: seq<Replacement>, floor: nat, l: Ledger, r: Replacement)
    requires QueueOk(queue + [Replacement(r.generation, false, false, 0)], floor, l)
    ensures QueueOk(queue + [r], floor, l)
  {
    var line := queue + [Replacement(r.generation, false, false, 0)];
    forall i | 0 <= i < |queue| + 1
      ensures Handed((queue + [r])[i], floor, l) && (queue + [r])[i].generation == line[i].generation
    {
      assert Handed(line[i], floor, l);
    }
  }

  lemma SwapKeepsOrder(swaps: seq<Activation>, a: Activation)
    requires SwapsOk(swaps) && Current(a) && LastGeneration(swaps) < a.replacement.generation
    ensures SwapsOk(swaps + [a]) && LastGeneration(swaps + [a]) == a.replacement.generation
  {
    forall i | 0 <= i < |swaps|
      ensures swaps[i].replacement.generation < a.replacement.generation
    {
      var last := swaps[|swaps| - 1].replacement.generation;
      assert i < |swaps| - 1 ==> swaps[i].replacement.generation < last;
    }
  }

  // ---------------------------------------------------------------------------
  // The channel
  // ---------------------------------------------------------------------------

  class Channel {
    var lastReceivedSerial: nat
    var receivedSerialBase: nat
    var migrationActivationCount: nat
    var lastMigrationSeamless: bool
    /** Whether the receiver of replacements and the cancel signal are in place. */
    var hasReplacements: bool
    var hasCancel: bool
    var pending: Option<Replacement>
    var queue: seq<Replacement>
    /** The generation of a preparation that has not sent this channel's replacement yet. */
    var unsent: Option<nat>
    const manager: MigrationManager
    /** What the owner meets while it waits, and how much of it has passed. */
    const script: seq<Event>
    var next: nat
    ghost var swaps: seq<Activation>
    ghost var history: seq<Record>

    ghost function Floor(): nat
      reads this
    {
      if pending.Some? then pending.value.generation else LastGeneration(swaps)
    }

    /** Replacements sent and the one still to be sent. */
    ghost function Line(): seq<Replacement>
      reads this
    {
      queue + if unsent.Some? then [Replacement(unsent.value, false, false, 0)] else []
    }

    ghost predicate Valid()
      reads this, manager
    {
      && manager.Valid()
      && next <= |script|
      && migrationActivationCount == |swaps|
      && SwapsOk(swaps)
      && (pending.Some? ==> Handed(pending.value, LastGeneration(swaps), manager.ledger))
      && QueueOk(Line(), Floor(), manager.ledger)
      && LastGeneration(swaps) <= Floor() <= manager.active
      && HistoryOk(history, swaps, manager.ledger)
    }

    constructor (lastSerial: nat, manager: MigrationManager, script: seq<Event>)
      requires manager.Valid()
      ensures Valid() && this.manager == manager && this.script == script && swaps == [] && history == []
      ensures ReceivedSerial() == lastSerial && next == 0
    {
      lastReceivedSerial := lastSerial;
      receivedSerialBase := 0;
      migrationActivationCount := 0;
      lastMigrationSeamless := false;
      hasReplacements, hasCancel := true, true;
      pending, queue, unsent := None, [], None;
      this.manager := manager;
      this.script := script;
      next := 0;
      swaps, history := [], [];
    }

    /** The effective serial of the last message read. */
    function ReceivedSerial(): nat
      reads this
    {
      receivedSerialBase + lastReceivedSerial
    }

    /** The manager's number is that of its ledger. */
    lemma Numbered()
      requires Valid()
      ensures manager.ledger.active == manager.active && Orderly(manager.ledger)
    {
    }

    /** A step of the manager. Taking and revoking leave what was sent in the queue; it is their generation
        number that tells its reader what has become of it. */
    method Move(step: ManagerStep)
      requires Valid()
      modifies manager, this`queue, this`unsent, this`history
      ensures Valid()
      ensures step.Take? ==>
        && manager.ledger == Prepared(old(manager.ledger)) && queue == old(queue) && unsent == Some(manager.active)
        && history == old(history)
      ensures step.Send? ==>
        && manager.ledger == old(manager.ledger) && unsent.None? && history == old(history)
        && Delivered(old(queue), queue, old(unsent), step.target)
      ensures step.Revoke? ==>
        && manager.ledger == Invalidated(old(manager.ledger)) && queue == old(queue) && unsent == old(unsent)
        && history == old(history) + [Invalid(old(manager.ledger).issued)]
    {
      hide Orderly, Handed, SwapsOk, LastGeneration, Prepared, Invalidated, QueueOk, HistoryOk;
      HistoryInvalidated(history, swaps, manager.ledger);
      match step
      case Take =>
        MoveKeeps(Replacement(manager.active + 1, false, false, 0));
        var generation := manager.Begin();
        unsent := Some(generation);
      case Send(target) =>
        if unsent.Some? {
          var r := Replacement(unsent.value, target.seamless, target.immediate, target.lastSerial);
          SendKeeps(queue, Floor(), manager.ledger, r);
          queue := queue + [r];
          unsent := None;
          assert queue + [] == queue;
        } else {
          assert queue + [] == queue;
        }
      case Revoke =>
        MoveKeeps(Replacement(manager.active + 1, false, false, 0));
        history := history + [Invalid(manager.ledger.issued)];
        manager.Invalidate();
    }

    /** A preparation from its first step to its outcome. One that fails after it sent a replacement leaves
        it in the queue under a generation that is no longer current. */
    method Prepare(preparation: Preparation)
      requires Valid()
      modifies manager, this`queue, this`unsent, this`history
      ensures Valid()
      ensures preparation.sent.Some? ==>
        unsent.None? && Delivered(old(queue), queue, Some(old(manager.active) + 1), preparation.sent.value)
      ensures preparation.sent.None? ==> queue == old(queue) && unsent == Some(old(manager.active) + 1)
      ensures
        var taken := Prepared(old(manager.ledger));
        && manager.ledger == (if preparation.succeeds then taken else Invalidated(taken))
        && history == old(history) + if preparation.succeeds then [] else [Invalid(taken.issued)]
    {
      hide Orderly, Handed, SwapsOk, LastGeneration, QueueOk, HistoryOk;
      Move(Take);
      if preparation.sent.Some? {
        Move(Send(preparation.sent.value));
      }
      if !preparation.succeeds {
        Move(Revoke);
      }
    }

    lemma MoveKeeps(r: Replacement)
      requires Valid() && r.generation == manager.active + 1
      ensures QueueOk(queue + [r], Floor(), Prepared(manager.ledger))
      ensures QueueOk(Line(), Floor(), Invalidated(manager.ledger))
      ensures Prepared(manager.ledger).active == Invalidated(manager.ledger).active == manager.active + 1
      ensures pending.Some? ==>
        && Handed(pending.value, LastGeneration(swaps), Prepared(manager.ledger))
        && Handed(pending.value, LastGeneration(swaps), Invalidated(manager.ledger))
    {
      SentInLine(queue, if unsent.Some? then [Replacement(unsent.value, false, false, 0)] else [], Floor(),
                 manager.ledger);
      PushKeepsQueue(queue, Floor(), manager.ledger, r);
      InvalidateKeepsQueue(Line(), Floor(), manager.ledger);
      hide QueueOk, SwapsOk, Orderly;
    }

    /** The next thing the owner meets; nothing at the end of the script. */
    method Await() returns (e: Option<Event>)
      requires Valid()
      modifies this`next, this`queue, this`unsent, this`history, manager
      ensures Valid()
      ensures e.None? ==> next == old(next) == |script|
      ensures e.Some? ==> old(next) < |script| && next == old(next) + 1 && e.value == script[old(next)]
      ensures old(history) <= history && old(next) <= next
      ensures e == Some(ManagerMoved(Take)) ==>
        manager.ledger == Prepared(old(manager.ledger)) && unsent == Some(manager.active)
      ensures e == Some(ManagerMoved(Revoke)) ==>
        manager.ledger == Invalidated(old(manager.ledger)) && history == old(history) + [Invalid(manager.ledger.issued)]
      ensures e.Some? && e.value.ManagerMoved? && e.value.step.Send? ==>
        Delivered(old(queue), queue, old(unsent), e.value.step.target)
      ensures e.None? || !e.value.ManagerMoved? ==>
        unchanged(manager) && queue == old(queue) && unsent == old(unsent) && history == old(history)
    {
      hide QueueOk, SwapsOk, Handed, HistoryOk, Prepared, Delivered;
      if next == |script| {
        return None;
      }
      e := Some(script[next]);
      next := next + 1;
      if e.value.ManagerMoved? {
        Move(e.value.step);
      }
    }

    /** Waits for a replacement of the current generation and swaps the transport. Stale ones are
        dropped, so a generation that was invalidated is never activated. */
    method ActivateReplacement(serialBase: nat) returns (failure: Option<Failure>)
      requires Valid()
      modifies this, manager
      ensures Valid() && old(next) <= next && old(history) <= history
      ensures failure.Some? ==> SwapFails(failure.value)
      ensures failure == Some(Uncoordinated) <==> !old(hasReplacements)
      ensures failure == Some(MissingCancelPath) <==> old(hasReplacements) && !old(hasCancel)
      ensures failure == Some(Cancelled) ==> next > 0 && script[next - 1] == CancelRaised
      ensures failure == Some(TaskTerminated) ==> next > 0 && script[next - 1] == PathClosed
      ensures pending.Some? ==> pending == old(pending)
      ensures failure.None? ==> Undisturbed(old(next), next) && pending.None?
      ensures failure.None? ==> old(hasCancel) && old(hasReplacements) && hasCancel && hasReplacements
      ensures failure.None? ==>
        && |swaps| == |old(swaps)| + 1 && old(swaps) <= swaps
        && swaps[|swaps| - 1].ledger == manager.ledger
        && migrationActivationCount == old(migrationActivationCount) + 1
        && receivedSerialBase == serialBase
        && lastReceivedSerial == swaps[|swaps| - 1].replacement.lastSerial
        && lastMigrationSeamless == swaps[|swaps| - 1].replacement.seamless
      ensures old(pending).Some? && old(pending).value.generation == old(manager.active) ==>
        && next == old(next) && queue == old(queue) && manager.active == old(manager.active)
        && (failure.None? ==> swaps[|swaps| - 1].replacement == old(pending).value)
      ensures failure.Some? ==>
        && swaps == old(swaps) && (hasCancel ==> old(hasCancel))
        && receivedSerialBase == old(receivedSerialBase) && lastReceivedSerial == old(lastReceivedSerial)
    {
      hide QueueOk, Handed, Orderly, SwapsOk, Current, LastGeneration, HistoryOk;
      if !hasReplacements {
        return Some(Uncoordinated);
      }
      hasReplacements := false;
      if !hasCancel {
        return Some(MissingCancelPath);
      }
      hasCancel := false;
      var candidate;
      failure, candidate := NextCurrent();
      if failure.Some? {
        return;
      }
      Install(candidate, serialBase);
      hasReplacements, hasCancel := true, true;
    }

    /** The replacement takes over. */
    method Install(candidate: Replacement, serialBase: nat)
      requires Valid() && pending.None? && Current(Activation(candidate, manager.ledger))
      requires LastGeneration(swaps) < candidate.generation == manager.active
      requires QueueOk(Line(), candidate.generation, manager.ledger)
      modifies this`swaps, this`history, this`lastReceivedSerial, this`lastMigrationSeamless, this`receivedSerialBase
      modifies this`migrationActivationCount
      ensures Valid() && swaps == old(swaps) + [Activation(candidate, manager.ledger)]
      ensures history == old(history) + [Activated(candidate.generation)]
      ensures lastReceivedSerial == candidate.lastSerial && lastMigrationSeamless == candidate.seamless
      ensures receivedSerialBase == serialBase && migrationActivationCount == old(migrationActivationCount) + 1
    {
      hide QueueOk, Handed, Orderly, SwapsOk, Current, LastGeneration, HistoryOk;
      SwapKeepsOrder(swaps, Activation(candidate, manager.ledger));
      HistoryActivated(history, swaps, Activation(candidate, manager.ledger));
      swaps := swaps + [Activation(candidate, manager.ledger)];
      history := history + [Activated(candidate.generation)];
      lastReceivedSerial := candidate.lastSerial;
      lastMigrationSeamless := candidate.seamless;
      receivedSerialBase := serialBase;
      migrationActivationCount := migrationActivationCount + 1;
    }

    /** Neither a cancel nor the end of the path was met. */
    ghost predicate Undisturbed(from: nat, to: nat)
      reads this
    {
      forall k :: from <= k < to && k < |script| ==> !script[k].CancelRaised? && !script[k].PathClosed?
    }

    /** The first replacement, pending or queued, whose generation is current when it is looked at. */
    method NextCurrent() returns (failure: Option<Failure>, r: Replacement)
      requires Valid()
      modifies this`pending, this`queue, this`unsent, this`next, this`history, manager
      ensures Valid() && old(next) <= next && pending.None? && old(history) <= history
      ensures failure.Some? ==> failure.value.Stalled? || failure.value.Cancelled? || failure.value.TaskTerminated?
      ensures failure == Some(Stalled) ==> next == |script|
      ensures failure == Some(Cancelled) ==> next > 0 && script[next - 1] == CancelRaised
      ensures failure == Some(TaskTerminated) ==> next > 0 && script[next - 1] == PathClosed
      ensures failure.None? ==> Undisturbed(old(next), next)
      ensures old(pending).Some? && old(pending).value.generation == old(manager.active) ==>
        failure.None? && r == old(pending).value && next == old(next) && queue == old(queue) && unchanged(manager)
      ensures failure.None? ==> Current(Activation(r, manager.ledger)) && LastGeneration(swaps) < r.generation
      ensures failure.None? ==> r.generation == manager.active && QueueOk(Line(), r.generation, manager.ledger)
    {
      hide QueueOk, SwapsOk, LastGeneration, HistoryOk;
      failure := None;
      r := Replacement(0, false, false, 0);
      if pending.Some? {
        r := pending.value;
        LowerFloor(Line(), r.generation, LastGeneration(swaps), manager.ledger);
        pending := None;
        if r.generation == manager.active {
          return;
        }
      }
      while true
        invariant Valid() && old(next) <= next && pending.None? && old(history) <= history
        invariant Undisturbed(old(next), next)
        invariant !(old(pending).Some? && old(pending).value.generation == old(manager.active))
        decreases |script| - next
      {
        var e := Await();
        if e.None? {
          return Some(Stalled), r;
        }
        match e.value
        case CancelRaised => return Some(Cancelled), r;
        case PathClosed => return Some(TaskTerminated), r;
        case ReplacementReady =>
          if queue != [] {
            PopKeepsQueue(Line(), Floor(), manager.ledger);
            ghost var rest := Line()[1..];
            r := queue[0];
            queue := queue[1..];
            assert Line() == rest;
            if r.generation == manager.active {
              return None, r;
            }
          }
        case _ =>
      }
    }

    /** Takes the replacement that is ready; one of another generation is dropped. */
    method TakeReplacement()
      requires Valid()
      modifies this`pending, this`queue
      ensures Valid() && queue == old(queue)[Min(1, |old(queue)|)..]
      ensures pending == if old(queue) != [] && old(queue)[0].generation == manager.active then Some(old(queue)[0])
                         else old(pending)
    {
      if queue != [] {
        PopKeepsQueue(Line(), Floor(), manager.ledger);
        hide QueueOk, SwapsOk, LastGeneration, HistoryOk;
        ghost var rest := Line()[1..];
        var r := queue[0];
        queue := queue[1..];
        assert Line() == rest;
        if r.generation == manager.active {
          pending := Some(r);
        }
      }
    }

    /** The queue of replacements is gone for good. */
    method ForgetPath()
      requires Valid()
      modifies this`pending, this`hasReplacements, this`hasCancel
      ensures Valid() && !hasReplacements && !hasCancel && pending.None?
    {
      LowerFloor(Line(), Floor(), LastGeneration(swaps), manager.ledger);
      hide QueueOk, SwapsOk, LastGeneration, HistoryOk;
      pending := None;
      hasReplacements, hasCancel := false, false;
    }

    /** The end of the path was met. */
    ghost predicate Closed(from: nat, to: nat)
      reads this
    {
      exists k :: from <= k < to && k < |script| && script[k].PathClosed?
    }

    /** No message, and no loss of the transport. */
    ghost predicate Nothing(from: int, to: int)
      reads this
    {
      forall k :: from <= k < to && 0 <= k < |script| ==> !script[k].Arrived? && !script[k].TransportLost?
    }

    /** One header, from this transport or from one that takes over at once. */
    method ReadHeader() returns (failure: Option<Failure>, frame: Frame)
      requires Valid()
      modifies this, manager
      ensures Valid() && old(next) <= next && old(swaps) <= swaps && old(history) <= history
      ensures Continues(old(swaps), old(receivedSerialBase), old(lastReceivedSerial))
      ensures failure.None? ==> old(next) < next && script[next - 1] == Arrived(frame)
      ensures !old(hasCancel) ==> !hasCancel && swaps == old(swaps)
      ensures failure.Some? ==> failure == Some(Io) || SwapFails(failure.value)
      ensures failure == Some(Io) ==> old(next) < next && script[next - 1] == TransportLost
      ensures !Urgent(old(pending)) ==>
        && AllImmediate(old(swaps), swaps)
        && (failure.None? ==> !Urgent(pending))
        && (swaps == old(swaps) ==>
              Nothing(old(next), if failure.None? || failure == Some(Io) then next - 1 else next))
      ensures failure.None? && Closed(old(next), next) ==> !hasReplacements && pending.None?
    {
      hide Channel.Valid;
      frame := Frame(None, false, false, []);
      while true
        invariant Valid() && old(next) <= next && old(swaps) <= swaps && old(history) <= history
        invariant Continues(old(swaps), old(receivedSerialBase), old(lastReceivedSerial))
        invariant !old(hasCancel) ==> !hasCancel && swaps == old(swaps)
        invariant !Urgent(old(pending)) ==>
          && AllImmediate(old(swaps), swaps)
          && !Urgent(pending)
          && (swaps == old(swaps) ==> Nothing(old(next), next))
        invariant Closed(old(next), next) ==> !hasReplacements && pending.None?
        decreases |script| - next
      {
        var e := Await();
        if e.None? {
          return Some(Stalled), frame;
        }
        match e.value {
          case Arrived(arrived) => return None, arrived;
          case TransportLost => return Some(Io), frame;
          case PathClosed => ForgetPath();
          case ReplacementReady =>
            failure := MeetReplacement();
            if failure.Some? {
              return;
            }
          case _ =>
        }
      }
    }

    /** A replacement is ready while a header is awaited; one that is to take over at once does. */
    method MeetReplacement() returns (failure: Option<Failure>)
      requires Valid()
      modifies this, manager
      ensures Valid() && old(next) <= next && old(history) <= history && old(swaps) <= swaps
      ensures failure.Some? ==> SwapFails(failure.value)
      ensures !old(hasReplacements) ==>
        && failure.None? && swaps == old(swaps) && next == old(next) && pending == old(pending) && !hasReplacements
      ensures !old(hasCancel) ==> !hasCancel && swaps == old(swaps)
      ensures failure.None? ==> Undisturbed(old(next), next)
      ensures swaps == old(swaps) ==>
        receivedSerialBase == old(receivedSerialBase) && lastReceivedSerial == old(lastReceivedSerial)
      ensures swaps != old(swaps) ==>
        && |swaps| == |old(swaps)| + 1 && receivedSerialBase == old(ReceivedSerial())
        && lastReceivedSerial == LastRead(swaps)
      ensures !Urgent(old(pending)) ==>
        && next == old(next) && AllImmediate(old(swaps), swaps) && (failure.None? ==> !Urgent(pending))
      ensures old(hasReplacements) && !Urgent(old(pending)) && failure.None? ==>
        && queue == old(queue)[Min(1, |old(queue)|)..]
        && var current := old(queue) != [] && old(queue)[0].generation == manager.active;
           && (swaps != old(swaps) <==> current && old(queue)[0].immediate)
           && (swaps != old(swaps) ==> swaps[|old(swaps)|].replacement == old(queue)[0])
           && (swaps == old(swaps) ==> pending == if current then Some(old(queue)[0]) else old(pending))
    {
      hide Channel.Valid;
      failure := None;
      if hasReplacements {
        TakeReplacement();
        if pending.Some? && pending.value.immediate {
          failure := ActivateReplacement(ReceivedSerial());
        }
      }
    }

    /** Since the given state, either nothing was swapped and the serials stand, or the base carries
        on from the serial reached and the count starts at the replacement's own. */
    ghost predicate Continues(before: seq<Activation>, base: nat, last: nat)
      reads this
    {
      && before <= swaps
      && (swaps == before ==> receivedSerialBase == base && lastReceivedSerial == last)
      && (swaps != before ==>
            && receivedSerialBase >= base + last
            && lastReceivedSerial == swaps[|swaps| - 1].replacement.lastSerial)
    }

    /** Reads one message. Its effective serial is greater than that of every message before it,
        on this transport and on those it replaced. */
    method ReadMessage() returns (failure: Option<Failure>, frame: Frame)
      requires Valid()
      modifies this, manager
      ensures Valid() && old(next) <= next && old(swaps) <= swaps && old(history) <= history
      ensures ReceivedSerial() >= old(ReceivedSerial())
      ensures failure.None? ==> ReceivedSerial() > old(ReceivedSerial()) && old(next) < next
      ensures failure.None? || failure == Some(SerialRegression) ==> next > 0 && script[next - 1] == Arrived(frame)
      ensures failure == Some(SerialRegression) ==> frame.serial.Some? && frame.serial.value <= lastReceivedSerial
      ensures failure.None? && frame.serial.Some? ==> lastReceivedSerial == frame.serial.value
      ensures failure.None? && frame.serial.None? ==>
        lastReceivedSerial == 1 + if swaps == old(swaps) then old(lastReceivedSerial) else LastRead(swaps)
      ensures failure.None? && swaps == old(swaps) ==> receivedSerialBase == old(receivedSerialBase)
      ensures failure == Some(Io) ==> !hasReplacements
      ensures !old(hasCancel) ==> !hasCancel && swaps == old(swaps)
    {
      hide QueueOk, Handed, Orderly, SwapsOk, Current, LastGeneration, HistoryOk;
      failure, frame := ReadHeader();
      while failure.Some?
        invariant Valid() && old(next) <= next && old(swaps) <= swaps && old(history) <= history
        invariant failure.None? || failure == Some(Io) ==> old(next) < next
        invariant failure.None? ==> script[next - 1] == Arrived(frame)
        invariant failure.Some? ==> failure == Some(Io) || SwapFails(failure.value)
        invariant Continues(old(swaps), old(receivedSerialBase), old(lastReceivedSerial))
        invariant !old(hasCancel) ==> !hasCancel && swaps == old(swaps)
        decreases |script| - next, failure == Some(Io)
      {
        if failure != Some(Io) || !hasReplacements {
          return;
        }
        failure := ActivateReplacement(ReceivedSerial());
        if failure.Some? {
          return;
        }
        failure, frame := ReadHeader();
      }
      var stamp := Stamp(frame.serial, lastReceivedSerial);
      if stamp.None? {
        return Some(SerialRegression), frame;
      }
      lastReceivedSerial := stamp.value;
    }

    /** MIGRATE: optionally reads the migration data on the old transport, then swaps. The data
        message is not part of the stream, so the base is the serial before it. */
    method MigrateToReplacement(needsData: bool) returns (failure: Option<Failure>)
      requires Valid()
      modifies this, manager
      ensures Valid() && old(next) <= next && old(history) <= history && old(swaps) <= swaps
      ensures failure.None? ==> |swaps| == |old(swaps)| + 1
      ensures !needsData ==> failure != Some(MissingCancelPath)
      ensures !old(hasCancel) ==> failure == Some(Uncoordinated)
      ensures failure.None? && needsData ==>
        exists k :: old(next) <= k < next && script[k].Arrived? && script[k].frame.migrationData
      ensures failure.None? ==> migrationActivationCount == old(migrationActivationCount) + 1
      ensures failure.None? ==> ReceivedSerial() == old(ReceivedSerial()) + swaps[|swaps| - 1].replacement.lastSerial
    {
      hide QueueOk, Handed, Orderly, SwapsOk, Current, LastGeneration, HistoryOk;
      var migrationSerial := ReceivedSerial();
      if !hasCancel {
        return Some(Uncoordinated);
      }
      hasCancel := false;
      if needsData {
        var frame;
        failure, frame := ReadMessage();
        if failure.Some? {
          return;
        }
        if !frame.migrationData {
          return Some(ExpectedMigrationData);
        }
      }
      hasCancel := true;
      failure := ActivateReplacement(migrationSerial);
    }
  }

  // ---------------------------------------------------------------------------
  // The main channel's loop
  // ---------------------------------------------------------------------------

  /** Everything issued is invalid, and a later generation is active. */
  ghost predicate AllInvalid(issued: set<nat>, l: Ledger) {
    issued <= l.revoked && forall g :: g in issued ==> g < l.active
  }

  /** A cancel invalidates all that was issued, issues nothing, and is on record. */
  ghost predicate Cancels(l: Ledger, l': Ledger, history: seq<Record>, history': seq<Record>) {
    && AllInvalid(l.issued, l') && l'.active == l.active + 1
    && l'.issued == l.issued
    && history' == history + [Invalid(l.issued)]
  }

  /** A migration that begins issues one generation, a new one. If the preparation succeeds it is the active
      one and valid; if not, preparation and owner have both moved the number on, it is invalid with all
      before it, and that is on record. */
  ghost predicate Begins(l: Ledger, l': Ledger, history': seq<Record>, succeeds: bool) {
    && l.active + 1 !in l.issued && l'.issued == l.issued + {l.active + 1}
    && if succeeds then l'.active == l.active + 1 && l'.active !in l'.revoked
       else
         && AllInvalid(l'.issued, l') && l'.active == l.active + 3
         && history' != [] && history'[|history'| - 1] == Invalid(l'.issued)
  }

  ghost predicate StrictlyIncreasing(s: seq<nat>) {
    forall i, j :: 0 <= i < j < |s| ==> s[i] < s[j]
  }

  /** The owner of a channel: its acknowledgement state and the registry it publishes to. */
  class Task {
    const identity: Progress.Identity
    const channel: Channel
    const control: ControlState
    const registry: Progress.ProgressRegistry
    /** The activation count when a migration began, while it is under way. */
    var baseline: Option<nat>
    /** The serials published so far. */
    ghost var completed: seq<nat>

    ghost predicate Valid()
      reads this, channel, channel.manager, control, registry
    {
      && channel.Valid()
      && ControlOk(control.Value())
      && identity in registry.entries
      && registry.entries[identity] <= channel.ReceivedSerial()
      && StrictlyIncreasing(completed)
      && (forall i :: 0 <= i < |completed| ==> completed[i] <= registry.entries[identity])
    }

    constructor (identity: Progress.Identity, channel: Channel, registry: Progress.ProgressRegistry)
      requires channel.Valid() && identity in registry.entries
      requires registry.entries[identity] <= channel.ReceivedSerial()
      ensures Valid() && this.identity == identity && this.channel == channel && this.registry == registry
      ensures completed == [] && fresh(control)
    {
      this.identity := identity;
      this.channel := channel;
      this.registry := registry;
      control := new ControlState();
      baseline := None;
      completed := [];
    }

    /** One logical message of an envelope. A host switch moves the envelope's serial on; nothing lowers the
        effective serial below it. A migration end swaps exactly when nothing was swapped since it began. */
    method Handle(action: Action, serial: nat)
        returns (failure: Option<Failure>, serial': nat, ghost effect: Effect)
      requires channel.Valid() && identity in registry.entries && serial <= channel.ReceivedSerial()
      modifies this`baseline, channel, channel.manager, control, registry
      ensures channel.Valid() && old(channel.next) <= channel.next
      ensures identity in registry.entries && registry.entries[identity] == old(registry.entries)[identity]
      ensures failure.None? ==> serial <= serial' <= channel.ReceivedSerial()
      ensures failure.None? ==>
        && control.Value() == Handled(old(control.Value()), old(channel.migrationActivationCount), effect)
        && channel.migrationActivationCount == old(channel.migrationActivationCount) + Swaps(effect)
      ensures failure.None? ==>
        (effect.EndsMigration?
         <==> action.MigrateEnd? && old(baseline) == Some(old(channel.migrationActivationCount)))
      ensures old(channel.history) <= channel.history && old(channel.swaps) <= channel.swaps
      ensures action.Ordinary? || action.SetAck? ==> failure.None?
      ensures action.Ordinary? || action.SetAck? || action.Barrier? ==>
        unchanged(channel) && unchanged(channel.manager) && baseline == old(baseline) && serial' == serial
      ensures action.Barrier? && failure.None? ==>
        forall i :: 0 <= i < |action.waits| ==>
          && Progress.Reached(registry.entries, action.waits[i])
          && !Progress.SelfReferential(identity, serial, action.waits[i])
      ensures !action.Barrier? ==> registry.entries == old(registry.entries)
      ensures action.MigrateCancel? ==>
        && failure.None? && baseline.None?
        && Cancels(old(channel.manager.ledger), channel.manager.ledger, old(channel.history), channel.history)
      ensures action.MigrateBegin? ==>
        && failure.None? && channel.swaps == old(channel.swaps)
        && baseline == (if action.preparation.succeeds then Some(old(channel.migrationActivationCount)) else None)
        && Begins(old(channel.manager.ledger), channel.manager.ledger, channel.history, action.preparation.succeeds)
      ensures action.MigrateEnd? ==>
        && (failure == Some(EndWithoutBegin) <==> old(baseline).None?)
        && (old(baseline).Some? ==> baseline.None?)
        && (failure.None? && effect.EndsMigration? ==> channel.receivedSerialBase == old(channel.ReceivedSerial()))
        && (old(baseline).Some? && old(baseline).value != old(channel.migrationActivationCount) ==>
              failure.None? && unchanged(channel) && unchanged(channel.manager))
      ensures action.Migrate? && failure.None? ==>
        channel.ReceivedSerial() == old(channel.ReceivedSerial()) + LastRead(channel.swaps)
      ensures action.SwitchHost? ==>
        && (failure == Some(SwitchFailed) <==> !action.preparation.succeeds)
        && (failure.None? ==>
              && baseline.None? && serial' == channel.ReceivedSerial()
              && channel.receivedSerialBase == old(channel.ReceivedSerial()))
    {
      hide Channel.Valid, ControlOk, Cancels, Begins;
      effect := Plain;
      failure, serial' := None, serial;
      control.Observe(channel.migrationActivationCount);
      match action
      case Ordinary =>
      case SetAck(generation, window) =>
        control.SetAck(generation, window);
        effect := Sets(generation, window);
      case Barrier(waits, sights) =>
        var error, used := Progress.WaitFor(registry, identity, serial, waits, sights);
        if error.Some? {
          failure := Some(Barred(error.value));
        }
      case Migrate(needsData) =>
        failure := channel.MigrateToReplacement(needsData);
        control.Forget(channel.migrationActivationCount);
        effect := Migrates;
      case MigrateBegin(preparation) => BeginMigration(preparation);
      case MigrateCancel => CancelMigration();
      case MigrateEnd => failure, effect := EndMigration();
      case SwitchHost(preparation, generation, window, counted) =>
        failure := SwitchToHost(preparation);
        if failure == Some(SwitchFailed) {
          return;
        }
        control.Adopt(Brought(generation, window, counted, channel.migrationActivationCount));
        effect := SwitchesHost(generation, window, counted);
        baseline := None;
        serial' := channel.ReceivedSerial();
    }

    /** A migration is prepared; a failure invalidates it. */
    method BeginMigration(preparation: Preparation)
      requires channel.Valid()
      modifies this`baseline, channel`queue, channel`unsent, channel`history, channel.manager
      ensures channel.Valid() && old(channel.history) <= channel.history
      ensures baseline == if preparation.succeeds then Some(channel.migrationActivationCount) else None
      ensures Begins(old(channel.manager.ledger), channel.manager.ledger, channel.history, preparation.succeeds)
    {
      hide Channel.Valid;
      channel.Numbered();
      channel.Prepare(preparation);
      if preparation.succeeds {
        baseline := Some(channel.migrationActivationCount);
      } else {
        channel.Move(Revoke);
        baseline := None;
      }
      channel.Numbered();
    }

    /** All that was prepared becomes invalid. */
    method CancelMigration()
      requires channel.Valid()
      modifies this`baseline, channel`queue, channel`unsent, channel`history, channel.manager
      ensures channel.Valid() && baseline.None? && old(channel.history) <= channel.history
      ensures Cancels(old(channel.manager.ledger), channel.manager.ledger, old(channel.history), channel.history)
    {
      hide Channel.Valid;
      channel.Numbered();
      channel.Move(Revoke);
      baseline := None;
    }

    /** Swaps, unless that has happened since the migration began. */
    method EndMigration() returns (failure: Option<Failure>, ghost effect: Effect)
      requires channel.Valid()
      modifies this`baseline, channel, channel.manager
      ensures channel.Valid() && old(channel.next) <= channel.next
      ensures old(channel.history) <= channel.history && old(channel.swaps) <= channel.swaps
      ensures failure == Some(EndWithoutBegin) <==> old(baseline).None?
      ensures old(baseline).Some? ==> baseline.None?
      ensures effect == if old(baseline) == Some(old(channel.migrationActivationCount)) then EndsMigration else Plain
      ensures old(baseline).Some? && effect == Plain ==>
        failure.None? && unchanged(channel) && unchanged(channel.manager)
      ensures failure.None? ==>
        channel.migrationActivationCount == old(channel.migrationActivationCount) + Swaps(effect)
      ensures failure.None? && effect == EndsMigration ==> channel.receivedSerialBase == old(channel.ReceivedSerial())
    {
      hide Channel.Valid;
      failure, effect := None, Plain;
      if baseline.None? {
        return Some(EndWithoutBegin), effect;
      }
      if channel.migrationActivationCount == baseline.value {
        failure := channel.ActivateReplacement(channel.ReceivedSerial());
        effect := EndsMigration;
      }
      baseline := None;
    }

    /** Prepares a transport to another host and swaps to it. */
    method SwitchToHost(preparation: Preparation) returns (failure: Option<Failure>)
      requires channel.Valid()
      modifies channel, channel.manager
      ensures channel.Valid() && old(channel.next) <= channel.next
      ensures old(channel.history) <= channel.history && old(channel.swaps) <= channel.swaps
      ensures failure == Some(SwitchFailed) <==> !preparation.succeeds
      ensures failure.None? ==>
        && channel.migrationActivationCount == old(channel.migrationActivationCount) + 1
        && channel.receivedSerialBase == old(channel.ReceivedSerial())
    {
      hide Channel.Valid;
      channel.Prepare(preparation);
      if !preparation.succeeds {
        return Some(SwitchFailed);
      }
      failure := channel.ActivateReplacement(channel.ReceivedSerial());
    }

    /** The messages of an envelope in order, and what they amount to for acknowledgements. */
    method HandleAll(actions: seq<Action>, serial: nat)
        returns (failure: Option<Failure>, serial': nat, ghost effects: seq<Effect>)
      requires channel.Valid() && identity in registry.entries && serial <= channel.ReceivedSerial()
      requires ControlOk(control.Value())
      modifies this`baseline, channel, channel.manager, control, registry
      ensures channel.Valid() && old(channel.next) <= channel.next
      ensures old(channel.history) <= channel.history && old(channel.swaps) <= channel.swaps
      ensures identity in registry.entries && registry.entries[identity] == old(registry.entries)[identity]
      ensures failure.None? ==> serial <= serial' <= channel.ReceivedSerial()
      ensures failure.None? ==>
        && |effects| == |actions|
        && (forall i :: 0 <= i < |actions| ==> (effects[i].EndsMigration? ==> actions[i].MigrateEnd?))
        && (control.Value(), channel.migrationActivationCount)
           == HandledAll(old(control.Value()), old(channel.migrationActivationCount), effects)
    {
      hide Channel.Valid, ControlOk, HandledAll, Handled, Swaps, Cancels, Begins, LastRead;
      ghost var c, n := control.Value(), channel.migrationActivationCount;
      failure, serial', effects := None, serial, [];
      EmptyEnvelope(c, n);
      var i := 0;
      while i < |actions|
        invariant 0 <= i <= |actions| && |effects| == i
        invariant channel.Valid() && old(channel.next) <= channel.next
        invariant old(channel.history) <= channel.history && old(channel.swaps) <= channel.swaps
        invariant identity in registry.entries && registry.entries[identity] == old(registry.entries)[identity]
        invariant failure.None? && serial <= serial' <= channel.ReceivedSerial()
        invariant forall j :: 0 <= j < i ==> (effects[j].EndsMigration? ==> actions[j].MigrateEnd?)
        invariant (control.Value(), channel.migrationActivationCount) == HandledAll(c, n, effects)
      {
        ghost var effect;
        failure, serial', effect := Handle(actions[i], serial');
        if failure.Some? {
          return;
        }
        HandledAllNext(c, n, effects, effect);
        effects := effects + [effect];
        i := i + 1;
      }
    }

    /** One envelope: read, handle its messages in order, acknowledge if due, publish its serial. Publishing
        cannot fail. The acknowledgement goes out on another transport than its window was installed on
        exactly when its last message was a migration end that swapped, or it held no message and a swap
        had not been noticed. */
    method ServeEnvelope()
        returns (failure: Option<Failure>, publishing: Option<Progress.Error>, ack: bool,
                 ghost frame: Frame, ghost activation: nat, ghost effects: seq<Effect>)
      requires Valid()
      modifies this, channel, channel.manager, control, registry
      ensures channel.Valid() && old(channel.next) <= channel.next && old(completed) <= completed
      ensures old(channel.history) <= channel.history && old(channel.swaps) <= channel.swaps
      ensures failure.None? ==> Valid() && old(channel.next) < channel.next
      ensures failure.None? ==>
        |completed| == |old(completed)| + 1 && completed[|old(completed)|] == registry.entries[identity]
      ensures publishing.None? && StrictlyIncreasing(completed)
      ensures failure.None? ==>
        && |effects| == |frame.actions|
        && (ack ==> frame.countsForAck)
        && (frame.countsForAck ==> ack == Acknowledged(HandledAll(old(control.Value()), activation, effects).0).0)
        && (ack ==>
              (control.installedAt != channel.migrationActivationCount
               <==> if frame.actions == [] then old(control.migrationActivationCount) != activation
                    else effects[|effects| - 1].EndsMigration?))
      ensures failure.None? && frame.actions != [] && effects[|effects| - 1].EndsMigration? ==>
        frame.actions[|effects| - 1].MigrateEnd?
    {
      hide Channel.Valid, ControlOk, HandledAll, Handled, StrictlyIncreasing;
      publishing, ack, activation, effects := None, false, 0, [];
      var f;
      failure, f := channel.ReadMessage();
      frame := f;
      if failure.Some? {
        return;
      }
      activation := channel.migrationActivationCount;
      ghost var before := control.Value();
      var serial := channel.ReceivedSerial();
      failure, serial, effects := HandleAll(f.actions, serial);
      if failure.Some? {
        return;
      }
      HandledAllOk(before, activation, effects);
      CrossesIff(before, activation, effects);
      if f.countsForAck {
        ack := control.AcknowledgeEnvelope();
      }
      publishing := Publish(serial);
    }

    /** Publishes a serial greater than all before. */
    method Publish(serial: nat) returns (publishing: Option<Progress.Error>)
      requires identity in registry.entries && registry.entries[identity] < serial && StrictlyIncreasing(completed)
      requires forall i :: 0 <= i < |completed| ==> completed[i] <= registry.entries[identity]
      modifies this`completed, registry
      ensures publishing.None? && completed == old(completed) + [serial] && StrictlyIncreasing(completed)
      ensures identity in registry.entries && registry.entries[identity] == serial
      ensures forall i :: 0 <= i < |completed| ==> completed[i] <= serial
    {
      publishing := registry.Complete(identity, serial);
      completed := completed + [serial];
    }

    /** The loop: envelopes until something fails or nothing more happens. The published serials
        strictly increase over the whole run, whatever migrations it meets, so the registry never
        reports a serial that does not advance; and no generation is activated after a cancel or a failed
        preparation that it was issued before. */
    method Run() returns (failure: Option<Failure>, publishing: Option<Progress.Error>)
      requires Valid()
      modifies this, channel, channel.manager, control, registry
      ensures StrictlyIncreasing(completed) && old(completed) <= completed
      ensures publishing.None? && channel.Valid()
      ensures old(channel.history) <= channel.history && NoneAfterwards(channel.history)
      ensures Activations(channel.history) == Generations(channel.swaps)
    {
      hide StrictlyIncreasing, ControlOk, HandledAll, Acknowledged;
      while true
        invariant Valid() && old(completed) <= completed && old(channel.history) <= channel.history
        decreases |channel.script| - channel.next
      {
        var ack;
        ghost var frame, activation, effects;
        failure, publishing, ack, frame, activation, effects := ServeEnvelope();
        if failure.Some? || publishing.Some? {
          return;
        }
      }
    }
  }

  lemma EmptyEnvelope(c: Control, n: nat)
    ensures HandledAll(c, n, []) == (c, n)
  {
  }
}
