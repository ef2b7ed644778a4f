/** Deadlock freedom, termination and schedule independence of concurrent GLZ decoding. */
module GlzCompletion {
  import opened GlzFormat
  import opened GlzWindow
  import opened GlzSession
  import opened GlzLiveness

  // ---------------------------------------------------------------------------
  // Sums over channels
  // ---------------------------------------------------------------------------

  function Total(f: Task -> nat, tasks: seq<Task>): nat {
    if tasks == [] then 0 else f(tasks[0]) + Total(f, tasks[1..])
  }

  lemma {:induction false} TotalUpdate(f: Task -> nat, tasks: seq<Task>, c: nat, t: Task)
    requires c < |tasks|
    ensures Total(f, tasks[c := t]) + f(tasks[c]) == Total(f, tasks) + f(t)
  {
    if c == 0 {
      assert tasks[c := t][1..] == tasks[1..];
    } else {
      assert tasks[c := t][1..] == tasks[1..][c - 1 := t];
      TotalUpdate(f, tasks[1..], c - 1, t);
    }
  }

  lemma {:induction false} TotalPositive(f: Task -> nat, tasks: seq<Task>)
    requires Total(f, tasks) > 0
    ensures exists c :: 0 <= c < |tasks| && f(tasks[c]) > 0
  {
    if f(tasks[0]) == 0 {
      TotalPositive(f, tasks[1..]);
      var c :| 0 <= c < |tasks| - 1 && f(tasks[1..][c]) > 0;
      assert f(tasks[c + 1]) > 0;
    }
  }

  // ---------------------------------------------------------------------------
  // Decode slots
  // ---------------------------------------------------------------------------

  function Holds(t: Task): nat {
    if t.mode.Decoding? || t.mode.Inserting? || t.mode.Notifying? then 1 else 0
  }

  /** Every slot is free or held by a channel that is decoding, inserting or announcing. */
  ghost predicate SlotsOk(sys: System, slots: nat) {
    sys.freeSlots + Total(Holds, sys.tasks) == slots
  }

  lemma MoveKeepsSlots(server: Server, sys: System, c: nat, slots: nat)
    requires Shaped(server, sys) && c < |sys.tasks| && SlotsOk(sys, slots)
    ensures var r := Move(server, sys, c); r.Some? ==> SlotsOk(r.value, slots)
  {
    hide Step, AfterInsert, ParseHeader, Total;
    var r := Move(server, sys, c);
    if r.Some? {
      TotalUpdate(Holds, sys.tasks, c, r.value.tasks[c]);
      assert r.value.tasks == sys.tasks[c := r.value.tasks[c]];
    }
  }

  // ---------------------------------------------------------------------------
  // Somebody can move
  // ---------------------------------------------------------------------------

  ghost predicate AllIdle(sys: System) {
    forall c :: 0 <= c < |sys.tasks| ==> sys.tasks[c].mode.Idle?
  }

  ghost predicate CanMove(server: Server, sys: System, c: nat)
    requires Shaped(server, sys)
  {
    c < |sys.tasks| && Move(server, sys, c).Some?
  }

  /** A channel that wants a slot gets one, or its holder can go on. */
  lemma SlotAvailable(server: Server, sys: System, c: nat, slots: nat)
    requires Shaped(server, sys) && SlotsOk(sys, slots) && slots >= 1
    requires c < |sys.tasks| && sys.tasks[c].mode.NeedSlot?
    ensures exists d: nat :: CanMove(server, sys, d)
  {
    hide Step, AfterInsert, ParseHeader, Total;
    if sys.freeSlots > 0 {
      assert CanMove(server, sys, c);
    } else {
      TotalPositive(Holds, sys.tasks);
      var d: nat :| d < |sys.tasks| && Holds(sys.tasks[d]) > 0;
      assert CanMove(server, sys, d);
    }
  }

  /** The channel that owes the lowest missing image has all it refers to, so it is not stuck. */
  lemma LowestCanMove(server: Server, sys: System, c: nat, slots: nat)
    requires Orderly(server, sys) && SlotsOk(sys, slots) && slots >= 1 && !Broken(sys)
    requires Owed(sys, c, 0) && sys.tasks[c].todo[0] == sys.window.next
    ensures exists d: nat :: CanMove(server, sys, d)
  {
    hide Step, StaysInWindow, Sequential, ParseHeader, Accounted, HonestWindow, HonestTask, Truth,
      LogTrue, AfterInsert, Disciplined, Bytes, NewestHead, Total;
    var t := sys.tasks[c];
    assert TaskShape(server, t) && OrderlyTask(server, t) && AwakeTask(sys, t);
    if t.mode.NeedSlot? {
      SlotAvailable(server, sys, c, slots);
    } else if t.mode.Blocked? && t.mode.seen == sys.version {
      NeededIsKept(server, sys, c, 0, t.mode.missing);
      var d: nat :| d < |sys.tasks| && sys.tasks[d].mode.Notifying?;
      assert CanMove(server, sys, d);
    } else {
      assert CanMove(server, sys, c);
    }
  }

  /** Deadlock freedom: while an image is owed and nothing has failed, some channel can move. */
  lemma SomebodyCanMove(server: Server, sys: System, slots: nat)
    requires Orderly(server, sys) && SlotsOk(sys, slots) && slots >= 1 && !Broken(sys) && !AllIdle(sys)
    ensures exists c: nat :: CanMove(server, sys, c)
  {
    hide Step, StaysInWindow, Sequential, ParseHeader, HonestWindow, HonestTask, Truth,
      LogTrue, AfterInsert, Disciplined, Bytes, NewestHead, Total, AwakeTask;
    var next := sys.window.next;
    if next < server.count {
      assert next !in sys.log;
      var c: nat, k: nat :| Owed(sys, c, k) && sys.tasks[c].todo[k] == next;
      if k == 0 {
        LowestCanMove(server, sys, c, slots);
      } else {
        EarlierIsPaid(server, sys, c, k);
        assert CanMove(server, sys, c);
      }
    } else {
      var c: nat :| c < |sys.tasks| && !sys.tasks[c].mode.Idle?;
      assert !sys.tasks[c].mode.Stopped?;
      assert TaskShape(server, sys.tasks[c]);
      assert sys.tasks[c].todo[0] in sys.log;
      assert !Owed(sys, c, 0);
      assert CanMove(server, sys, c);
    }
  }

  /** A channel that owes the lowest missing image second has just inserted its first. */
  lemma EarlierIsPaid(server: Server, sys: System, c: nat, k: nat)
    requires Orderly(server, sys) && !Broken(sys) && Owed(sys, c, k) && k > 0
    requires sys.tasks[c].todo[k] == sys.window.next
    ensures sys.tasks[c].mode.Notifying?
  {
    hide StaysInWindow, Sequential, ParseHeader, HonestWindow, HonestTask, Truth,
      LogTrue, Disciplined, Bytes, NewestHead, AwakeTask;
    assert OrderlyTask(server, sys.tasks[c]);
    assert sys.tasks[c].todo[0] < sys.window.next;
    assert sys.tasks[c].todo[0] in sys.log;
    assert !Owed(sys, c, 0);
  }

  // ---------------------------------------------------------------------------
  // Every run ends
  // ---------------------------------------------------------------------------

  /** Images below `n` that are not in the log. */
  ghost function Unlogged(log: Log, n: nat): nat {
    if n == 0 then 0 else Unlogged(log, n - 1) + if n - 1 in log then 0 else 1
  }

  lemma {:induction false} LoggingCounts(log: Log, e: Entry, n: nat)
    requires e.id !in log
    ensures Unlogged(log[e.id := e], n) == Unlogged(log, n) - if e.id < n then 1 else 0
  {
    if n > 0 {
      LoggingCounts(log, e, n - 1);
    }
  }

  function Announces(t: Task): nat {
    if t.mode.Notifying? then 1 else 0
  }

  /** An upper bound on the steps of one decode of the channel's current image. */
  function Budget(server: Server, t: Task): nat {
    if t.todo == [] then 0 else 2 * |server.payload(t.todo[0])| + 1
  }

  /** How many steps a channel can still take before a new image is inserted or announced. */
  function Weight(server: Server, images: map<nat, seq<Pixel>>, version: nat, t: Task): nat {
    match t.mode
    case NeedSlot => Budget(server, t) + 5
    case Decoding(state) =>
      4 + if t.todo != [] && state.offset <= |server.payload(t.todo[0])|
          then Left(server.payload(t.todo[0]), state) else 0
    case Releasing(id) => if id in images then Budget(server, t) + 8 else 3
    case Checking(id, seen) =>
      if id in images then Budget(server, t) + 6 else if seen == version then 2 else 4
    case Blocked(id, seen) =>
      if id in images then Budget(server, t) + 7 else if seen == version then 1 else 3
    case Inserting(_) => 3
    case _ => 0
  }

  ghost function Unsettled(server: Server, sys: System): nat {
    Total(t => Weight(server, sys.window.images, sys.version, t), sys.tasks)
  }

  /** One step of a channel that neither inserts nor announces makes it lighter. */
  lemma TaskGetsLighter(server: Server, sys: System, c: nat)
    requires Orderly(server, sys) && c < |sys.tasks|
    requires !sys.tasks[c].mode.Inserting? && !sys.tasks[c].mode.Notifying?
    ensures var r := Move(server, sys, c);
      r.Some? ==>
        && |r.value.tasks| == |sys.tasks|
        && Weight(server, sys.window.images, sys.version, r.value.tasks[c])
           < Weight(server, sys.window.images, sys.version, sys.tasks[c])
  {
    hide Step, StaysInWindow, Sequential, ParseHeader, Reflects, Accounted, HonestWindow, HonestTask, Truth,
      LogTrue, AfterInsert, Disciplined, Consults;
    var t := sys.tasks[c];
    assert TaskShape(server, t);
    if t.mode.Decoding? {
      var i := t.todo[0];
      var h, input := HeaderOf(server, i), server.payload(i);
      DecodeStays(server, sys, c);
      StepProgresses(h, input, t.mode.state, Lookup(sys.window));
      StepConsults(h, input, t.mode.state, Lookup(sys.window), Lookup(sys.window));
    } else if t.mode.Checking? {
      WaitIsAnswered(server, sys, c);
    }
  }

  /** Termination: every step of every channel lowers (images owed, announcements due, unsettled work). */
  lemma MoveProgresses(server: Server, sys: System, c: nat)
    requires Orderly(server, sys) && CanMove(server, sys, c)
    ensures var sys' := Move(server, sys, c).value;
      var owed, owed' := Unlogged(sys.log, server.count), Unlogged(sys'.log, server.count);
      var due, due' := Total(Announces, sys.tasks), Total(Announces, sys'.tasks);
      || owed' < owed
      || (owed' == owed && due' < due)
      || (owed' == owed && due' == due && Unsettled(server, sys') < Unsettled(server, sys))
  {
    hide Step, StaysInWindow, Sequential, ParseHeader, Reflects, Accounted, HonestWindow, HonestTask, Truth,
      LogTrue, AfterInsert, Disciplined, Total, Weight, AwakeTask, OrderlyTask;
    var sys' := Move(server, sys, c).value;
    var t := sys.tasks[c];
    assert TaskShape(server, t);
    if t.mode.Inserting? {
      InsertSucceeds(server, sys, c);
      LoggingCounts(sys.log, Entry(t.todo[0], t.mode.pixels, HeaderOf(server, t.todo[0]).oldest), server.count);
    } else if t.mode.Notifying? {
      TotalUpdate(Announces, sys.tasks, c, sys'.tasks[c]);
    } else {
      MoveGoesOn(server, sys, c);
      TaskGetsLighter(server, sys, c);
      TotalUpdate(Announces, sys.tasks, c, sys'.tasks[c]);
      TotalUpdate(u => Weight(server, sys.window.images, sys.version, u), sys.tasks, c, sys'.tasks[c]);
    }
  }

  // ---------------------------------------------------------------------------
  // Whole runs
  // ---------------------------------------------------------------------------

  /** A scheduler names the channel to move next; it is ignored where that channel cannot move. */
  type Schedule = System -> nat

  ghost function Pick(server: Server, sys: System, schedule: Schedule, slots: nat): (c: nat)
    requires Orderly(server, sys) && SlotsOk(sys, slots) && slots >= 1 && !Broken(sys) && !AllIdle(sys)
    ensures CanMove(server, sys, c)
  {
    if CanMove(server, sys, schedule(sys)) then schedule(sys)
    else
      SomebodyCanMove(server, sys, slots);
      var c: nat :| CanMove(server, sys, c);
      c
  }

  /** Runs until every channel is idle or one has failed. */
  ghost function Run(server: Server, sys: System, schedule: Schedule, slots: nat): (final: System)
    requires Orderly(server, sys) && SlotsOk(sys, slots) && slots >= 1
    ensures Orderly(server, final) && (Broken(final) || AllIdle(final))
    decreases Unlogged(sys.log, server.count), Total(Announces, sys.tasks), Unsettled(server, sys)
  {
    if Broken(sys) || AllIdle(sys) then sys
    else
      var c := Pick(server, sys, schedule, slots);
      MoveKeepsOrderly(server, sys, c);
      MoveKeepsSlots(server, sys, c, slots);
      MoveProgresses(server, sys, c);
      Run(server, Move(server, sys, c).value, schedule, slots)
  }

  /** The channels' queues share the ids of the session, each in increasing order. */
  ghost predicate Shared(server: Server, queues: seq<seq<nat>>) {
    && (forall c :: 0 <= c < |queues| ==> Ascending(server, queues[c]))
    && (forall i :: 0 <= i < server.count ==> Assigned(queues, i))
    && (forall c: nat, k: nat, d: nat, l: nat ::
          Place(queues, c, k) && Place(queues, d, l) && queues[c][k] == queues[d][l] ==> c == d && k == l)
  }

  predicate Place(queues: seq<seq<nat>>, c: nat, k: nat) {
    c < |queues| && k < |queues[c]|
  }

  ghost predicate Assigned(queues: seq<seq<nat>>, i: int) {
    exists c: nat, k: nat :: Place(queues, c, k) && queues[c][k] == i
  }

  ghost predicate Ascending(server: Server, queue: seq<nat>) {
    && (forall k :: 0 <= k < |queue| ==> queue[k] < server.count)
    && (forall k, l :: 0 <= k < l < |queue| ==> queue[k] < queue[l])
  }

  lemma BeginAccounted(server: Server, queues: seq<seq<nat>>, slots: nat)
    requires Shared(server, queues)
    ensures Accounted(server, Begin(queues, slots))
  {
    var sys := Begin(queues, slots);
    assert forall c: nat, k: nat :: Owed(sys, c, k) <==> Place(queues, c, k);
    forall i | 0 <= i < server.count && i !in sys.log
      ensures exists c: nat, k: nat :: Owed(sys, c, k) && sys.tasks[c].todo[k] == i
    {
      assert Assigned(queues, i);
      var c: nat, k: nat :| Place(queues, c, k) && queues[c][k] == i;
      assert Owed(sys, c, k) && sys.tasks[c].todo[k] == i;
    }
  }

  lemma BeginTasks(server: Server, queues: seq<seq<nat>>, slots: nat)
    requires Sent(server) && Shared(server, queues)
    ensures var sys := Begin(queues, slots);
      && Shaped(server, sys)
      && (forall c :: 0 <= c < |sys.tasks| ==>
            && HonestTask(server, sys.tasks[c]) && OrderlyTask(server, sys.tasks[c])
            && AwakeTask(sys, sys.tasks[c]) && Holds(sys.tasks[c]) == 0)
  {
    hide Sent, StaysInWindow, Sequential, ParseHeader;
    var sys := Begin(queues, slots);
    forall c | 0 <= c < |sys.tasks|
      ensures TaskShape(server, sys.tasks[c]) && OrderlyTask(server, sys.tasks[c])
    {
      assert Ascending(server, queues[c]);
    }
  }

  lemma DisciplinedSent(server: Server)
    requires Disciplined(server)
    ensures Sent(server)
  {
    hide StaysInWindow, Sequential, ParseHeader;
  }

  lemma BeginInvariant(server: Server, queues: seq<seq<nat>>, slots: nat)
    requires Disciplined(server) && Sent(server) && Shared(server, queues)
    ensures Orderly(server, Begin(queues, slots))
  {
    hide StaysInWindow, Sequential, ParseHeader, Accounted, Disciplined, Shared, HonestTask, OrderlyTask, AwakeTask,
      Shaped, Sent, Reflects;
    BeginTasks(server, queues, slots);
    BeginAccounted(server, queues, slots);
    EmptyReflects();
  }

  lemma BeginOrderly(server: Server, queues: seq<seq<nat>>, slots: nat)
    requires Disciplined(server) && Shared(server, queues)
    ensures Orderly(server, Begin(queues, slots)) && SlotsOk(Begin(queues, slots), slots)
  {
    hide Orderly, Disciplined, Shared, Shaped, Sent, HonestTask, OrderlyTask, AwakeTask, Holds, Total;
    DisciplinedSent(server);
    BeginInvariant(server, queues, slots);
    BeginTasks(server, queues, slots);
    NobodyHolds(Begin(queues, slots).tasks);
  }

  lemma {:induction false} NobodyHolds(tasks: seq<Task>)
    requires forall c :: 0 <= c < |tasks| ==> Holds(tasks[c]) == 0
    ensures Total(Holds, tasks) == 0
  {
    if tasks != [] {
      NobodyHolds(tasks[1..]);
    }
  }

  /** The sequential decoder decodes every image. */
  ghost predicate Decodes(server: Server)
    requires Sent(server)
  {
    forall i :: 0 <= i < server.count ==> Sequential(server, i).Complete?
  }

  /** What the sequential decoder would have logged. */
  ghost function SequentialLog(server: Server): Log
    requires Sent(server) && Decodes(server)
  {
    map i | 0 <= i < server.count :: Entry(i, Sequential(server, i).pixels, HeaderOf(server, i).oldest)
  }

  lemma IdleMeansDone(server: Server, sys: System)
    requires Orderly(server, sys) && AllIdle(sys)
    ensures Decodes(server) && sys.log == SequentialLog(server)
  {
    hide StaysInWindow, Sequential, ParseHeader, Reflects, HonestWindow, HonestTask, AwakeTask;
    assert forall c: nat, k: nat :: !Owed(sys, c, k) by {
      assert forall c :: 0 <= c < |sys.tasks| ==> TaskShape(server, sys.tasks[c]);
    }
    assert forall i :: 0 <= i < server.count ==> i in sys.log;
    assert sys.log.Keys == SequentialLog(server).Keys;
  }

  ghost predicate BudgetExceeded(sys: System) {
    exists c :: 0 <= c < |sys.tasks| && sys.tasks[c].mode == Stopped(OverBudget)
  }

  ghost predicate ImageRejected(server: Server, sys: System)
    requires Sent(server)
  {
    exists c :: 0 <= c < |sys.tasks| && RejectedImage(server, sys.tasks[c])
  }

  /** A session ends early only for one of two reasons. */
  lemma BrokenHasReason(server: Server, sys: System)
    requires Orderly(server, sys) && Broken(sys)
    ensures BudgetExceeded(sys) || ImageRejected(server, sys)
  {
    hide StaysInWindow, Sequential, ParseHeader, Reflects, HonestWindow, HonestTask, AwakeTask, Accounted,
      RejectedImage;
    var c :| 0 <= c < |sys.tasks| && sys.tasks[c].mode.Stopped?;
    assert OrderlyTask(server, sys.tasks[c]);
    assert sys.tasks[c].mode == Stopped(OverBudget) || RejectedImage(server, sys.tasks[c]);
  }

  /** Every schedule ends: with the byte budget exceeded, or at an image that the sequential decoder
      rejects too, or with every image delivered as that decoder gives it and the window that a
      sequential session leaves. */
  lemma EveryScheduleCompletes(server: Server, queues: seq<seq<nat>>, slots: nat, schedule: Schedule)
    requires Disciplined(server) && Shared(server, queues) && slots >= 1
    ensures Orderly(server, Begin(queues, slots)) && SlotsOk(Begin(queues, slots), slots)
    ensures var final := Run(server, Begin(queues, slots), schedule, slots);
      || BudgetExceeded(final)
      || ImageRejected(server, final)
      || (AllIdle(final) && Decodes(server) && final.log == SequentialLog(server)
          && Reflects(final.window, SequentialLog(server)))
  {
    hide StaysInWindow, Sequential, ParseHeader, Reflects, HonestWindow, HonestTask, AwakeTask, Run, Begin,
      SequentialLog, Accounted, RejectedImage, Decodes;
    BeginOrderly(server, queues, slots);
    var final := Run(server, Begin(queues, slots), schedule, slots);
    if AllIdle(final) {
      IdleMeansDone(server, final);
    } else {
      BrokenHasReason(server, final);
    }
  }

  /** Two schedules, two ways of sharing the ids, even two slot counts: the same final window. */
  lemma ScheduleIndependent(server: Server, q1: seq<seq<nat>>, q2: seq<seq<nat>>, s1: nat, s2: nat,
                            schedule1: Schedule, schedule2: Schedule)
    requires Disciplined(server) && Shared(server, q1) && Shared(server, q2) && s1 >= 1 && s2 >= 1
    ensures Orderly(server, Begin(q1, s1)) && SlotsOk(Begin(q1, s1), s1)
    ensures Orderly(server, Begin(q2, s2)) && SlotsOk(Begin(q2, s2), s2)
    ensures var f1 := Run(server, Begin(q1, s1), schedule1, s1);
      var f2 := Run(server, Begin(q2, s2), schedule2, s2);
      !Broken(f1) && !Broken(f2) ==> f1.log == f2.log && f1.window == f2.window.(lastCleared := f1.window.lastCleared)
  {
    hide StaysInWindow, Sequential, ParseHeader, Reflects, Run, Begin, SequentialLog, Orderly, Disciplined, SlotsOk,
      Decodes, Sent, Shared, Broken;
    DisciplinedSent(server);
    EveryScheduleCompletes(server, q1, s1, schedule1);
    EveryScheduleCompletes(server, q2, s2, schedule2);
    var f1 := Run(server, Begin(q1, s1), schedule1, s1);
    var f2 := Run(server, Begin(q2, s2), schedule2, s2);
    if !Broken(f1) && !Broken(f2) {
      assert AllIdle(f1) && AllIdle(f2);
      ReflectsUnique(f1.window, f2.window, SequentialLog(server));
    }
  }
}
