/** When the byte budget of the shared dictionary can be exceeded.

  Channels run ahead of each other, so the dictionary may hold images far beyond
  the first one missing. How far is settled by two things: each channel delivers
  its ids in order, and an image is delivered only after those it refers to. A
  set of ids with both properties is a cut; its images determine a window. No
  interleaving exceeds the budget if and only if no cut's window does.
*/
module GlzBudget {
  import opened Basics
  import opened GlzFormat
  import opened GlzWindow
  import opened GlzSession
  import opened GlzLiveness
  import opened GlzCompletion

  // ---------------------------------------------------------------------------
  // Cuts
  // ---------------------------------------------------------------------------

  /** The sequential images of some ids. */
  ghost function Known(server: Server, ids: set<nat>): Dictionary
    requires Sent(server)
  {
    (j: nat) => if j in ids then Truth(server)(j) else None
  }

  /** Every image of the set decodes with only the set at hand. */
  ghost predicate Closed(server: Server, ids: set<nat>)
    requires Sent(server)
  {
    forall i :: i in ids ==> i < server.count && Grounded(server, ids, i)
  }

  ghost predicate Grounded(server: Server, ids: set<nat>, i: nat)
    requires Sent(server) && i < server.count
  {
    && Accepts(server, i)
    && Sequential(server, i).Complete?
    && Finish(HeaderOf(server, i), server.payload(i), Start(), Known(server, ids)) == Sequential(server, i)
  }

  /** Every channel has delivered its ids up to some point. */
  ghost predicate InOrder(queues: seq<seq<nat>>, ids: set<nat>) {
    forall c: nat, k: nat, l: nat :: k < l && Place(queues, c, k) && Place(queues, c, l) && queues[c][l] in ids ==>
      queues[c][k] in ids
  }

  ghost predicate Cut(server: Server, queues: seq<seq<nat>>, ids: set<nat>)
    requires Sent(server)
  {
    InOrder(queues, ids) && Closed(server, ids)
  }

  /** What has been inserted when a cut has been delivered. */
  ghost function CutLog(server: Server, ids: set<nat>): Log
    requires Sent(server) && Closed(server, ids)
  {
    map i | i in ids :: assert Grounded(server, ids, i);
      Entry(i, Sequential(server, i).pixels, HeaderOf(server, i).oldest)
  }

  /** The window of every cut is within the budget. */
  ghost predicate Roomy(server: Server, queues: seq<seq<nat>>)
    requires Sent(server)
  {
    forall ids: set<nat>, w: Window :: Cut(server, queues, ids) && Reflects(w, CutLog(server, ids)) ==>
      w.retainedBytes <= DICTIONARY_BYTES
  }

  // ---------------------------------------------------------------------------
  // Decodes under way
  // ---------------------------------------------------------------------------

  /** Decoding from `s` comes by `t`. */
  ghost predicate Reaches(h: Header, input: seq<byte>, s: State, t: State, d: Dictionary)
    requires StateOk(h, input, s)
    decreases Left(input, s)
  {
    var step := Step(h, input, s, d);
    StepProgresses(h, input, s, d);
    s == t || (step.Continue? && Reaches(h, input, step.state, t, d))
  }

  lemma {:induction false} ReachesNext(h: Header, input: seq<byte>, s: State, t: State, d: Dictionary)
    requires StateOk(h, input, s) && StateOk(h, input, t) && Reaches(h, input, s, t, d)
    ensures Finish(h, input, s, d) == Finish(h, input, t, d)
    ensures Step(h, input, t, d).Continue? ==> Reaches(h, input, s, Step(h, input, t, d).state, d)
    decreases Left(input, s)
  {
    hide Step;
    StepProgresses(h, input, s, d);
    if s != t {
      ReachesNext(h, input, Step(h, input, s, d).state, t, d);
    }
  }

  lemma {:induction false} ReachesGrows(h: Header, input: seq<byte>, s: State, t: State, d: Dictionary, e: Dictionary)
    requires StateOk(h, input, s) && Reaches(h, input, s, t, d)
    requires forall j :: d(j).Some? ==> e(j) == d(j)
    ensures Reaches(h, input, s, t, e)
    decreases Left(input, s)
  {
    hide Step, Consults;
    StepConsults(h, input, s, d, e);
    StepProgresses(h, input, s, d);
    if s != t {
      ReachesGrows(h, input, Step(h, input, s, d).state, t, d, e);
    }
  }

  /** A channel's image has been decoded with only inserted images at hand. */
  ghost predicate GroundedTask(server: Server, ids: set<nat>, t: Task)
    requires Sent(server) && TaskShape(server, t)
  {
    match t.mode
    case Decoding(state) =>
      Reaches(HeaderOf(server, t.todo[0]), server.payload(t.todo[0]), Start(), state, Known(server, ids))
    case Inserting(pixels) =>
      && Accepts(server, t.todo[0])
      && Finish(HeaderOf(server, t.todo[0]), server.payload(t.todo[0]), Start(), Known(server, ids)) == Complete(pixels)
    case _ => true
  }

  lemma GroundedGrows(server: Server, ids: set<nat>, more: set<nat>, i: nat)
    requires Sent(server) && ids <= more && i < server.count && Grounded(server, ids, i)
    ensures Grounded(server, more, i)
  {
    hide Sequential, Truth, ParseHeader, Step;
    FinishMonotone(HeaderOf(server, i), server.payload(i), Start(), Known(server, ids), Known(server, more));
  }

  lemma GroundedTaskGrows(server: Server, ids: set<nat>, more: set<nat>, t: Task)
    requires Sent(server) && ids <= more && TaskShape(server, t) && GroundedTask(server, ids, t)
    ensures GroundedTask(server, more, t)
  {
    hide Sequential, Truth, ParseHeader, Step;
    if t.mode.Decoding? {
      ReachesGrows(HeaderOf(server, t.todo[0]), server.payload(t.todo[0]), Start(), t.mode.state,
                   Known(server, ids), Known(server, more));
    } else if t.mode.Inserting? {
      FinishMonotone(HeaderOf(server, t.todo[0]), server.payload(t.todo[0]), Start(),
                     Known(server, ids), Known(server, more));
    }
  }

  // ---------------------------------------------------------------------------
  // What is inserted is always a cut
  // ---------------------------------------------------------------------------

  /** The rest of a queue, of which all before has been inserted. */
  ghost predicate Behind(queue: seq<nat>, todo: seq<nat>, ids: set<nat>) {
    && |todo| <= |queue|
    && todo == queue[|queue| - |todo|..]
    && (forall k :: 0 <= k < |queue| - |todo| ==> queue[k] in ids)
  }

  ghost predicate Delivering(server: Server, queues: seq<seq<nat>>, sys: System) {
    && Orderly(server, sys)
    && |queues| == |sys.tasks|
    && (forall c :: 0 <= c < |queues| ==> Behind(queues[c], sys.tasks[c].todo, sys.log.Keys))
    && Closed(server, sys.log.Keys)
    && (forall c :: 0 <= c < |sys.tasks| ==> GroundedTask(server, sys.log.Keys, sys.tasks[c]))
  }

  /** Whatever a step finds in the window is the sequential image of an inserted id. */
  lemma WindowIsKnown(server: Server, sys: System, h: Header, input: seq<byte>, s: State)
    requires Orderly(server, sys) && StateOk(h, input, s)
    ensures var step := Step(h, input, s, Lookup(sys.window));
      step.Missing? || step == Step(h, input, s, Known(server, sys.log.Keys))
  {
    hide Step, Consults, Sequential, StaysInWindow, ParseHeader, Accounted, Disciplined, HonestTask, Bytes, NewestHead;
    StepConsults(h, input, s, Lookup(sys.window), Known(server, sys.log.Keys));
    var looked := Consults(h, input, s);
    if looked.Some? && looked.value in sys.window.images {
      assert looked.value in sys.log.Keys;
      var pixels := sys.window.images[looked.value];
      assert looked.value < server.count && Sequential(server, looked.value) == Complete(pixels);
      assert Truth(server)(looked.value) == Some(pixels);
      assert Known(server, sys.log.Keys)(looked.value) == Some(pixels);
    }
  }

  lemma DecodeKeepsGrounded(server: Server, sys: System, c: nat)
    requires Orderly(server, sys) && c < |sys.tasks| && sys.tasks[c].mode.Decoding?
    requires GroundedTask(server, sys.log.Keys, sys.tasks[c])
    ensures var t' := Move(server, sys, c).value.tasks[c];
      TaskShape(server, t') && GroundedTask(server, sys.log.Keys, t')
  {
    MoveKeepsShape(server, sys, c);
    var t := sys.tasks[c];
    assert TaskShape(server, t);
    hide Step, Orderly, Known, ParseHeader, Reaches, Sent;
    var h, input, d := HeaderOf(server, t.todo[0]), server.payload(t.todo[0]), Known(server, sys.log.Keys);
    WindowIsKnown(server, sys, h, input, t.mode.state);
    ReachesNext(h, input, Start(), t.mode.state, d);
  }

  lemma OtherKeepsGrounded(server: Server, sys: System, c: nat)
    requires Shaped(server, sys) && c < |sys.tasks| && !sys.tasks[c].mode.Decoding?
    ensures var r := Move(server, sys, c);
      r.Some? ==> TaskShape(server, r.value.tasks[c]) && GroundedTask(server, r.value.log.Keys, r.value.tasks[c])
  {
    MoveKeepsShape(server, sys, c);
    hide AfterInsert, Known, ParseHeader, Sent;
  }

  lemma OrderlyShaped(server: Server, sys: System)
    requires Orderly(server, sys)
    ensures Sent(server) && Shaped(server, sys)
  {
  }

  lemma InsertIsGrounded(server: Server, sys: System, c: nat)
    requires Orderly(server, sys) && c < |sys.tasks| && GroundedTask(server, sys.log.Keys, sys.tasks[c])
    requires sys.tasks[c].mode.Inserting?
    ensures var t := sys.tasks[c];
      t.todo != [] && t.todo[0] < server.count && Grounded(server, sys.log.Keys, t.todo[0])
  {
    assert TaskShape(server, sys.tasks[c]) && HonestTask(server, sys.tasks[c]);
    hide Orderly, Known, Sequential, ParseHeader, Sent;
  }

  /** An insertion adds one id; no other step changes the log. */
  lemma LogGrows(server: Server, sys: System, c: nat)
    requires Orderly(server, sys) && c < |sys.tasks|
    ensures var r := Move(server, sys, c);
      && (sys.tasks[c].mode.Inserting? ==>
            && r.Some? && sys.tasks[c].todo != []
            && r.value.log.Keys == sys.log.Keys + {sys.tasks[c].todo[0]})
      && (r.Some? && !sys.tasks[c].mode.Inserting? ==> r.value.log == sys.log)
  {
    hide Step, AfterInsert, ParseHeader, Orderly, Sent, Reflects, LogTrue;
    OrderlyShaped(server, sys);
    assert TaskShape(server, sys.tasks[c]);
    if sys.tasks[c].mode.Inserting? {
      InsertSucceeds(server, sys, c);
    }
  }

  lemma AnnouncedIsLogged(server: Server, sys: System, c: nat)
    requires Orderly(server, sys) && c < |sys.tasks| && sys.tasks[c].mode.Notifying?
    ensures sys.tasks[c].todo != [] && sys.tasks[c].todo[0] in sys.log.Keys
  {
    assert TaskShape(server, sys.tasks[c]);
  }

  /** A list changes when its first image, which has been inserted, is announced. */
  lemma TodoNext(server: Server, sys: System, c: nat)
    requires Orderly(server, sys) && c < |sys.tasks|
    ensures var r := Move(server, sys, c);
      var todo := sys.tasks[c].todo;
      r.Some? && |r.value.tasks| == |sys.tasks| ==>
        || r.value.tasks[c].todo == todo
        || (todo != [] && r.value.tasks[c].todo == todo[1..] && todo[0] in sys.log.Keys)
  {
    hide Step, AfterInsert, ParseHeader, Orderly, Sent;
    OrderlyShaped(server, sys);
    if sys.tasks[c].mode.Notifying? {
      AnnouncedIsLogged(server, sys, c);
    }
  }

  lemma BehindDrops(queue: seq<nat>, todo: seq<nat>, ids: set<nat>)
    requires Behind(queue, todo, ids) && todo != [] && todo[0] in ids
    ensures Behind(queue, todo[1..], ids)
  {
    assert todo[0] == queue[|queue| - |todo|];
  }

  lemma ClosedGrows(server: Server, ids: set<nat>, i: nat)
    requires Sent(server) && Closed(server, ids) && i < server.count && Grounded(server, ids, i)
    ensures Closed(server, ids + {i})
  {
    hide Grounded;
    forall j | j in ids + {i}
      ensures j < server.count && Grounded(server, ids + {i}, j)
    {
      GroundedGrows(server, ids, ids + {i}, j);
    }
  }

  lemma BehindGrows(queue: seq<nat>, todo: seq<nat>, ids: set<nat>, more: set<nat>)
    requires Behind(queue, todo, ids) && ids <= more
    ensures Behind(queue, todo, more)
  {
  }

  lemma StepKeepsPlace(server: Server, queues: seq<seq<nat>>, sys: System, c: nat, d: nat)
    requires Delivering(server, queues, sys) && c < |sys.tasks| && d < |sys.tasks|
    requires var r := Move(server, sys, c);
      r.Some? && Shaped(server, r.value) && |r.value.tasks| == |sys.tasks| && sys.log.Keys <= r.value.log.Keys
    ensures var sys' := Move(server, sys, c).value;
      GroundedTask(server, sys'.log.Keys, sys'.tasks[d]) && Behind(queues[d], sys'.tasks[d].todo, sys'.log.Keys)
  {
    hide Move, Sent, TaskShape, Closed, GroundedTask, Behind, Orderly;
    OrderlyShaped(server, sys);
    var sys' := Move(server, sys, c).value;
    assert GroundedTask(server, sys.log.Keys, sys.tasks[d]) && Behind(queues[d], sys.tasks[d].todo, sys.log.Keys);
    if d != c {
      OthersStay(server, sys, c, d);
      GroundedTaskGrows(server, sys.log.Keys, sys'.log.Keys, sys.tasks[d]);
      BehindGrows(queues[d], sys.tasks[d].todo, sys.log.Keys, sys'.log.Keys);
    } else {
      if sys.tasks[c].mode.Decoding? {
        DecodeKeepsGrounded(server, sys, c);
        GroundedTaskGrows(server, sys.log.Keys, sys'.log.Keys, sys'.tasks[c]);
      } else {
        OtherKeepsGrounded(server, sys, c);
      }
      TodoNext(server, sys, c);
      if sys'.tasks[c].todo != sys.tasks[c].todo {
        BehindDrops(queues[c], sys.tasks[c].todo, sys.log.Keys);
      }
      BehindGrows(queues[c], sys'.tasks[c].todo, sys.log.Keys, sys'.log.Keys);
    }
  }

  lemma MoveKeepsDelivering(server: Server, queues: seq<seq<nat>>, sys: System, c: nat)
    requires Delivering(server, queues, sys) && c < |sys.tasks|
    ensures var r := Move(server, sys, c); r.Some? ==> Delivering(server, queues, r.value)
  {
    hide Move, Sent, TaskShape, Closed, GroundedTask, Behind, Orderly, Grounded;
    OrderlyShaped(server, sys);
    MoveKeepsOrderly(server, sys, c);
    MoveKeepsShape(server, sys, c);
    LogGrows(server, sys, c);
    var r := Move(server, sys, c);
    if r.Some? {
      if sys.tasks[c].mode.Inserting? {
        InsertIsGrounded(server, sys, c);
        ClosedGrows(server, sys.log.Keys, sys.tasks[c].todo[0]);
      }
      forall d | 0 <= d < |sys.tasks|
        ensures GroundedTask(server, r.value.log.Keys, r.value.tasks[d])
        ensures Behind(queues[d], r.value.tasks[d].todo, r.value.log.Keys)
      {
        StepKeepsPlace(server, queues, sys, c, d);
      }
    }
  }

  lemma BeginDelivering(server: Server, queues: seq<seq<nat>>, slots: nat)
    requires Disciplined(server) && Shared(server, queues)
    ensures Delivering(server, queues, Begin(queues, slots))
  {
    hide Orderly, Shared, Disciplined, Sent, Known;
    BeginOrderly(server, queues, slots);
    OrderlyShaped(server, Begin(queues, slots));
  }

  /** What has been inserted is a cut, and the window is that cut's. */
  lemma DeliveredIsCut(server: Server, queues: seq<seq<nat>>, sys: System)
    requires Delivering(server, queues, sys)
    ensures Cut(server, queues, sys.log.Keys) && sys.log == CutLog(server, sys.log.Keys)
    ensures Reflects(sys.window, CutLog(server, sys.log.Keys))
  {
    hide Reflects, Sequential, ParseHeader, Disciplined, HonestWindow, HonestTask, StaysInWindow, GroundedTask, Known;
    forall c: nat, k: nat, l: nat | k < l && Place(queues, c, k) && Place(queues, c, l) && queues[c][l] in sys.log.Keys
      ensures queues[c][k] in sys.log.Keys
    {
      var queue, todo := queues[c], sys.tasks[c].todo;
      assert Behind(queue, todo, sys.log.Keys);
      if l >= |queue| - |todo| {
        assert todo[l - (|queue| - |todo|)] == queue[l];
        assert !Owed(sys, c, l - (|queue| - |todo|));
      }
    }
    assert sys.log == CutLog(server, sys.log.Keys);
  }

  // ---------------------------------------------------------------------------
  // Cuts within the budget
  // ---------------------------------------------------------------------------

  /** A step that exceeds the budget leaves more in the window than it allows. */
  lemma ExceedingStep(server: Server, sys: System, c: nat)
    requires Shaped(server, sys) && c < |sys.tasks| && !BudgetExceeded(sys)
    ensures var r := Move(server, sys, c);
      r.Some? && BudgetExceeded(r.value) ==> r.value.window.retainedBytes > DICTIONARY_BYTES
  {
    hide Step, Advance, Bytes, Evict, ParseHeader, Sent;
    var r := Move(server, sys, c);
    if r.Some? && BudgetExceeded(r.value) {
      var d :| 0 <= d < |r.value.tasks| && r.value.tasks[d].mode == Stopped(OverBudget);
      assert d == c && sys.tasks[c].mode.Inserting?;
    }
  }

  lemma RoomyStep(server: Server, queues: seq<seq<nat>>, sys: System, c: nat)
    requires Delivering(server, queues, sys) && Roomy(server, queues) && c < |sys.tasks| && !BudgetExceeded(sys)
    ensures var r := Move(server, sys, c); r.Some? ==> Delivering(server, queues, r.value) && !BudgetExceeded(r.value)
  {
    hide Move, Orderly, Closed, Sent, Reflects, CutLog, Cut, BudgetExceeded, Behind, GroundedTask;
    OrderlyShaped(server, sys);
    MoveKeepsDelivering(server, queues, sys, c);
    ExceedingStep(server, sys, c);
    var r := Move(server, sys, c);
    if r.Some? {
      DeliveredIsCut(server, queues, r.value);
    }
  }

  lemma {:induction false} RoomyInterleaved(server: Server, queues: seq<seq<nat>>, sys: System, picks: seq<nat>)
    requires Delivering(server, queues, sys) && Roomy(server, queues) && !BudgetExceeded(sys)
    ensures !BudgetExceeded(Interleaved(server, sys, picks))
    decreases |picks|
  {
    hide Move, Orderly, Closed, Sent, Roomy, BudgetExceeded, Behind, GroundedTask;
    OrderlyShaped(server, sys);
    if picks != [] {
      if picks[0] >= |sys.tasks| || Move(server, sys, picks[0]).None? {
        RoomyInterleaved(server, queues, sys, picks[1..]);
      } else {
        MoveKeepsShape(server, sys, picks[0]);
        RoomyStep(server, queues, sys, picks[0]);
        RoomyInterleaved(server, queues, Move(server, sys, picks[0]).value, picks[1..]);
      }
    }
  }

  // ---------------------------------------------------------------------------
  // Whole runs
  // ---------------------------------------------------------------------------

  lemma {:induction false} RunWithin(server: Server, queues: seq<seq<nat>>, sys: System, schedule: Schedule, slots: nat)
    requires Delivering(server, queues, sys) && SlotsOk(sys, slots) && slots >= 1 && !BudgetExceeded(sys)
    ensures var final := Run(server, sys, schedule, slots);
      && (BudgetExceeded(final) ==> final.window.retainedBytes > DICTIONARY_BYTES)
      && (Roomy(server, queues) ==> !BudgetExceeded(final))
    decreases Unlogged(sys.log, server.count), Total(Announces, sys.tasks), Unsettled(server, sys)
  {
    hide Move, Orderly, Closed, Sent, Roomy, BudgetExceeded, Behind, GroundedTask, Total, Unlogged, Unsettled, SlotsOk,
      Broken, AllIdle;
    OrderlyShaped(server, sys);
    if !Broken(sys) && !AllIdle(sys) {
      var c := Pick(server, sys, schedule, slots);
      hide CanMove;
      var sys' := Move(server, sys, c).value;
      MoveKeepsShape(server, sys, c);
      MoveKeepsOrderly(server, sys, c);
      MoveKeepsSlots(server, sys, c, slots);
      MoveProgresses(server, sys, c);
      MoveKeepsDelivering(server, queues, sys, c);
      ExceedingStep(server, sys, c);
      if Roomy(server, queues) {
        RoomyStep(server, queues, sys, c);
      }
      if !BudgetExceeded(sys') {
        RunWithin(server, queues, sys', schedule, slots);
      } else {
        ExceededIsBroken(sys');
      }
    }
  }

  lemma ExceededIsBroken(sys: System)
    requires BudgetExceeded(sys)
    ensures Broken(sys)
  {
  }

  lemma NoneExceededYet(queues: seq<seq<nat>>, slots: nat)
    ensures !BudgetExceeded(Begin(queues, slots))
  {
  }

  /** A schedule that ends for want of budget has more in the window than the budget allows. */
  lemma ExceededHoldsMore(server: Server, queues: seq<seq<nat>>, slots: nat, schedule: Schedule)
    requires Disciplined(server) && Shared(server, queues) && slots >= 1
    ensures Orderly(server, Begin(queues, slots)) && SlotsOk(Begin(queues, slots), slots)
    ensures var final := Run(server, Begin(queues, slots), schedule, slots);
      BudgetExceeded(final) ==> final.window.retainedBytes > DICTIONARY_BYTES
  {
    hide Disciplined, Shared, Begin, Run, Orderly, SlotsOk, BudgetExceeded, Behind, Closed, GroundedTask, Roomy;
    BeginOrderly(server, queues, slots);
    BeginDelivering(server, queues, slots);
    NoneExceededYet(queues, slots);
    RunWithin(server, queues, Begin(queues, slots), schedule, slots);
  }

  lemma NoneRejected(server: Server, sys: System)
    requires Sent(server) && Decodes(server)
    ensures !ImageRejected(server, sys)
  {
    hide Sequential, Sent;
  }

  /** Where every image decodes and every cut is within the budget, every schedule delivers everything. */
  lemma EveryScheduleDelivers(server: Server, queues: seq<seq<nat>>, slots: nat, schedule: Schedule)
    requires Disciplined(server) && Shared(server, queues) && slots >= 1
    requires Decodes(server) && Roomy(server, queues)
    ensures Orderly(server, Begin(queues, slots)) && SlotsOk(Begin(queues, slots), slots)
    ensures var final := Run(server, Begin(queues, slots), schedule, slots);
      AllIdle(final) && final.log == SequentialLog(server) && Reflects(final.window, SequentialLog(server))
  {
    assert Sent(server);
    hide Disciplined, Shared, Begin, Run, Orderly, SlotsOk, BudgetExceeded, Behind, Closed, GroundedTask, Roomy,
      Decodes, ImageRejected, AllIdle, SequentialLog, Reflects, Sent;
    EveryScheduleCompletes(server, queues, slots, schedule);
    BeginDelivering(server, queues, slots);
    NoneExceededYet(queues, slots);
    RunWithin(server, queues, Begin(queues, slots), schedule, slots);
    NoneRejected(server, Run(server, Begin(queues, slots), schedule, slots));
  }

  // ---------------------------------------------------------------------------
  // Cuts beyond the budget
  // ---------------------------------------------------------------------------

  ghost predicate Exceeds(server: Server, sys: System)
    requires Shaped(server, sys)
  {
    exists picks :: BudgetExceeded(Interleaved(server, sys, picks))
  }

  lemma ExceedsNow(server: Server, sys: System)
    requires Shaped(server, sys) && BudgetExceeded(sys)
    ensures Exceeds(server, sys)
  {
    hide BudgetExceeded, Shaped;
    assert Interleaved(server, sys, []) == sys;
  }

  lemma ExceedsLater(server: Server, sys: System, c: nat)
    requires Shaped(server, sys) && c < |sys.tasks| && Move(server, sys, c).Some?
    requires Shaped(server, Move(server, sys, c).value) && Exceeds(server, Move(server, sys, c).value)
    ensures Exceeds(server, sys)
  {
    hide BudgetExceeded, Shaped, Move;
    var sys' := Move(server, sys, c).value;
    var picks :| BudgetExceeded(Interleaved(server, sys', picks));
    assert ([c] + picks)[1..] == picks;
    assert Interleaved(server, sys, [c] + picks) == Interleaved(server, sys', picks);
  }

  predicate Resting(t: Task) {
    t.mode.NeedSlot? || t.mode.Idle?
  }

  /** Of the cut `ids`, those below `i` have been inserted and no others, and all channels rest but `c`. */
  ghost predicate Upto(server: Server, queues: seq<seq<nat>>, sys: System, slots: nat, ids: set<nat>, i: nat, c: nat) {
    && Delivering(server, queues, sys) && SlotsOk(sys, slots) && slots >= 1
    && Cut(server, queues, ids)
    && (forall j :: j in sys.log.Keys <==> j in ids && j < i)
    && (forall d :: 0 <= d < |sys.tasks| && d != c ==> Resting(sys.tasks[d]))
  }

  /** Channel `c` is at work on image `i` of the cut, which has all it needs. */
  ghost predicate Working(server: Server, queues: seq<seq<nat>>, sys: System, slots: nat, ids: set<nat>, i: nat, c: nat)
  {
    && Upto(server, queues, sys, slots, ids, i, c)
    && i in ids && c < |sys.tasks| && sys.tasks[c].todo != [] && sys.tasks[c].todo[0] == i
  }

  lemma UptoFacts(server: Server, queues: seq<seq<nat>>, sys: System, slots: nat, ids: set<nat>, i: nat, c: nat)
    requires Upto(server, queues, sys, slots, ids, i, c)
    ensures Shaped(server, sys) && Orderly(server, sys) && |queues| == |sys.tasks|
  {
    OrderlyShaped(server, sys);
    hide Orderly, Closed, GroundedTask, Behind;
  }

  /** A step of `c` that inserts nothing leaves the others resting. */
  lemma UptoNext(server: Server, queues: seq<seq<nat>>, sys: System, slots: nat, ids: set<nat>, i: nat, c: nat)
    requires Upto(server, queues, sys, slots, ids, i, c) && c < |sys.tasks| && !sys.tasks[c].mode.Inserting?
    requires Shaped(server, sys) && Move(server, sys, c).Some?
    ensures Upto(server, queues, Move(server, sys, c).value, slots, ids, i, c)
  {
    hide Move, Orderly, Closed, GroundedTask, Behind, SlotsOk, Cut, Sent, TaskShape;
    var sys' := Move(server, sys, c).value;
    MoveKeepsDelivering(server, queues, sys, c);
    MoveKeepsSlots(server, sys, c, slots);
    MoveKeepsShape(server, sys, c);
    LogGrows(server, sys, c);
    forall d | 0 <= d < |sys.tasks| && d != c
      ensures Resting(sys'.tasks[d])
    {
      OthersStay(server, sys, c, d);
    }
  }

  /** What image `i` looks up has been inserted and is still in the window. */
  lemma StepOfCut(server: Server, queues: seq<seq<nat>>, sys: System, slots: nat, ids: set<nat>, i: nat, c: nat)
    requires Working(server, queues, sys, slots, ids, i, c) && sys.tasks[c].mode.Decoding?
    requires Shaped(server, sys) && Accepts(server, i)
    requires Finish(HeaderOf(server, i), server.payload(i), sys.tasks[c].mode.state, Known(server, ids)).Complete?
    ensures Step(HeaderOf(server, i), server.payload(i), sys.tasks[c].mode.state, Lookup(sys.window))
         == Step(HeaderOf(server, i), server.payload(i), sys.tasks[c].mode.state, Known(server, ids))
  {
    hide Step, Consults, Sequential, ParseHeader, Closed, GroundedTask, Behind, Disciplined, HonestTask, Accounted,
      LogTrue, Reflects, SlotsOk, InOrder, Truth;
    var h, input, s := HeaderOf(server, i), server.payload(i), sys.tasks[c].mode.state;
    StepConsults(h, input, s, Lookup(sys.window), Known(server, ids));
    StepConsults(h, input, s, Known(server, ids), Known(server, ids));
    var looked := Consults(h, input, s);
    if looked.Some? {
      var j := looked.value;
      assert OrderlyTask(server, sys.tasks[c]);
      assert Owed(sys, c, 0);
      NeededIsKept(server, sys, c, 0, j);
      assert j in ids && j in sys.log.Keys && j in sys.window.images;
      assert Truth(server)(j) == Some(sys.window.images[j]) by { WindowIsTrue(server, sys, j); }
    }
  }

  lemma WindowIsTrue(server: Server, sys: System, j: nat)
    requires Orderly(server, sys) && j in sys.window.images
    ensures Truth(server)(j) == Some(sys.window.images[j])
  {
    assert j < server.count && Sequential(server, j) == Complete(sys.window.images[j]);
    hide Orderly, Sequential;
  }

  lemma OwnerOf(server: Server, sys: System, i: nat) returns (c: nat, k: nat)
    requires Orderly(server, sys) && i < server.count && i !in sys.log.Keys
    ensures Owed(sys, c, k) && sys.tasks[c].todo[k] == i
  {
    hide Sequential, ParseHeader, Disciplined, HonestTask, HonestWindow, LogTrue, Reflects, StaysInWindow;
    c, k :| Owed(sys, c, k) && sys.tasks[c].todo[k] == i;
  }

  lemma OwedFacts(server: Server, sys: System, c: nat)
    requires Orderly(server, sys) && c < |sys.tasks| && sys.tasks[c].todo != [] && Resting(sys.tasks[c])
    ensures var t := sys.tasks[c];
      && t.mode.NeedSlot? && t.todo[0] !in sys.log.Keys
      && (forall k, l :: 0 <= k < l < |t.todo| ==> t.todo[k] < t.todo[l])
  {
    hide Sequential, ParseHeader, Disciplined, HonestTask, HonestWindow, LogTrue, Reflects, StaysInWindow;
    assert TaskShape(server, sys.tasks[c]) && OrderlyTask(server, sys.tasks[c]);
    assert Owed(sys, c, 0);
  }

  /** A cut that holds a later id of a list holds its first. */
  lemma HeadInCut(queues: seq<seq<nat>>, c: nat, todo: seq<nat>, ids: set<nat>, done: set<nat>, k: nat)
    requires c < |queues| && Behind(queues[c], todo, done) && InOrder(queues, ids) && k < |todo| && todo[k] in ids
    ensures todo[0] in ids
  {
    var start: nat := |queues[c]| - |todo|;
    assert Place(queues, c, start) && Place(queues, c, start + k);
    assert queues[c][start] == todo[0] && queues[c][start + k] == todo[k];
  }

  /** The channel that has the next image of the cut to deliver is waiting for a slot, and one is free. */
  lemma NextOfCut(server: Server, queues: seq<seq<nat>>, sys: System, slots: nat, ids: set<nat>, i: nat)
      returns (c: nat)
    requires Upto(server, queues, sys, slots, ids, i, |sys.tasks|) && i in ids && i < server.count
    ensures Working(server, queues, sys, slots, ids, i, c) && sys.tasks[c].mode.NeedSlot? && sys.freeSlots > 0
  {
    hide Orderly, Closed, GroundedTask, Total, Sent, TaskShape;
    var k;
    c, k := OwnerOf(server, sys, i);
    var todo := sys.tasks[c].todo;
    OwedFacts(server, sys, c);
    HeadInCut(queues, c, todo, ids, sys.log.Keys, k);
    NobodyHolds(sys.tasks);
  }

  /** An insertion fits, or stops its channel. */
  lemma InsertionEnds(server: Server, sys: System, c: nat)
    requires Orderly(server, sys) && c < |sys.tasks| && sys.tasks[c].mode.Inserting? && Shaped(server, sys)
    ensures Move(server, sys, c).Some? && |Move(server, sys, c).value.tasks| == |sys.tasks|
    ensures var sys' := Move(server, sys, c).value;
      || sys'.tasks[c].mode == Stopped(OverBudget)
      || (sys'.tasks[c] == sys.tasks[c].(mode := Notifying) && sys'.window.retainedBytes <= DICTIONARY_BYTES)
  {
    hide Orderly, ParseHeader, Sent, Reflects, LogTrue, Advance, Bytes, Evict;
    InsertSucceeds(server, sys, c);
  }

  lemma AnnouncementEnds(server: Server, sys: System, c: nat)
    requires Shaped(server, sys) && c < |sys.tasks| && sys.tasks[c].mode.Notifying?
    ensures Move(server, sys, c).Some? && |Move(server, sys, c).value.tasks| == |sys.tasks|
    ensures var sys' := Move(server, sys, c).value; Resting(sys'.tasks[c]) && sys'.window == sys.window
  {
    hide ParseHeader, Sent;
    assert TaskShape(server, sys.tasks[c]);
  }

  lemma UptoInserted(server: Server, queues: seq<seq<nat>>, sys: System, slots: nat, ids: set<nat>, i: nat, c: nat)
    requires Working(server, queues, sys, slots, ids, i, c) && Shaped(server, sys) && sys.tasks[c].mode.Inserting?
    ensures Move(server, sys, c).Some?
    ensures Upto(server, queues, Move(server, sys, c).value, slots, ids, i + 1, c)
  {
    hide Move, Orderly, Closed, GroundedTask, Behind, SlotsOk, Cut, Sent, TaskShape;
    LogGrows(server, sys, c);
    MoveKeepsDelivering(server, queues, sys, c);
    MoveKeepsSlots(server, sys, c, slots);
    MoveKeepsShape(server, sys, c);
    var sys' := Move(server, sys, c).value;
    forall d | 0 <= d < |sys.tasks| && d != c
      ensures Resting(sys'.tasks[d])
    {
      OthersStay(server, sys, c, d);
    }
  }

  /** Inserting image `i` exceeds the budget, or is announced and leaves all channels resting. */
  lemma InsertOfCut(server: Server, queues: seq<seq<nat>>, sys: System, slots: nat, ids: set<nat>, i: nat, c: nat)
    requires Working(server, queues, sys, slots, ids, i, c) && Shaped(server, sys) && sys.tasks[c].mode.Inserting?
    ensures Move(server, sys, c).Some? && Shaped(server, Move(server, sys, c).value)
    ensures var sys' := Move(server, sys, c).value;
      BudgetExceeded(sys')
      || (c < |sys'.tasks| && Move(server, sys', c).Some?
          && var sys'' := Move(server, sys', c).value;
             Upto(server, queues, sys'', slots, ids, i + 1, |sys''.tasks|) && Shaped(server, sys'')
             && sys''.window.retainedBytes <= DICTIONARY_BYTES)
  {
    hide Move, Delivering, SlotsOk, Cut, Sent, TaskShape;
    UptoFacts(server, queues, sys, slots, ids, i, c);
    UptoInserted(server, queues, sys, slots, ids, i, c);
    InsertionEnds(server, sys, c);
    MoveKeepsShape(server, sys, c);
    var sys' := Move(server, sys, c).value;
    if sys'.tasks[c].mode.Notifying? {
      AnnouncementEnds(server, sys', c);
      UptoNext(server, queues, sys', slots, ids, i + 1, c);
      MoveKeepsShape(server, sys', c);
    }
  }

  /** From here on the cut can be delivered id by id; at the latest its last image exceeds the budget. */
  lemma {:induction false} RestExceeds(server: Server, queues: seq<seq<nat>>, sys: System, slots: nat, ids: set<nat>,
                                       w: Window, i: nat)
    requires Upto(server, queues, sys, slots, ids, i, |sys.tasks|) && Shaped(server, sys) && i <= server.count
    requires sys.window.retainedBytes <= DICTIONARY_BYTES < w.retainedBytes && Reflects(w, CutLog(server, ids))
    ensures Exceeds(server, sys)
    decreases server.count - i, 3, 0
  {
    hide Exceeds, Orderly, SlotsOk, GroundedTask, Behind, Grounded, Reflects, InOrder, Sent, TaskShape;
    if i == server.count {
      assert sys.log.Keys == ids;
      DeliveredIsCut(server, queues, sys);
      ReflectsUnique(w, sys.window, sys.log);
      assert false;
    } else if i !in ids {
      RestExceeds(server, queues, sys, slots, ids, w, i + 1);
    } else {
      var c := NextOfCut(server, queues, sys, slots, ids, i);
      WantExceeds(server, queues, sys, slots, ids, w, i, c);
    }
  }

  lemma {:induction false} WantExceeds(server: Server, queues: seq<seq<nat>>, sys: System, slots: nat, ids: set<nat>,
                                       w: Window, i: nat, c: nat)
    requires Working(server, queues, sys, slots, ids, i, c) && Shaped(server, sys) && i < server.count
    requires sys.tasks[c].mode.NeedSlot? && sys.freeSlots > 0
    requires sys.window.retainedBytes <= DICTIONARY_BYTES < w.retainedBytes && Reflects(w, CutLog(server, ids))
    ensures Exceeds(server, sys)
    decreases server.count - i, 2, 0
  {
    hide Exceeds, Delivering, SlotsOk, Reflects, InOrder, Sent, Known, Sequential, ParseHeader;
    UptoNext(server, queues, sys, slots, ids, i, c);
    var sys' := Move(server, sys, c).value;
    assert sys'.tasks[c] == Task(sys.tasks[c].todo, Decoding(Start()));
    assert Grounded(server, ids, i);
    UptoFacts(server, queues, sys', slots, ids, i, c);
    DecodingExceeds(server, queues, sys', slots, ids, w, i, c);
    ExceedsLater(server, sys, c);
  }

  lemma {:induction false} DecodingExceeds(server: Server, queues: seq<seq<nat>>, sys: System, slots: nat,
                                           ids: set<nat>, w: Window, i: nat, c: nat)
    requires Working(server, queues, sys, slots, ids, i, c) && Shaped(server, sys) && i < server.count
    requires sys.tasks[c].mode.Decoding? && Accepts(server, i)
    requires Finish(HeaderOf(server, i), server.payload(i), sys.tasks[c].mode.state, Known(server, ids)).Complete?
    requires sys.window.retainedBytes <= DICTIONARY_BYTES < w.retainedBytes && Reflects(w, CutLog(server, ids))
    ensures Exceeds(server, sys)
    decreases server.count - i, 1, Left(server.payload(i), sys.tasks[c].mode.state)
  {
    hide Exceeds, Delivering, SlotsOk, Reflects, InOrder, Sent, Known, Step, ParseHeader, Closed;
    var s := sys.tasks[c].mode.state;
    StepOfCut(server, queues, sys, slots, ids, i, c);
    StepProgresses(HeaderOf(server, i), server.payload(i), s, Known(server, ids));
    UptoNext(server, queues, sys, slots, ids, i, c);
    var sys' := Move(server, sys, c).value;
    UptoFacts(server, queues, sys', slots, ids, i, c);
    if sys'.tasks[c].mode.Decoding? {
      DecodingExceeds(server, queues, sys', slots, ids, w, i, c);
    } else {
      InsertingExceeds(server, queues, sys', slots, ids, w, i, c);
    }
    ExceedsLater(server, sys, c);
  }

  lemma {:induction false} InsertingExceeds(server: Server, queues: seq<seq<nat>>, sys: System, slots: nat,
                                            ids: set<nat>, w: Window, i: nat, c: nat)
    requires Working(server, queues, sys, slots, ids, i, c) && Shaped(server, sys) && i < server.count
    requires sys.tasks[c].mode.Inserting?
    requires sys.window.retainedBytes <= DICTIONARY_BYTES < w.retainedBytes && Reflects(w, CutLog(server, ids))
    ensures Exceeds(server, sys)
    decreases server.count - i, 0, 0
  {
    hide Exceeds, Orderly, SlotsOk, GroundedTask, Behind, Reflects, Move, Closed, InOrder, Sent, TaskShape,
      BudgetExceeded;
    InsertOfCut(server, queues, sys, slots, ids, i, c);
    var sys' := Move(server, sys, c).value;
    if BudgetExceeded(sys') {
      ExceedsNow(server, sys');
    } else {
      var sys'' := Move(server, sys', c).value;
      RestExceeds(server, queues, sys'', slots, ids, w, i + 1);
      ExceedsLater(server, sys', c);
    }
    ExceedsLater(server, sys, c);
  }

  /** A cut beyond the budget can be delivered, and the budget be exceeded on the way. */
  lemma OverfullExceeds(server: Server, queues: seq<seq<nat>>, slots: nat, ids: set<nat>, w: Window)
    requires Disciplined(server) && Shared(server, queues) && slots >= 1
    requires Cut(server, queues, ids) && Reflects(w, CutLog(server, ids)) && w.retainedBytes > DICTIONARY_BYTES
    ensures Shaped(server, Begin(queues, slots)) && Exceeds(server, Begin(queues, slots))
  {
    hide Exceeds, Delivering, Cut, Reflects, SlotsOk, Disciplined, Shared, Shaped;
    var sys := Begin(queues, slots);
    BeginDelivering(server, queues, slots);
    BeginOrderly(server, queues, slots);
    OrderlyShaped(server, sys);
    hide Orderly;
    assert Upto(server, queues, sys, slots, ids, 0, |sys.tasks|);
    RestExceeds(server, queues, sys, slots, ids, w, 0);
  }

  /** No interleaving exceeds the budget if and only if every cut is within it. */
  lemma WithinBudgetIffRoomy(server: Server, queues: seq<seq<nat>>, slots: nat)
    requires Disciplined(server) && Shared(server, queues) && slots >= 1
    ensures Shaped(server, Begin(queues, slots))
    ensures Roomy(server, queues) <==> !Exceeds(server, Begin(queues, slots))
  {
    BeginOrderly(server, queues, slots);
    BeginDelivering(server, queues, slots);
    NoneExceededYet(queues, slots);
    hide Orderly, Delivering, BudgetExceeded, Cut, Reflects, Disciplined, Shared, Begin, Interleaved, SlotsOk;
    OrderlyShaped(server, Begin(queues, slots));
    if Roomy(server, queues) {
      forall picks
        ensures !BudgetExceeded(Interleaved(server, Begin(queues, slots), picks))
      {
        RoomyInterleaved(server, queues, Begin(queues, slots), picks);
      }
    } else {
      var ids: set<nat>, w: Window :|
        Cut(server, queues, ids) && Reflects(w, CutLog(server, ids)) && w.retainedBytes > DICTIONARY_BYTES;
      OverfullExceeds(server, queues, slots, ids, w);
    }
  }
}
