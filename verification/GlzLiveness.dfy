/** No needed image is evicted, no channel waits for ever, and every schedule ends the same way.

  The server is taken to be disciplined: window heads do not move back, and
  references stay inside the window. Images need not decode; one that does not
  ends the session. Channels share the ids between them, each in increasing
  order.
*/
module GlzLiveness {
  import opened Basics
  import opened GlzFormat
  import opened GlzWindow
  import opened GlzSession

  // ---------------------------------------------------------------------------
  // Discipline
  // ---------------------------------------------------------------------------

  /** Every dictionary image consulted from a state on is at or after the window head. */
  ghost predicate StaysInWindow(h: Header, input: seq<byte>, s: State, dictionary: Dictionary)
    requires StateOk(h, input, s)
    decreases Left(input, s)
  {
    var step := Step(h, input, s, dictionary);
    StepProgresses(h, input, s, dictionary);
    && (Consults(h, input, s).Some? ==> h.oldest <= Consults(h, input, s).value)
    && (step.Continue? ==> StaysInWindow(h, input, step.state, dictionary))
  }

  ghost predicate Disciplined(server: Server) {
    && Sent(server)
    && (forall i, j :: 0 <= i <= j < server.count ==> HeaderOf(server, i).oldest <= HeaderOf(server, j).oldest)
    && (forall i :: 0 <= i < server.count ==>
          StaysInWindow(HeaderOf(server, i), server.payload(i), Start(), Truth(server)))
  }

  // ---------------------------------------------------------------------------
  // The invariant
  // ---------------------------------------------------------------------------

  /** The decode under way will keep to its window; a wait is for an earlier image inside it. */
  ghost predicate OrderlyTask(server: Server, t: Task)
    requires Sent(server) && TaskShape(server, t)
  {
    && (forall k, l :: 0 <= k < l < |t.todo| ==> t.todo[k] < t.todo[l])
    && match t.mode
       case Decoding(state) =>
         StaysInWindow(HeaderOf(server, t.todo[0]), server.payload(t.todo[0]), state, Truth(server))
       case Releasing(id) => Earlier(server, id, t.todo[0])
       case Checking(id, _) => Earlier(server, id, t.todo[0])
       case Blocked(id, _) => Earlier(server, id, t.todo[0])
       case Stopped(reason) => reason == OverBudget || RejectedImage(server, t)
       case _ => true
  }

  /** The channel stopped at an image that the sequential decoder rejects too. */
  ghost predicate RejectedImage(server: Server, t: Task)
    requires Sent(server)
  {
    t.mode == Stopped(Malformed) && t.todo != [] && t.todo[0] < server.count && Sequential(server, t.todo[0]).Fail?
  }

  ghost predicate Earlier(server: Server, id: nat, i: nat)
    requires Sent(server) && i < server.count
  {
    assert Accepts(server, i);
    HeaderOf(server, i).oldest <= id < i
  }

  /** A channel whose first image has been inserted. */
  predicate Paid(mode: Mode) {
    mode.Notifying? || mode == Stopped(OverBudget)
  }

  /** Position `k` of channel `c` has not been inserted. */
  ghost predicate Owed(sys: System, c: nat, k: nat) {
    c < |sys.tasks| && k < |sys.tasks[c].todo| && !(Paid(sys.tasks[c].mode) && k == 0)
  }

  ghost predicate LogTrue(server: Server, log: Log)
    requires Sent(server)
  {
    forall id :: id in log ==>
      && id < server.count
      && Accepts(server, id)
      && log[id].id == id
      && log[id].oldest == HeaderOf(server, id).oldest
      && Sequential(server, id) == Complete(log[id].pixels)
  }

  /** Every image is either logged or owed by exactly one channel. */
  ghost predicate Accounted(server: Server, sys: System) {
    && (forall c: nat, k: nat :: Owed(sys, c, k) ==> sys.tasks[c].todo[k] !in sys.log)
    && (forall c :: 0 <= c < |sys.tasks| && sys.tasks[c].mode.Notifying? && sys.tasks[c].todo != [] ==>
          sys.tasks[c].todo[0] in sys.log)
    && (forall i :: 0 <= i < server.count && i !in sys.log ==>
          exists c: nat, k: nat :: Owed(sys, c, k) && sys.tasks[c].todo[k] == i)
    && (forall c: nat, k: nat, d: nat, l: nat ::
          Owed(sys, c, k) && Owed(sys, d, l) && sys.tasks[c].todo[k] == sys.tasks[d].todo[l] ==> c == d && k == l)
  }

  ghost predicate Notified(sys: System) {
    exists d :: 0 <= d < |sys.tasks| && sys.tasks[d].mode.Notifying?
  }

  /** A channel has failed, and with it the session. */
  ghost predicate Broken(sys: System) {
    exists d :: 0 <= d < |sys.tasks| && sys.tasks[d].mode.Stopped?
  }

  /** No change is missed: a blocked channel's image is absent, or news of it is on the way. */
  ghost predicate AwakeTask(sys: System, t: Task) {
    match t.mode
    case Checking(_, seen) => seen <= sys.version
    case Blocked(id, seen) =>
      && seen <= sys.version
      && (id in sys.window.images ==> seen < sys.version || Notified(sys) || Broken(sys))
    case _ => true
  }

  ghost predicate Orderly(server: Server, sys: System) {
    && Disciplined(server)
    && Honest(server, sys)
    && Reflects(sys.window, sys.log)
    && LogTrue(server, sys.log)
    && Accounted(server, sys)
    && (forall c :: 0 <= c < |sys.tasks| ==> OrderlyTask(server, sys.tasks[c]))
    && (forall c :: 0 <= c < |sys.tasks| ==> AwakeTask(sys, sys.tasks[c]))
  }

  // ---------------------------------------------------------------------------
  // Eviction is safe
  // ---------------------------------------------------------------------------

  /** Eviction follows the contiguous prefix, so it stays at or below every head still to come. */
  lemma {:induction false} HeadsBelow(server: Server, log: Log, n: nat, i: nat)
    requires Disciplined(server) && i < server.count && n <= i
    requires forall k :: 0 <= k < n ==>
      k in log && k < server.count && Accepts(server, k) && log[k].oldest == HeaderOf(server, k).oldest
    ensures NewestHead(log, n) <= HeaderOf(server, i).oldest
  {
    hide Sequential, StaysInWindow, ParseHeader;
    if n > 0 {
      HeadsBelow(server, log, n - 1, i);
      assert HeaderOf(server, n - 1).oldest <= HeaderOf(server, i).oldest;
    }
  }

  /** Nothing an image still owed may refer to has been evicted. */
  lemma NeededIsKept(server: Server, sys: System, c: nat, k: nat, id: nat)
    requires Orderly(server, sys) && Owed(sys, c, k)
    requires Earlier(server, id, sys.tasks[c].todo[k])
    ensures sys.window.oldest <= id
    ensures id in sys.log ==> id in sys.window.images
  {
    hide Sequential, StaysInWindow, ParseHeader, Bytes, NewestHead, HonestTask, HonestWindow;
    var i := sys.tasks[c].todo[k];
    assert i !in sys.log;
    assert sys.window.next <= i;
    HeadsBelow(server, sys.log, sys.window.next, i);
  }

  // ---------------------------------------------------------------------------
  // The invariant is kept
  // ---------------------------------------------------------------------------

  /** A channel that changes what it does, but not what it owes, leaves the accounts alone. */
  lemma SameDebts(server: Server, sys: System, sys': System, c: nat, mode: Mode)
    requires Accounted(server, sys) && c < |sys.tasks|
    requires sys'.log == sys.log && sys'.tasks == sys.tasks[c := sys.tasks[c].(mode := mode)]
    requires !Paid(sys.tasks[c].mode) && !Paid(mode)
    ensures Accounted(server, sys')
  {
    assert forall d: nat, k: nat :: Owed(sys', d, k) <==> Owed(sys, d, k);
    assert forall d :: 0 <= d < |sys.tasks| ==> sys'.tasks[d].todo == sys.tasks[d].todo;
    forall i | 0 <= i < server.count && i !in sys'.log
      ensures exists d: nat, k: nat :: Owed(sys', d, k) && sys'.tasks[d].todo[k] == i
    {
      var d: nat, k: nat :| Owed(sys, d, k) && sys.tasks[d].todo[k] == i;
      assert Owed(sys', d, k) && sys'.tasks[d].todo[k] == i;
    }
  }

  /** Inserting the image a channel owes moves it from the debts to the log. */
  lemma DebtPaid(server: Server, sys: System, sys': System, c: nat, mode: Mode, e: Entry)
    requires Accounted(server, sys) && c < |sys.tasks| && sys.tasks[c].todo != []
    requires !Paid(sys.tasks[c].mode) && Paid(mode) && e.id == sys.tasks[c].todo[0]
    requires sys'.log == sys.log[e.id := e] && sys'.tasks == sys.tasks[c := sys.tasks[c].(mode := mode)]
    ensures Accounted(server, sys')
  {
    assert Owed(sys, c, 0);
    assert forall d: nat, k: nat :: Owed(sys', d, k) <==> Owed(sys, d, k) && !(d == c && k == 0);
    assert forall d :: 0 <= d < |sys.tasks| ==> sys'.tasks[d].todo == sys.tasks[d].todo;
    forall i | 0 <= i < server.count && i !in sys'.log
      ensures exists d: nat, k: nat :: Owed(sys', d, k) && sys'.tasks[d].todo[k] == i
    {
      var d: nat, k: nat :| Owed(sys, d, k) && sys.tasks[d].todo[k] == i;
      assert Owed(sys', d, k) && sys'.tasks[d].todo[k] == i;
    }
  }

  /** Going on to the next image leaves the debts as they are. */
  lemma NextDebt(server: Server, sys: System, sys': System, c: nat, t': Task)
    requires Accounted(server, sys) && c < |sys.tasks| && sys.tasks[c].todo != []
    requires sys.tasks[c].mode.Notifying? && !Paid(t'.mode) && t'.todo == sys.tasks[c].todo[1..]
    requires sys'.log == sys.log && sys'.tasks == sys.tasks[c := t']
    ensures Accounted(server, sys')
  {
    assert forall d: nat, k: nat :: Owed(sys', d, k) <==> Owed(sys, d, if d == c then k + 1 else k);
    assert forall d: nat, k: nat :: Owed(sys', d, k) ==>
      sys'.tasks[d].todo[k] == sys.tasks[d].todo[if d == c then k + 1 else k];
    forall i | 0 <= i < server.count && i !in sys'.log
      ensures exists d: nat, k: nat :: Owed(sys', d, k) && sys'.tasks[d].todo[k] == i
    {
      var d: nat, k: nat :| Owed(sys, d, k) && sys.tasks[d].todo[k] == i;
      var k' := if d == c then k - 1 else k;
      assert Owed(sys', d, k') && sys'.tasks[d].todo[k'] == i;
    }
  }

  /** A decode that keeps to its window goes on doing so, and what it misses lies inside the window. */
  lemma DecodeStays(server: Server, sys: System, c: nat)
    requires Orderly(server, sys) && c < |sys.tasks| && sys.tasks[c].mode.Decoding?
    ensures var i := sys.tasks[c].todo[0];
      var h, input := HeaderOf(server, i), server.payload(i);
      var step := Step(h, input, sys.tasks[c].mode.state, Lookup(sys.window));
      && (step.Continue? ==> StaysInWindow(h, input, step.state, Truth(server)))
      && (step.Missing? ==> Earlier(server, step.id, i))
      && (step.Fail? ==> Sequential(server, i).Fail?)
  {
    hide Step, Consults, Sequential, ParseHeader, Reflects, Accounted, HonestWindow, Truth, LogTrue;
    var t := sys.tasks[c];
    var i := t.todo[0];
    var h, input := HeaderOf(server, i), server.payload(i);
    assert HonestTask(server, t) && OrderlyTask(server, t);
    HonestStep(server, sys.window, h, input, t.mode.state);
    StepConsults(h, input, t.mode.state, Lookup(sys.window), Truth(server));
  }

  /** A wait is never answered by an eviction. */
  lemma WaitIsAnswered(server: Server, sys: System, c: nat)
    requires Orderly(server, sys) && c < |sys.tasks| && sys.tasks[c].mode.Checking?
    ensures sys.window.oldest <= sys.tasks[c].mode.missing
  {
    hide Sequential, StaysInWindow, ParseHeader, Reflects, HonestTask, HonestWindow, Accounted, LogTrue;
    var t := sys.tasks[c];
    assert TaskShape(server, t) && OrderlyTask(server, t);
    assert Owed(sys, c, 0);
    NeededIsKept(server, sys, c, 0, t.mode.missing);
  }

  lemma StartStays(server: Server, sys: System, c: nat)
    requires Orderly(server, sys) && c < |sys.tasks| && sys.tasks[c].mode.NeedSlot?
    ensures var i := sys.tasks[c].todo[0];
      StaysInWindow(HeaderOf(server, i), server.payload(i), Start(), Truth(server))
  {
    hide Sequential, StaysInWindow, ParseHeader, Reflects, HonestTask, HonestWindow, Accounted, LogTrue, OrderlyTask;
    assert TaskShape(server, sys.tasks[c]);
  }

  lemma MoveKeepsOrderlyTask(server: Server, sys: System, c: nat)
    requires Orderly(server, sys) && c < |sys.tasks|
    ensures var r := Move(server, sys, c);
      r.Some? ==> Shaped(server, r.value) && |r.value.tasks| == |sys.tasks| && OrderlyTask(server, r.value.tasks[c])
  {
    hide Step, StaysInWindow, Sequential, ParseHeader, Reflects, Accounted, HonestWindow, HonestTask, Truth,
      LogTrue, AfterInsert, AwakeTask, Disciplined;
    MoveKeepsShape(server, sys, c);
    var t := sys.tasks[c];
    assert TaskShape(server, t) && OrderlyTask(server, t);
    match t.mode
    case Decoding(_) => DecodeStays(server, sys, c);
    case Checking(_, _) => WaitIsAnswered(server, sys, c);
    case Inserting(_) => InsertSucceeds(server, sys, c);
    case NeedSlot => StartStays(server, sys, c);
    case _ =>
  }

  /** The image a channel inserts is new to the log. */
  lemma InsertSucceeds(server: Server, sys: System, c: nat)
    requires Orderly(server, sys) && c < |sys.tasks| && sys.tasks[c].mode.Inserting?
    ensures var i := sys.tasks[c].todo[0];
      var e := Entry(i, sys.tasks[c].mode.pixels, HeaderOf(server, i).oldest);
      && i !in sys.log
      && AfterInsert(sys.window, e).0 != Duplicate
      && Reflects(AfterInsert(sys.window, e).1, sys.log[i := e])
      && LogTrue(server, sys.log[i := e])
  {
    hide Sequential, ParseHeader, Reflects, AfterInsert, StaysInWindow, HonestWindow;
    var t := sys.tasks[c];
    assert Owed(sys, c, 0);
    assert HonestTask(server, t);
    InsertReflects(sys.window, sys.log, Entry(t.todo[0], t.mode.pixels, HeaderOf(server, t.todo[0]).oldest));
  }

  lemma MoveKeepsAccounts(server: Server, sys: System, c: nat)
    requires Orderly(server, sys) && c < |sys.tasks|
    ensures var r := Move(server, sys, c);
      r.Some? ==> Reflects(r.value.window, r.value.log) && LogTrue(server, r.value.log) && Accounted(server, r.value)
  {
    hide Step, StaysInWindow, Sequential, ParseHeader, Reflects, Accounted, HonestWindow, HonestTask, Truth,
      LogTrue, AfterInsert, AwakeTask, Disciplined, OrderlyTask;
    var r := Move(server, sys, c);
    var t := sys.tasks[c];
    if r.Some? {
      assert TaskShape(server, t);
      if t.mode.Inserting? {
        InsertSucceeds(server, sys, c);
        var e := Entry(t.todo[0], t.mode.pixels, HeaderOf(server, t.todo[0]).oldest);
        DebtPaid(server, sys, r.value, c, r.value.tasks[c].mode, e);
      } else if t.mode.Notifying? {
        NextDebt(server, sys, r.value, c, r.value.tasks[c]);
      } else {
        MoveGoesOn(server, sys, c);
        SameDebts(server, sys, r.value, c, r.value.tasks[c].mode);
      }
    }
  }

  /** Any other step leaves the window and the todo lists alone. */
  lemma MoveGoesOn(server: Server, sys: System, c: nat)
    requires Orderly(server, sys) && c < |sys.tasks|
    requires !sys.tasks[c].mode.Inserting? && !sys.tasks[c].mode.Notifying?
    ensures var r := Move(server, sys, c);
      r.Some? ==>
        && !sys.tasks[c].mode.Stopped?
        && c < |r.value.tasks| && !Paid(r.value.tasks[c].mode)
        && r.value.log == sys.log && r.value.window == sys.window && r.value.version == sys.version
        && r.value.tasks == sys.tasks[c := sys.tasks[c].(mode := r.value.tasks[c].mode)]
  {
    hide Step, StaysInWindow, Sequential, ParseHeader, Reflects, Accounted, HonestWindow, HonestTask, Truth,
      LogTrue, AfterInsert, OrderlyTask, AwakeTask, Disciplined;
    var t := sys.tasks[c];
    if t.mode.Decoding? {
      DecodeStays(server, sys, c);
    } else if t.mode.Checking? {
      WaitIsAnswered(server, sys, c);
    }
  }

  /** News on the way stays on the way until it is announced. */
  lemma NewsStays(sys: System, sys': System, c: nat, mode: Mode)
    requires c < |sys.tasks| && !sys.tasks[c].mode.Notifying? && !sys.tasks[c].mode.Stopped?
    requires sys'.tasks == sys.tasks[c := sys.tasks[c].(mode := mode)]
    ensures Notified(sys) ==> Notified(sys')
    ensures Broken(sys) ==> Broken(sys')
  {
    if d :| 0 <= d < |sys.tasks| && sys.tasks[d].mode.Notifying? {
      assert sys'.tasks[d].mode.Notifying?;
    }
    if d :| 0 <= d < |sys.tasks| && sys.tasks[d].mode.Stopped? {
      assert sys'.tasks[d].mode.Stopped?;
    }
  }

  lemma OtherMoveAwake(server: Server, sys: System, c: nat)
    requires Orderly(server, sys) && c < |sys.tasks|
    requires !sys.tasks[c].mode.Inserting? && !sys.tasks[c].mode.Notifying?
    ensures var r := Move(server, sys, c);
      r.Some? ==> forall d :: 0 <= d < |r.value.tasks| ==> AwakeTask(r.value, r.value.tasks[d])
  {
    hide Step, StaysInWindow, Sequential, ParseHeader, Reflects, Accounted, HonestWindow, HonestTask, Truth,
      LogTrue, AfterInsert, OrderlyTask, Disciplined, Notified, Broken;
    MoveGoesOn(server, sys, c);
    var r := Move(server, sys, c);
    if r.Some? {
      assert AwakeTask(sys, sys.tasks[c]);
      NewsStays(sys, r.value, c, r.value.tasks[c].mode);
      forall d | 0 <= d < |r.value.tasks|
        ensures AwakeTask(r.value, r.value.tasks[d])
      {
        if d != c {
          assert AwakeTask(sys, sys.tasks[d]);
        }
      }
    }
  }

  lemma MoveKeepsAwake(server: Server, sys: System, c: nat)
    requires Orderly(server, sys) && c < |sys.tasks|
    ensures var r := Move(server, sys, c);
      r.Some? ==> forall d :: 0 <= d < |r.value.tasks| ==> AwakeTask(r.value, r.value.tasks[d])
  {
    hide Step, StaysInWindow, Sequential, ParseHeader, Reflects, Accounted, HonestWindow, HonestTask, Truth,
      LogTrue, AfterInsert, OrderlyTask, Disciplined, AwakeTask;
    if sys.tasks[c].mode.Inserting? {
      InsertAwake(server, sys, c);
    } else if sys.tasks[c].mode.Notifying? {
      NotifyAwake(server, sys, c);
    } else {
      OtherMoveAwake(server, sys, c);
    }
  }

  lemma NotifyAwake(server: Server, sys: System, c: nat)
    requires Orderly(server, sys) && c < |sys.tasks| && sys.tasks[c].mode.Notifying?
    ensures var sys' := Move(server, sys, c).value;
      forall d :: 0 <= d < |sys'.tasks| ==> AwakeTask(sys', sys'.tasks[d])
  {
    hide Step, StaysInWindow, Sequential, ParseHeader, Reflects, Accounted, HonestWindow, HonestTask, LogTrue,
      AfterInsert, OrderlyTask;
    var sys' := Move(server, sys, c).value;
    forall d | 0 <= d < |sys'.tasks|
      ensures AwakeTask(sys', sys'.tasks[d])
    {
      if d != c {
        assert AwakeTask(sys, sys.tasks[d]);
      }
    }
  }

  /** Once an insertion has happened, its news is on the way until it is announced. */
  lemma InsertAwake(server: Server, sys: System, c: nat)
    requires Orderly(server, sys) && c < |sys.tasks| && sys.tasks[c].mode.Inserting?
    ensures var sys' := Move(server, sys, c).value;
      forall d :: 0 <= d < |sys'.tasks| ==> AwakeTask(sys', sys'.tasks[d])
  {
    hide Step, StaysInWindow, Sequential, ParseHeader, Reflects, Accounted, HonestWindow, HonestTask, Truth,
      LogTrue, AfterInsert, OrderlyTask, Disciplined;
    assert TaskShape(server, sys.tasks[c]);
    InsertSucceeds(server, sys, c);
    var sys' := Move(server, sys, c).value;
    assert sys'.tasks[c].mode.Notifying? || sys'.tasks[c].mode.Stopped?;
    forall d | 0 <= d < |sys'.tasks|
      ensures AwakeTask(sys', sys'.tasks[d])
    {
      if d != c {
        assert AwakeTask(sys, sys.tasks[d]);
      }
    }
  }

  /** Every step of every channel keeps the invariant; so no reference is found evicted and no id duplicate. */
  lemma MoveKeepsOrderly(server: Server, sys: System, c: nat)
    requires Orderly(server, sys) && c < |sys.tasks|
    ensures var r := Move(server, sys, c); r.Some? ==> Orderly(server, r.value)
  {
    MoveKeepsHonest(server, sys, c);
    MoveKeepsOrderlyTask(server, sys, c);
    MoveKeepsAccounts(server, sys, c);
    MoveKeepsAwake(server, sys, c);
    hide Step, Sequential, ParseHeader, Reflects, Accounted, HonestWindow, HonestTask, LogTrue, AfterInsert,
      OrderlyTask, AwakeTask, Disciplined, TaskShape;
    var r := Move(server, sys, c);
    if r.Some? {
      forall d | 0 <= d < |sys.tasks|
        ensures OrderlyTask(server, r.value.tasks[d])
      {
        if d != c {
          OthersStay(server, sys, c, d);
        }
      }
    }
  }

  lemma OthersStay(server: Server, sys: System, c: nat, d: nat)
    requires Shaped(server, sys) && c < |sys.tasks| && d < |sys.tasks| && c != d
    ensures var r := Move(server, sys, c);
      r.Some? ==> |r.value.tasks| == |sys.tasks| && r.value.tasks[d] == sys.tasks[d]
  {
    hide Step, ParseHeader, AfterInsert;
  }
}
