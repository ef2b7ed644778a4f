/** What a waiting channel can rely on in any session, disciplined or not.

  A server may refer to images that were evicted or never sent. No change of the
  window is missed, so a channel never waits for an image that has arrived, nor
  for one that has been evicted: such a reference ends the channel instead.
*/
module GlzWatch {
  import opened Basics
  import opened GlzFormat
  import opened GlzWindow
  import opened GlzSession
  import opened GlzLiveness

  /** The window answers this reference, by holding the image or by having moved past it. */
  predicate Answers(w: Window, id: nat) {
    id in w.images || id < w.oldest
  }

  /** A blocked channel's reference has no answer yet, or news is on the way, or the session has failed. */
  ghost predicate WatchfulTask(sys: System, t: Task) {
    match t.mode
    case Checking(_, seen) => seen <= sys.version
    case Blocked(id, seen) =>
      && seen <= sys.version
      && (Answers(sys.window, id) ==> seen < sys.version || Notified(sys) || Broken(sys))
    case _ => true
  }

  ghost predicate Watchful(server: Server, sys: System) {
    Shaped(server, sys) && forall c :: 0 <= c < |sys.tasks| ==> WatchfulTask(sys, sys.tasks[c])
  }

  lemma OtherMoveWatchful(server: Server, sys: System, c: nat)
    requires Watchful(server, sys) && c < |sys.tasks|
    requires !sys.tasks[c].mode.Inserting? && !sys.tasks[c].mode.Notifying?
    ensures var r := Move(server, sys, c);
      r.Some? ==> forall d :: 0 <= d < |r.value.tasks| ==> WatchfulTask(r.value, r.value.tasks[d])
  {
    hide Step, ParseHeader, AfterInsert, Notified, Broken, Sent, TaskShape;
    var r := Move(server, sys, c);
    if r.Some? {
      assert TaskShape(server, sys.tasks[c]);
      assert WatchfulTask(sys, sys.tasks[c]);
      NewsStays(sys, r.value, c, r.value.tasks[c].mode);
      forall d | 0 <= d < |r.value.tasks|
        ensures WatchfulTask(r.value, r.value.tasks[d])
      {
        if d != c {
          assert WatchfulTask(sys, sys.tasks[d]);
        }
      }
    }
  }

  lemma NotifyWatchful(server: Server, sys: System, c: nat)
    requires Watchful(server, sys) && c < |sys.tasks| && sys.tasks[c].mode.Notifying?
    ensures var sys' := Move(server, sys, c).value;
      forall d :: 0 <= d < |sys'.tasks| ==> WatchfulTask(sys', sys'.tasks[d])
  {
    hide Step, ParseHeader, AfterInsert, Sent, TaskShape;
    assert TaskShape(server, sys.tasks[c]);
    var sys' := Move(server, sys, c).value;
    forall d | 0 <= d < |sys'.tasks|
      ensures WatchfulTask(sys', sys'.tasks[d])
    {
      if d != c {
        assert WatchfulTask(sys, sys.tasks[d]);
      }
    }
  }

  lemma InsertWatchful(server: Server, sys: System, c: nat)
    requires Watchful(server, sys) && c < |sys.tasks| && sys.tasks[c].mode.Inserting?
    ensures var sys' := Move(server, sys, c).value;
      forall d :: 0 <= d < |sys'.tasks| ==> WatchfulTask(sys', sys'.tasks[d])
  {
    hide Step, ParseHeader, AfterInsert, Sent, TaskShape;
    assert TaskShape(server, sys.tasks[c]);
    var sys' := Move(server, sys, c).value;
    assert sys'.tasks[c].mode.Notifying? || sys'.tasks[c].mode.Stopped?;
    forall d | 0 <= d < |sys'.tasks|
      ensures WatchfulTask(sys', sys'.tasks[d])
    {
      if d != c {
        assert WatchfulTask(sys, sys.tasks[d]);
      }
    }
  }

  lemma MoveKeepsWatchful(server: Server, sys: System, c: nat)
    requires Watchful(server, sys) && c < |sys.tasks|
    ensures var r := Move(server, sys, c); r.Some? ==> Watchful(server, r.value)
  {
    MoveKeepsShape(server, sys, c);
    if sys.tasks[c].mode.Inserting? {
      InsertWatchful(server, sys, c);
    } else if sys.tasks[c].mode.Notifying? {
      NotifyWatchful(server, sys, c);
    } else {
      OtherMoveWatchful(server, sys, c);
    }
    hide Move, WatchfulTask, Shaped;
  }

  lemma {:induction false} InterleavedWatchful(server: Server, sys: System, picks: seq<nat>)
    requires Watchful(server, sys)
    ensures Watchful(server, Interleaved(server, sys, picks))
    decreases |picks|
  {
    hide Move, WatchfulTask, Shaped;
    if picks != [] {
      if picks[0] >= |sys.tasks| || Move(server, sys, picks[0]).None? {
        InterleavedWatchful(server, sys, picks[1..]);
      } else {
        MoveKeepsWatchful(server, sys, picks[0]);
        InterleavedWatchful(server, Move(server, sys, picks[0]).value, picks[1..]);
      }
    }
  }

  /** Nobody can move any more. */
  ghost predicate AtRest(server: Server, sys: System) {
    Shaped(server, sys) && forall c :: 0 <= c < |sys.tasks| ==> Move(server, sys, c).None?
  }

  /** However a session goes, when it has come to rest every channel has delivered everything, has failed, is out
      of slots, or waits in a session that has failed elsewhere, or for an image not yet sent. */
  lemma RestIsExplained(server: Server, queues: seq<seq<nat>>, slots: nat, picks: seq<nat>, c: nat)
    requires Sent(server)
    requires forall d, k :: 0 <= d < |queues| && 0 <= k < |queues[d]| ==> queues[d][k] < server.count
    requires Shaped(server, Begin(queues, slots))
    requires var sys := Interleaved(server, Begin(queues, slots), picks);
      AtRest(server, sys) && c < |sys.tasks|
    ensures var sys := Interleaved(server, Begin(queues, slots), picks);
      match sys.tasks[c].mode
      case Idle => sys.tasks[c].todo == []
      case NeedSlot => sys.freeSlots == 0
      case Blocked(id, _) => Broken(sys) || (id !in sys.window.images && sys.window.oldest <= id)
      case Stopped(_) => true
      case _ => false
  {
    hide Step, ParseHeader, AfterInsert, Sent, Notified, Broken;
    assert Watchful(server, Begin(queues, slots));
    InterleavedWatchful(server, Begin(queues, slots), picks);
    var sys := Interleaved(server, Begin(queues, slots), picks);
    hide Interleaved;
    assert WatchfulTask(sys, sys.tasks[c]) && TaskShape(server, sys.tasks[c]);
    assert Move(server, sys, c).None?;
    NobodyNotifies(server, sys);
  }

  lemma NobodyNotifies(server: Server, sys: System)
    requires AtRest(server, sys)
    ensures !Notified(sys)
  {
    forall d | 0 <= d < |sys.tasks|
      ensures !sys.tasks[d].mode.Notifying?
    {
      NotifierMoves(server, sys, d);
    }
  }

  lemma NotifierMoves(server: Server, sys: System, d: nat)
    requires Shaped(server, sys) && d < |sys.tasks|
    ensures sys.tasks[d].mode.Notifying? ==> Move(server, sys, d).Some?
  {
    hide Step, ParseHeader, AfterInsert, Sent;
    assert TaskShape(server, sys.tasks[d]);
  }
}
