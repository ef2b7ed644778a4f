/** Concurrent GLZ decoding over one shared dictionary.

  Any number of Display channels decode their images at the same time. A channel
  takes a decode slot, decodes control byte by control byte against whatever the
  dictionary holds at that moment, and on a missing reference gives its slot up,
  subscribes to dictionary changes, checks, and blocks until one happens. The
  only choice in a run is which channel moves next.
*/
module GlzSession {
  import opened Basics
  import opened GlzFormat
  import opened GlzWindow

  // ---------------------------------------------------------------------------
  // The server's images and the sequential decoder
  // ---------------------------------------------------------------------------

  /** The payloads of one session, by image id. */
  datatype Server = Server(payload: nat -> seq<byte>, limits: Limits, count: nat)

  /** Every payload carries its own id. */
  ghost predicate Sent(server: Server) {
    forall i :: 0 <= i < server.count ==> Accepts(server, i)
  }

  predicate Accepts(server: Server, i: nat) {
    var h := ParseHeader(server.payload(i), server.limits);
    h.Accepted? && h.header.id == i
  }

  function HeaderOf(server: Server, i: nat): (h: Header)
    requires Accepts(server, i)
    ensures h.id == i && h.oldest <= i && |server.payload(i)| >= HEADER_BYTES
  {
    ParseHeader(server.payload(i), server.limits).header
  }

  /** The image a decoder gives that handles ids in order, each seeing all earlier images. */
  ghost function Sequential(server: Server, i: nat): (r: Outcome)
    requires Sent(server) && i < server.count
    ensures !r.Continue?
    decreases i
  {
    Finish(HeaderOf(server, i), server.payload(i), Start(),
           (j: nat) => if j < i && Sequential(server, j).Complete? then Some(Sequential(server, j).pixels) else None)
  }

  /** The dictionary of the sequential decoder's images. */
  ghost function Truth(server: Server): Dictionary
    requires Sent(server)
  {
    (j: nat) => if j < server.count && Sequential(server, j).Complete? then Some(Sequential(server, j).pixels) else None
  }

  /** References only look back, so the sequential decoder could as well see every image at once. */
  lemma SequentialSeesTruth(server: Server, i: nat)
    requires Sent(server) && i < server.count
    ensures Sequential(server, i) == Finish(HeaderOf(server, i), server.payload(i), Start(), Truth(server))
  {
    var before: Dictionary :=
      (j: nat) => if j < i && Sequential(server, j).Complete? then Some(Sequential(server, j).pixels) else None;
    FinishLooksBack(HeaderOf(server, i), server.payload(i), Start(), before, Truth(server));
  }

  // ---------------------------------------------------------------------------
  // The channels
  // ---------------------------------------------------------------------------

  datatype Reason = Malformed | EvictedReference | DuplicateId | OverBudget

  datatype Mode =
    | NeedSlot
    | Decoding(state: State)
    | Releasing(missing: nat)
    | Checking(missing: nat, seen: nat)
    | Blocked(missing: nat, seen: nat)
    | Inserting(pixels: seq<Pixel>)
    | Notifying
    | Idle
    | Stopped(reason: Reason)

  /** A channel: the ids it has still to deliver, and what it is doing about the first. */
  datatype Task = Task(todo: seq<nat>, mode: Mode)

  /** `log` records what was inserted; no step looks at it. */
  datatype System = System(tasks: seq<Task>, window: Window, version: nat, freeSlots: nat, log: Log)

  function Lookup(w: Window): Dictionary {
    (j: nat) => if j in w.images then Some(w.images[j]) else None
  }

  function SetMode(sys: System, c: nat, mode: Mode): System
    requires c < |sys.tasks|
  {
    sys.(tasks := sys.tasks[c := sys.tasks[c].(mode := mode)])
  }

  predicate Active(mode: Mode) {
    !mode.Idle? && !mode.Stopped?
  }

  /** A channel that is working on an image that its todo list names. */
  ghost predicate TaskShape(server: Server, t: Task) {
    && (forall k :: 0 <= k < |t.todo| ==> t.todo[k] < server.count)
    && (Active(t.mode) ==> t.todo != [])
    && (t.mode.Idle? ==> t.todo == [])
    && (t.mode.Decoding? ==>
          Accepts(server, t.todo[0])
          && StateOk(HeaderOf(server, t.todo[0]), server.payload(t.todo[0]), t.mode.state))
  }

  ghost predicate Shaped(server: Server, sys: System) {
    Sent(server) && forall c :: 0 <= c < |sys.tasks| ==> TaskShape(server, sys.tasks[c])
  }

  /** What one decoding step makes of a channel. */
  function AfterDecode(sys: System, c: nat, outcome: Outcome): System
    requires c < |sys.tasks|
  {
    match outcome
    case Continue(state) => SetMode(sys, c, Decoding(state))
    case Complete(pixels) => SetMode(sys, c, Inserting(pixels))
    case Missing(id) => SetMode(sys, c, Releasing(id)).(freeSlots := sys.freeSlots + 1)
    case Fail(_) => SetMode(sys, c, Stopped(Malformed)).(freeSlots := sys.freeSlots + 1)
  }

  ghost function AfterInserting(sys: System, c: nat, e: Entry): System
    requires c < |sys.tasks|
  {
    var r := AfterInsert(sys.window, e);
    match r.0
    case Duplicate => SetMode(sys, c, Stopped(DuplicateId)).(freeSlots := sys.freeSlots + 1)
    case OverLimit =>
      SetMode(sys, c, Stopped(OverBudget)).(freeSlots := sys.freeSlots + 1, window := r.1, log := sys.log[e.id := e])
    case Inserted => SetMode(sys, c, Notifying).(window := r.1, log := sys.log[e.id := e])
  }

  /** The step channel `c` can take now, if any. */
  ghost function Move(server: Server, sys: System, c: nat): (r: Option<System>)
    requires Shaped(server, sys) && c < |sys.tasks|
  {
    var t := sys.tasks[c];
    match t.mode
    case NeedSlot =>
      if sys.freeSlots == 0 then None
      else Some(SetMode(sys, c, Decoding(Start())).(freeSlots := sys.freeSlots - 1))
    case Decoding(state) =>
      Some(AfterDecode(sys, c, Step(HeaderOf(server, t.todo[0]), server.payload(t.todo[0]), state, Lookup(sys.window))))
    case Releasing(id) =>
      // Subscribing marks the current version as seen before the first check.
      Some(SetMode(sys, c, Checking(id, sys.version)))
    case Checking(id, seen) =>
      if id in sys.window.images then Some(SetMode(sys, c, NeedSlot))
      else if id < sys.window.oldest then Some(SetMode(sys, c, Stopped(EvictedReference)))
      else Some(SetMode(sys, c, Blocked(id, seen)))
    case Blocked(id, seen) =>
      if sys.version == seen then None else Some(SetMode(sys, c, Checking(id, sys.version)))
    case Inserting(pixels) =>
      assert Accepts(server, t.todo[0]);
      Some(AfterInserting(sys, c, Entry(t.todo[0], pixels, HeaderOf(server, t.todo[0]).oldest)))
    case Notifying =>
      // The lock is released before the change is announced, so other channels may move in between.
      var rest := t.todo[1..];
      Some(sys.(tasks := sys.tasks[c := Task(rest, if rest == [] then Idle else NeedSlot)],
                version := sys.version + 1, freeSlots := sys.freeSlots + 1))
    case Idle => None
    case Stopped(_) => None
  }

  lemma MoveKeepsShape(server: Server, sys: System, c: nat)
    requires Shaped(server, sys) && c < |sys.tasks|
    ensures var r := Move(server, sys, c);
      r.Some? ==> Shaped(server, r.value) && |r.value.tasks| == |sys.tasks|
  {
    hide Step, AfterInsert, ParseHeader, Sequential;
    var r := Move(server, sys, c);
    if r.Some? {
      var t := sys.tasks[c];
      if t.mode.NeedSlot? {
        assert Accepts(server, t.todo[0]);
      }
      assert TaskShape(server, t);
      assert TaskShape(server, r.value.tasks[c]);
      forall d | 0 <= d < |sys.tasks|
        ensures TaskShape(server, r.value.tasks[d])
      {
        if d != c {
          assert r.value.tasks[d] == sys.tasks[d];
        }
      }
    }
  }

  // ---------------------------------------------------------------------------
  // Every image is the sequential one
  // ---------------------------------------------------------------------------

  /** A decode under way still leads to the sequential image, and a finished one is it. */
  ghost predicate HonestTask(server: Server, t: Task)
    requires Sent(server) && TaskShape(server, t)
  {
    match t.mode
    case Decoding(state) =>
      Finish(HeaderOf(server, t.todo[0]), server.payload(t.todo[0]), state, Truth(server))
      == Sequential(server, t.todo[0])
    case Inserting(pixels) => Sequential(server, t.todo[0]) == Complete(pixels)
    case _ => true
  }

  ghost predicate HonestWindow(server: Server, w: Window)
    requires Sent(server)
  {
    forall id :: id in w.images ==> id < server.count && Sequential(server, id) == Complete(w.images[id])
  }

  ghost predicate Honest(server: Server, sys: System) {
    && Shaped(server, sys)
    && HonestWindow(server, sys.window)
    && forall c :: 0 <= c < |sys.tasks| ==> HonestTask(server, sys.tasks[c])
  }

  /** A step against an honest window is the step against the truth, or it finds an image missing. */
  lemma HonestStep(server: Server, w: Window, h: Header, input: seq<byte>, state: State)
    requires Sent(server) && HonestWindow(server, w) && StateOk(h, input, state)
    ensures var step := Step(h, input, state, Lookup(w));
      step.Missing? || step == Step(h, input, state, Truth(server))
  {
    hide Step, Consults, Sequential;
    StepConsults(h, input, state, Lookup(w), Truth(server));
  }

  /** Evicting and inserting leave the window with sequential images only. */
  lemma InsertKeepsHonest(server: Server, w: Window, e: Entry)
    requires Sent(server) && HonestWindow(server, w)
    requires e.id < server.count && Sequential(server, e.id) == Complete(e.pixels)
    ensures HonestWindow(server, AfterInsert(w, e).1)
  {
    hide Sequential, Advance, Bytes;
  }

  lemma MoveKeepsHonestTask(server: Server, sys: System, c: nat)
    requires Honest(server, sys) && c < |sys.tasks|
    ensures var r := Move(server, sys, c);
      r.Some? ==> Shaped(server, r.value) && |r.value.tasks| == |sys.tasks| && HonestTask(server, r.value.tasks[c])
  {
    MoveKeepsShape(server, sys, c);
    hide Step, AfterInsert, Sequential, ParseHeader, Truth, HonestWindow, Shaped;
    var t := sys.tasks[c];
    if t.mode.Decoding? {
      var i := t.todo[0];
      var h, input := HeaderOf(server, i), server.payload(i);
      HonestStep(server, sys.window, h, input, t.mode.state);
      assert HonestTask(server, t);
    } else if t.mode.NeedSlot? && sys.freeSlots > 0 {
      SequentialSeesTruth(server, t.todo[0]);
    }
  }

  /** Safety: in every interleaving, what is stored or about to be stored is the sequential image. */
  lemma MoveKeepsHonest(server: Server, sys: System, c: nat)
    requires Honest(server, sys) && c < |sys.tasks|
    ensures var r := Move(server, sys, c); r.Some? ==> Honest(server, r.value)
  {
    MoveKeepsShape(server, sys, c);
    MoveKeepsHonestTask(server, sys, c);
    hide Step, AfterInsert, Sequential, ParseHeader, Truth, HonestWindow, HonestTask, Shaped;
    var r := Move(server, sys, c);
    var t := sys.tasks[c];
    if t.mode.Inserting? {
      HonestInsert(server, sys, c);
    }
    if r.Some? {
      forall d | 0 <= d < |sys.tasks|
        ensures HonestTask(server, r.value.tasks[d])
      {
        if d != c {
          assert r.value.tasks[d] == sys.tasks[d];
        }
      }
    }
  }

  lemma HonestInsert(server: Server, sys: System, c: nat)
    requires Honest(server, sys) && c < |sys.tasks| && sys.tasks[c].mode.Inserting?
    ensures HonestWindow(server, Move(server, sys, c).value.window)
  {
    hide AfterInsert, Sequential, ParseHeader, HonestWindow;
    var t := sys.tasks[c];
    assert HonestTask(server, t);
    InsertKeepsHonest(server, sys.window, Entry(t.todo[0], t.mode.pixels, HeaderOf(server, t.todo[0]).oldest));
  }

  // ---------------------------------------------------------------------------
  // Runs
  // ---------------------------------------------------------------------------

  /** The channels at the start of a session, each with its queue of ids. */
  function Begin(queues: seq<seq<nat>>, slots: nat): System {
    var tasks := seq(|queues|, c requires 0 <= c < |queues| =>
      Task(queues[c], if queues[c] == [] then Idle else NeedSlot));
    System(tasks, EMPTY, 0, slots, map[])
  }

  /** The system after the channels have been picked in this order; a pick that cannot move is passed over. */
  ghost function Interleaved(server: Server, sys: System, picks: seq<nat>): System
    requires Shaped(server, sys)
    decreases |picks|
  {
    if picks == [] then sys
    else if picks[0] >= |sys.tasks| || Move(server, sys, picks[0]).None? then Interleaved(server, sys, picks[1..])
    else
      MoveKeepsShape(server, sys, picks[0]);
      Interleaved(server, Move(server, sys, picks[0]).value, picks[1..])
  }

  lemma {:induction false} InterleavedHonest(server: Server, sys: System, picks: seq<nat>)
    requires Honest(server, sys)
    ensures Honest(server, Interleaved(server, sys, picks))
    decreases |picks|
  {
    hide Move, HonestTask, HonestWindow, Shaped;
    if picks != [] {
      if picks[0] >= |sys.tasks| || Move(server, sys, picks[0]).None? {
        InterleavedHonest(server, sys, picks[1..]);
      } else {
        MoveKeepsHonest(server, sys, picks[0]);
        InterleavedHonest(server, Move(server, sys, picks[0]).value, picks[1..]);
      }
    }
  }

  /** Over every interleaving of any number of channels, whatever the images refer to, each image stored
      or about to be stored is the one a sequential decoder gives. */
  lemma EveryInterleavingHonest(server: Server, queues: seq<seq<nat>>, slots: nat, picks: seq<nat>)
    requires Sent(server)
    requires forall c, k :: 0 <= c < |queues| && 0 <= k < |queues[c]| ==> queues[c][k] < server.count
    ensures Shaped(server, Begin(queues, slots))
    ensures Honest(server, Interleaved(server, Begin(queues, slots), picks))
  {
    hide Sequential, Sent;
    InterleavedHonest(server, Begin(queues, slots), picks);
  }
}
