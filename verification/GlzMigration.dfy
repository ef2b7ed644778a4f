/** The shared dictionary across a migration to another server.

  Every Display channel moves to the new server by itself, when it has handled
  what it had read from the old one. The first to arrive clears the dictionary;
  the others may still be at work on images of the old server. Ids start again
  with the new server, so an old image inserted after the clear is taken for one
  of the new server's.
*/
module GlzMigration {
  import opened Basics
  import opened GlzFormat
  import opened GlzWindow
  import opened GlzSession
  import opened GlzLiveness
  import opened GlzCompletion

  datatype Servers = Servers(source: Server, target: Server)

  /** The channels, which of them have moved, and the ids that the new server has for each. A channel moves
      when it is through with its list of old ids. */
  datatype Handover = Handover(sys: System, moved: seq<bool>, upcoming: seq<seq<nat>>)

  /** The server whose images a channel decodes. */
  function ServerOf(servers: Servers, m: Handover, c: nat): Server
    requires c < |m.moved|
  {
    if m.moved[c] then servers.target else servers.source
  }

  ghost predicate Valid(servers: Servers, m: Handover) {
    && Sent(servers.source) && Sent(servers.target)
    && |m.moved| == |m.upcoming| == |m.sys.tasks|
    && (forall c :: 0 <= c < |m.moved| ==> TaskShape(ServerOf(servers, m, c), m.sys.tasks[c]))
    && (forall c, k :: 0 <= c < |m.upcoming| && 0 <= k < |m.upcoming[c]| ==> m.upcoming[c][k] < servers.target.count)
  }

  // ---------------------------------------------------------------------------
  // Steps
  // ---------------------------------------------------------------------------

  /** The system as one channel sees it. */
  function Only(sys: System, c: nat): System
    requires c < |sys.tasks|
  {
    sys.(tasks := [sys.tasks[c]])
  }

  /** Channel `c` takes the step it can take, if any. */
  ghost function Stepped(servers: Servers, m: Handover, c: nat): Handover
    requires Valid(servers, m) && c < |m.moved|
  {
    var r := Move(ServerOf(servers, m, c), Only(m.sys, c), 0);
    if r.None? then m else m.(sys := r.value.(tasks := m.sys.tasks[c := r.value.tasks[0]]))
  }

  /** Channel `c` reads its first message from the new server. */
  function Arrived(m: Handover, c: nat, activation: nat): Handover
    requires c < |m.moved| == |m.upcoming| == |m.sys.tasks|
  {
    if m.moved[c] || !m.sys.tasks[c].mode.Idle? then m
    else
      var ids := m.upcoming[c];
      var tasks := m.sys.tasks[c := Task(ids, if ids == [] then Idle else NeedSlot)];
      var clears := m.sys.window.lastCleared < activation;
      var sys := System(tasks, AfterClear(m.sys.window, activation), m.sys.version + if clears then 1 else 0,
                        m.sys.freeSlots, if clears then map[] else m.sys.log);
      m.(sys := sys, moved := m.moved[c := true])
  }

  datatype Pick = Steps(channel: nat) | Arrives(channel: nat)

  ghost function Picked(servers: Servers, m: Handover, activation: nat, pick: Pick): Handover
    requires Valid(servers, m)
  {
    if pick.channel >= |m.moved| then m
    else if pick.Steps? then Stepped(servers, m, pick.channel)
    else Arrived(m, pick.channel, activation)
  }

  lemma PickedValid(servers: Servers, m: Handover, activation: nat, pick: Pick)
    requires Valid(servers, m)
    ensures var m' := Picked(servers, m, activation, pick);
      Valid(servers, m') && |m'.moved| == |m.moved|
  {
    hide Move, Sent;
    var c := pick.channel;
    if c < |m.moved| {
      var m' := Picked(servers, m, activation, pick);
      if pick.Steps? {
        MoveKeepsShape(ServerOf(servers, m, c), Only(m.sys, c), 0);
      }
      forall d | 0 <= d < |m.moved|
        ensures TaskShape(ServerOf(servers, m', d), m'.sys.tasks[d])
      {
        assert TaskShape(ServerOf(servers, m, d), m.sys.tasks[d]);
      }
    }
  }

  ghost function Played(servers: Servers, m: Handover, activation: nat, picks: seq<Pick>): (m': Handover)
    requires Valid(servers, m)
    ensures Valid(servers, m')
    decreases |picks|
  {
    if picks == [] then m
    else
      PickedValid(servers, m, activation, picks[0]);
      Played(servers, Picked(servers, m, activation, picks[0]), activation, picks[1..])
  }

  // ---------------------------------------------------------------------------
  // Before the clear
  // ---------------------------------------------------------------------------

  ghost predicate NoneMoved(m: Handover) {
    forall c :: 0 <= c < |m.moved| ==> !m.moved[c]
  }

  /** Until a channel arrives, every image stored or about to be stored is the old server's. */
  lemma SourceHonest(servers: Servers, m: Handover, activation: nat, c: nat)
    requires Valid(servers, m) && NoneMoved(m) && Honest(servers.source, m.sys)
    ensures var m' := Picked(servers, m, activation, Steps(c));
      NoneMoved(m') && Honest(servers.source, m'.sys)
  {
    hide Move, Sent, HonestTask, HonestWindow, TaskShape;
    if c < |m.moved| {
      MoveKeepsHonest(servers.source, Only(m.sys, c), 0);
      MoveKeepsShape(servers.source, Only(m.sys, c), 0);
    }
  }

  // ---------------------------------------------------------------------------
  // After a clear that leaves no harmful work
  // ---------------------------------------------------------------------------

  /** Decoding old image `i` from `s` with all images of the new server at hand does not complete, or gives
      the very image that the new server has under this id. */
  ghost predicate HarmlessFrom(servers: Servers, i: nat, s: State)
    requires Sent(servers.source) && Sent(servers.target) && Accepts(servers.source, i)
    requires StateOk(HeaderOf(servers.source, i), servers.source.payload(i), s)
  {
    var r := Finish(HeaderOf(servers.source, i), servers.source.payload(i), s, Truth(servers.target));
    r.Complete? ==> IsTargets(servers, i, r.pixels)
  }

  ghost predicate IsTargets(servers: Servers, i: nat, pixels: seq<Pixel>)
    requires Sent(servers.target)
  {
    i < servers.target.count && Sequential(servers.target, i) == Complete(pixels)
  }

  /** Where the images begin that the channel has not inserted. */
  function FirstDue(t: Task): nat {
    if t.mode.Notifying? then 1 else 0
  }

  /** A channel that inserts nothing of the old server's any more, save what the new server has as well. */
  ghost predicate Harmless(servers: Servers, t: Task)
    requires Sent(servers.source) && Sent(servers.target) && TaskShape(servers.source, t)
  {
    t.mode.Stopped?
    || ((forall k :: FirstDue(t) <= k < |t.todo| ==>
           Accepts(servers.source, t.todo[k]) && HarmlessFrom(servers, t.todo[k], Start()))
        && (t.mode.Decoding? ==> HarmlessFrom(servers, t.todo[0], t.mode.state))
        && (t.mode.Inserting? ==> IsTargets(servers, t.todo[0], t.mode.pixels)))
  }

  ghost predicate Clean(servers: Servers, m: Handover, activation: nat) {
    && Valid(servers, m)
    && m.sys.window.lastCleared >= activation
    && HonestWindow(servers.target, m.sys.window)
    && (forall c :: 0 <= c < |m.moved| ==>
          if m.moved[c] then HonestTask(servers.target, m.sys.tasks[c]) else Harmless(servers, m.sys.tasks[c]))
  }

  lemma HarmlessDecode(servers: Servers, sys: System, c: nat)
    requires Sent(servers.target) && Shaped(servers.source, sys) && c < |sys.tasks| && sys.tasks[c].mode.Decoding?
    requires HonestWindow(servers.target, sys.window) && Harmless(servers, sys.tasks[c])
    ensures var t' := Move(servers.source, sys, c).value.tasks[c];
      TaskShape(servers.source, t') && Harmless(servers, t')
  {
    MoveKeepsShape(servers.source, sys, c);
    hide Step, Sequential, Truth, ParseHeader, Sent, HonestWindow, IsTargets;
    var t := sys.tasks[c];
    assert TaskShape(servers.source, t);
    var i := t.todo[0];
    var h, input := HeaderOf(servers.source, i), servers.source.payload(i);
    HonestStep(servers.target, sys.window, h, input, t.mode.state);
    assert HarmlessFrom(servers, i, t.mode.state);
    var r := Move(servers.source, sys, c).value.tasks[c];
    assert r.todo == t.todo;
    assert r.mode.Decoding? ==> HarmlessFrom(servers, i, r.mode.state);
    assert r.mode.Inserting? ==> IsTargets(servers, i, r.mode.pixels);
    hide HarmlessFrom;
  }

  lemma HarmlessTask(servers: Servers, sys: System, c: nat)
    requires Sent(servers.target) && Shaped(servers.source, sys) && c < |sys.tasks| && !sys.tasks[c].mode.Decoding?
    requires Harmless(servers, sys.tasks[c])
    ensures var r := Move(servers.source, sys, c);
      r.Some? ==> TaskShape(servers.source, r.value.tasks[c]) && Harmless(servers, r.value.tasks[c])
  {
    MoveKeepsShape(servers.source, sys, c);
    hide AfterInsert, ParseHeader, Sent, HarmlessFrom, IsTargets;
    var t := sys.tasks[c];
    assert TaskShape(servers.source, t);
    if t.mode.NeedSlot? {
      assert HarmlessFrom(servers, t.todo[0], Start());
    }
  }

  lemma HarmlessWindow(servers: Servers, sys: System, c: nat)
    requires Sent(servers.target) && Shaped(servers.source, sys) && c < |sys.tasks|
    requires HonestWindow(servers.target, sys.window) && Harmless(servers, sys.tasks[c])
    ensures var r := Move(servers.source, sys, c); r.Some? ==> HonestWindow(servers.target, r.value.window)
  {
    hide Step, AfterInsert, Sequential, ParseHeader, Sent, HonestWindow, HarmlessFrom;
    var t := sys.tasks[c];
    assert TaskShape(servers.source, t);
    if t.mode.Inserting? {
      var e := Entry(t.todo[0], t.mode.pixels, HeaderOf(servers.source, t.todo[0]).oldest);
      InsertKeepsHonest(servers.target, sys.window, e);
    }
  }

  /** A step of an old channel without harmful work. */
  lemma HarmlessStep(servers: Servers, sys: System, c: nat)
    requires Sent(servers.target) && Shaped(servers.source, sys) && c < |sys.tasks|
    requires HonestWindow(servers.target, sys.window) && Harmless(servers, sys.tasks[c])
    ensures var r := Move(servers.source, sys, c);
      r.Some? ==>
        && Shaped(servers.source, r.value) && |r.value.tasks| == |sys.tasks|
        && Harmless(servers, r.value.tasks[c]) && HonestWindow(servers.target, r.value.window)
  {
    hide Move, Sent, HonestWindow, Harmless;
    MoveKeepsShape(servers.source, sys, c);
    HarmlessWindow(servers, sys, c);
    if sys.tasks[c].mode.Decoding? {
      HarmlessDecode(servers, sys, c);
    } else {
      HarmlessTask(servers, sys, c);
    }
  }

  lemma ClearedStays(server: Server, sys: System, c: nat)
    requires Shaped(server, sys) && c < |sys.tasks|
    ensures var r := Move(server, sys, c); r.Some? ==> r.value.window.lastCleared == sys.window.lastCleared
  {
    hide Step, Advance, Bytes, ParseHeader;
  }

  lemma StepKeepsClean(servers: Servers, m: Handover, activation: nat, c: nat)
    requires Clean(servers, m, activation) && c < |m.moved|
    ensures Clean(servers, Stepped(servers, m, c), activation)
  {
    PickedValid(servers, m, activation, Steps(c));
    ClearedStays(ServerOf(servers, m, c), Only(m.sys, c), 0);
    hide Move, Sent, HonestTask, HonestWindow, TaskShape, Harmless;
    if m.moved[c] {
      MoveKeepsHonest(servers.target, Only(m.sys, c), 0);
    } else {
      HarmlessStep(servers, Only(m.sys, c), 0);
    }
  }

  lemma ArrivalKeepsClean(servers: Servers, m: Handover, activation: nat, c: nat)
    requires Clean(servers, m, activation) && c < |m.moved|
    ensures Clean(servers, Arrived(m, c, activation), activation)
  {
    hide Sent, HonestWindow, Harmless;
    PickedValid(servers, m, activation, Arrives(c));
  }

  /** In every run after such a clear, every stored image is the one that a sequential decoder makes of the
      new server's payloads. */
  lemma {:induction false} PlayedClean(servers: Servers, m: Handover, activation: nat, picks: seq<Pick>)
    requires Clean(servers, m, activation)
    ensures Clean(servers, Played(servers, m, activation, picks), activation)
    decreases |picks|
  {
    if picks != [] {
      var c := picks[0].channel;
      if c < |m.moved| {
        StepKeepsClean(servers, m, activation, c);
        ArrivalKeepsClean(servers, m, activation, c);
      }
      hide Clean, Stepped, Arrived;
      PickedValid(servers, m, activation, picks[0]);
      PlayedClean(servers, Picked(servers, m, activation, picks[0]), activation, picks[1..]);
    }
  }

  /** Channel `c` is the first to arrive. */
  ghost predicate Clears(servers: Servers, m: Handover, activation: nat, c: nat) {
    && Valid(servers, m) && NoneMoved(m) && m.sys.window.lastCleared < activation
    && c < |m.moved| && m.sys.tasks[c].mode.Idle?
  }

  ghost predicate AllHarmless(servers: Servers, m: Handover)
    requires Valid(servers, m) && NoneMoved(m)
  {
    forall d :: 0 <= d < |m.moved| ==> Harmless(servers, m.sys.tasks[d])
  }

  lemma HarmlessClears(servers: Servers, m: Handover, activation: nat, c: nat)
    requires Clears(servers, m, activation, c) && AllHarmless(servers, m)
    ensures Clean(servers, Arrived(m, c, activation), activation)
  {
    hide Sent, Harmless;
    PickedValid(servers, m, activation, Arrives(c));
  }

  // ---------------------------------------------------------------------------
  // After a clear that leaves an image which needs no other
  // ---------------------------------------------------------------------------

  /** In every run from here on, every stored image is the new server's. */
  ghost predicate Safe(servers: Servers, m: Handover, activation: nat)
    requires Valid(servers, m)
  {
    forall picks :: HonestWindow(servers.target, Played(servers, m, activation, picks).sys.window)
  }

  lemma UnsafeNow(servers: Servers, m: Handover, activation: nat)
    requires Valid(servers, m) && !HonestWindow(servers.target, m.sys.window)
    ensures !Safe(servers, m, activation)
  {
    hide HonestWindow, Valid;
    assert Played(servers, m, activation, []) == m;
  }

  lemma UnsafeLater(servers: Servers, m: Handover, activation: nat, pick: Pick)
    requires Valid(servers, m) && Valid(servers, Picked(servers, m, activation, pick))
    requires !Safe(servers, Picked(servers, m, activation, pick), activation)
    ensures !Safe(servers, m, activation)
  {
    hide HonestWindow, Picked, Sent, TaskShape;
    var m' := Picked(servers, m, activation, pick);
    var picks :| !HonestWindow(servers.target, Played(servers, m', activation, picks).sys.window);
    assert ([pick] + picks)[1..] == picks;
    assert Played(servers, m, activation, [pick] + picks) == Played(servers, m', activation, picks);
  }

  /** Whatever goes first into a cleared window stays there. */
  lemma FirstIsStored(w: Window, e: Entry)
    requires w == EMPTY.(lastCleared := w.lastCleared) && EntryOk(e)
    ensures AfterInsert(w, e).0 != Duplicate
    ensures var w' := AfterInsert(w, e).1; e.id in w'.images && w'.images[e.id] == e.pixels
  {
    hide Bytes;
    var p := Progress(map[e.id := e.oldest], 0, 0);
    if e.id == 0 {
      assert p.waiting - {0} == map[];
      assert Advance(Progress(map[], 1, 0)) == Progress(map[], 1, 0);
    }
  }

  /** No id stands for the same image with both servers. */
  ghost predicate Differ(servers: Servers)
    requires Sent(servers.source) && Sent(servers.target)
  {
    forall i :: 0 <= i < servers.source.count && i < servers.target.count ==>
      Sequential(servers.target, i) != Sequential(servers.source, i)
  }

  /** An old channel and a cleared window. */
  ghost predicate Stale(servers: Servers, m: Handover, d: nat) {
    && Valid(servers, m) && d < |m.moved| && !m.moved[d]
    && m.sys.window == EMPTY.(lastCleared := m.sys.window.lastCleared)
    && HonestTask(servers.source, m.sys.tasks[d])
  }

  /** An old image inserted after the clear is stored under its id, where the new server has another. */
  lemma StaleInsertStored(servers: Servers, m: Handover, activation: nat, d: nat)
    requires Stale(servers, m, d) && Differ(servers) && m.sys.tasks[d].mode.Inserting?
    ensures !Safe(servers, m, activation)
  {
    hide Sequential, AfterInsert, ParseHeader;
    var t := m.sys.tasks[d];
    assert TaskShape(servers.source, t);
    var i := t.todo[0];
    assert Accepts(servers.source, i);
    FirstIsStored(m.sys.window, Entry(i, t.mode.pixels, HeaderOf(servers.source, i).oldest));
    var m' := Picked(servers, m, activation, Steps(d));
    PickedValid(servers, m, activation, Steps(d));
    assert m'.sys.window.images[i] == t.mode.pixels;
    assert !HonestWindow(servers.target, m'.sys.window);
    UnsafeNow(servers, m', activation);
    UnsafeLater(servers, m, activation, Steps(d));
  }

  const NOTHING: Dictionary := (_: nat) => None

  /** The image in hand needs no other: it is decoded, or will be, with an empty dictionary. */
  ghost predicate Loose(server: Server, t: Task)
    requires Sent(server) && TaskShape(server, t)
  {
    match t.mode
    case NeedSlot => Completes(server, t.todo[0])
    case Decoding(state) => Finish(HeaderOf(server, t.todo[0]), server.payload(t.todo[0]), state, NOTHING).Complete?
    case Inserting(_) => true
    case Notifying => |t.todo| > 1 && Completes(server, t.todo[1])
    case _ => false
  }

  ghost predicate Completes(server: Server, i: nat) {
    Accepts(server, i) && Finish(HeaderOf(server, i), server.payload(i), Start(), NOTHING).Complete?
  }

  /** One step of an old decode after the clear: on, to its image, or off its slot. */
  lemma StaleStep(servers: Servers, m: Handover, activation: nat, d: nat)
    requires Stale(servers, m, d) && m.sys.tasks[d].mode.Decoding?
    ensures var m' := Picked(servers, m, activation, Steps(d));
      var t, t' := m.sys.tasks[d], m'.sys.tasks[d];
      && Stale(servers, m', d) && m'.moved == m.moved && t'.todo == t.todo && t.todo != []
      && m'.sys.tasks == m.sys.tasks[d := t']
      && (t'.mode.Inserting? || t'.mode.Decoding? || m'.sys.freeSlots > 0)
      && (Loose(servers.source, t) ==> (t'.mode.Inserting? || t'.mode.Decoding?) && Loose(servers.source, t'))
      && (t'.mode.Decoding? ==>
            && Accepts(servers.source, t.todo[0])
            && Left(servers.source.payload(t.todo[0]), t'.mode.state)
               < Left(servers.source.payload(t.todo[0]), t.mode.state))
  {
    hide Step, Sequential, ParseHeader, Truth, Consults;
    var t := m.sys.tasks[d];
    assert TaskShape(servers.source, t);
    var i := t.todo[0];
    var h, input := HeaderOf(servers.source, i), servers.source.payload(i);
    StepConsults(h, input, t.mode.state, Lookup(m.sys.window), NOTHING);
    StepProgresses(h, input, t.mode.state, NOTHING);
    PickedValid(servers, m, activation, Steps(d));
    assert HonestWindow(servers.source, m.sys.window);
    MoveKeepsHonestTask(servers.source, Only(m.sys, d), 0);
  }

  lemma {:induction false} LooseDecodeStored(servers: Servers, m: Handover, activation: nat, d: nat)
    requires Stale(servers, m, d) && Differ(servers) && Loose(servers.source, m.sys.tasks[d])
    requires m.sys.tasks[d].mode.Inserting? || m.sys.tasks[d].mode.Decoding?
    ensures !Safe(servers, m, activation)
    decreases if m.sys.tasks[d].mode.Decoding?
              then 1 + Left(servers.source.payload(m.sys.tasks[d].todo[0]), m.sys.tasks[d].mode.state) else 0
  {
    hide Differ, Picked, Safe, Loose;
    if m.sys.tasks[d].mode.Inserting? {
      StaleInsertStored(servers, m, activation, d);
    } else {
      StaleStep(servers, m, activation, d);
      LooseDecodeStored(servers, Picked(servers, m, activation, Steps(d)), activation, d);
      UnsafeLater(servers, m, activation, Steps(d));
    }
  }

  /** With a slot free, an old channel that wants one goes on to store its image. */
  lemma LooseStartStored(servers: Servers, m: Handover, activation: nat, d: nat)
    requires Stale(servers, m, d) && Differ(servers) && Loose(servers.source, m.sys.tasks[d])
    requires m.sys.tasks[d].mode.NeedSlot? && m.sys.freeSlots > 0
    ensures !Safe(servers, m, activation)
  {
    hide Step, Sequential, ParseHeader, Truth, Safe, Differ;
    var t := m.sys.tasks[d];
    assert TaskShape(servers.source, t);
    SequentialSeesTruth(servers.source, t.todo[0]);
    PickedValid(servers, m, activation, Steps(d));
    var m' := Picked(servers, m, activation, Steps(d));
    assert m'.sys.tasks[d] == Task(t.todo, Decoding(Start()));
    LooseDecodeStored(servers, m', activation, d);
    UnsafeLater(servers, m, activation, Steps(d));
  }

  /** A channel that announces gives its slot back. */
  lemma AnnouncerFrees(servers: Servers, m: Handover, activation: nat, e: nat)
    requires Valid(servers, m) && e < |m.moved| && m.sys.tasks[e].mode.Notifying?
    ensures var m' := Picked(servers, m, activation, Steps(e));
      var rest := m.sys.tasks[e].todo[1..];
      && Valid(servers, m') && m'.moved == m.moved && m'.sys.window == m.sys.window && m'.sys.freeSlots > 0
      && m'.sys.tasks == m.sys.tasks[e := Task(rest, if rest == [] then Idle else NeedSlot)]
  {
    hide Step, Sent, AfterInsert;
    assert TaskShape(ServerOf(servers, m, e), m.sys.tasks[e]);
    PickedValid(servers, m, activation, Steps(e));
  }

  /** One with another such image goes on to it. */
  lemma AnnouncerStored(servers: Servers, m: Handover, activation: nat, d: nat)
    requires Stale(servers, m, d) && Differ(servers) && Loose(servers.source, m.sys.tasks[d])
    requires m.sys.tasks[d].mode.Notifying?
    ensures !Safe(servers, m, activation)
  {
    hide Sent, Picked, Completes, Differ, Safe;
    AnnouncerFrees(servers, m, activation, d);
    LooseStartStored(servers, Picked(servers, m, activation, Steps(d)), activation, d);
    UnsafeLater(servers, m, activation, Steps(d));
  }

  /** While another old channel decodes, `d` waits: until the other stores its image, or gives up its slot. */
  lemma {:induction false} DecoderStoredOrFrees(servers: Servers, m: Handover, activation: nat, d: nat, e: nat)
    requires Stale(servers, m, d) && Stale(servers, m, e) && Differ(servers) && d != e
    requires m.sys.tasks[d].mode.NeedSlot? && Loose(servers.source, m.sys.tasks[d])
    requires m.sys.tasks[e].mode.Decoding? && m.sys.tasks[e].todo != []
    ensures !Safe(servers, m, activation)
    decreases Left(servers.source.payload(m.sys.tasks[e].todo[0]), m.sys.tasks[e].mode.state)
  {
    hide Safe, Differ, Loose, Picked;
    StaleStep(servers, m, activation, e);
    var m' := Picked(servers, m, activation, Steps(e));
    assert m'.sys.tasks[d] == m.sys.tasks[d];
    if m'.sys.tasks[e].mode.Decoding? {
      DecoderStoredOrFrees(servers, m', activation, d, e);
    } else if m'.sys.tasks[e].mode.Inserting? {
      StaleInsertStored(servers, m', activation, e);
    } else {
      LooseStartStored(servers, m', activation, d);
    }
    UnsafeLater(servers, m, activation, Steps(e));
  }

  /** Right after the clear: no moved channel holds a slot, and the others are as they were. */
  ghost predicate AllStale(servers: Servers, m: Handover) {
    && Valid(servers, m)
    && (forall c :: 0 <= c < |m.moved| ==> if m.moved[c] then Holds(m.sys.tasks[c]) == 0 else Stale(servers, m, c))
  }

  lemma LooseWantStored(servers: Servers, m: Handover, activation: nat, d: nat, slots: nat)
    requires AllStale(servers, m) && SlotsOk(m.sys, slots) && slots >= 1 && Differ(servers)
    requires Stale(servers, m, d) && m.sys.tasks[d].mode.NeedSlot? && Loose(servers.source, m.sys.tasks[d])
    ensures !Safe(servers, m, activation)
  {
    hide Safe, Differ, Total, HonestTask, Picked, Sent, Completes;
    if m.sys.freeSlots > 0 {
      LooseStartStored(servers, m, activation, d);
    } else {
      TotalPositive(Holds, m.sys.tasks);
      var e: nat :| e < |m.sys.tasks| && Holds(m.sys.tasks[e]) > 0;
      assert Stale(servers, m, e) && TaskShape(servers.source, m.sys.tasks[e]);
      if m.sys.tasks[e].mode.Notifying? {
        AnnouncerFrees(servers, m, activation, e);
        var m' := Picked(servers, m, activation, Steps(e));
        assert m'.sys.tasks[d] == m.sys.tasks[d];
        LooseStartStored(servers, m', activation, d);
        UnsafeLater(servers, m, activation, Steps(e));
      } else if m.sys.tasks[e].mode.Inserting? {
        StaleInsertStored(servers, m, activation, e);
      } else {
        DecoderStoredOrFrees(servers, m, activation, d, e);
      }
    }
  }

  lemma ArrivalLeavesStale(servers: Servers, m: Handover, activation: nat, c: nat, slots: nat)
    requires Clears(servers, m, activation, c) && Honest(servers.source, m.sys) && SlotsOk(m.sys, slots)
    ensures var m' := Arrived(m, c, activation); AllStale(servers, m') && SlotsOk(m'.sys, slots)
  {
    hide Sent, Total, HonestTask, HonestWindow;
    PickedValid(servers, m, activation, Arrives(c));
    var m' := Arrived(m, c, activation);
    TotalUpdate(Holds, m.sys.tasks, c, m'.sys.tasks[c]);
    assert m'.sys.tasks == m.sys.tasks[c := m'.sys.tasks[c]];
  }

  ghost predicate SomeLoose(servers: Servers, m: Handover)
    requires Valid(servers, m) && NoneMoved(m)
  {
    exists d :: 0 <= d < |m.moved| && Loose(servers.source, m.sys.tasks[d])
  }

  /** An old image in hand at the clear that needs no other can end up among the new server's. */
  lemma LooseUnsafe(servers: Servers, m: Handover, activation: nat, c: nat, slots: nat)
    requires Clears(servers, m, activation, c) && Honest(servers.source, m.sys) && SlotsOk(m.sys, slots) && slots >= 1
    requires Differ(servers) && SomeLoose(servers, m)
    ensures Valid(servers, Arrived(m, c, activation)) && !Safe(servers, Arrived(m, c, activation), activation)
  {
    hide Safe, Differ, HonestTask, HonestWindow, SlotsOk, Completes, Sent;
    var m' := Arrived(m, c, activation);
    ArrivalLeavesStale(servers, m, activation, c, slots);
    var d: nat :| d < |m.moved| && Loose(servers.source, m.sys.tasks[d]);
    assert m'.sys.tasks[d] == m.sys.tasks[d] && Stale(servers, m', d);
    if m'.sys.tasks[d].mode.NeedSlot? {
      LooseWantStored(servers, m', activation, d, slots);
    } else if m'.sys.tasks[d].mode.Notifying? {
      AnnouncerStored(servers, m', activation, d);
    } else {
      LooseDecodeStored(servers, m', activation, d);
    }
  }

  lemma HarmlessSafe(servers: Servers, m: Handover, activation: nat, c: nat)
    requires Clears(servers, m, activation, c) && AllHarmless(servers, m)
    ensures Valid(servers, Arrived(m, c, activation)) && Safe(servers, Arrived(m, c, activation), activation)
  {
    hide HonestWindow, Sent, Played, Harmless;
    var m' := Arrived(m, c, activation);
    HarmlessClears(servers, m, activation, c);
    forall picks
      ensures HonestWindow(servers.target, Played(servers, m', activation, picks).sys.window)
    {
      PlayedClean(servers, m', activation, picks);
    }
  }

  /** Every run after the clear stores only images of the new server if and only if no channel has, at the
      clear, an old image in hand that needs no other; where each old channel either has one, or could not
      finish its images even with all of the new server's at hand. */
  lemma SafeIffNoneLoose(servers: Servers, m: Handover, activation: nat, c: nat, slots: nat)
    requires Clears(servers, m, activation, c) && Honest(servers.source, m.sys) && SlotsOk(m.sys, slots) && slots >= 1
    requires Differ(servers)
    requires forall d :: 0 <= d < |m.moved| ==>
      Loose(servers.source, m.sys.tasks[d]) || Harmless(servers, m.sys.tasks[d])
    ensures Valid(servers, Arrived(m, c, activation))
    ensures Safe(servers, Arrived(m, c, activation), activation) <==> !SomeLoose(servers, m)
  {
    hide Safe, Differ, Honest, SlotsOk, Loose, Harmless, Sent;
    if SomeLoose(servers, m) {
      LooseUnsafe(servers, m, activation, c, slots);
    } else {
      HarmlessSafe(servers, m, activation, c);
    }
  }

  // ---------------------------------------------------------------------------
  // Sessions of images that spell themselves out
  // ---------------------------------------------------------------------------

  /** Every header asks to keep nothing before its own image. */
  ghost predicate Keyframes(server: Server)
    requires Sent(server)
  {
    forall i :: 0 <= i < server.count ==> Accepts(server, i) && HeaderOf(server, i).oldest == i
  }

  /** Such an image decodes alike with any dictionary. */
  lemma {:induction false} KeyframeFinish(h: Header, input: seq<byte>, s: State, d: Dictionary, e: Dictionary)
    requires StateOk(h, input, s) && h.oldest == h.id && StaysInWindow(h, input, s, d)
    ensures Finish(h, input, s, e) == Finish(h, input, s, d)
    decreases Left(input, s)
  {
    hide Step, Consults;
    StepConsults(h, input, s, d, e);
    StepProgresses(h, input, s, d);
    var step := Step(h, input, s, d);
    if step.Continue? {
      KeyframeFinish(h, input, step.state, d, e);
    }
  }

  lemma KeyframeCompletes(server: Server, i: nat)
    requires Disciplined(server) && Keyframes(server) && Decodes(server) && i < server.count
    ensures Completes(server, i)
  {
    hide Sequential, Truth, StaysInWindow, ParseHeader, Step;
    assert Accepts(server, i);
    SequentialSeesTruth(server, i);
    KeyframeFinish(HeaderOf(server, i), server.payload(i), Start(), Truth(server), NOTHING);
  }

  /** A channel that has no old image left to insert. */
  predicate Done(t: Task) {
    t.mode.Idle? || t.mode.Stopped? || (t.mode.Notifying? && |t.todo| == 1)
  }

  lemma UndoneIsLoose(server: Server, t: Task)
    requires Disciplined(server) && Keyframes(server) && Decodes(server)
    requires TaskShape(server, t) && HonestTask(server, t) && OrderlyTask(server, t)
    ensures Loose(server, t) <==> !Done(t)
  {
    hide Sequential, Truth, StaysInWindow, ParseHeader, Step, Completes, Disciplined;
    if Active(t.mode) {
      KeyframeCompletes(server, t.todo[0]);
      if |t.todo| > 1 {
        KeyframeCompletes(server, t.todo[1]);
      }
      if t.mode.Decoding? {
        KeyframeFinish(HeaderOf(server, t.todo[0]), server.payload(t.todo[0]), t.mode.state, Truth(server), NOTHING);
      }
    }
  }

  /** In a disciplined session of such images, every run after the clear stores only images of the new
      server if and only if no channel had an old image left at the clear. */
  lemma SafeIffSettled(servers: Servers, m: Handover, activation: nat, c: nat, slots: nat)
    requires Clears(servers, m, activation, c) && Orderly(servers.source, m.sys)
    requires SlotsOk(m.sys, slots) && slots >= 1 && Differ(servers)
    requires Keyframes(servers.source) && Decodes(servers.source)
    ensures Valid(servers, Arrived(m, c, activation))
    ensures Safe(servers, Arrived(m, c, activation), activation)
      <==> forall d :: 0 <= d < |m.moved| ==> Done(m.sys.tasks[d])
  {
    hide Safe, Differ, SlotsOk, Loose, Disciplined, Keyframes, Decodes, Accounted, LogTrue, Reflects, HonestWindow,
      OrderlyTask, HonestTask;
    forall d | 0 <= d < |m.moved|
      ensures Loose(servers.source, m.sys.tasks[d]) <==> !Done(m.sys.tasks[d])
      ensures Done(m.sys.tasks[d]) ==> Harmless(servers, m.sys.tasks[d])
    {
      assert TaskShape(servers.source, m.sys.tasks[d]);
      UndoneIsLoose(servers.source, m.sys.tasks[d]);
    }
    SafeIffNoneLoose(servers, m, activation, c, slots);
  }
}
