/** Small sessions, byte by byte.

  Two images of one pixel: the first spells its pixel out, the second refers to
  the first. So the assumptions of the liveness results can be met by a session
  that depends on the shared dictionary. And two servers of one image each: a
  migration between them can leave the old image among the new.
*/
module GlzWitness {
  import opened Basics
  import opened GlzFormat
  import opened GlzWindow
  import opened GlzSession
  import opened GlzLiveness
  import opened GlzCompletion
  import opened GlzMigration
  import opened GlzBudget

  function Color(blue: byte): Pixel {
    [3, 2, blue, 255]
  }

  const PIXEL := Color(1)

  const LIMITS := Limits(16, 16, 1024)

  function Head(id: byte): (b: seq<byte>)
    ensures |b| == HEADER_BYTES
  {
    [0x20, 0x20, 0x5a, 0x4c] + [0, 1, 0, 1] + [8] + [0, 0, 0, 1] + [0, 0, 0, 1] + [0, 0, 0, 4]
    + [0, 0, 0, 0, 0, 0, 0, id] + [0, 0, 0, id]
  }

  /** One literal pixel. */
  function Literal(blue: byte): seq<byte> {
    [0, blue, 2, 3]
  }

  function Body(id: nat): seq<byte> {
    if id == 0 then Literal(1) else [0x20, 0, 1]
  }

  const SESSION := Server((i: nat) => if i < 2 then Head(i) + Body(i) else [], LIMITS, 2)

  function Expected(id: nat): Header {
    Header(Rgb32, false, 1, 1, id, 0)
  }

  lemma Word(a: byte, b: byte, c: byte, d: byte)
    ensures BigEndian([a, b, c, d]) == 0x100 * (0x100 * (0x100 * a as int + b as int) + c as int) + d as int
  {
    assert [a][..0] == [];
    assert BigEndian([a]) == a as int;
    assert [a, b][..1] == [a];
    assert BigEndian([a, b]) == 0x100 * a as int + b as int;
    assert [a, b, c][..2] == [a, b];
    assert [a, b, c, d][..3] == [a, b, c];
  }

  lemma Long(d: byte)
    ensures BigEndian([0, 0, 0, 0, 0, 0, 0, d]) == d as int
  {
    var zeros: seq<byte> := [0, 0, 0, 0];
    Word(0, 0, 0, 0);
    assert [0, 0, 0, 0, 0][..4] == zeros;
    assert [0, 0, 0, 0, 0, 0][..5] == [0, 0, 0, 0, 0];
    assert [0, 0, 0, 0, 0, 0, 0][..6] == [0, 0, 0, 0, 0, 0];
    assert [0, 0, 0, 0, 0, 0, 0, d][..7] == [0, 0, 0, 0, 0, 0, 0];
  }

  lemma HeadParses(id: byte, body: seq<byte>)
    requires id < 2
    ensures ParseHeader(Head(id) + body, LIMITS) == Accepted(Expected(id))
  {
    var input := Head(id) + body;
    assert Field(input, 0, 4) == LZ_MAGIC by {
      assert input[0..4] == [0x20, 0x20, 0x5a, 0x4c];
      Word(0x20, 0x20, 0x5a, 0x4c);
    }
    assert Field(input, 4, 4) == LZ_VERSION by {
      assert input[4..8] == [0, 1, 0, 1];
      Word(0, 1, 0, 1);
    }
    assert Field(input, 9, 4) == Field(input, 13, 4) == 1 by {
      assert input[9..13] == [0, 0, 0, 1] && input[13..17] == [0, 0, 0, 1];
      Word(0, 0, 0, 1);
    }
    assert Field(input, 17, 4) == 4 by {
      assert input[17..21] == [0, 0, 0, 4];
      Word(0, 0, 0, 4);
    }
    assert Field(input, 21, 8) == id by {
      assert input[21..29] == [0, 0, 0, 0, 0, 0, 0, id];
      Long(id);
    }
    assert Field(input, 29, 4) == id by {
      assert input[29..33] == [0, 0, 0, id];
      Word(0, 0, 0, id);
    }
    hide Field;
    assert input[8] == 8;
  }

  lemma SessionSent()
    ensures Sent(SESSION) && HeaderOf(SESSION, 0) == Expected(0) && HeaderOf(SESSION, 1) == Expected(1)
  {
    hide ParseHeader, Head, Body;
    HeadParses(0, Body(0));
    HeadParses(1, Body(1));
    assert Accepts(SESSION, 0) && Accepts(SESSION, 1);
  }

  /** A literal image looks nothing up. */
  lemma LiteralImage(blue: byte, d: Dictionary)
    ensures var input := Head(0) + Literal(blue);
      var s := State(37, [Color(blue)], 1, false);
      && StateOk(Expected(0), input, Start()) && StateOk(Expected(0), input, s)
      && Step(Expected(0), input, Start(), d) == Continue(s)
      && Step(Expected(0), input, s, d) == Complete([Color(blue)])
  {
    var input := Head(0) + Literal(blue);
    assert input[33] == 0 && input[34..37] == [blue, 2, 3];
    hide Head, Literal, ParseReference;
    var start := State(34, [], 0, false);
    var s := State(37, [Color(blue)], 1, false);
    assert Literals(Expected(0), input, s, 0) == Continue(s);
    assert Literals(Expected(0), input, start, 1) == Continue(s);
  }

  /** The second image copies the first. */
  lemma SecondImage(d: Dictionary)
    ensures var input := Head(1) + Body(1);
      var s := State(36, [PIXEL], 1, false);
      && StateOk(Expected(1), input, Start()) && StateOk(Expected(1), input, s)
      && (d(0) == Some([PIXEL]) ==> Step(Expected(1), input, Start(), d) == Continue(s))
      && (d(0) == None ==> Step(Expected(1), input, Start(), d) == Missing(0))
      && Step(Expected(1), input, s, d) == Complete([PIXEL])
  {
    var input := Head(1) + Body(1);
    assert input[33] == 0x20 && input[34] == 0 && input[35] == 1;
    assert |input| == 36;
    hide Head, Body;
    assert LittleEndian(input, 36, 0) == Got(0, 36);
    assert ParseReference(input, 34, 0x20, 0) == Got(Reference(1, 0, 1), 36);
    CopyImageAppends([], 0, [PIXEL], 0, 1);
    hide ParseReference;
  }

  lemma SequentialImages()
    requires Sent(SESSION) && HeaderOf(SESSION, 0) == Expected(0) && HeaderOf(SESSION, 1) == Expected(1)
    ensures Sequential(SESSION, 0) == Complete([PIXEL]) && Sequential(SESSION, 1) == Complete([PIXEL])
    ensures Truth(SESSION)(0) == Some([PIXEL])
  {
    hide Step, Head, Literal, ParseHeader, LittleEndian;
    SequentialSeesTruth(SESSION, 0);
    LiteralImage(1, Truth(SESSION));
    FinishTwo(Expected(0), SESSION.payload(0), State(37, [PIXEL], 1, false), [PIXEL], Truth(SESSION));
    assert Truth(SESSION)(0) == Some([PIXEL]);
    SequentialSeesTruth(SESSION, 1);
    SecondImage(Truth(SESSION));
    FinishTwo(Expected(1), SESSION.payload(1), State(36, [PIXEL], 1, false), [PIXEL], Truth(SESSION));
  }

  /** A decode of two steps. */
  lemma FinishTwo(h: Header, input: seq<byte>, s: State, pixels: seq<Pixel>, d: Dictionary)
    requires StateOk(h, input, Start()) && StateOk(h, input, s)
    requires Step(h, input, Start(), d) == Continue(s) && Step(h, input, s, d) == Complete(pixels)
    ensures Finish(h, input, Start(), d) == Complete(pixels)
  {
    hide Step;
    StepProgresses(h, input, Start(), d);
    assert Finish(h, input, s, d) == Complete(pixels);
  }

  lemma StaysTwo(h: Header, input: seq<byte>, s: State, d: Dictionary)
    requires StateOk(h, input, Start()) && StateOk(h, input, s)
    requires Step(h, input, Start(), d) == Continue(s) && Step(h, input, s, d).Complete?
    requires h.oldest == 0
    ensures StaysInWindow(h, input, Start(), d)
  {
    hide Step, Consults;
    StepProgresses(h, input, Start(), d);
    assert StaysInWindow(h, input, s, d);
  }

  lemma ImagesStay()
    requires Sent(SESSION) && HeaderOf(SESSION, 0) == Expected(0) && HeaderOf(SESSION, 1) == Expected(1)
    requires Truth(SESSION)(0) == Some([PIXEL])
    ensures StaysInWindow(Expected(0), SESSION.payload(0), Start(), Truth(SESSION))
    ensures StaysInWindow(Expected(1), SESSION.payload(1), Start(), Truth(SESSION))
  {
    hide Step, Head, Literal, ParseHeader, Truth, StaysInWindow;
    LiteralImage(1, Truth(SESSION));
    SecondImage(Truth(SESSION));
    StaysTwo(Expected(0), SESSION.payload(0), State(37, [PIXEL], 1, false), Truth(SESSION));
    StaysTwo(Expected(1), SESSION.payload(1), State(36, [PIXEL], 1, false), Truth(SESSION));
  }

  lemma QueuesShare(queues: seq<seq<nat>>)
    requires queues == [[1], [0]]
    ensures Shared(SESSION, queues)
  {
    assert Place(queues, 0, 0) && Place(queues, 1, 0);
    assert Assigned(queues, 0) && Assigned(queues, 1);
  }

  /** The session is disciplined, and two channels can share it. */
  lemma DisciplinedSessionExists()
    ensures Disciplined(SESSION) && Decodes(SESSION) && Shared(SESSION, [[1], [0]])
  {
    hide Head, Body, ParseHeader, Sequential, Truth, StaysInWindow, Shared, Accepts;
    SessionSent();
    SequentialImages();
    ImagesStay();
    QueuesShare([[1], [0]]);
  }

  lemma {:induction false} SmallBytes(images: map<nat, seq<Pixel>>)
    requires forall id :: id in images ==> |images[id]| == 1
    ensures Bytes(images) == 4 * |images|
    decreases |images|
  {
    if images != map[] {
      var id :| id in images;
      var rest := images - {id};
      RemoveShrinks(images, id);
      BytesWithout(images, id);
      assert rest.Keys == images.Keys - {id};
      SmallBytes(rest);
    }
  }

  /** Its windows are small, so every schedule delivers both images. */
  lemma SessionDelivers(schedule: Schedule, queues: seq<seq<nat>>, slots: nat)
    requires Shared(SESSION, queues) && slots >= 1
    ensures Sent(SESSION) && Roomy(SESSION, queues)
    ensures Orderly(SESSION, Begin(queues, slots)) && SlotsOk(Begin(queues, slots), slots) && Decodes(SESSION)
    ensures Run(SESSION, Begin(queues, slots), schedule, slots).log == SequentialLog(SESSION)
  {
    hide Head, Body, ParseHeader, Sequential, Disciplined, Decodes, Orderly, Shared, Run, Begin, SlotsOk, Reflects,
      SequentialLog, AllIdle;
    SessionSent();
    DisciplinedSessionExists();
    forall ids: set<nat>, w: Window | Cut(SESSION, queues, ids) && Reflects(w, CutLog(SESSION, ids))
      ensures w.retainedBytes <= DICTIONARY_BYTES
    {
      SmallWindow(ids, w);
    }
    EveryScheduleDelivers(SESSION, queues, slots, schedule);
  }

  lemma SmallWindow(ids: set<nat>, w: Window)
    requires Sent(SESSION) && Closed(SESSION, ids) && Reflects(w, CutLog(SESSION, ids))
    ensures w.retainedBytes <= DICTIONARY_BYTES
  {
    hide Head, Body, ParseHeader, Sequential, Bytes, Known, Truth;
    SessionSent();
    SequentialImages();
    forall id | id in w.images
      ensures id in {0, 1} && |w.images[id]| == 1
    {
      assert Grounded(SESSION, ids, id);
    }
    SmallBytes(w.images);
    SubsetSize(w.images.Keys, {0, 1});
  }

  // ---------------------------------------------------------------------------
  // A migration
  // ---------------------------------------------------------------------------

  /** A server with one literal image. */
  function One(blue: byte): Server {
    Server((i: nat) => if i == 0 then Head(0) + Literal(blue) else [], LIMITS, 1)
  }

  lemma OneDecodes(blue: byte)
    ensures var server := One(blue);
      && Sent(server) && Disciplined(server) && Decodes(server) && Keyframes(server)
      && Sequential(server, 0) == Complete([Color(blue)])
  {
    hide Head, Literal, ParseHeader, Step, Truth;
    var server := One(blue);
    HeadParses(0, Literal(blue));
    assert Accepts(server, 0) && HeaderOf(server, 0) == Expected(0);
    LiteralImage(blue, Truth(server));
    var s := State(37, [Color(blue)], 1, false);
    SequentialSeesTruth(server, 0);
    FinishTwo(Expected(0), server.payload(0), s, [Color(blue)], Truth(server));
    StaysTwo(Expected(0), server.payload(0), s, Truth(server));
  }

  lemma OneQueue(server: Server, queues: seq<seq<nat>>)
    requires server.count == 1 && queues == [[0], []]
    ensures Shared(server, queues)
  {
    assert Place(queues, 0, 0) && Assigned(queues, 0);
  }

  /** Two channels, of which the first has the old image still to fetch and the second has none. */
  ghost function Leaving(queues: seq<seq<nat>>): Handover {
    Handover(Begin(queues, 1), [false, false], [[], [0]])
  }

  lemma LeavingClears(servers: Servers, queues: seq<seq<nat>>, activation: nat)
    requires Sent(servers.source) && Sent(servers.target) && servers.source.count == servers.target.count == 1
    requires queues == [[0], []] && activation > 0
    ensures Clears(servers, Leaving(queues), activation, 1) && !Done(Leaving(queues).sys.tasks[0])
  {
    hide Sent;
  }

  lemma OldAmongNew(servers: Servers, queues: seq<seq<nat>>, activation: nat)
    requires Disciplined(servers.source) && Sent(servers.target) && servers.source.count == servers.target.count == 1
    requires Keyframes(servers.source) && Decodes(servers.source)
    requires Sequential(servers.target, 0) != Sequential(servers.source, 0)
    requires queues == [[0], []] && activation > 0
    ensures var m := Leaving(queues);
      Clears(servers, m, activation, 1) && Valid(servers, Arrived(m, 1, activation))
      && !Safe(servers, Arrived(m, 1, activation), activation)
  {
    assert Sent(servers.source);
    hide Disciplined, Decodes, Keyframes, Orderly, Clears, Safe, Sent, Sequential, Begin, SlotsOk, Shared, Done,
      Arrived, Valid;
    OneQueue(servers.source, queues);
    BeginOrderly(servers.source, queues, 1);
    LeavingClears(servers, queues, activation);
    SafeIffSettled(servers, Leaving(queues), activation, 1, 1);
  }

  /** When the second channel arrives at the new server first, a run stores the old image under the id of
      the new one. */
  lemma OldImageAmongNew(queues: seq<seq<nat>>, activation: nat)
    requires queues == [[0], []] && activation > 0
    ensures var servers := Servers(One(1), One(9));
      var m := Leaving(queues);
      Clears(servers, m, activation, 1) && Valid(servers, Arrived(m, 1, activation))
      && !Safe(servers, Arrived(m, 1, activation), activation)
  {
    hide Disciplined, Decodes, Keyframes, Clears, Safe, Sequential, Leaving;
    OneDecodes(1);
    OneDecodes(9);
    assert Color(1)[2] != Color(9)[2];
    OldAmongNew(Servers(One(1), One(9)), queues, activation);
  }
}
