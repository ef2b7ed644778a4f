/** Runs of the main loop from its own start that show what can happen there.

  A host can end the loop, with a command or with what the loop has ready to send,
  and a file can be reported as received before any of its bytes were sent.
*/
module AgentWitness {
  import opened Basics
  import opened AgentTransfers
  import opened AgentWorld
  import opened AgentSoundness
  import opened AgentRuntime
  import O = AgentOutbox

  /** The loop as it starts with an Agent connected and five tokens. */
  const CONNECTED := Begun(Unconnected(5), None)

  function Meets(stimulus: Stimulus): Turn {
    Turn(None, [stimulus])
  }

  const ANNOUNCES := Meets(Fragment(Some([Announcement(false, false)])))

  lemma NextTurn(w: World, turn: Turn, turns: seq<Turn>)
    requires Turned(w, turn).failure.None?
    ensures var rest := Loop(Turned(w, turn).world, turns);
      Loop(w, [turn] + turns) == rest.(served := rest.served + 1)
  {
    hide Turned;
    assert ([turn] + turns)[1..] == turns;
  }

  lemma OneStimulus(w: World, stimulus: Stimulus)
    requires O.Prepare(w.outbox, None) == O.Ok(w.outbox) && 1 <= w.table.nextId <= MAX_ID
    ensures Turned(w, Meets(stimulus)) == Reacted(w, stimulus)
  {
    hide Reacted;
    var s := Reacted(w, stimulus);
    assert [stimulus][1..] == [];
    assert ReactedAll(s.world, []) == Step(s.world, None);
  }

  /** A world whose Agent is ready and whose slot is free. */
  ghost predicate Open(w: World) {
    && O.CanAccept(w.outbox) && w.outbox.connected && w.outbox.tokens >= 4
    && w.table == EMPTY.(generation := 1)
    && w.account.connected && w.account.tokens >= 4
  }

  ghost function Opened(): World {
    Turned(Turned(CONNECTED, Meets(SocketFree)).world, ANNOUNCES).world
  }

  /** The loop's own announcement goes out, and the peer's comes in. */
  lemma OpeningTurns()
    ensures var sent := Turned(CONNECTED, Meets(SocketFree));
      sent.failure.None? && Turned(sent.world, ANNOUNCES).failure.None?
    ensures Open(Opened()) && Opened().successes == []
  {
  }

  lemma OpensUp(turns: seq<Turn>)
    ensures var rest := Loop(Opened(), turns);
      Loop(CONNECTED, [Meets(SocketFree), ANNOUNCES] + turns) == rest.(served := rest.served + 2)
  {
    hide Turned, Loop, Open;
    OpeningTurns();
    NextTurn(Turned(CONNECTED, Meets(SocketFree)).world, ANNOUNCES, turns);
    NextTurn(CONNECTED, Meets(SocketFree), [ANNOUNCES] + turns);
    assert [Meets(SocketFree), ANNOUNCES] + turns == [Meets(SocketFree)] + ([ANNOUNCES] + turns);
  }

  lemma ThirdTurnEnds(turn: Turn)
    requires Turned(Opened(), turn).failure == Some(InvalidPayload)
    ensures var r := Loop(CONNECTED, [Meets(SocketFree), ANNOUNCES, turn]);
      r.failure == Some(InvalidPayload) && r.served == 2
  {
    hide Turned;
    OpensUp([turn]);
    assert [Meets(SocketFree), ANNOUNCES] + [turn] == [Meets(SocketFree), ANNOUNCES, turn];
  }

  /** A host command of the current generation whose payload does not encode ends the loop. */
  lemma CommandEndsLoop()
    ensures var turn := Meets(HostCommand(1, Simple(Some(O.Unencodable))));
      var r := Loop(CONNECTED, [Meets(SocketFree), ANNOUNCES, turn]);
      r.failure == Some(InvalidPayload) && r.served == 2
  {
    hide Loop, Turned;
    var stimulus := HostCommand(1, Simple(Some(O.Unencodable)));
    OpeningTurns();
    OneStimulus(Opened(), stimulus);
    ThirdTurnEnds(Meets(stimulus));
  }

  /** So does a layout or an offer that does not encode, before anything else happens in its turn. */
  lemma DraftEndsLoop(stimuli: seq<Stimulus>)
    ensures var turn := Turn(Some(O.Unencodable), stimuli);
      var r := Loop(CONNECTED, [Meets(SocketFree), ANNOUNCES, turn]);
      r.failure == Some(InvalidPayload) && r.served == 2
  {
    hide Loop, ReactedAll, Begun, Unconnected, Opened;
    var turn := Turn(Some(O.Unencodable), stimuli);
    OpeningTurns();
    ThirdTurnEnds(turn);
  }

  // ---------------------------------------------------------------------------
  // A success that overtakes the bytes
  // ---------------------------------------------------------------------------

  const STARTS := Meets(HostCommand(1, Request.StartFile(4, false, Some(64))))
  const AGREES := Meets(Fragment(Some([FileStatus(1, CanSendData)])))
  const SENDS := Meets(HostCommand(1, Request.FileData(0, 1, 4)))
  const SUCCEEDS := Meets(Fragment(Some([FileStatus(1, Succeeded)])))

  /** The one file is at this point, with this message in the slot and some tokens left on both sides. */
  ghost predicate FileAt(w: World, accepted: nat, phase: Phase, slot: Option<O.Message>, tokens: nat) {
    && w.outbox.connected && w.outbox.ready && !w.outbox.announcePending && !w.outbox.maxClipboardPending
    && w.outbox.message == slot && w.outbox.tokens >= tokens
    && w.account.connected && w.account.tokens >= tokens
    && w.table.active == map[1 := Transfer(1, 4, accepted, phase)]
    && w.table.generation == 1 && w.table.nextId == 2
    && w.successes == []
  }

  lemma StartAccepted(w: World)
    requires Open(w) && w.successes == []
    ensures var s := Turned(w, STARTS);
      s.failure.None? && FileAt(s.world, 0, WaitingForGuest, Some(O.Message(1, O.FileStart(1))), 4)
  {
    var request := Request.StartFile(4, false, Some(64));
    OneStimulus(w, HostCommand(1, request));
    assert Allocated(map[], 1, MAX_ACTIVE_FILE_TRANSFERS + 1) == Some(1);
    hide Allocated, ReactedAll, PreparedBy;
    assert Start(w.table, 4, false, true).0 == Started(1);
    assert Accepted(w.table, request, true).0 == O.Plain(O.Encoded(64), O.FileStart(1));
  }

  lemma StartSent(w: World)
    requires FileAt(w, 0, WaitingForGuest, Some(O.Message(1, O.FileStart(1))), 4)
    ensures var s := Turned(w, Meets(SocketFree)); s.failure.None? && FileAt(s.world, 0, WaitingForGuest, None, 3)
  {
    OneStimulus(w, SocketFree);
  }

  lemma GuestAgrees(w: World)
    requires FileAt(w, 0, WaitingForGuest, None, 3)
    ensures var s := Turned(w, AGREES); s.failure.None? && FileAt(s.world, 0, Sending, None, 2)
  {
    OneStimulus(w, AGREES.stimuli[0]);
  }

  lemma BytesAccepted(w: World)
    requires FileAt(w, 0, Sending, None, 2)
    ensures var s := Turned(w, SENDS);
      s.failure.None? && FileAt(s.world, 4, AwaitingCompletion, Some(O.Message(1, O.FileBytes(1, 4))), 2)
  {
    OneStimulus(w, SENDS.stimuli[0]);
  }

  /** A success accepted while the whole file is still in the slot. */
  lemma NothingSent(w: World, id: nat, total: nat, left: nat)
    requires Sound(w) && Succeeds(w.table, id, Succeeded) && Report(w.table, id, Succeeded).Handled?
    requires w.table.active[id].total == total && w.outbox.message == Some(O.Message(left, O.FileBytes(id, total)))
    ensures SuccessOf(w, id) == Success(id, total, total, 0, total)
  {
    hide Sound, Since;
    SuccessCarried(w, id, Succeeded);
  }

  lemma SuccessAccepted(w: World)
    requires Sound(w) && FileAt(w, 4, AwaitingCompletion, Some(O.Message(1, O.FileBytes(1, 4))), 2)
    ensures var s := Turned(w, SUCCEEDS); s.failure.None? && s.world.successes == [Success(1, 4, 4, 0, 4)]
  {
    hide Sound, SuccessOf, Turned;
    NothingSent(w, 1, 4, 1);
    OneStimulus(w, SUCCEEDS.stimuli[0]);
    assert DispatchedAll(StatusReported(w, 1, Succeeded).world, []).failure.None?;
  }

  lemma OpenedSound()
    ensures Sound(Opened())
  {
    hide Sound, Turned, Begun, Unconnected, Fails, SuccessesOk;
    UnconnectedSound(5);
    BegunSound(Unconnected(5), None);
    OpeningTurns();
    TurnFailsIff(CONNECTED, Meets(SocketFree));
    TurnFailsIff(Turned(CONNECTED, Meets(SocketFree)).world, ANNOUNCES);
  }

  const FILE_TURNS := [STARTS, Meets(SocketFree), AGREES, SENDS, SUCCEEDS]

  /** From an open loop, the file is started, agreed to, handed over and reported as received. */
  lemma FileRun(w: World)
    requires Sound(w) && Open(w) && w.successes == []
    ensures var r := Loop(w, FILE_TURNS);
      r.failure.None? && r.served == 5 && r.world.successes == [Success(1, 4, 4, 0, 4)]
  {
    hide Sound, Open, FileAt, Turned, Loop, Fails, SuccessesOk;
    StartAccepted(w);
    TurnFailsIff(w, STARTS);
    var w1 := Turned(w, STARTS).world;
    StartSent(w1);
    TurnFailsIff(w1, Meets(SocketFree));
    var w2 := Turned(w1, Meets(SocketFree)).world;
    GuestAgrees(w2);
    TurnFailsIff(w2, AGREES);
    var w3 := Turned(w2, AGREES).world;
    BytesAccepted(w3);
    TurnFailsIff(w3, SENDS);
    var w4 := Turned(w3, SENDS).world;
    SuccessAccepted(w4);
    NoTurns(Turned(w4, SUCCEEDS).world);
    NextTurn(w4, SUCCEEDS, []);
    NextTurn(w3, SENDS, [SUCCEEDS]);
    NextTurn(w2, AGREES, [SENDS, SUCCEEDS]);
    NextTurn(w1, Meets(SocketFree), [AGREES, SENDS, SUCCEEDS]);
    NextTurn(w, STARTS, [Meets(SocketFree), AGREES, SENDS, SUCCEEDS]);
    assert [SUCCEEDS] + [] == [SUCCEEDS] && [SENDS] + [SUCCEEDS] == [SENDS, SUCCEEDS];
    assert [AGREES] + [SENDS, SUCCEEDS] == [AGREES, SENDS, SUCCEEDS];
    assert [Meets(SocketFree)] + [AGREES, SENDS, SUCCEEDS] == [Meets(SocketFree), AGREES, SENDS, SUCCEEDS];
    assert [STARTS] + [Meets(SocketFree), AGREES, SENDS, SUCCEEDS] == FILE_TURNS;
  }

  lemma NoTurns(w: World)
    ensures Loop(w, []) == Outcome(w, None, 0)
  {
  }

  /** From the loop's own start: a file of four bytes is reported as received, and accepted as such, while
      all four are still in the slot. */
  lemma SuccessOvertakes()
    ensures var r := Loop(CONNECTED, [Meets(SocketFree), ANNOUNCES] + FILE_TURNS);
      r.failure.None? && r.served == 7 && r.world.successes == [Success(1, 4, 4, 0, 4)]
  {
    hide Sound, Open, Turned, Loop;
    OpensUp(FILE_TURNS);
    OpeningTurns();
    OpenedSound();
    FileRun(Opened());
  }
}
