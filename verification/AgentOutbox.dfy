/** Outbound side of the Agent tunnel: one message at a time, one token per fragment.

  The main loop prepares internal messages, accepts host commands and sends
  fragments, each under its guard. A command that asks for a completion is
  answered once: when its last fragment is out, when a reset makes it stale, or
  at once when it is refused. A payload that cannot be encoded ends the session.
*/
module AgentOutbox {
  import opened Basics

  const AGENT_MESSAGE_HEADER_BYTES := 20
  const MAX_AGENT_FRAGMENT_BYTES := 2048
  const MAX_AGENT_MESSAGE_BYTES := 16 * 1024 * 1024

  /** What a message is about, as far as file transfers see it. */
  datatype Cargo =
    | Other
    | FileStart(id: nat)
    | FileBytes(id: nat, bytes: nat)
    | FileCancel(id: nat)

  /** A message in the slot: the fragments it has left. */
  datatype Message = Message(left: nat, cargo: Cargo)

  /** Fragments that header and payload take. */
  function FragmentsOf(payload: nat): (n: nat)
    ensures n >= 1 && 2048 * (n - 1) < payload + 20 <= 2048 * n
  {
    (AGENT_MESSAGE_HEADER_BYTES + payload + MAX_AGENT_FRAGMENT_BYTES - 1) / MAX_AGENT_FRAGMENT_BYTES
  }

  /** A payload as its encoder leaves it. */
  datatype Draft = Encoded(payload: nat) | Unencodable

  /** The fields from `granted` on record history; no step looks at them. `placed` and `done` hold what
      was put into the slot and what has left it, since the last reset. */
  datatype Outbox = Outbox(
    connected: bool,
    ready: bool,
    tokens: nat,
    message: Option<Message>,
    completion: Option<nat>,
    announcePending: bool,
    maxClipboardPending: bool,
    granted: nat,
    sent: nat,
    placed: seq<Cargo>,
    done: seq<Cargo>,
    asked: multiset<nat>,
    delivered: multiset<nat>,
    turnedDown: multiset<nat>)

  datatype Error = OverlappingMessages | MissingMessage | TokenUnderflow | InvalidPayload

  datatype Result = Ok(outbox: Outbox) | Err(error: Error)

  function Opened(connected: bool, tokens: nat): Outbox {
    Outbox(connected, false, tokens, None, None, false, false, tokens, 0, [], [],
           multiset{}, multiset{}, multiset{})
  }

  // ---------------------------------------------------------------------------
  // Operations
  // ---------------------------------------------------------------------------

  function Queue(o: Outbox, draft: Draft, cargo: Cargo): Result {
    if draft.Unencodable? then Err(InvalidPayload)
    else if o.message.Some? then Err(OverlappingMessages)
    else if draft.payload > MAX_AGENT_MESSAGE_BYTES then Err(InvalidPayload)
    else Ok(Place(o, Message(FragmentsOf(draft.payload), cargo)))
  }

  function Place(o: Outbox, m: Message): Outbox {
    o.(message := Some(m), placed := o.placed + [m.cargo])
  }

  /** A stored completion is told that its generation is over. */
  function GoStale(o: Outbox): Outbox {
    match o.completion
    case None => o
    case Some(id) => o.(completion := None, turnedDown := o.turnedDown + multiset{id})
  }

  /** A reset drops the message under way. */
  function Clear(o: Outbox, connected: bool): Outbox {
    GoStale(o).(connected := connected, ready := false, message := None, announcePending := connected,
                maxClipboardPending := false, placed := [], done := [])
  }

  /** A new generation; the peer may have replaced the token count. */
  function Begin(o: Outbox, tokens: Option<nat>): Outbox {
    var o' := Clear(o, true);
    if tokens.None? then o' else o'.(tokens := tokens.value, granted := tokens.value, sent := 0)
  }

  function Disconnect(o: Outbox): Outbox {
    Clear(o, false)
  }

  /** A migration target reports the Agent anew. */
  function Reinitialize(o: Outbox, connected: bool, tokens: nat): Outbox {
    var o' := Disconnect(o).(tokens := tokens, granted := tokens, sent := 0);
    if connected then Begin(o', None) else o'
  }

  function Grant(o: Outbox, tokens: nat): Outbox {
    o.(tokens := o.tokens + tokens, granted := o.granted + tokens)
  }

  /** The peer announced its capabilities. */
  function Announced(o: Outbox, requestReply: bool, maxClipboard: bool): Outbox {
    o.(ready := true, maxClipboardPending := maxClipboard, announcePending := o.announcePending || requestReply)
  }

  const ANNOUNCE_PAYLOAD := 8
  const MAX_CLIPBOARD_PAYLOAD := 4

  /** What the main loop queues by itself before it waits: its own announcement, the clipboard limit, or
      a layout or offer it has ready. */
  function Prepare(o: Outbox, ready: Option<Draft>): Result {
    if !o.connected || o.message.Some? then Ok(o)
    else if o.announcePending then Queue(o.(announcePending := false), Encoded(ANNOUNCE_PAYLOAD), Other)
    else if o.maxClipboardPending then Queue(o.(maxClipboardPending := false), Encoded(MAX_CLIPBOARD_PAYLOAD), Other)
    else if o.ready && ready.Some? then Queue(o, ready.value, Other)
    else Ok(o)
  }

  predicate CanSend(o: Outbox) {
    o.connected && o.tokens != 0 && o.message.Some?
  }

  /** The stored completion, if any, is told that its message is out. */
  function Deliver(o: Outbox): Outbox {
    match o.completion
    case None => o
    case Some(id) => o.(completion := None, delivered := o.delivered + multiset{id})
  }

  /** One token pays for one fragment. */
  function Spend(o: Outbox, left: Option<Message>): Outbox
    requires o.tokens > 0
  {
    o.(tokens := o.tokens - 1, sent := o.sent + 1, message := left)
  }

  /** The last fragment is out: the message is done and its completion answered. */
  function Finish(o: Outbox): Outbox
    requires o.tokens > 0 && o.message.Some?
  {
    Spend(Deliver(o), None).(done := o.done + [o.message.value.cargo])
  }

  function SendOne(o: Outbox): Result {
    if o.message.None? then Err(MissingMessage)
    else if o.tokens == 0 then Err(TokenUnderflow)
    else if o.message.value.left > 1 then
      Ok(Spend(o, Some(o.message.value.(left := o.message.value.left - 1))))
    else Ok(Finish(o))
  }

  predicate CanAccept(o: Outbox) {
    o.ready && o.message.None? && !o.announcePending && !o.maxClipboardPending
  }

  /** What a host command asks for: a message, with or without a completion, or an answer at once. */
  datatype Command =
    | Ignored
    | Plain(draft: Draft, cargo: Cargo)
    | Answered(id: nat)
    | Tracked(id: nat, draft: Draft, cargo: Cargo)

  function Accept(o: Outbox, command: Command): Result {
    match command
    case Ignored => Ok(o)
    case Plain(draft, cargo) => Queue(o, draft, cargo)
    case Answered(id) => Ok(o.(asked := o.asked + multiset{id}, turnedDown := o.turnedDown + multiset{id}))
    case Tracked(id, draft, cargo) =>
      var queued := Queue(o, draft, cargo);
      if queued.Err? then queued else Ok(Track(queued.outbox, id))
  }

  function Track(o: Outbox, id: nat): Outbox {
    o.(asked := o.asked + multiset{id}, completion := Some(id))
  }

  // ---------------------------------------------------------------------------
  // The invariant
  // ---------------------------------------------------------------------------

  function Stored(o: Outbox): multiset<nat> {
    match o.completion case None => multiset{} case Some(id) => multiset{id}
  }

  /** Every completion asked for is answered or still stored. */
  ghost predicate AllAnswered(o: Outbox) {
    o.asked == o.delivered + o.turnedDown + Stored(o)
  }

  function Slot(o: Outbox): seq<Cargo> {
    if o.message.Some? then [o.message.value.cargo] else []
  }

  ghost predicate Orderly(o: Outbox) {
    && (o.message.Some? ==> o.connected && o.message.value.left >= 1)
    && (o.completion.Some? ==> o.message.Some?)
    && (o.ready ==> o.connected)
    && o.tokens + o.sent == o.granted
    && o.placed == o.done + Slot(o)
    && AllAnswered(o)
  }

  lemma OpenedOrderly(connected: bool, tokens: nat)
    ensures Orderly(Opened(connected, tokens))
  {
  }

  lemma SameAnswers(o: Outbox, o': Outbox)
    requires AllAnswered(o)
    requires o'.asked == o.asked && o'.delivered == o.delivered && o'.turnedDown == o.turnedDown
    requires o'.completion == o.completion
    ensures AllAnswered(o')
  {
  }

  lemma GoStaleOrderly(o: Outbox)
    requires Orderly(o)
    ensures GoStale(o).completion.None? && AllAnswered(GoStale(o))
    ensures GoStale(o).tokens == o.tokens && GoStale(o).sent == o.sent && GoStale(o).granted == o.granted
  {
  }

  lemma ClearOrderly(o: Outbox, connected: bool)
    requires Orderly(o)
    ensures Orderly(Clear(o, connected))
  {
    GoStaleOrderly(o);
    hide GoStale, AllAnswered;
    SameAnswers(GoStale(o), Clear(o, connected));
  }

  lemma TokensReplaced(o: Outbox, tokens: nat)
    requires Orderly(o)
    ensures Orderly(o.(tokens := tokens, granted := tokens, sent := 0))
  {
    hide AllAnswered;
    SameAnswers(o, o.(tokens := tokens, granted := tokens, sent := 0));
  }

  lemma ResetOrderly(o: Outbox, tokens: Option<nat>)
    requires Orderly(o)
    ensures Orderly(Begin(o, tokens)) && Orderly(Disconnect(o))
  {
    hide Orderly, Clear;
    ClearOrderly(o, true);
    ClearOrderly(o, false);
    if tokens.Some? {
      TokensReplaced(Clear(o, true), tokens.value);
    }
  }

  lemma ReinitializeOrderly(o: Outbox, connected: bool, tokens: nat)
    requires Orderly(o)
    ensures Orderly(Reinitialize(o, connected, tokens))
  {
    hide Orderly, Begin, Disconnect;
    ResetOrderly(o, None);
    TokensReplaced(Disconnect(o), tokens);
    ResetOrderly(Disconnect(o).(tokens := tokens, granted := tokens, sent := 0), None);
  }

  lemma DeliverOrderly(o: Outbox)
    requires Orderly(o)
    ensures Deliver(o).completion.None? && Orderly(Deliver(o))
    ensures Deliver(o).connected == o.connected && Deliver(o).tokens == o.tokens
    ensures Deliver(o).message == o.message && Deliver(o).done == o.done
  {
  }

  lemma SpendOrderly(o: Outbox, left: nat)
    requires Orderly(o) && o.connected && o.tokens > 0 && o.message.Some? && left >= 1
    ensures Orderly(Spend(o, Some(o.message.value.(left := left))))
  {
    hide AllAnswered;
    SameAnswers(o, Spend(o, Some(o.message.value.(left := left))));
  }

  lemma FinishOrderly(o: Outbox)
    requires Orderly(o) && o.tokens > 0 && o.message.Some?
    ensures Orderly(Finish(o))
  {
    DeliverOrderly(o);
    hide AllAnswered, Deliver;
    SameAnswers(Deliver(o), Finish(o));
    assert Finish(o).done + [] == Finish(o).done;
  }

  lemma SendOrderly(o: Outbox)
    requires Orderly(o) && CanSend(o)
    ensures SendOne(o).Ok? && Orderly(SendOne(o).outbox)
  {
    hide Finish, Spend, AllAnswered, Slot;
    if o.message.value.left > 1 {
      SpendOrderly(o, o.message.value.left - 1);
    } else {
      FinishOrderly(o);
    }
  }

  /** Into an empty slot goes whatever is encoded and not too long. */
  predicate Sendable(draft: Draft) {
    draft.Encoded? && draft.payload <= MAX_AGENT_MESSAGE_BYTES
  }

  lemma QueueOrderly(o: Outbox, draft: Draft, cargo: Cargo)
    requires Orderly(o) && o.connected && o.message.None?
    ensures Queue(o, draft, cargo).Ok? <==> Sendable(draft)
    ensures Queue(o, draft, cargo).Err? ==> Queue(o, draft, cargo).error == InvalidPayload
    ensures Queue(o, draft, cargo).Ok? ==> Orderly(Queue(o, draft, cargo).outbox)
  {
    hide AllAnswered, FragmentsOf;
    if Sendable(draft) {
      SameAnswers(o, Queue(o, draft, cargo).outbox);
      assert o.done + [] == o.done;
    }
  }

  lemma FlagsOrderly(o: Outbox, announce: bool, maxClipboard: bool)
    requires Orderly(o)
    ensures Orderly(o.(announcePending := announce)) && Orderly(o.(maxClipboardPending := maxClipboard))
  {
    hide AllAnswered;
    SameAnswers(o, o.(announcePending := announce));
    SameAnswers(o, o.(maxClipboardPending := maxClipboard));
  }

  /** The one way a preparation can fail: it is the turn of a draft that cannot be sent. */
  predicate UnfitDraft(o: Outbox, ready: Option<Draft>) {
    && o.connected && o.message.None? && !o.announcePending && !o.maxClipboardPending && o.ready
    && ready.Some? && !Sendable(ready.value)
  }

  lemma PrepareOrderly(o: Outbox, ready: Option<Draft>)
    requires Orderly(o)
    ensures Prepare(o, ready).Ok? <==> !UnfitDraft(o, ready)
    ensures Prepare(o, ready).Err? ==> Prepare(o, ready).error == InvalidPayload
    ensures Prepare(o, ready).Ok? ==> Orderly(Prepare(o, ready).outbox)
  {
    hide Orderly, Queue;
    if o.connected && o.message.None? {
      FlagsOrderly(o, false, false);
      if o.announcePending {
        QueueOrderly(o.(announcePending := false), Encoded(ANNOUNCE_PAYLOAD), Other);
      } else if o.maxClipboardPending {
        QueueOrderly(o.(maxClipboardPending := false), Encoded(MAX_CLIPBOARD_PAYLOAD), Other);
      } else if o.ready && ready.Some? {
        QueueOrderly(o, ready.value, Other);
      }
    }
  }

  /** A command whose message cannot be sent. */
  predicate UnfitCommand(command: Command) {
    match command
    case Plain(draft, _) => !Sendable(draft)
    case Tracked(_, draft, _) => !Sendable(draft)
    case _ => false
  }

  lemma TrackOrderly(o: Outbox, id: nat)
    requires Orderly(o) && o.message.Some? && o.completion.None?
    ensures Orderly(Track(o, id))
  {
    assert AllAnswered(Track(o, id));
  }

  lemma AnswerOrderly(o: Outbox, id: nat)
    requires Orderly(o)
    ensures Orderly(o.(asked := o.asked + multiset{id}, turnedDown := o.turnedDown + multiset{id}))
  {
    assert AllAnswered(o.(asked := o.asked + multiset{id}, turnedDown := o.turnedDown + multiset{id}));
  }

  lemma AcceptOrderly(o: Outbox, command: Command)
    requires Orderly(o) && CanAccept(o)
    ensures Accept(o, command).Ok? <==> !UnfitCommand(command)
    ensures Accept(o, command).Err? ==> Accept(o, command).error == InvalidPayload
    ensures Accept(o, command).Ok? ==> Orderly(Accept(o, command).outbox)
  {
    assert o.connected && o.completion.None?;
    hide Orderly, Track;
    match command
    case Ignored =>
    case Plain(draft, cargo) => QueueOrderly(o, draft, cargo);
    case Answered(id) => AnswerOrderly(o, id);
    case Tracked(id, draft, cargo) =>
      QueueOrderly(o, draft, cargo);
      if Sendable(draft) {
        TrackOrderly(Queue(o, draft, cargo).outbox, id);
      }
  }

  /** What an accepted command leaves in the slot and on record. */
  lemma AcceptPlaces(o: Outbox, command: Command)
    requires Accept(o, command).Ok?
    ensures var o' := Accept(o, command).outbox;
      if command.Plain? || command.Tracked?
      then o'.placed == o.placed + [command.cargo] && o'.message.Some? && o'.message.value.cargo == command.cargo
      else o'.placed == o.placed && o'.message == o.message
    ensures Accept(o, command).outbox.connected == o.connected
  {
    hide FragmentsOf;
  }

  // ---------------------------------------------------------------------------
  // Runs
  // ---------------------------------------------------------------------------

  datatype Event =
    | Began(replacement: Option<nat>)
    | Disconnected
    | Reinitialized(connected: bool, supplied: nat)
    | Granted(tokens: nat)
    | PeerAnnounced(requestReply: bool, maxClipboard: bool)
    | Prepared(draft: Option<Draft>)
    | Sent
    | Accepted(command: Command)

  /** The guards of the main loop. */
  predicate Enabled(o: Outbox, e: Event) {
    match e
    case PeerAnnounced(_, _) => o.connected
    case Sent => CanSend(o)
    case Accepted(_) => CanAccept(o)
    case _ => true
  }

  function Next(o: Outbox, e: Event): Result {
    match e
    case Began(tokens) => Ok(Begin(o, tokens))
    case Disconnected => Ok(Disconnect(o))
    case Reinitialized(connected, tokens) => Ok(Reinitialize(o, connected, tokens))
    case Granted(tokens) => Ok(Grant(o, tokens))
    case PeerAnnounced(requestReply, maxClipboard) => Ok(Announced(o, requestReply, maxClipboard))
    case Prepared(draft) => Prepare(o, draft)
    case Sent => SendOne(o)
    case Accepted(command) => Accept(o, command)
  }

  /** The host supplied something that cannot be sent. */
  predicate Unfit(o: Outbox, e: Event) {
    match e
    case Prepared(draft) => UnfitDraft(o, draft)
    case Accepted(command) => UnfitCommand(command)
    case _ => false
  }

  /** Under the guards a step fails if and only if a payload cannot be sent, and otherwise keeps one
      message at most and all accounts; it never finds two messages, none, or no token. */
  lemma StepStaysOrderly(o: Outbox, e: Event)
    requires Orderly(o) && Enabled(o, e)
    ensures Next(o, e).Err? <==> Unfit(o, e)
    ensures Next(o, e).Err? ==> Next(o, e).error == InvalidPayload
    ensures Next(o, e).Ok? ==> Orderly(Next(o, e).outbox)
  {
    hide Begin, Disconnect, Reinitialize, Prepare, SendOne, Accept, AllAnswered, UnfitDraft, UnfitCommand;
    match e
    case Began(tokens) => ResetOrderly(o, tokens);
    case Disconnected => ResetOrderly(o, None);
    case Reinitialized(connected, tokens) => ReinitializeOrderly(o, connected, tokens);
    case Granted(_) => SameAnswers(o, Grant(o, e.tokens));
    case PeerAnnounced(requestReply, maxClipboard) => SameAnswers(o, Announced(o, requestReply, maxClipboard));
    case Prepared(draft) => PrepareOrderly(o, draft);
    case Sent => SendOrderly(o);
    case Accepted(command) => AcceptOrderly(o, command);
  }

  /** The outcome of a list of events, cut short by an error. */
  function Run(o: Outbox, events: seq<Event>): Result
    decreases |events|
  {
    if events == [] then Ok(o)
    else
      var next := Next(o, events[0]);
      if next.Err? then next else Run(next.outbox, events[1..])
  }

  /** Every event had its guard open. */
  ghost predicate Guarded(o: Outbox, events: seq<Event>)
    decreases |events|
  {
    events == []
    || (Enabled(o, events[0])
        && (Next(o, events[0]).Ok? ==> Guarded(Next(o, events[0]).outbox, events[1..])))
  }

  /** Over every guarded run nothing but an unsendable payload ends it, fragments sent never exceed
      tokens granted, and a completion asked for once is answered exactly once unless it is still stored. */
  lemma {:induction false} RunStaysOrderly(o: Outbox, events: seq<Event>, id: nat)
    requires Orderly(o) && Guarded(o, events)
    ensures Run(o, events).Err? ==> Run(o, events).error == InvalidPayload
    ensures Run(o, events).Ok? ==>
      var last := Run(o, events).outbox;
      && Orderly(last)
      && last.sent <= last.granted
      && (last.asked[id] == 1 ==>
            last.delivered[id] + last.turnedDown[id] == if last.completion == Some(id) then 0 else 1)
    decreases |events|
  {
    if events != [] {
      StepStaysOrderly(o, events[0]);
      hide Next, Orderly, Enabled;
      if Next(o, events[0]).Ok? {
        RunStaysOrderly(Next(o, events[0]).outbox, events[1..], id);
      }
    }
  }

  // ---------------------------------------------------------------------------
  // When a completion reports success
  // ---------------------------------------------------------------------------

  lemma ResetDeliversNothing(o: Outbox, tokens: Option<nat>)
    ensures Begin(o, tokens).delivered == o.delivered && Disconnect(o).delivered == o.delivered
  {
  }

  lemma OnlySendingDelivers(o: Outbox, e: Event)
    requires !e.Sent? && Next(o, e).Ok?
    ensures Next(o, e).outbox.delivered == o.delivered
  {
    hide Begin, Disconnect;
    ResetDeliversNothing(o, None);
    match e
    case Began(tokens) => ResetDeliversNothing(o, tokens);
    case Reinitialized(_, tokens) =>
      ResetDeliversNothing(Disconnect(o).(tokens := tokens, granted := tokens, sent := 0), None);
    case _ =>
  }

  lemma SendingDelivers(o: Outbox)
    requires SendOne(o).Ok? && o.message.value.left >= 1
    ensures SendOne(o).outbox.delivered != o.delivered <==> o.message.value.left == 1 && o.completion.Some?
  {
    if o.completion.Some? {
      var id := o.completion.value;
      assert (o.delivered + multiset{id})[id] == o.delivered[id] + 1;
    }
  }

  /** A completion is told of success exactly when the last fragment of its message goes out. */
  lemma DeliveredMeansSent(o: Outbox, e: Event)
    requires Orderly(o) && Enabled(o, e) && Next(o, e).Ok?
    ensures Next(o, e).outbox.delivered != o.delivered
      <==> e.Sent? && o.message.Some? && o.message.value.left == 1 && o.completion.Some?
  {
    if e.Sent? {
      SendingDelivers(o);
    } else {
      OnlySendingDelivers(o, e);
      hide Next, Orderly;
    }
  }
}
