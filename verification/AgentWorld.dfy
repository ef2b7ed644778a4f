/** The Agent runtime as one state machine: outbox, transfers and credits under the main loop's turns.

  A turn first prepares what the loop sends by itself and then reacts to what
  happened: one thing, or the messages of one envelope in order. The specification here says what every turn does and
  when it fails; the invariants tie the three parts together, in particular the
  bytes of a transfer to the messages that carried them.
*/
module AgentWorld {
  import opened Basics
  import opened AgentTransfers
  import A = AgentCredits
  import O = AgentOutbox

  datatype Failure =
    | Internal(error: O.Error)
    | WindowExceeded
    | NoIdentifier
    | InvalidPayload
    | MissingInboundToken
    | MalformedFragment
    | MalformedMessage
    | EventQueueFull
    | UnexpectedAcceptance
    | UnexpectedSuccess

  /** Faults of the runtime itself, as opposed to what peer or host cause. */
  predicate OwnFault(f: Failure) {
    f.Internal? || f.WindowExceeded? || f.NoIdentifier?
  }

  function Fault(error: O.Error): Failure {
    if error.InvalidPayload? then InvalidPayload else Internal(error)
  }

  /** A published success: the size of the file, the bytes put into messages since it started, those of
      them that have been sent, and those still in the slot. */
  datatype Success = Success(id: nat, total: nat, placed: nat, sent: nat, waiting: nat)

  /** `successes` records history; no step looks at it. */
  datatype World = World(outbox: O.Outbox, table: Table, account: A.Account, successes: seq<Success>)

  datatype Step = Step(world: World, failure: Option<Failure>)

  // ---------------------------------------------------------------------------
  // Bytes in messages
  // ---------------------------------------------------------------------------

  /** Bytes that the messages of a log carry for a transfer since its start message. */
  function Since(log: seq<O.Cargo>, id: nat): nat {
    if log == [] then 0
    else
      var before := log[..|log| - 1];
      match log[|log| - 1]
      case FileStart(i) => if i == id then 0 else Since(before, id)
      case FileBytes(i, bytes) => Since(before, id) + if i == id then bytes else 0
      case _ => Since(before, id)
  }

  /** Bytes for a transfer that are still in the slot. */
  function Waiting(o: O.Outbox, id: nat): nat {
    match o.message
    case None => 0
    case Some(m) => if m.cargo.FileBytes? && m.cargo.id == id then m.cargo.bytes else 0
  }

  lemma SinceNext(log: seq<O.Cargo>, cargo: O.Cargo, id: nat)
    ensures Since(log + [cargo], id)
         == match cargo
            case FileStart(i) => if i == id then 0 else Since(log, id)
            case FileBytes(i, bytes) => Since(log, id) + if i == id then bytes else 0
            case _ => Since(log, id)
  {
    assert (log + [cargo])[..|log|] == log;
  }

  // ---------------------------------------------------------------------------
  // Inbound messages
  // ---------------------------------------------------------------------------

  datatype EventQueue = Delivered | Full | Closed

  /** A decoded Agent message, as far as the three parts see it. */
  datatype Message =
    | Announcement(requestReply: bool, maxClipboard: bool)
    | ClipboardRequest(queue: EventQueue)
    | FileStatus(id: nat, status: Status)
    | Malformed
    | Unrelated

  datatype Effect = Effect(world: World, retained: bool, failure: Option<Failure>)

  function SuccessOf(w: World, id: nat): Success
    requires id in w.table.active
  {
    Success(id, w.table.active[id].total, Since(w.outbox.placed, id), Since(w.outbox.done, id), Waiting(w.outbox, id))
  }

  /** A report of success for a transfer of the current generation. */
  predicate Succeeds(t: Table, id: nat, status: Status) {
    status == Succeeded && id in t.active && t.active[id].generation == t.generation
  }

  function StatusReported(w: World, id: nat, status: Status): Effect {
    match Report(w.table, id, status)
    case Handled(t) =>
      var successes := if Succeeds(w.table, id, status) then w.successes + [SuccessOf(w, id)] else w.successes;
      Effect(w.(table := t, successes := successes), false, None)
    case DuplicateAcceptance => Effect(w, false, Some(UnexpectedAcceptance))
    case EarlySuccess => Effect(w, false, Some(UnexpectedSuccess))
  }

  /** What one message does; only a delivered clipboard request keeps the credit. */
  function Dispatched(w: World, m: Message): Effect {
    match m
    case Announcement(requestReply, maxClipboard) =>
      Effect(w.(outbox := O.Announced(w.outbox, requestReply, maxClipboard)), false, None)
    case ClipboardRequest(queue) =>
      Effect(w, queue == Delivered, if queue == Full then Some(EventQueueFull) else None)
    case FileStatus(id, status) => StatusReported(w, id, status)
    case Malformed => Effect(w, false, Some(MalformedMessage))
    case Unrelated => Effect(w, false, None)
  }

  /** The messages of one fragment in order, up to the first failure. */
  function DispatchedAll(w: World, messages: seq<Message>): Effect
    decreases |messages|
  {
    if messages == [] then Effect(w, false, None)
    else
      var first := Dispatched(w, messages[0]);
      if first.failure.Some? then first
      else
        var rest := DispatchedAll(first.world, messages[1..]);
        rest.(retained := first.retained || rest.retained)
  }

  /** A fragment; `None` stands for one that the stream decoder rejects. */
  function Fragmented(w: World, messages: Option<seq<Message>>): Step {
    if !A.CanReceive(w.account) then Step(w, Some(MissingInboundToken))
    else if messages.None? then Step(w.(account := A.Lose(w.account)), Some(MalformedFragment))
    else
      var e := DispatchedAll(w, messages.value);
      Step(e.world.(account := A.Receive(w.account, e.retained)), e.failure)
  }

  // ---------------------------------------------------------------------------
  // Host commands
  // ---------------------------------------------------------------------------

  /** A start message: four bytes, a key file of bounded names and numbers, a terminator. */
  type StartPayload = n: nat | n <= 512

  datatype Request =
    /** Volume and clipboard commands: nothing when unsupported, otherwise a message. */
    | Simple(draft: Option<O.Draft>)
    /** `start` is missing for a file name that cannot be encoded. */
    | StartFile(total: nat, disabled: bool, start: Option<StartPayload>)
    | FileData(completion: nat, id: nat, bytes: nat)
    | CancelFile(completion: nat, id: nat)

  const DATA_HEADER_BYTES := 12
  const STATUS_BYTES := 8

  /** The command the outbox sees, the table afterwards, and the reply. */
  function Accepted(t: Table, request: Request, current: bool): (O.Command, Table, Option<Reply>)
    requires 1 <= t.nextId <= MAX_ID
  {
    match request
    case Simple(draft) =>
      (if current && draft.Some? then O.Plain(draft.value, O.Other) else O.Ignored, t, None)
    case StartFile(total, disabled, start) =>
      if !current then (O.Ignored, t, None)
      else
        var (reply, t') := Start(t, total, disabled, start.Some?);
        (if reply.Started? then O.Plain(O.Encoded(start.value), O.FileStart(reply.id)) else O.Ignored, t', Some(reply))
    case FileData(completion, id, bytes) =>
      if !current then (O.Answered(completion), t, None)
      else
        var (reply, t') := Data(t, id, bytes);
        (if reply.Queued?
         then O.Tracked(completion, O.Encoded(DATA_HEADER_BYTES + bytes), O.FileBytes(id, bytes))
         else O.Answered(completion), t', Some(reply))
    case CancelFile(completion, id) =>
      if !current then (O.Answered(completion), t, None)
      else
        var (reply, t') := Cancel(t, id);
        (if reply.Cancelled? then O.Tracked(completion, O.Encoded(STATUS_BYTES), O.FileCancel(id))
         else O.Answered(completion), t', Some(reply))
  }

  function Commanded(w: World, generation: nat, request: Request): Step
    requires 1 <= w.table.nextId <= MAX_ID
  {
    var (command, table, reply) := Accepted(w.table, request, generation == w.table.generation);
    if reply == Some(OutOfIdentifiers) then Step(w, Some(NoIdentifier))
    else
      match O.Accept(w.outbox, command)
      case Err(error) => Step(w, Some(Fault(error)))
      case Ok(outbox) => Step(w.(outbox := outbox, table := table), None)
  }

  // ---------------------------------------------------------------------------
  // Turns
  // ---------------------------------------------------------------------------

  datatype Stimulus =
    | PeerConnected(tokens: Option<nat>)
    | PeerDisconnected
    | Migrated(connected: bool, supplied: nat)
    | TokensGranted(granted: nat)
    | Fragment(messages: Option<seq<Message>>)
    | SocketFree
    | HostCommand(generation: nat, request: Request)
    | CreditReturned
    | HostDroppedCredit(generation: nat)

  /** One turn: what the loop has ready to send by itself, and what it then meets. An envelope brings any
      number of messages, with nothing prepared between them. */
  datatype Turn = Turn(draft: Option<O.Draft>, stimuli: seq<Stimulus>)

  function Begun(w: World, tokens: Option<nat>): World {
    w.(outbox := O.Begin(w.outbox, tokens), account := A.Begin(w.account),
       table := Reset(w.table, w.account.generation + 1))
  }

  function Severed(w: World): World {
    w.(outbox := O.Disconnect(w.outbox), account := A.Disconnect(w.account),
       table := Reset(w.table, w.account.generation))
  }

  function Reinitialized(w: World, connected: bool, tokens: nat): World {
    var w' := Severed(w);
    var w'' := w'.(outbox := w'.outbox.(tokens := tokens, granted := tokens, sent := 0));
    if connected then Begun(w'', None) else w''
  }

  function Returned(w: World): Step {
    if w.account.tokens + w.account.pending > A.AGENT_RECEIVE_WINDOW then Step(w, Some(WindowExceeded))
    else Step(w.(account := A.Announce(w.account)), None)
  }

  function SentOne(w: World): Step {
    match O.SendOne(w.outbox)
    case Err(error) => Step(w, Some(Fault(error)))
    case Ok(outbox) => Step(w.(outbox := outbox), None)
  }

  /** The branches of the loop; one whose guard is closed does nothing. */
  function Reacted(w: World, stimulus: Stimulus): Step
    requires 1 <= w.table.nextId <= MAX_ID
  {
    match stimulus
    case PeerConnected(tokens) => Step(Begun(w, tokens), None)
    case PeerDisconnected => Step(Severed(w), None)
    case Migrated(connected, tokens) => Step(Reinitialized(w, connected, tokens), None)
    case TokensGranted(tokens) => Step(w.(outbox := O.Grant(w.outbox, tokens)), None)
    case Fragment(messages) => Fragmented(w, messages)
    case SocketFree => if O.CanSend(w.outbox) then SentOne(w) else Step(w, None)
    case HostCommand(generation, request) =>
      if O.CanAccept(w.outbox) then Commanded(w, generation, request) else Step(w, None)
    case CreditReturned => if w.outbox.connected then Returned(w) else Step(w, None)
    case HostDroppedCredit(generation) =>
      if generation in w.account.live then Step(w.(account := A.Drop(w.account, generation)), None)
      else Step(w, None)
  }

  function PreparedBy(w: World, draft: Option<O.Draft>): Step {
    match O.Prepare(w.outbox, draft)
    case Err(error) => Step(w, Some(Fault(error)))
    case Ok(outbox) => Step(w.(outbox := outbox), None)
  }

  /** What a turn meets, in order, up to the first failure. */
  function ReactedAll(w: World, stimuli: seq<Stimulus>): Step
    decreases |stimuli|
  {
    if stimuli == [] || !(1 <= w.table.nextId <= MAX_ID) then Step(w, None)
    else
      var first := Reacted(w, stimuli[0]);
      if first.failure.Some? then first else ReactedAll(first.world, stimuli[1..])
  }

  function Turned(w: World, turn: Turn): Step {
    var prepared := PreparedBy(w, turn.draft);
    if prepared.failure.Some? then prepared else ReactedAll(prepared.world, turn.stimuli)
  }
}
