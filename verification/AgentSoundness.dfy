/** What every run of the Agent's main loop keeps, and exactly when a turn fails. */
module AgentSoundness {
  import opened Basics
  import opened AgentTransfers
  import opened AgentWorld
  import A = AgentCredits
  import O = AgentOutbox

  // ---------------------------------------------------------------------------
  // The invariant
  // ---------------------------------------------------------------------------

  /** The messages placed since a transfer's start message carry exactly its accepted bytes. */
  ghost predicate CarriedFor(o: O.Outbox, transfer: Transfer, id: nat) {
    && O.FileStart(id) in o.placed
    && Since(o.placed, id) == transfer.accepted
    && (transfer.phase == AwaitingCompletion && o.message.Some? ==> o.message.value.cargo != O.FileStart(id))
  }

  ghost predicate Carried(o: O.Outbox, active: map<nat, Transfer>) {
    forall id :: id in active ==> CarriedFor(o, active[id], id)
  }

  /** All bytes were put into messages, and those not sent are still in the slot. */
  predicate SuccessOk(s: Success) {
    s.placed == s.total && s.sent + s.waiting == s.total
  }

  ghost predicate SuccessesOk(successes: seq<Success>) {
    forall i :: 0 <= i < |successes| ==> SuccessOk(successes[i])
  }

  /** The three parts agree on connection and generation. */
  predicate Linked(w: World) {
    w.outbox.connected == w.account.connected && w.table.generation == w.account.generation
  }

  ghost predicate Sound(w: World) {
    && Linked(w)
    && O.Orderly(w.outbox)
    && TableOk(w.table)
    && A.Conserved(w.account)
    && Carried(w.outbox, w.table.active)
    && SuccessesOk(w.successes)
  }

  // ---------------------------------------------------------------------------
  // Bytes and messages
  // ---------------------------------------------------------------------------

  lemma SinceSlot(o: O.Outbox, id: nat)
    requires o.placed == o.done + O.Slot(o)
    requires o.message.Some? ==> o.message.value.cargo != O.FileStart(id)
    ensures Since(o.placed, id) == Since(o.done, id) + Waiting(o, id)
  {
    if o.message.Some? {
      SinceNext(o.done, o.message.value.cargo, id);
    } else {
      assert o.placed == o.done;
    }
  }

  /** An accepted success: every byte was put into messages, and was sent unless its message is still in the slot. */
  lemma SuccessCarried(w: World, id: nat, status: Status)
    requires Sound(w) && Succeeds(w.table, id, status) && Report(w.table, id, status).Handled?
    ensures SuccessOk(SuccessOf(w, id))
    ensures SuccessOf(w, id).sent == SuccessOf(w, id).total <==> Waiting(w.outbox, id) == 0
  {
    assert O.Orderly(w.outbox) && w.outbox.placed == w.outbox.done + O.Slot(w.outbox);
    assert CarriedFor(w.outbox, w.table.active[id], id);
    SinceSlot(w.outbox, id);
    hide Since, O.Orderly, TableOk, A.Conserved, Carried;
  }

  /** Messages about other things leave a transfer's account alone. */
  lemma PlacedElsewhere(o: O.Outbox, o': O.Outbox, transfer: Transfer, id: nat, cargo: O.Cargo)
    requires CarriedFor(o, transfer, id) && o'.placed == o.placed + [cargo]
    requires o'.message.Some? && o'.message.value.cargo == cargo
    requires cargo != O.FileStart(id) && (cargo.FileBytes? ==> cargo.id != id)
    ensures CarriedFor(o', transfer, id)
  {
    SinceNext(o.placed, cargo, id);
    hide Since;
  }

  lemma SameMessages(o: O.Outbox, o': O.Outbox, active: map<nat, Transfer>)
    requires Carried(o, active) && o'.placed == o.placed
    requires o'.message.Some? ==> o.message.Some? && o'.message.value.cargo == o.message.value.cargo
    ensures Carried(o', active)
  {
    hide Since;
    forall id | id in active
      ensures CarriedFor(o', active[id], id)
    {
      assert CarriedFor(o, active[id], id);
    }
  }

  lemma OtherPlaced(o: O.Outbox, o': O.Outbox, active: map<nat, Transfer>)
    requires Carried(o, active) && o'.placed == o.placed + [O.Other]
    requires o'.message.Some? && o'.message.value.cargo == O.Other
    ensures Carried(o', active)
  {
    hide Since, CarriedFor;
    forall id | id in active
      ensures CarriedFor(o', active[id], id)
    {
      PlacedElsewhere(o, o', active[id], id, O.Other);
    }
  }

  /** A message about one transfer leaves the others alone; its own entry is given. */
  lemma EntryPlaced(o: O.Outbox, o': O.Outbox, active: map<nat, Transfer>, active': map<nat, Transfer>, id: nat,
                    cargo: O.Cargo)
    requires Carried(o, active) && o'.placed == o.placed + [cargo]
    requires o'.message.Some? && o'.message.value.cargo == cargo
    requires cargo == O.FileStart(id) || cargo == O.FileCancel(id) || (cargo.FileBytes? && cargo.id == id)
    requires forall k :: k in active' && k != id ==> k in active && active'[k] == active[k]
    requires id in active' ==> CarriedFor(o', active'[id], id)
    ensures Carried(o', active')
  {
    hide Since, CarriedFor;
    forall k | k in active'
      ensures CarriedFor(o', active'[k], k)
    {
      if k != id {
        PlacedElsewhere(o, o', active[k], k, cargo);
      }
    }
  }

  lemma StartCarried(o: O.Outbox, o': O.Outbox, transfer: Transfer, id: nat)
    requires o'.placed == o.placed + [O.FileStart(id)]
    requires transfer.accepted == 0 && transfer.phase == WaitingForGuest
    ensures CarriedFor(o', transfer, id)
  {
    SinceNext(o.placed, O.FileStart(id), id);
    hide Since;
    assert O.FileStart(id) == o'.placed[|o.placed|];
  }

  lemma DataCarried(o: O.Outbox, o': O.Outbox, before: Transfer, after: Transfer, id: nat, bytes: nat)
    requires CarriedFor(o, before, id) && o'.placed == o.placed + [O.FileBytes(id, bytes)]
    requires o'.message.Some? && o'.message.value.cargo == O.FileBytes(id, bytes)
    requires after.accepted == before.accepted + bytes
    ensures CarriedFor(o', after, id)
  {
    SinceNext(o.placed, O.FileBytes(id, bytes), id);
    hide Since;
  }

  // ---------------------------------------------------------------------------
  // Inbound messages
  // ---------------------------------------------------------------------------

  /** Exactly when a message fails: malformed, no room for its event, or a report out of phase. */
  predicate MessageFails(t: Table, m: Message) {
    match m
    case Malformed => true
    case ClipboardRequest(queue) => queue == Full
    case FileStatus(id, status) =>
      && id in t.active
      && ((status == CanSendData && t.active[id].phase != WaitingForGuest)
          || (status == Succeeded && t.active[id].phase != AwaitingCompletion))
    case _ => false
  }

  lemma ReportCarried(w: World, id: nat, status: Status)
    requires Sound(w) && Report(w.table, id, status).Handled?
    ensures Carried(w.outbox, Report(w.table, id, status).table.active)
  {
    hide Since, O.Orderly, TableOk, A.Conserved;
    var active' := Report(w.table, id, status).table.active;
    forall k | k in active'
      ensures CarriedFor(w.outbox, active'[k], k)
    {
      assert CarriedFor(w.outbox, w.table.active[k], k);
    }
  }

  lemma ReportFailsIff(t: Table, id: nat, status: Status)
    requires TableOk(t)
    ensures !Report(t, id, status).Handled? <==> MessageFails(t, FileStatus(id, status))
    ensures Report(t, id, status).Handled? ==>
      Report(t, id, status).table.generation == t.generation && Report(t, id, status).table.nextId == t.nextId
  {
    if id in t.active {
      assert TransferOk(t, id);
    }
  }

  lemma AnnouncedSound(w: World, requestReply: bool, maxClipboard: bool)
    requires Sound(w) && w.outbox.connected
    ensures var o := O.Announced(w.outbox, requestReply, maxClipboard);
      Sound(w.(outbox := o)) && o.connected
  {
    hide O.Orderly, TableOk, A.Conserved, Carried, SuccessesOk;
    O.StepStaysOrderly(w.outbox, O.PeerAnnounced(requestReply, maxClipboard));
    SameMessages(w.outbox, O.Announced(w.outbox, requestReply, maxClipboard), w.table.active);
  }

  lemma SuccessAdded(successes: seq<Success>, s: Success)
    requires SuccessesOk(successes) && SuccessOk(s)
    ensures SuccessesOk(successes + [s])
  {
    hide SuccessOk;
  }

  lemma ReportedSound(w: World, id: nat, status: Status)
    requires Sound(w)
    ensures var e := StatusReported(w, id, status);
      && Sound(e.world) && e.world.outbox == w.outbox && e.world.account == w.account && !e.retained
      && e.world.table.nextId == w.table.nextId
      && (e.failure.Some? <==> MessageFails(w.table, FileStatus(id, status)))
      && (e.failure.Some? ==> e.failure.value == UnexpectedAcceptance || e.failure.value == UnexpectedSuccess)
  {
    hide O.Orderly, TableOk, A.Conserved, Carried, Report, SuccessOf, SuccessesOk, MessageFails;
    ReportFailsIff(w.table, id, status);
    ReportKeepsTable(w.table, id, status);
    if Report(w.table, id, status).Handled? {
      ReportCarried(w, id, status);
      if Succeeds(w.table, id, status) {
        SuccessCarried(w, id, status);
        SuccessAdded(w.successes, SuccessOf(w, id));
      }
    }
  }

  lemma DispatchedSound(w: World, m: Message)
    requires Sound(w) && w.outbox.connected
    ensures var e := Dispatched(w, m);
      && Sound(e.world) && e.world.outbox.connected && e.world.account == w.account
      && e.world.table.nextId == w.table.nextId
      && (e.failure.Some? <==> MessageFails(w.table, m))
      && (e.failure.Some? ==>
            && !OwnFault(e.failure.value) && e.failure.value != MalformedFragment
            && e.failure.value != MissingInboundToken)
  {
    hide Sound, StatusReported;
    match m
    case Announcement(requestReply, maxClipboard) => AnnouncedSound(w, requestReply, maxClipboard);
    case FileStatus(id, status) => ReportedSound(w, id, status);
    case _ =>
  }

  /** Some message of the list fails, after the effects of those before it. */
  ghost predicate SomeMessageFails(w: World, messages: seq<Message>)
    decreases |messages|
  {
    && messages != []
    && (MessageFails(w.table, messages[0]) || SomeMessageFails(Dispatched(w, messages[0]).world, messages[1..]))
  }

  lemma {:induction false} DispatchedAllSound(w: World, messages: seq<Message>)
    requires Sound(w) && w.outbox.connected
    ensures var e := DispatchedAll(w, messages);
      && Sound(e.world) && e.world.outbox.connected && e.world.account == w.account
      && e.world.table.nextId == w.table.nextId
      && (e.failure.Some? <==> SomeMessageFails(w, messages))
      && (e.failure.Some? ==>
            && !OwnFault(e.failure.value) && e.failure.value != MalformedFragment
            && e.failure.value != MissingInboundToken)
    decreases |messages|
  {
    hide Sound, Dispatched, MessageFails, OwnFault;
    if messages != [] {
      DispatchedSound(w, messages[0]);
      var first := Dispatched(w, messages[0]);
      if first.failure.None? {
        DispatchedAllSound(first.world, messages[1..]);
      }
    }
  }

  // ---------------------------------------------------------------------------
  // Host commands
  // ---------------------------------------------------------------------------

  /** Exactly when a command fails: one of the current generation whose payload cannot be sent. */
  predicate CommandFails(w: World, generation: nat, request: Request) {
    && request.Simple? && generation == w.table.generation
    && request.draft.Some? && !O.Sendable(request.draft.value)
  }

  lemma StartTable(t: Table, total: nat, disabled: bool, encodable: bool)
    requires TableOk(t)
    ensures var r := Start(t, total, disabled, encodable);
      && TableOk(r.1) && r.1.generation == t.generation && r.0 != OutOfIdentifiers
      && (r.0.Started? ==> encodable)
  {
    StartKeepsTable(t, total, disabled, encodable);
    if |t.active| < MAX_ACTIVE_FILE_TRANSFERS {
      StartFindsId(t, total);
    }
    hide TableOk, Allocated;
  }

  lemma DataTable(t: Table, id: nat, bytes: nat)
    requires TableOk(t)
    ensures var r := Data(t, id, bytes);
      && TableOk(r.1) && r.1.generation == t.generation && r.0 != OutOfIdentifiers
      && (r.0.Queued? ==> bytes <= MAX_AGENT_FILE_CHUNK_BYTES)
  {
    DataKeepsTable(t, id, bytes);
    hide TableOk;
  }

  lemma CancelTable(t: Table, id: nat)
    requires TableOk(t)
    ensures var r := Cancel(t, id); TableOk(r.1) && r.1.generation == t.generation && r.0 != OutOfIdentifiers
  {
    if id in t.active {
      RemoveKeepsTable(t, id);
    }
    hide TableOk;
  }

  lemma NextIdInRange(t: Table)
    requires TableOk(t)
    ensures 1 <= t.nextId <= MAX_ID
  {
  }

  lemma AcceptedTable(t: Table, request: Request, current: bool)
    requires TableOk(t)
    ensures var r := Accepted(t, request, current);
      && TableOk(r.1) && r.1.generation == t.generation && r.2 != Some(OutOfIdentifiers)
      && (O.UnfitCommand(r.0)
          <==> current && request.Simple? && request.draft.Some? && !O.Sendable(request.draft.value))
  {
    hide TableOk, Start, Data, Cancel;
    NextIdInRange(t);
    match request
    case Simple(_) =>
    case StartFile(total, disabled, start) => StartTable(t, total, disabled, start.Some?);
    case FileData(_, id, bytes) => DataTable(t, id, bytes);
    case CancelFile(_, id) => CancelTable(t, id);
  }

  /** A command that places a message about a transfer changes that transfer alone. */
  lemma StartEntry(t: Table, total: nat, start: Option<StartPayload>)
    requires 1 <= t.nextId <= MAX_ID
    ensures var r := Start(t, total, false, start.Some?);
      r.0.Started? ==>
        && r.1.active == t.active[r.0.id := Transfer(t.generation, total, 0, WaitingForGuest)]
  {
    hide Allocated;
  }

  lemma StartFileCarried(w: World, total: nat, disabled: bool, start: Option<StartPayload>, o': O.Outbox)
    requires Carried(w.outbox, w.table.active) && 1 <= w.table.nextId <= MAX_ID
    requires var r := Accepted(w.table, Request.StartFile(total, disabled, start), true);
      O.Accept(w.outbox, r.0) == O.Ok(o')
    ensures Carried(o', Accepted(w.table, Request.StartFile(total, disabled, start), true).1.active)
  {
    hide Carried, Allocated, O.Accept;
    var r := Accepted(w.table, Request.StartFile(total, disabled, start), true);
    var active, active' := w.table.active, r.1.active;
    O.AcceptPlaces(w.outbox, r.0);
    StartEntry(w.table, total, start);
    if r.0.Plain? {
      var id := r.0.cargo.id;
      StartCarried(w.outbox, o', active'[id], id);
      EntryPlaced(w.outbox, o', active, active', id, r.0.cargo);
    } else {
      assert active' == active;
      SameMessages(w.outbox, o', active);
    }
  }

  lemma FileDataCarried(w: World, completion: nat, id: nat, bytes: nat, o': O.Outbox)
    requires Carried(w.outbox, w.table.active) && 1 <= w.table.nextId <= MAX_ID
    requires var r := Accepted(w.table, Request.FileData(completion, id, bytes), true);
      O.Accept(w.outbox, r.0) == O.Ok(o')
    ensures Carried(o', Accepted(w.table, Request.FileData(completion, id, bytes), true).1.active)
  {
    hide CarriedFor, O.Accept;
    var r := Accepted(w.table, Request.FileData(completion, id, bytes), true);
    var active, active' := w.table.active, r.1.active;
    O.AcceptPlaces(w.outbox, r.0);
    if r.0.Tracked? {
      DataCarried(w.outbox, o', active[id], active'[id], id, bytes);
      EntryPlaced(w.outbox, o', active, active', id, r.0.cargo);
    } else {
      SameMessages(w.outbox, o', active);
    }
  }

  lemma CancelCarried(w: World, completion: nat, id: nat, o': O.Outbox)
    requires Carried(w.outbox, w.table.active) && 1 <= w.table.nextId <= MAX_ID
    requires var r := Accepted(w.table, Request.CancelFile(completion, id), true);
      O.Accept(w.outbox, r.0) == O.Ok(o')
    ensures Carried(o', Accepted(w.table, Request.CancelFile(completion, id), true).1.active)
  {
    hide Carried, O.Accept;
    var r := Accepted(w.table, Request.CancelFile(completion, id), true);
    var active, active' := w.table.active, r.1.active;
    O.AcceptPlaces(w.outbox, r.0);
    if r.0.Tracked? {
      EntryPlaced(w.outbox, o', active, active', id, r.0.cargo);
    } else {
      SameMessages(w.outbox, o', active);
    }
  }

  lemma OtherCarried(w: World, request: Request, current: bool, o': O.Outbox)
    requires Carried(w.outbox, w.table.active) && 1 <= w.table.nextId <= MAX_ID
    requires request.Simple? || !current
    requires O.Accept(w.outbox, Accepted(w.table, request, current).0) == O.Ok(o')
    ensures Carried(o', Accepted(w.table, request, current).1.active)
  {
    hide Carried, O.Accept;
    var r := Accepted(w.table, request, current);
    O.AcceptPlaces(w.outbox, r.0);
    if r.0.Plain? {
      OtherPlaced(w.outbox, o', w.table.active);
    } else {
      SameMessages(w.outbox, o', w.table.active);
    }
  }

  lemma AcceptedCarried(w: World, request: Request, current: bool, o': O.Outbox)
    requires Carried(w.outbox, w.table.active) && 1 <= w.table.nextId <= MAX_ID
    requires O.Accept(w.outbox, Accepted(w.table, request, current).0) == O.Ok(o')
    ensures Carried(o', Accepted(w.table, request, current).1.active)
  {
    hide *;
    if !current || request.Simple? {
      OtherCarried(w, request, current, o');
    } else {
      match request
      case StartFile(total, disabled, start) => StartFileCarried(w, total, disabled, start, o');
      case FileData(completion, id, bytes) => FileDataCarried(w, completion, id, bytes, o');
      case CancelFile(completion, id) => CancelCarried(w, completion, id, o');
    }
  }

  lemma CommandedSound(w: World, generation: nat, request: Request)
    requires Sound(w) && O.CanAccept(w.outbox)
    ensures var s := Commanded(w, generation, request);
      && Sound(s.world)
      && (s.failure.Some? <==> CommandFails(w, generation, request))
      && (s.failure.Some? ==> s.failure.value == InvalidPayload && s.world == w)
  {
    assert 1 <= w.table.nextId <= MAX_ID;
    hide O.Orderly, TableOk, A.Conserved, Carried, SuccessesOk, Accepted, O.Accept, O.UnfitCommand;
    var current := generation == w.table.generation;
    var r := Accepted(w.table, request, current);
    AcceptedTable(w.table, request, current);
    O.AcceptOrderly(w.outbox, r.0);
    if O.Accept(w.outbox, r.0).Ok? {
      O.AcceptPlaces(w.outbox, r.0);
      AcceptedCarried(w, request, current, O.Accept(w.outbox, r.0).outbox);
    }
  }

  /** A command that hands over the rest of a file: it awaits completion with those bytes in the slot. */
  lemma RestHandedOver(w: World, id: nat, completion: nat, bytes: nat)
    requires Sound(w) && O.CanAccept(w.outbox) && 1 <= w.table.nextId <= MAX_ID
    requires id in w.table.active && w.table.active[id].phase == Sending
    requires w.table.active[id].generation == w.table.generation
    requires w.table.active[id].accepted + bytes == w.table.active[id].total && 0 < bytes <= MAX_AGENT_FILE_CHUNK_BYTES
    ensures var s := Commanded(w, w.table.generation, Request.FileData(completion, id, bytes));
      && s.failure.None? && id in s.world.table.active
      && s.world.table.active[id]
         == w.table.active[id].(accepted := w.table.active[id].total, phase := AwaitingCompletion)
      && s.world.table.generation == w.table.generation
      && Waiting(s.world.outbox, id) == bytes
  {
    hide Sound, O.FragmentsOf;
  }

  /** A report of success may be accepted before the last bytes are sent: whenever the rest of a file has
      been accepted and is still in the slot. So success means handed over, and sent only if the slot is
      free of the file. */
  lemma SuccessCanOvertake(w: World, id: nat, completion: nat, bytes: nat)
    requires Sound(w) && O.CanAccept(w.outbox) && 1 <= w.table.nextId <= MAX_ID
    requires id in w.table.active && w.table.active[id].phase == Sending
    requires w.table.active[id].generation == w.table.generation
    requires w.table.active[id].accepted + bytes == w.table.active[id].total && 0 < bytes <= MAX_AGENT_FILE_CHUNK_BYTES
    ensures var w' := Commanded(w, w.table.generation, Request.FileData(completion, id, bytes)).world;
      && id in w'.table.active && Report(w'.table, id, Succeeded).Handled?
      && SuccessOf(w', id).sent == SuccessOf(w', id).total - bytes
  {
    hide Sound, Commanded, O.CanAccept, CommandFails, Since;
    var request := Request.FileData(completion, id, bytes);
    RestHandedOver(w, id, completion, bytes);
    CommandedSound(w, w.table.generation, request);
    SuccessCarried(Commanded(w, w.table.generation, request).world, id, Succeeded);
  }

  // ---------------------------------------------------------------------------
  // Turns
  // ---------------------------------------------------------------------------

  lemma ResetCarried(o: O.Outbox)
    ensures Carried(o, map[])
  {
  }

  lemma BegunSound(w: World, tokens: Option<nat>)
    requires Sound(w)
    ensures Sound(Begun(w, tokens))
  {
    hide O.Orderly, TableOk, A.Conserved, Carried, SuccessesOk;
    O.ResetOrderly(w.outbox, tokens);
    StepKeepsTable(w.table, Renewed(w.account.generation + 1));
    A.NextConserves(w.account, A.Begun);
    ResetCarried(O.Begin(w.outbox, tokens));
  }

  lemma SeveredSound(w: World)
    requires Sound(w)
    ensures Sound(Severed(w))
  {
    hide O.Orderly, TableOk, A.Conserved, Carried, SuccessesOk;
    O.ResetOrderly(w.outbox, None);
    StepKeepsTable(w.table, Renewed(w.account.generation));
    A.NextConserves(w.account, A.Disconnected);
    ResetCarried(O.Disconnect(w.outbox));
  }

  lemma ReinitializedSound(w: World, connected: bool, tokens: nat)
    requires Sound(w)
    ensures Sound(Reinitialized(w, connected, tokens))
  {
    SeveredSound(w);
    var w' := Severed(w);
    var o := w'.outbox.(tokens := tokens, granted := tokens, sent := 0);
    O.TokensReplaced(w'.outbox, tokens);
    SameMessages(w'.outbox, o, w'.table.active);
    hide O.Orderly, TableOk, A.Conserved, Carried, SuccessesOk, Severed, Begun;
    BegunSound(w'.(outbox := o), None);
  }

  lemma GrantedSound(w: World, tokens: nat)
    requires Sound(w)
    ensures Sound(w.(outbox := O.Grant(w.outbox, tokens)))
  {
    hide O.Orderly, TableOk, A.Conserved, Carried, SuccessesOk;
    O.StepStaysOrderly(w.outbox, O.Granted(tokens));
    SameMessages(w.outbox, O.Grant(w.outbox, tokens), w.table.active);
  }

  lemma AccountSound(w: World, account: A.Account)
    requires Sound(w) && A.Conserved(account)
    requires account.connected == w.account.connected && account.generation == w.account.generation
    ensures Sound(w.(account := account))
  {
    hide O.Orderly, TableOk, A.Conserved, Carried, SuccessesOk;
  }

  lemma FragmentedSound(w: World, messages: Option<seq<Message>>)
    requires Sound(w)
    ensures var s := Fragmented(w, messages);
      && (s.failure.Some? <==> ReactFails(w, Fragment(messages)))
      && (s.failure.Some? ==> !OwnFault(s.failure.value))
      && (s.failure == Some(MalformedFragment) <==> A.CanReceive(w.account) && messages.None?)
      && (s.failure != Some(MalformedFragment) ==> Sound(s.world))
      && s.world.table.nextId == w.table.nextId
      && SuccessesOk(s.world.successes)
  {
    assert Linked(w) && A.Conserved(w.account) && SuccessesOk(w.successes);
    hide O.Orderly, TableOk, A.Conserved, Carried, SuccessesOk;
    if A.CanReceive(w.account) && messages.Some? {
      DispatchedAllSound(w, messages.value);
      var e := DispatchedAll(w, messages.value);
      A.NextConserves(w.account, A.Received(e.retained));
      AccountSound(e.world, A.Receive(w.account, e.retained));
    }
  }

  lemma SentSound(w: World)
    requires Sound(w) && O.CanSend(w.outbox)
    ensures SentOne(w).failure.None? && Sound(SentOne(w).world)
  {
    hide O.Orderly, TableOk, A.Conserved, Carried, SuccessesOk;
    O.SendOrderly(w.outbox);
    SameMessages(w.outbox, O.SendOne(w.outbox).outbox, w.table.active);
  }

  lemma PreparedSound(w: World, draft: Option<O.Draft>)
    requires Sound(w)
    ensures var s := PreparedBy(w, draft);
      && Sound(s.world) && s.world.table == w.table
      && (s.failure.Some? <==> O.UnfitDraft(w.outbox, draft))
      && (s.failure.Some? ==> s.failure.value == InvalidPayload)
  {
    hide O.Orderly, TableOk, A.Conserved, Carried, SuccessesOk, O.UnfitDraft;
    O.PrepareOrderly(w.outbox, draft);
    if O.Prepare(w.outbox, draft).Ok? {
      var o := O.Prepare(w.outbox, draft).outbox;
      if o.placed == w.outbox.placed {
        SameMessages(w.outbox, o, w.table.active);
      } else {
        OtherPlaced(w.outbox, o, w.table.active);
      }
    }
  }

  /** Exactly when a branch of the loop fails. */
  ghost predicate ReactFails(w: World, stimulus: Stimulus) {
    match stimulus
    case Fragment(messages) =>
      !A.CanReceive(w.account) || messages.None? || SomeMessageFails(w, messages.value)
    case HostCommand(generation, request) => O.CanAccept(w.outbox) && CommandFails(w, generation, request)
    case _ => false
  }

  lemma ReturnedSound(w: World)
    requires Sound(w) && w.outbox.connected
    ensures Returned(w).failure.None? && Sound(Returned(w).world)
  {
    assert w.account.tokens + w.account.pending <= A.AGENT_RECEIVE_WINDOW;
    A.NextConserves(w.account, A.Announced);
    AccountSound(w, A.Announce(w.account));
    hide Sound;
  }

  lemma DroppedSound(w: World, generation: nat)
    requires Sound(w) && generation in w.account.live
    ensures Sound(w.(account := A.Drop(w.account, generation)))
  {
    A.NextConserves(w.account, A.Dropped(generation));
    AccountSound(w, A.Drop(w.account, generation));
    hide Sound;
  }

  lemma SoundFacts(w: World)
    requires Sound(w)
    ensures 1 <= w.table.nextId <= MAX_ID && SuccessesOk(w.successes)
  {
  }

  lemma ReactedSound(w: World, stimulus: Stimulus)
    requires Sound(w)
    ensures 1 <= w.table.nextId <= MAX_ID
    ensures var s := Reacted(w, stimulus);
      && (s.failure.Some? <==> ReactFails(w, stimulus))
      && (s.failure.Some? ==> !OwnFault(s.failure.value))
      && (s.failure != Some(MalformedFragment) ==> Sound(s.world))
      && SuccessesOk(s.world.successes) && 1 <= s.world.table.nextId <= MAX_ID
  {
    hide Sound, Begun, Severed, Reinitialized, O.Grant, Fragmented, SentOne, Commanded, Returned, CommandFails,
      SomeMessageFails, SuccessesOk, O.CanSend, O.CanAccept, A.Drop;
    SoundFacts(w);
    match stimulus {
      case PeerConnected(tokens) => BegunSound(w, tokens);
      case PeerDisconnected => SeveredSound(w);
      case Migrated(connected, tokens) => ReinitializedSound(w, connected, tokens);
      case TokensGranted(tokens) => GrantedSound(w, tokens);
      case Fragment(messages) => FragmentedSound(w, messages);
      case SocketFree => if O.CanSend(w.outbox) { SentSound(w); }
      case HostCommand(generation, request) =>
        if O.CanAccept(w.outbox) { CommandedSound(w, generation, request); }
      case CreditReturned => if w.outbox.connected { ReturnedSound(w); }
      case HostDroppedCredit(generation) => if generation in w.account.live { DroppedSound(w, generation); }
    }
    if Sound(Reacted(w, stimulus).world) {
      SoundFacts(Reacted(w, stimulus).world);
    }
  }

  /** Something a turn meets fails, after the effects of what came before it. */
  ghost predicate SomeReactFails(w: World, stimuli: seq<Stimulus>)
    decreases |stimuli|
  {
    && stimuli != [] && 1 <= w.table.nextId <= MAX_ID
    && (ReactFails(w, stimuli[0]) || SomeReactFails(Reacted(w, stimuli[0]).world, stimuli[1..]))
  }

  lemma {:induction false} ReactedAllSound(w: World, stimuli: seq<Stimulus>)
    requires Sound(w)
    ensures var s := ReactedAll(w, stimuli);
      && (s.failure.Some? <==> SomeReactFails(w, stimuli))
      && (s.failure.Some? ==> !OwnFault(s.failure.value))
      && (s.failure != Some(MalformedFragment) ==> Sound(s.world))
      && SuccessesOk(s.world.successes)
    decreases |stimuli|
  {
    hide Sound, Reacted, ReactFails, SuccessesOk;
    SoundFacts(w);
    if stimuli != [] {
      ReactedSound(w, stimuli[0]);
      var first := Reacted(w, stimuli[0]);
      if first.failure.None? {
        ReactedAllSound(first.world, stimuli[1..]);
      }
    }
  }

  /** Exactly when a turn fails: what the loop has ready cannot be sent, or else something it meets fails. */
  ghost predicate Fails(w: World, turn: Turn) {
    O.UnfitDraft(w.outbox, turn.draft) || SomeReactFails(PreparedBy(w, turn.draft).world, turn.stimuli)
  }

  /** A turn fails if and only if host or peer did one of these things, never by a fault of the runtime;
      and every turn keeps the invariant, save that an undecodable fragment costs a token its credit. */
  lemma TurnFailsIff(w: World, turn: Turn)
    requires Sound(w)
    ensures var s := Turned(w, turn);
      && (s.failure.Some? <==> Fails(w, turn))
      && (s.failure.Some? ==> !OwnFault(s.failure.value))
      && (s.failure != Some(MalformedFragment) ==> Sound(s.world))
      && SuccessesOk(s.world.successes)
  {
    hide Sound, PreparedBy, ReactedAll, SomeReactFails, O.UnfitDraft, SuccessesOk;
    PreparedSound(w, turn.draft);
    var prepared := PreparedBy(w, turn.draft);
    SoundFacts(prepared.world);
    if prepared.failure.None? {
      ReactedAllSound(prepared.world, turn.stimuli);
    }
  }

  // ---------------------------------------------------------------------------
  // Runs
  // ---------------------------------------------------------------------------

  /** How a list of turns ends: the world, the failure if any, and the turns completed before it. */
  datatype Outcome = Outcome(world: World, failure: Option<Failure>, served: nat)

  ghost function Loop(w: World, turns: seq<Turn>): Outcome
    decreases |turns|
  {
    if turns == [] then Outcome(w, None, 0)
    else
      var s := Turned(w, turns[0]);
      if s.failure.Some? then Outcome(s.world, s.failure, 0)
      else
        var rest := Loop(s.world, turns[1..]);
        rest.(served := rest.served + 1)
  }

  /** Over every run: the invariant holds, every published success is one of a file whose bytes were all
      put into messages, and the run ends early exactly at the first turn that fails as above. */
  lemma {:induction false} LoopSound(w: World, turns: seq<Turn>)
    requires Sound(w)
    ensures var r := Loop(w, turns);
      && (r.failure.None? ==> r.served == |turns| && Sound(r.world))
      && (r.failure.Some? ==> r.served < |turns| && !OwnFault(r.failure.value)
                              && (r.failure.value != MalformedFragment ==> Sound(r.world)))
      && SuccessesOk(r.world.successes)
    decreases |turns|
  {
    hide Sound, Turned, Fails, SuccessesOk;
    SoundFacts(w);
    if turns != [] {
      TurnFailsIff(w, turns[0]);
      var s := Turned(w, turns[0]);
      if s.failure.None? {
        LoopSound(s.world, turns[1..]);
      }
    }
  }

  /** The turn that ended a run did so for a stated reason, in the world that the turns before it left. */
  lemma {:induction false} LoopFailsAt(w: World, turns: seq<Turn>)
    requires Sound(w)
    ensures var r := Loop(w, turns);
      r.failure.Some? ==>
        && r.served < |turns|
        && Loop(w, turns[..r.served]).failure.None?
        && Fails(Loop(w, turns[..r.served]).world, turns[r.served])
    decreases |turns|
  {
    hide Sound, Turned, Fails;
    SoundFacts(w);
    LoopSound(w, turns);
    if turns != [] {
      TurnFailsIff(w, turns[0]);
      var s := Turned(w, turns[0]);
      var r := Loop(w, turns);
      if s.failure.None? {
        LoopFailsAt(s.world, turns[1..]);
        if r.failure.Some? {
          var n := r.served;
          assert turns[..n][0] == turns[0] && turns[..n][1..] == turns[1..][..n - 1];
        }
      }
    }
  }
}
