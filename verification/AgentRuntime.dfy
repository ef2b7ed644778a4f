/** The Agent runtime as it is written: one object whose fields the main loop updates.

  A ghost value follows the fields. Every method moves it as the specification
  of the turns says, so what holds over the runs of that specification holds of
  the object.
*/
module AgentRuntime {
  import opened Basics
  import opened AgentTransfers
  import opened AgentWorld
  import opened AgentSoundness
  import A = AgentCredits
  import O = AgentOutbox

  /** A world with no Agent connected yet. */
  function Unconnected(tokens: nat): World {
    World(O.Opened(false, tokens), EMPTY, A.CLOSED, [])
  }

  lemma EmptyOk()
    ensures TableOk(EMPTY)
  {
  }

  lemma UnconnectedSound(tokens: nat)
    ensures Sound(Unconnected(tokens))
  {
    O.OpenedOrderly(false, tokens);
    EmptyOk();
    assert A.Conserved(A.CLOSED);
    hide O.Orderly, TableOk, A.Conserved;
  }

  // ---------------------------------------------------------------------------
  // What the steps do to the fields that the runtime keeps
  // ---------------------------------------------------------------------------

  /** The outbox fields of a reset. */
  ghost predicate Emptied(o: O.Outbox, connected: bool) {
    && o.connected == connected && !o.ready && o.message.None? && o.completion.None?
    && o.announcePending == connected && !o.maxClipboardPending
  }

  lemma BegunFields(w: World, tokens: Option<nat>)
    ensures var w' := Begun(w, tokens);
      && Emptied(w'.outbox, true) && w'.outbox.tokens == (if tokens.Some? then tokens.value else w.outbox.tokens)
      && w'.table.generation == w.account.generation + 1 && w'.table.active == map[]
      && w'.table.nextId == w.table.nextId
      && w'.account.generation == w.account.generation + 1 && w'.account.connected
      && w'.account.tokens == A.AGENT_RECEIVE_WINDOW && w'.account.pending == 0 && w'.account.live == w.account.live
  {
  }

  lemma SeveredFields(w: World)
    ensures var w' := Severed(w);
      && Emptied(w'.outbox, false) && w'.outbox.tokens == w.outbox.tokens
      && w'.table.generation == w.account.generation && w'.table.active == map[]
      && w'.table.nextId == w.table.nextId
      && w'.account == w.account.(connected := false, tokens := 0)
  {
  }

  lemma SentFields(o: O.Outbox)
    requires O.SendOne(o).Ok?
    ensures var o' := O.SendOne(o).outbox;
      && o'.connected == o.connected && o'.ready == o.ready
      && o'.announcePending == o.announcePending && o'.maxClipboardPending == o.maxClipboardPending
      && o'.tokens == o.tokens - 1
      && (if o.message.value.left > 1
          then o'.message == Some(o.message.value.(left := o.message.value.left - 1)) && o'.completion == o.completion
          else o'.message.None? && o'.completion.None?)
  {
  }

  lemma PreparedFields(o: O.Outbox, draft: Option<O.Draft>)
    requires O.Prepare(o, draft).Ok?
    ensures var o' := O.Prepare(o, draft).outbox;
      var idle := !o.connected || o.message.Some?;
      && o'.connected == o.connected && o'.ready == o.ready
      && o'.tokens == o.tokens && o'.completion == o.completion
      && o'.announcePending == (idle && o.announcePending)
      && o'.maxClipboardPending == ((idle || o.announcePending) && o.maxClipboardPending)
      && o'.message == if idle then o.message
                       else if o.announcePending
                       then Some(O.Message(O.FragmentsOf(O.ANNOUNCE_PAYLOAD), O.Other))
                       else if o.maxClipboardPending
                       then Some(O.Message(O.FragmentsOf(O.MAX_CLIPBOARD_PAYLOAD), O.Other))
                       else if o.ready && draft.Some?
                       then Some(O.Message(O.FragmentsOf(draft.value.payload), O.Other))
                       else None
  {
    hide O.FragmentsOf;
  }

  /** The message a command places. */
  function MessageOf(command: O.Command): Option<O.Message> {
    if (command.Plain? || command.Tracked?) && command.draft.Encoded?
    then Some(O.Message(O.FragmentsOf(command.draft.payload), command.cargo))
    else None
  }

  lemma AcceptedFields(o: O.Outbox, command: O.Command)
    requires O.Accept(o, command).Ok? && O.CanAccept(o)
    ensures var o' := O.Accept(o, command).outbox;
      && o'.connected == o.connected && o'.ready == o.ready && o'.tokens == o.tokens
      && !o'.announcePending && !o'.maxClipboardPending
      && o'.message == MessageOf(command)
      && o'.completion == (if command.Tracked? then Some(command.id) else o.completion)
  {
    hide O.FragmentsOf;
  }

  lemma DispatchedFields(w: World, m: Message)
    ensures var w' := Dispatched(w, m).world;
      && w'.outbox.connected == w.outbox.connected && w'.outbox.tokens == w.outbox.tokens
      && w'.outbox.message == w.outbox.message && w'.outbox.completion == w.outbox.completion
      && w'.table.generation == w.table.generation && w'.table.nextId == w.table.nextId
      && w'.account == w.account
  {
    hide SuccessOf;
  }

  lemma DispatchedOtherAccount(w: World, account: A.Account, m: Message)
    ensures var e := Dispatched(w, m);
      Dispatched(w.(account := account), m) == e.(world := e.world.(account := account))
  {
  }

  /** Dispatching looks at no credits. */
  lemma {:induction false} DispatchIgnoresAccount(w: World, account: A.Account, messages: seq<Message>)
    ensures var e := DispatchedAll(w, messages);
      DispatchedAll(w.(account := account), messages) == e.(world := e.world.(account := account))
    decreases |messages|
  {
    hide Dispatched;
    if messages != [] {
      DispatchedOtherAccount(w, account, messages[0]);
      DispatchIgnoresAccount(Dispatched(w, messages[0]).world, account, messages[1..]);
    }
  }

  lemma ReceivedSound(w: World)
    requires Sound(w) && A.CanReceive(w.account)
    ensures Sound(w.(account := A.Receive(w.account, true)))
  {
    A.NextConserves(w.account, A.Received(true));
    AccountSound(w, A.Receive(w.account, true));
    hide Sound;
  }

  /** A credit that was kept and then dropped is one that was never kept. */
  lemma KeptThenDropped(a: A.Account)
    requires A.CanReceive(a)
    ensures A.Drop(A.Receive(a, true), a.generation) == A.Receive(a, false)
  {
    assert A.Receive(a, true).live - multiset{a.generation} == a.live;
  }

  lemma TableSize(t: Table)
    requires TableOk(t)
    ensures |t.active| <= MAX_ACTIVE_FILE_TRANSFERS
  {
  }

  lemma SoundTable(w: World)
    requires Sound(w)
    ensures TableOk(w.table)
  {
  }

  lemma StaleIsRefused(t: Table, request: Request)
    requires 1 <= t.nextId <= MAX_ID
    ensures var r := Accepted(t, request, false);
      && r.1 == t && r.2.None? && MessageOf(r.0).None? && !r.0.Tracked? && !O.UnfitCommand(r.0)
      && (r.0.Answered? <==> request.FileData? || request.CancelFile?)
  {
  }

  /** The fields after a command, in terms of what the command comes to. */
  lemma CommandedFields(w: World, generation: nat, request: Request)
    requires Sound(w) && O.CanAccept(w.outbox) && 1 <= w.table.nextId <= MAX_ID
    ensures var s := Commanded(w, generation, request);
      var r := Accepted(w.table, request, generation == w.table.generation);
      && (s.failure.Some? <==> O.UnfitCommand(r.0)) && (s.failure.Some? ==> s.failure.value == InvalidPayload)
      && s.world.account == w.account && s.world.table == r.1
      && 1 <= r.1.nextId <= MAX_ID && r.1.generation == w.table.generation
      && s.world.outbox.connected == w.outbox.connected && s.world.outbox.ready == w.outbox.ready
      && s.world.outbox.tokens == w.outbox.tokens
      && !s.world.outbox.announcePending && !s.world.outbox.maxClipboardPending
      && s.world.outbox.message == (if s.failure.None? then MessageOf(r.0) else None)
      && s.world.outbox.completion == (if r.0.Tracked? then Some(r.0.id) else w.outbox.completion)
  {
    var current := generation == w.table.generation;
    var r := Accepted(w.table, request, current);
    AcceptedTable(w.table, request, current);
    assert O.Orderly(w.outbox) && 1 <= r.1.nextId <= MAX_ID;
    assert O.UnfitCommand(r.0) ==> r.1 == w.table && !r.0.Tracked?;
    hide Sound, Accepted, O.Orderly, TableOk, MessageOf, O.Accept, O.UnfitCommand;
    O.AcceptOrderly(w.outbox, r.0);
    if O.Accept(w.outbox, r.0).Ok? {
      AcceptedFields(w.outbox, r.0);
    }
  }

  class AgentRuntime {
    var generation: nat
    var connected: bool
    var ready: bool
    var outboundTokens: nat
    var inboundTokens: nat
    var outbound: Option<O.Message>
    var outboundCompletion: Option<nat>
    var announcePending: bool
    var maxClipboardPending: bool
    var nextTransferId: nat
    var transfers: map<nat, Transfer>
    const creditReturns: A.AgentCreditReturns
    /** The generations of the credits that host events still keep. */
    var keptCredits: multiset<nat>

    ghost var world: World

    ghost predicate OutboxGlued()
      reads this
    {
      && world.outbox.connected == connected
      && world.outbox.ready == ready
      && world.outbox.tokens == outboundTokens
      && world.outbox.message == outbound
      && world.outbox.completion == outboundCompletion
      && world.outbox.announcePending == announcePending
      && world.outbox.maxClipboardPending == maxClipboardPending
    }

    ghost predicate TableGlued()
      reads this
    {
      && world.table.generation == generation
      && world.table.active == transfers
      && world.table.nextId == nextTransferId
      && 1 <= nextTransferId <= MAX_ID
    }

    ghost predicate AccountGlued()
      reads this, creditReturns
    {
      && world.account.generation == generation == creditReturns.generation
      && world.account.connected == connected
      && world.account.tokens == inboundTokens
      && world.account.pending == creditReturns.pending
      && world.account.live == keptCredits
    }

    /** The ghost value agrees with the fields. */
    ghost predicate Glued()
      reads this, creditReturns
    {
      OutboxGlued() && TableGlued() && AccountGlued()
    }

    ghost predicate Valid()
      reads this, creditReturns
    {
      Glued() && Sound(world)
    }

    /** The runtime as it enters the main loop. */
    constructor (connected: bool, tokens: nat)
      ensures Valid() && fresh(creditReturns)
      ensures world == if connected then Begun(Unconnected(tokens), None) else Unconnected(tokens)
    {
      generation := 0;
      this.connected := false;
      ready := false;
      outboundTokens := tokens;
      inboundTokens := 0;
      outbound := None;
      outboundCompletion := None;
      announcePending := false;
      maxClipboardPending := false;
      nextTransferId := 1;
      transfers := map[];
      creditReturns := new A.AgentCreditReturns();
      keptCredits := multiset{};
      world := Unconnected(tokens);
      new;
      UnconnectedSound(tokens);
      hide Sound;
      if connected {
        BeginGeneration(None);
      }
    }

    /** Drops what was under way; a stored completion is told that it is stale. */
    method AbandonStream(announce: bool)
      modifies this`ready, this`outbound, this`outboundCompletion, this`announcePending
      modifies this`maxClipboardPending, this`transfers
      ensures !ready && outbound.None? && outboundCompletion.None? && announcePending == announce
      ensures !maxClipboardPending && transfers == map[]
    {
      transfers := map[];
      outboundCompletion := None;
      ready := false;
      outbound := None;
      announcePending := announce;
      maxClipboardPending := false;
    }

    /** The fields of a new generation. */
    method Restart(tokens: Option<nat>)
      modifies this`connected, this`generation, this`outboundTokens, this`inboundTokens, this`ready, this`outbound
      modifies this`outboundCompletion, this`announcePending, this`maxClipboardPending, this`transfers, creditReturns
      ensures connected && generation == old(generation) + 1 && inboundTokens == 10
      ensures outboundTokens == if tokens.Some? then tokens.value else old(outboundTokens)
      ensures !ready && outbound.None? && outboundCompletion.None? && announcePending
      ensures !maxClipboardPending && transfers == map[]
      ensures creditReturns.generation == generation && creditReturns.pending == 0
    {
      if tokens.Some? {
        outboundTokens := tokens.value;
      }
      connected := true;
      AbandonStream(true);
      generation := generation + 1;
      inboundTokens := A.AGENT_RECEIVE_WINDOW;
      creditReturns.Reset(generation);
    }

    method BeginGeneration(tokens: Option<nat>)
      requires Valid()
      modifies this, creditReturns
      ensures Valid() && world == Begun(old(world), tokens)
      ensures connected && generation == old(generation) + 1 && inboundTokens == 10
      ensures outboundTokens == if tokens.Some? then tokens.value else old(outboundTokens)
      ensures transfers == map[] && outbound.None? && outboundCompletion.None? && announcePending && !ready
    {
      hide Sound, Begun;
      BegunSound(world, tokens);
      BegunFields(world, tokens);
      Restart(tokens);
      world := Begun(world, tokens);
    }

    method Disconnect()
      requires Valid()
      modifies this
      ensures Valid() && world == Severed(old(world))
      ensures !connected && generation == old(generation) && inboundTokens == 0 && outboundTokens == old(outboundTokens)
      ensures transfers == map[] && outbound.None? && outboundCompletion.None? && !announcePending && !ready
    {
      hide Sound, Severed;
      SeveredSound(world);
      SeveredFields(world);
      connected := false;
      AbandonStream(false);
      inboundTokens := 0;
      world := Severed(world);
    }

    method ReinitializeAfterMigration(connected: bool, tokens: nat)
      requires Valid()
      modifies this, creditReturns
      ensures Valid() && world == Reinitialized(old(world), connected, tokens)
      ensures this.connected == connected && outboundTokens == tokens && transfers == map[] && outbound.None?
      ensures generation == old(generation) + if connected then 1 else 0
    {
      hide Sound, Severed, Begun;
      ReinitializedSound(world, false, tokens);
      Disconnect();
      outboundTokens := tokens;
      world := world.(outbox := world.outbox.(tokens := tokens, granted := tokens, sent := 0));
      if connected {
        BeginGeneration(None);
      }
    }

    method HandleToken(tokens: nat)
      requires Valid()
      modifies this
      ensures Valid() && world == old(world).(outbox := O.Grant(old(world).outbox, tokens))
      ensures outboundTokens == old(outboundTokens) + tokens
    {
      hide Sound;
      GrantedSound(world, tokens);
      outboundTokens := outboundTokens + tokens;
      world := world.(outbox := O.Grant(world.outbox, tokens));
    }

    method HandleStatus(id: nat, status: Status) returns (failure: Option<Failure>)
      requires TableGlued()
      modifies this`transfers
      ensures match Report(world.table, id, status)
        case Handled(t) => failure == None && transfers == t.active
        case DuplicateAcceptance => failure == Some(UnexpectedAcceptance) && transfers == old(transfers)
        case EarlySuccess => failure == Some(UnexpectedSuccess) && transfers == old(transfers)
      ensures OthersKept(old(transfers), transfers, id)
      ensures id !in old(transfers) || old(transfers)[id].generation != generation ==> transfers == old(transfers)
      ensures failure.None? && id in old(transfers) && old(transfers)[id].generation == generation ==>
        if status != CanSendData then id !in transfers
        else id in transfers && transfers[id] == old(transfers)[id].(phase := Sending)
      ensures failure == Some(UnexpectedAcceptance) <==>
        && id in old(transfers) && old(transfers)[id].generation == generation
        && status == CanSendData && old(transfers)[id].phase != WaitingForGuest
      ensures failure == Some(UnexpectedSuccess) <==>
        && id in old(transfers) && old(transfers)[id].generation == generation && status == Succeeded
        && (old(transfers)[id].phase != AwaitingCompletion || old(transfers)[id].accepted != old(transfers)[id].total)
    {
      failure := None;
      if id !in transfers || transfers[id].generation != generation {
        return;
      }
      var transfer := transfers[id];
      match status
      case CanSendData =>
        if transfer.phase != WaitingForGuest {
          return Some(UnexpectedAcceptance);
        }
        transfers := transfers[id := transfer.(phase := Sending)];
      case Succeeded =>
        if transfer.phase != AwaitingCompletion || transfer.accepted != transfer.total {
          return Some(UnexpectedSuccess);
        }
        transfers := transfers - {id};
      case GuestCancelled => transfers := transfers - {id};
      case Failed => transfers := transfers - {id};
    }

    /** The fields after one decoded message; true when its credit is kept. */
    method Apply(m: Message) returns (retained: bool, failure: Option<Failure>)
      requires OutboxGlued() && TableGlued()
      modifies this`ready, this`announcePending, this`maxClipboardPending, this`transfers
      ensures
        var e := Dispatched(world, m);
        && retained == e.retained && failure == e.failure && transfers == e.world.table.active
        && ready == e.world.outbox.ready && announcePending == e.world.outbox.announcePending
        && maxClipboardPending == e.world.outbox.maxClipboardPending
      ensures retained <==> m == ClipboardRequest(Delivered)
      ensures m.Announcement? ==>
        && failure.None? && ready && maxClipboardPending == m.maxClipboard
        && announcePending == (old(announcePending) || m.requestReply)
      ensures !m.Announcement? ==>
        && ready == old(ready) && announcePending == old(announcePending)
        && maxClipboardPending == old(maxClipboardPending)
      ensures !m.FileStatus? ==> transfers == old(transfers)
    {
      hide SuccessOf;
      retained, failure := false, None;
      match m
      case Announcement(requestReply, maxClipboard) =>
        ready := true;
        maxClipboardPending := maxClipboard;
        if requestReply {
          announcePending := true;
        }
      case ClipboardRequest(queue) =>
        if queue == Delivered {
          retained := true;
        } else if queue == Full {
          failure := Some(EventQueueFull);
        }
      case FileStatus(id, status) =>
        failure := HandleStatus(id, status);
      case Malformed => failure := Some(MalformedMessage);
      case Unrelated =>
    }

    method DispatchMessage(m: Message) returns (retained: bool, failure: Option<Failure>)
      requires Valid() && connected
      modifies this
      ensures Valid() && connected
      ensures Effect(world, retained, failure) == Dispatched(old(world), m)
      ensures (retained <==> m == ClipboardRequest(Delivered)) && failure != Some(MissingInboundToken)
      ensures keptCredits == old(keptCredits) && inboundTokens == old(inboundTokens) && generation == old(generation)
    {
      hide Sound, Dispatched;
      DispatchedSound(world, m);
      DispatchedFields(world, m);
      ghost var e := Dispatched(world, m);
      retained, failure := Apply(m);
      world := e.world;
    }

    /** Messages in order, up to the first failure. */
    method DispatchAll(messages: seq<Message>) returns (retained: bool, failure: Option<Failure>)
      requires Valid() && connected
      modifies this
      ensures Valid() && connected
      ensures Effect(world, retained, failure) == DispatchedAll(old(world), messages)
      ensures failure.None? ==> (retained <==> ClipboardRequest(Delivered) in messages)
      ensures failure != Some(MissingInboundToken)
      ensures keptCredits == old(keptCredits) && inboundTokens == old(inboundTokens) && generation == old(generation)
    {
      hide Sound, Dispatched;
      ghost var goal := DispatchedAll(world, messages);
      retained, failure := false, None;
      var i := 0;
      while i < |messages|
        invariant 0 <= i <= |messages|
        invariant Valid() && connected && failure.None?
        invariant retained <==> ClipboardRequest(Delivered) in messages[..i]
        invariant keptCredits == old(keptCredits) && inboundTokens == old(inboundTokens)
        invariant generation == old(generation)
        invariant
          var rest := DispatchedAll(world, messages[i..]);
          goal == rest.(retained := retained || rest.retained)
      {
        assert messages[i..][1..] == messages[i + 1..] && messages[..i + 1] == messages[..i] + [messages[i]];
        var kept;
        kept, failure := DispatchMessage(messages[i]);
        retained := retained || kept;
        if failure.Some? {
          return;
        }
        i := i + 1;
      }
      assert messages[..i] == messages;
    }

    /** One inbound fragment and the messages it completes; its credit lives while they are dispatched,
        and longer if an event keeps it. A fragment that does not decode gets no credit. */
    method HandleFragment(messages: Option<seq<Message>>) returns (failure: Option<Failure>)
      requires Valid()
      modifies this, creditReturns
      ensures Step(world, failure) == Fragmented(old(world), messages)
      ensures failure != Some(MalformedFragment) ==> Valid()
      ensures failure == Some(MissingInboundToken) <==> !old(connected) || old(inboundTokens) == 0
      ensures failure != Some(MissingInboundToken) ==> inboundTokens == old(inboundTokens) - 1
      ensures failure.None? ==>
        && messages.Some?
        && var kept := ClipboardRequest(Delivered) in messages.value;
           && keptCredits == old(keptCredits) + (if kept then multiset{generation} else multiset{})
           && creditReturns.pending == old(creditReturns.pending) + if kept then 0 else 1
    {
      hide Sound, DispatchedAll, OwnFault, SomeMessageFails, SuccessesOk;
      FragmentedSound(world, messages);
      if !connected || inboundTokens == 0 {
        return Some(MissingInboundToken);
      }
      inboundTokens := inboundTokens - 1;
      if messages.None? {
        world := world.(account := A.Lose(world.account));
        return Some(MalformedFragment);
      }
      failure := DispatchWithCredit(messages.value);
    }

    /** The messages of a fragment whose token has been spent. */
    method DispatchWithCredit(messages: seq<Message>) returns (failure: Option<Failure>)
      requires Sound(world) && A.CanReceive(world.account) && OutboxGlued() && TableGlued()
      requires connected && world.account.connected && inboundTokens == world.account.tokens - 1
      requires world.account.generation == generation == creditReturns.generation
      requires world.account.pending == creditReturns.pending && world.account.live == keptCredits
      modifies this, creditReturns
      ensures Valid() && Step(world, failure) == Fragmented(old(world), Some(messages))
      ensures inboundTokens == old(inboundTokens) && failure != Some(MissingInboundToken)
      ensures failure.None? ==>
        var kept := ClipboardRequest(Delivered) in messages;
        && keptCredits == old(keptCredits) + (if kept then multiset{generation} else multiset{})
        && creditReturns.pending == old(creditReturns.pending) + if kept then 0 else 1
    {
      hide Sound, DispatchedAll, A.Conserved;
      ghost var before := world;
      ReceivedSound(world);
      keptCredits := keptCredits + multiset{generation};
      world := world.(account := A.Receive(world.account, true));
      var retained;
      retained, failure := DispatchAll(messages);
      DispatchIgnoresAccount(before, A.Receive(before.account, true), messages);
      KeptThenDropped(before.account);
      if !retained {
        DropCredit(generation);
      }
    }

    /** The host lets go of a credit it kept. */
    method DropCredit(creditGeneration: nat)
      requires Valid() && creditGeneration in keptCredits
      modifies creditReturns, this`world, this`keptCredits
      ensures Valid() && world == old(world).(account := A.Drop(old(world).account, creditGeneration))
      ensures keptCredits == old(keptCredits) - multiset{creditGeneration}
      ensures creditReturns.pending == old(creditReturns.pending) + if creditGeneration == generation then 1 else 0
    {
      hide Sound;
      DroppedSound(world, creditGeneration);
      world := world.(account := A.Drop(world.account, creditGeneration));
      keptCredits := keptCredits - multiset{creditGeneration};
      creditReturns.ReturnNow(creditGeneration);
    }

    /** Announces the returned credits; the window check cannot fail. */
    method SendReturnedCredits() returns (failure: Option<Failure>, announced: nat)
      requires Valid() && connected
      modifies this, creditReturns
      ensures Valid() && failure.None? && Returned(old(world)) == Step(world, None)
      ensures announced == old(creditReturns.pending) == old(world).account.pending
      ensures inboundTokens == old(inboundTokens) + announced && creditReturns.pending == 0
    {
      hide Sound;
      ReturnedSound(world);
      world := Returned(world).world;
      announced := creditReturns.Take(generation);
      failure := None;
      if announced == 0 {
        return;
      }
      if inboundTokens + announced > A.AGENT_RECEIVE_WINDOW {
        return Some(WindowExceeded), announced;
      }
      inboundTokens := inboundTokens + announced;
    }

    predicate CanSend()
      reads this
    {
      connected && outboundTokens != 0 && outbound.Some?
    }

    predicate CanAcceptCommand()
      reads this
    {
      ready && outbound.None? && !announcePending && !maxClipboardPending
    }

    method SendOne() returns (failure: Option<Failure>)
      requires Valid() && CanSend()
      modifies this
      ensures Valid() && failure.None? && SentOne(old(world)) == Step(world, None)
      ensures outboundTokens == old(outboundTokens) - 1
      ensures outbound == if old(outbound).value.left > 1
                          then Some(O.Message(old(outbound).value.left - 1, old(outbound).value.cargo)) else None
      ensures outboundCompletion == if old(outbound).value.left > 1 then old(outboundCompletion) else None
    {
      hide Sound, O.SendOne;
      SentSound(world);
      SentFields(world.outbox);
      ghost var w := SentOne(world).world;
      var message := outbound.value;
      if outboundTokens == 0 {
        return Some(Internal(O.TokenUnderflow));
      }
      outboundTokens := outboundTokens - 1;
      if message.left > 1 {
        outbound := Some(message.(left := message.left - 1));
      } else {
        outbound := None;
        outboundCompletion := None;
      }
      failure := None;
      world := w;
    }

    /** Puts a message into the slot: the payload must be encoded, the slot free, the length allowed. */
    method Queue(draft: O.Draft, cargo: O.Cargo) returns (failure: Option<Failure>)
      modifies this`outbound
      ensures failure.None? <==> old(outbound).None? && O.Sendable(draft)
      ensures failure.None? <==> old(outbound).None? && draft.Encoded? && draft.payload <= 0x100_0000
      ensures failure.Some? ==> outbound == old(outbound)
      ensures failure.Some? ==>
        failure.value
        == if old(outbound).Some? && draft.Encoded? then Internal(O.OverlappingMessages) else InvalidPayload
      ensures failure.None? ==> outbound == Some(O.Message(O.FragmentsOf(draft.payload), cargo))
    {
      if draft.Unencodable? {
        return Some(InvalidPayload);
      }
      if outbound.Some? {
        return Some(Internal(O.OverlappingMessages));
      }
      if draft.payload > O.MAX_AGENT_MESSAGE_BYTES {
        return Some(InvalidPayload);
      }
      outbound := Some(O.Message(O.FragmentsOf(draft.payload), cargo));
      return None;
    }

    /** What the main loop queues by itself at the top of every turn. */
    method PrepareInternal(draft: Option<O.Draft>) returns (failure: Option<Failure>)
      requires Valid()
      modifies this
      ensures Valid() && Step(world, failure) == PreparedBy(old(world), draft)
      ensures !old(connected) || old(outbound).Some? ==> failure.None? && outbound == old(outbound)
      ensures old(connected) && old(outbound).None? ==>
        var due := old(announcePending) || old(maxClipboardPending);
        && !announcePending
        && maxClipboardPending == (old(announcePending) && old(maxClipboardPending))
        && (due ==> failure.None? && outbound.Some? && outbound.value.left == 1)
        && (!due && (!ready || draft.None?) ==> failure.None? && outbound.None?)
        && (!due && ready && draft.Some? ==> (outbound.Some? <==> failure.None?))
    {
      hide Sound, O.Prepare, O.FragmentsOf;
      PreparedSound(world, draft);
      if O.Prepare(world.outbox, draft).Ok? {
        PreparedFields(world.outbox, draft);
      }
      ghost var w := PreparedBy(world, draft).world;
      failure := None;
      if connected && outbound.None? {
        if announcePending {
          announcePending := false;
          failure := Queue(O.Encoded(O.ANNOUNCE_PAYLOAD), O.Other);
        } else if maxClipboardPending {
          maxClipboardPending := false;
          failure := Queue(O.Encoded(O.MAX_CLIPBOARD_PAYLOAD), O.Other);
        } else if ready && draft.Some? {
          failure := Queue(draft.value, O.Other);
        }
      }
      world := w;
    }

    method StartTransfer(total: nat, disabled: bool, encodable: bool) returns (reply: Reply)
      requires TableGlued() && |transfers| <= MAX_ACTIVE_FILE_TRANSFERS
      modifies this`transfers, this`nextTransferId
      ensures var r := Start(world.table, total, disabled, encodable);
        reply == r.0 && transfers == r.1.active && nextTransferId == r.1.nextId
      ensures reply == Refused(ResourceLimit) <==> !disabled && |old(transfers)| == 8
    {
      if disabled {
        return Refused(Unsupported);
      }
      if |transfers| >= MAX_ACTIVE_FILE_TRANSFERS {
        return Refused(ResourceLimit);
      }
      var id, next := AllocateTransferId(transfers, nextTransferId);
      hide Allocated;
      nextTransferId := next;
      if !encodable {
        return Refused(InvalidData);
      }
      transfers := transfers[id.value := Transfer(generation, total, 0, WaitingForGuest)];
      return Started(id.value);
    }

    method AddFileData(id: nat, bytes: nat) returns (reply: Reply)
      requires TableGlued()
      modifies this`transfers
      ensures var r := Data(world.table, id, bytes);
        reply == r.0 && transfers == r.1.active && world.table.nextId == r.1.nextId
    {
      if id !in transfers {
        return Refused(InvalidData);
      }
      var transfer := transfers[id];
      if transfer.generation != generation || transfer.phase != Sending {
        return Refused(InvalidData);
      }
      if (bytes == 0 && transfer.total != 0) || (bytes != 0 && transfer.total == 0) {
        return Refused(InvalidData);
      }
      var accepted := transfer.accepted + bytes;
      if accepted > transfer.total || bytes > MAX_AGENT_FILE_CHUNK_BYTES {
        return Refused(ResourceLimit);
      }
      transfer := transfer.(accepted := accepted);
      if accepted == transfer.total {
        transfer := transfer.(phase := AwaitingCompletion);
      }
      transfers := transfers[id := transfer];
      return Queued;
    }

    /** A command of the current generation, on the fields it touches. */
    method Execute(request: Request) returns (failure: Option<Failure>, reply: Option<Reply>)
      requires TableGlued() && TableOk(world.table) && outbound.None?
      modifies this`transfers, this`nextTransferId, this`outbound, this`outboundCompletion
      ensures
        var spec := Accepted(world.table, request, true);
        && reply == spec.2 && transfers == spec.1.active && nextTransferId == spec.1.nextId
        && (failure.Some? <==> O.UnfitCommand(spec.0)) && (failure.Some? ==> failure.value == InvalidPayload)
        && outbound == (if failure.None? then MessageOf(spec.0) else None)
        && outboundCompletion == (if spec.0.Tracked? then Some(spec.0.id) else old(outboundCompletion))
      ensures request.FileData? && reply == Some(Queued) ==>
        && request.bytes <= 0x1_0000 && outboundCompletion == Some(request.completion)
        && outbound == Some(O.Message(O.FragmentsOf(request.bytes + 12), O.FileBytes(request.id, request.bytes)))
      ensures request.CancelFile? && reply == Some(Cancelled) ==>
        outbound == Some(O.Message(1, O.FileCancel(request.id))) && outboundCompletion == Some(request.completion)
      ensures request.StartFile? && reply.value.Started? ==>
        outbound == Some(O.Message(1, O.FileStart(reply.value.id)))
      ensures request.Simple? && request.draft.None? ==> outbound.None?
    {
      hide TableOk, Start, Data, O.FragmentsOf;
      TableSize(world.table);
      failure, reply := None, None;
      match request
      case Simple(draft) =>
        if draft.Some? {
          failure := Queue(draft.value, O.Other);
        }
      case StartFile(total, disabled, start) =>
        StartTable(world.table, total, disabled, start.Some?);
        var answer := StartTransfer(total, disabled, start.Some?);
        reply := Some(answer);
        if answer.Started? {
          failure := Queue(O.Encoded(start.value), O.FileStart(answer.id));
        }
      case FileData(completion, id, bytes) =>
        DataTable(world.table, id, bytes);
        var answer := AddFileData(id, bytes);
        reply := Some(answer);
        if answer.Queued? {
          failure := Queue(O.Encoded(DATA_HEADER_BYTES + bytes), O.FileBytes(id, bytes));
          outboundCompletion := Some(completion);
        }
      case CancelFile(completion, id) =>
        reply := Some(Refused(InvalidData));
        if id in transfers {
          transfers := transfers - {id};
          failure := Queue(O.Encoded(STATUS_BYTES), O.FileCancel(id));
          outboundCompletion := Some(completion);
          reply := Some(Cancelled);
        }
    }

    /** A host command. */
    method AcceptCommand(commandGeneration: nat, request: Request)
        returns (failure: Option<Failure>, reply: Option<Reply>)
      requires Valid() && CanAcceptCommand()
      modifies this
      ensures Valid() && Step(world, failure) == Commanded(old(world), commandGeneration, request)
      ensures reply == Accepted(old(world).table, request, commandGeneration == old(generation)).2
    {
      hide Sound, Commanded, Accepted, TableOk, MessageOf, CommandFails, O.UnfitCommand;
      SoundTable(world);
      CommandedSound(world, commandGeneration, request);
      CommandedFields(world, commandGeneration, request);
      ghost var s := Commanded(world, commandGeneration, request);
      failure, reply := None, None;
      if commandGeneration == generation && ready {
        failure, reply := Execute(request);
      } else {
        StaleIsRefused(world.table, request);
      }
      world := s.world;
    }
  }

  // ---------------------------------------------------------------------------
  // The main loop
  // ---------------------------------------------------------------------------

  /** One branch of the loop; one whose guard is closed does nothing. */
  method React(agent: AgentRuntime, stimulus: Stimulus) returns (failure: Option<Failure>)
    requires agent.Valid()
    modifies agent, agent.creditReturns
    ensures Step(agent.world, failure) == Reacted(old(agent.world), stimulus)
    ensures failure != Some(MalformedFragment) ==> agent.Valid()
  {
    hide Sound, Begun, Severed, Reinitialized, O.Grant, Fragmented, SentOne, Commanded, Returned, A.Drop, Accepted;
    failure := None;
    match stimulus
    case PeerConnected(tokens) => agent.BeginGeneration(tokens);
    case PeerDisconnected => agent.Disconnect();
    case Migrated(connected, tokens) => agent.ReinitializeAfterMigration(connected, tokens);
    case TokensGranted(tokens) => agent.HandleToken(tokens);
    case Fragment(messages) => failure := agent.HandleFragment(messages);
    case SocketFree =>
      if agent.CanSend() {
        failure := agent.SendOne();
      }
    case HostCommand(generation, request) =>
      if agent.CanAcceptCommand() {
        var reply;
        failure, reply := agent.AcceptCommand(generation, request);
      }
    case CreditReturned =>
      if agent.connected {
        var announced;
        failure, announced := agent.SendReturnedCredits();
      }
    case HostDroppedCredit(generation) =>
      if generation in agent.keptCredits {
        agent.DropCredit(generation);
      }
  }

  /** What a turn meets, in order. */
  method ReactAll(agent: AgentRuntime, stimuli: seq<Stimulus>) returns (failure: Option<Failure>)
    requires agent.Valid()
    modifies agent, agent.creditReturns
    ensures Step(agent.world, failure) == ReactedAll(old(agent.world), stimuli)
    ensures failure != Some(MalformedFragment) ==> agent.Valid()
  {
    hide Sound, Reacted;
    ghost var goal := ReactedAll(agent.world, stimuli);
    failure := None;
    var i := 0;
    while i < |stimuli|
      invariant 0 <= i <= |stimuli| && agent.Valid() && failure.None?
      invariant goal == ReactedAll(agent.world, stimuli[i..])
    {
      assert stimuli[i..][1..] == stimuli[i + 1..];
      SoundFacts(agent.world);
      failure := React(agent, stimuli[i]);
      if failure.Some? {
        return;
      }
      i := i + 1;
    }
  }

  /** One turn: prepare, then react. */
  method TakeTurn(agent: AgentRuntime, turn: Turn) returns (failure: Option<Failure>)
    requires agent.Valid()
    modifies agent, agent.creditReturns
    ensures Step(agent.world, failure) == Turned(old(agent.world), turn)
    ensures failure != Some(MalformedFragment) ==> agent.Valid()
    ensures failure.Some? <==> Fails(old(agent.world), turn)
    ensures failure.Some? ==> !OwnFault(failure.value)
  {
    hide Sound, PreparedBy, ReactedAll, Fails, OwnFault, SuccessesOk;
    TurnFailsIff(agent.world, turn);
    failure := agent.PrepareInternal(turn.draft);
    if failure.Some? {
      return;
    }
    failure := ReactAll(agent, turn.stimuli);
  }

  /** The loop over any list of turns. It ends early exactly at the first turn that fails, never by a fault
      of the runtime, and every success it publishes is one of a file whose bytes were all put into messages. */
  method MainLoop(agent: AgentRuntime, turns: seq<Turn>) returns (failure: Option<Failure>, served: nat)
    requires agent.Valid()
    modifies agent, agent.creditReturns
    ensures Outcome(agent.world, failure, served) == Loop(old(agent.world), turns)
    ensures failure.None? ==> served == |turns|
    ensures failure.Some? ==>
      && served < |turns| && !OwnFault(failure.value)
      && Fails(Loop(old(agent.world), turns[..served]).world, turns[served])
    ensures failure != Some(MalformedFragment) ==> agent.Valid()
    ensures SuccessesOk(agent.world.successes)
  {
    hide Sound, Turned, Fails, OwnFault, SuccessesOk;
    LoopSound(agent.world, turns);
    LoopFailsAt(agent.world, turns);
    ghost var goal := Loop(agent.world, turns);
    served := 0;
    failure := None;
    while served < |turns|
      invariant served <= |turns| && agent.Valid() && failure.None?
      invariant
        var rest := Loop(agent.world, turns[served..]);
        goal == rest.(served := served + rest.served)
    {
      assert turns[served..][1..] == turns[served + 1..];
      failure := TakeTurn(agent, turns[served]);
      if failure.Some? {
        return;
      }
      served := served + 1;
    }
  }
}
