/** Agent flow control with the server and both wires.

  Grants carry no mark of the connection they were made for: the client sends a
  start with its window for every connect it reads, and plain token counts after
  that. A server that counts the starts it has heard can tell which connection a
  grant belongs to. A server that takes what it reads cannot, whether it adds up
  all counts or begins anew with every start, and for it a reconnect is safe
  exactly when no older grant can still come in.
*/
module AgentWire {
  import opened AgentCredits

  datatype FromServer = AgentConnected | AgentDisconnected | AgentData(retained: bool)

  datatype FromClient = Start(tokens: nat) | More(tokens: nat)

  /** How a server takes the grants it reads while an Agent is attached: those heard after as many starts
      as it made connections; or all of them, added up; or all of them, where a start replaces what it had. */
  datatype Reading = Counting | Adding | Setting

  /** A server that takes every grant it reads. */
  predicate Trusting(reading: Reading) {
    !reading.Counting?
  }

  datatype System = System(
    account: Account,
    toClient: seq<FromServer>,
    toServer: seq<FromClient>,
    connections: nat,
    starts: nat,
    attached: bool,
    serverTokens: nat)

  const START := System(CLOSED, [], [], 0, 0, false, 0)

  datatype Action =
    | ServerConnects
    | ServerDisconnects
    | ServerSends(retained: bool)
    | ServerReads
    | ClientReads
    | HostDrops(generation: nat)
    | ClientAnnounces

  predicate Possible(s: System, act: Action) {
    match act
    case ServerConnects => true
    case ServerDisconnects => s.attached
    case ServerSends(_) => s.attached && s.serverTokens > 0
    case ServerReads => s.toServer != []
    case ClientReads => s.toClient != []
    case HostDrops(g) => g in s.account.live
    case ClientAnnounces => s.account.connected && s.account.pending > 0
  }

  /** The client rejects data that no token covers. */
  predicate Rejects(s: System, act: Action)
    requires Possible(s, act)
  {
    act.ClientReads? && s.toClient[0].AgentData? && !CanReceive(s.account)
  }

  /** Starts heard once `m` has been read. */
  function Heard(starts: nat, m: FromClient): nat {
    if m.Start? then starts + 1 else starts
  }

  /** The server's tokens once it has read `m`. */
  function Taken(s: System, m: FromClient, reading: Reading): nat {
    if !s.attached then s.serverTokens
    else
      match reading
      case Counting => s.serverTokens + if Heard(s.starts, m) == s.connections then m.tokens else 0
      case Adding => s.serverTokens + m.tokens
      case Setting => if m.Start? then m.tokens else s.serverTokens + m.tokens
  }

  function Act(s: System, act: Action, reading: Reading): System
    requires Possible(s, act) && !Rejects(s, act)
  {
    match act
    case ServerConnects =>
      s.(toClient := s.toClient + [AgentConnected], connections := s.connections + 1, attached := true,
         serverTokens := 0)
    case ServerDisconnects =>
      s.(toClient := s.toClient + [AgentDisconnected], attached := false, serverTokens := 0)
    case ServerSends(retained) =>
      s.(toClient := s.toClient + [AgentData(retained)], serverTokens := s.serverTokens - 1)
    case ServerReads =>
      s.(toServer := s.toServer[1..],
         starts := Heard(s.starts, s.toServer[0]),
         serverTokens := Taken(s, s.toServer[0], reading))
    case ClientReads => Read(s)
    case HostDrops(g) => s.(account := Drop(s.account, g))
    case ClientAnnounces =>
      s.(account := Announce(s.account), toServer := s.toServer + [More(s.account.pending)])
  }

  function Read(s: System): System
    requires s.toClient != [] && !Rejects(s, ClientReads)
  {
    var s' := s.(toClient := s.toClient[1..]);
    match s.toClient[0]
    case AgentConnected =>
      s'.(account := Begin(s.account), toServer := s.toServer + [Start(AGENT_RECEIVE_WINDOW)])
    case AgentDisconnected => s'.(account := Disconnect(s.account))
    case AgentData(retained) => s'.(account := Receive(s.account, retained))
  }

  // ---------------------------------------------------------------------------
  // What is on the wires
  // ---------------------------------------------------------------------------

  /** What the client will hold once it has read `wire`, with nothing returned meanwhile;
      a negative holding means that some fragment on the wire is not covered. */
  ghost function Holding(wire: seq<FromServer>, connected: bool, tokens: int): (r: (bool, int)) {
    if wire == [] then (connected, tokens)
    else
      match wire[0]
      case AgentConnected => Holding(wire[1..], true, AGENT_RECEIVE_WINDOW)
      case AgentDisconnected => Holding(wire[1..], false, 0)
      case AgentData(_) => Holding(wire[1..], connected, if connected then tokens - 1 else -1)
  }

  /** Every fragment on the wire is covered by a token the client holds when it arrives. */
  ghost predicate Covered(wire: seq<FromServer>, connected: bool, tokens: int) {
    wire == []
    || match wire[0]
       case AgentConnected => Covered(wire[1..], true, AGENT_RECEIVE_WINDOW)
       case AgentDisconnected => Covered(wire[1..], false, 0)
       case AgentData(_) => connected && tokens > 0 && Covered(wire[1..], connected, tokens - 1)
  }

  function Connects(wire: seq<FromServer>): nat {
    if wire == [] then 0 else (if wire[0].AgentConnected? then 1 else 0) + Connects(wire[1..])
  }

  function Starts(wire: seq<FromClient>): nat {
    if wire == [] then 0 else Heard(0, wire[0]) + Starts(wire[1..])
  }

  /** Grants on their way that a counting server will take for a connection. */
  function Granted(wire: seq<FromClient>, starts: nat, connection: nat): nat {
    if wire == [] then 0
    else
      var heard := Heard(starts, wire[0]);
      (if heard == connection then wire[0].tokens else 0) + Granted(wire[1..], heard, connection)
  }

  /** Grants on their way, all together. */
  function Sum(wire: seq<FromClient>): nat {
    if wire == [] then 0 else wire[0].tokens + Sum(wire[1..])
  }

  ghost function Held(s: System): (bool, int) {
    Holding(s.toClient, s.account.connected, s.account.tokens)
  }

  /** The window a client will grant when it reads the latest connect. */
  function FirstGrant(s: System): nat {
    if s.account.generation < s.connections then AGENT_RECEIVE_WINDOW else 0
  }

  lemma {:induction false} HoldingSends(wire: seq<FromServer>, more: FromServer, connected: bool, tokens: int)
    ensures Holding(wire + [more], connected, tokens)
         == var h := Holding(wire, connected, tokens); Holding([more], h.0, h.1)
    ensures Connects(wire + [more]) == Connects(wire) + Connects([more])
    ensures var h := Holding(wire, connected, tokens);
      Covered(wire, connected, tokens) && (more.AgentData? ==> h.0 && h.1 > 0)
      ==> Covered(wire + [more], connected, tokens)
  {
    if wire == [] {
      assert wire + [more] == [more];
    } else {
      assert (wire + [more])[1..] == wire[1..] + [more];
      match wire[0]
      case AgentConnected => HoldingSends(wire[1..], more, true, AGENT_RECEIVE_WINDOW);
      case AgentDisconnected => HoldingSends(wire[1..], more, false, 0);
      case AgentData(_) => HoldingSends(wire[1..], more, connected, if connected then tokens - 1 else -1);
    }
  }

  lemma {:induction false} GrantedSends(wire: seq<FromClient>, more: FromClient, starts: nat, connection: nat)
    ensures Starts(wire + [more]) == Starts(wire) + Heard(0, more)
    ensures Sum(wire + [more]) == Sum(wire) + more.tokens
    ensures Granted(wire + [more], starts, connection)
         == Granted(wire, starts, connection)
            + if starts + Starts(wire) + Heard(0, more) == connection then more.tokens else 0
  {
    if wire == [] {
      assert wire + [more] == [more];
      assert Granted([more], starts, connection) == if Heard(starts, more) == connection then more.tokens else 0;
    } else {
      assert (wire + [more])[1..] == wire[1..] + [more];
      GrantedSends(wire[1..], more, Heard(starts, wire[0]), connection);
    }
  }

  /** No grant for a connection the client has not seen yet is on its way. */
  lemma {:induction false} NoGrantYet(wire: seq<FromClient>, starts: nat, connection: nat)
    requires starts + Starts(wire) < connection
    ensures Granted(wire, starts, connection) == 0
  {
    if wire != [] {
      NoGrantYet(wire[1..], Heard(starts, wire[0]), connection);
    }
  }

  /** More tokens in hand cover at least as much, and show at the end unless a connect intervenes. */
  lemma {:induction false} HoldingGrows(wire: seq<FromServer>, tokens: nat, more: nat)
    ensures Covered(wire, true, tokens) ==> Covered(wire, true, tokens + more)
    ensures Holding(wire, true, tokens + more).0 == Holding(wire, true, tokens).0
    ensures Connects(wire) > 0 ==> Holding(wire, true, tokens + more) == Holding(wire, true, tokens)
    ensures Covered(wire, true, tokens) && Connects(wire) == 0 && Holding(wire, true, tokens).0 ==>
      Holding(wire, true, tokens + more).1 == Holding(wire, true, tokens).1 + more
  {
    if wire != [] && wire[0].AgentData? && tokens > 0 {
      HoldingGrows(wire[1..], tokens - 1, more);
    } else if wire != [] && wire[0].AgentDisconnected? && Connects(wire) == 0 {
      StaysDisconnected(wire[1..], 0);
    } else if wire != [] && wire[0].AgentData? {
      DataHolds(wire[1..], -1, more as int - 1);
    }
  }

  lemma {:induction false} DataHolds(wire: seq<FromServer>, a: int, b: int)
    ensures Holding(wire, true, a).0 == Holding(wire, true, b).0
    ensures Connects(wire) > 0 ==> Holding(wire, true, a) == Holding(wire, true, b)
  {
    if wire != [] && wire[0].AgentData? {
      DataHolds(wire[1..], a - 1, b - 1);
    }
  }

  lemma {:induction false} StaysDisconnected(wire: seq<FromServer>, tokens: int)
    requires Connects(wire) == 0
    ensures !Holding(wire, false, tokens).0
  {
    if wire != [] {
      match wire[0]
      case AgentDisconnected => StaysDisconnected(wire[1..], 0);
      case AgentData(_) => StaysDisconnected(wire[1..], -1);
    }
  }

  // ---------------------------------------------------------------------------
  // A server that counts starts
  // ---------------------------------------------------------------------------

  /** What the server has, will be granted and has under way is what the client will hold for it. */
  ghost predicate Balanced(s: System) {
    && Conserved(s.account)
    && s.account.generation + Connects(s.toClient) == s.connections
    && s.starts + Starts(s.toServer) == s.account.generation
    && Covered(s.toClient, s.account.connected, s.account.tokens)
    && (s.attached <==> Held(s).0)
    && (s.attached ==>
          s.serverTokens + Granted(s.toServer, s.starts, s.connections) + FirstGrant(s) == Held(s).1)
  }

  lemma ConnectBalances(s: System)
    requires Balanced(s)
    ensures Balanced(Act(s, ServerConnects, Counting))
  {
    HoldingSends(s.toClient, AgentConnected, s.account.connected, s.account.tokens);
    NoGrantYet(s.toServer, s.starts, s.connections + 1);
  }

  lemma DisconnectBalances(s: System)
    requires Balanced(s) && s.attached
    ensures Balanced(Act(s, ServerDisconnects, Counting))
  {
    HoldingSends(s.toClient, AgentDisconnected, s.account.connected, s.account.tokens);
  }

  lemma SendBalances(s: System, retained: bool)
    requires Balanced(s) && Possible(s, ServerSends(retained))
    ensures Balanced(Act(s, ServerSends(retained), Counting))
  {
    HoldingSends(s.toClient, AgentData(retained), s.account.connected, s.account.tokens);
  }

  lemma ReadBalances(s: System)
    requires Balanced(s) && s.toClient != []
    ensures !Rejects(s, ClientReads) && Balanced(Act(s, ClientReads, Counting))
  {
    var a := s.account;
    match s.toClient[0]
    case AgentConnected =>
      NextConserves(a, Begun);
      GrantedSends(s.toServer, Start(AGENT_RECEIVE_WINDOW), s.starts, s.connections);
    case AgentDisconnected => NextConserves(a, Disconnected);
    case AgentData(retained) => NextConserves(a, Received(retained));
  }

  lemma AnnounceBalances(s: System)
    requires Balanced(s) && Possible(s, ClientAnnounces)
    ensures Balanced(Act(s, ClientAnnounces, Counting))
  {
    var a := s.account;
    NextConserves(a, Announced);
    GrantedSends(s.toServer, More(a.pending), s.starts, s.connections);
    HoldingGrows(s.toClient, a.tokens, a.pending);
  }

  /** Each action keeps the balance, and the client never rejects what a counting server sends. */
  lemma ActBalances(s: System, act: Action)
    requires Balanced(s) && Possible(s, act)
    ensures !Rejects(s, act) && Balanced(Act(s, act, Counting))
  {
    match act
    case ServerConnects => ConnectBalances(s);
    case ServerDisconnects => DisconnectBalances(s);
    case ServerSends(retained) => SendBalances(s, retained);
    case ClientReads => ReadBalances(s);
    case ClientAnnounces => AnnounceBalances(s);
    case HostDrops(g) => NextConserves(s.account, Dropped(g));
    case ServerReads =>
  }

  /** A list of actions each of which was possible when it was taken; a rejection ends it. */
  ghost predicate Played(s: System, acts: seq<Action>, reading: Reading)
    decreases |acts|
  {
    acts == []
    || (Possible(s, acts[0]) && (Rejects(s, acts[0]) || Played(Act(s, acts[0], reading), acts[1..], reading)))
  }

  ghost predicate NoneRejected(s: System, acts: seq<Action>, reading: Reading)
    requires Played(s, acts, reading)
    decreases |acts|
  {
    acts == [] || (!Rejects(s, acts[0]) && NoneRejected(Act(s, acts[0], reading), acts[1..], reading))
  }

  /** A server that spends only what it was granted, and knows by counting starts what that is, is
      never rejected, over every interleaving and whatever older grants are still on the wire. */
  lemma {:induction false} EveryRunAccepted(s: System, acts: seq<Action>)
    requires Balanced(s) && Played(s, acts, Counting)
    ensures NoneRejected(s, acts, Counting)
    decreases |acts|
  {
    if acts != [] {
      ActBalances(s, acts[0]);
      EveryRunAccepted(Act(s, acts[0], Counting), acts[1..]);
    }
  }

  lemma ClosedConserved()
    ensures Conserved(CLOSED)
  {
  }

  lemma EmptyWires(s: System)
    requires s.toClient == [] && s.toServer == []
    ensures Held(s) == (s.account.connected, s.account.tokens)
    ensures Covered(s.toClient, s.account.connected, s.account.tokens) && Connects(s.toClient) == 0
    ensures Starts(s.toServer) == Sum(s.toServer) == Granted(s.toServer, s.starts, s.connections) == 0
  {
  }

  /** Before the first connection both accounts balance and nothing is under way. */
  lemma StartBalanced()
    ensures Balanced(START) && TrustingBalanced(START) && Quiet(START)
  {
    ClosedConserved();
    DetachedBalanced(START);
  }

  lemma DetachedBalanced(s: System)
    requires s.toClient == [] && s.toServer == [] && !s.attached && Conserved(s.account) && !s.account.connected
    requires s.account.generation == s.connections == s.starts
    ensures Balanced(s) && TrustingBalanced(s) && Quiet(s)
  {
    EmptyWires(s);
    hide Conserved, Holding, Covered, Connects, Starts, Sum, Granted;
  }

  // ---------------------------------------------------------------------------
  // A server that takes whatever it reads
  // ---------------------------------------------------------------------------

  predicate NoData(wire: seq<FromServer>) {
    forall i :: 0 <= i < |wire| ==> !wire[i].AgentData?
  }

  /** No grant of an earlier connection is on its way, or can still come about: none on the wire, no
      connect that would cause one, and no spent token whose credit could be announced. */
  predicate Quiet(s: System) {
    && s.toServer == []
    && Connects(s.toClient) == 0
    && NoData(s.toClient)
    && (s.account.connected ==> s.account.tokens == AGENT_RECEIVE_WINDOW)
  }

  /** As `Balanced`, with every grant counted; a connect not yet read found everything quiet, so that a start
      finds the server without tokens and replacing is adding. */
  ghost predicate TrustingBalanced(s: System) {
    && Conserved(s.account)
    && s.account.generation + Connects(s.toClient) == s.connections
    && Covered(s.toClient, s.account.connected, s.account.tokens)
    && (s.attached <==> Held(s).0)
    && (s.attached ==> s.serverTokens + Sum(s.toServer) + FirstGrant(s) == Held(s).1)
    && Proper(s.toServer)
    && (forall i :: 0 <= i < |s.toServer| && s.toServer[i].Start? ==> i == 0 && s.serverTokens == 0)
    && (s.account.generation < s.connections ==> Awaited(s))
  }

  /** No grant is empty, and a start grants the whole window. */
  ghost predicate Proper(wire: seq<FromClient>) {
    forall i :: 0 <= i < |wire| ==>
      wire[i].tokens > 0 && (wire[i].Start? ==> wire[i].tokens == AGENT_RECEIVE_WINDOW)
  }

  /** The one connect not yet read is all that is under way. */
  ghost predicate Awaited(s: System) {
    && Connects(s.toClient) == 1 && NoData(s.toClient) && s.toServer == [] && s.serverTokens == 0
    && (s.account.connected ==> s.account.tokens == AGENT_RECEIVE_WINDOW)
  }

  lemma QuietConnects(s: System)
    requires TrustingBalanced(s) && Quiet(s)
    ensures TrustingBalanced(Act(s, ServerConnects, Adding))
  {
    HoldingSends(s.toClient, AgentConnected, s.account.connected, s.account.tokens);
  }

  lemma AddingDisconnects(s: System)
    requires TrustingBalanced(s) && s.attached
    ensures TrustingBalanced(Act(s, ServerDisconnects, Adding))
  {
    HoldingSends(s.toClient, AgentDisconnected, s.account.connected, s.account.tokens);
  }

  lemma AddingSends(s: System, retained: bool)
    requires TrustingBalanced(s) && Possible(s, ServerSends(retained))
    ensures TrustingBalanced(Act(s, ServerSends(retained), Adding))
  {
    HoldingSends(s.toClient, AgentData(retained), s.account.connected, s.account.tokens);
  }

  lemma AddingReads(s: System)
    requires TrustingBalanced(s) && s.toClient != []
    ensures !Rejects(s, ClientReads) && TrustingBalanced(Act(s, ClientReads, Adding))
  {
    var a := s.account;
    match s.toClient[0]
    case AgentConnected =>
      NextConserves(a, Begun);
      GrantedSends(s.toServer, Start(AGENT_RECEIVE_WINDOW), 0, 0);
    case AgentDisconnected => NextConserves(a, Disconnected);
    case AgentData(retained) => NextConserves(a, Received(retained));
  }

  lemma AddingAnnounces(s: System)
    requires TrustingBalanced(s) && Possible(s, ClientAnnounces)
    ensures TrustingBalanced(Act(s, ClientAnnounces, Adding))
  {
    var a := s.account;
    NextConserves(a, Announced);
    GrantedSends(s.toServer, More(a.pending), 0, 0);
    HoldingGrows(s.toClient, a.tokens, a.pending);
  }

  lemma TrustingActs(s: System, act: Action, reading: Reading)
    requires TrustingBalanced(s) && Possible(s, act) && (act.ServerConnects? ==> Quiet(s)) && Trusting(reading)
    ensures !Rejects(s, act) && TrustingBalanced(Act(s, act, reading))
  {
    match act
    case ServerConnects => QuietConnects(s);
    case ServerDisconnects => AddingDisconnects(s);
    case ServerSends(retained) => AddingSends(s, retained);
    case ClientReads => AddingReads(s);
    case ClientAnnounces => AddingAnnounces(s);
    case HostDrops(g) => NextConserves(s.account, Dropped(g));
    case ServerReads =>
  }

  /** Every connect of the run finds everything quiet. */
  ghost predicate Patient(s: System, acts: seq<Action>, reading: Reading)
    requires Played(s, acts, reading)
    decreases |acts|
  {
    acts == []
    || ((acts[0].ServerConnects? ==> Quiet(s))
        && (Rejects(s, acts[0]) || Patient(Act(s, acts[0], reading), acts[1..], reading)))
  }

  /** A trusting server that reconnects only when quiet is never rejected. */
  lemma {:induction false} PatientRunAccepted(s: System, acts: seq<Action>, reading: Reading)
    requires TrustingBalanced(s) && Played(s, acts, reading) && Patient(s, acts, reading) && Trusting(reading)
    ensures NoneRejected(s, acts, reading)
    decreases |acts|
  {
    if acts != [] {
      TrustingActs(s, acts[0], reading);
      PatientRunAccepted(Act(s, acts[0], reading), acts[1..], reading);
    }
  }

  /** A run within one connection that ends in a rejection. */
  ghost predicate RejectedBy(s: System, acts: seq<Action>, reading: Reading)
    decreases |acts|
  {
    && acts != []
    && Possible(s, acts[0]) && !acts[0].ServerConnects? && !acts[0].ServerDisconnects?
    && (Rejects(s, acts[0]) || RejectedBy(Act(s, acts[0], reading), acts[1..], reading))
  }

  ghost predicate Rejectable(s: System, reading: Reading) {
    exists acts :: RejectedBy(s, acts, reading)
  }

  lemma RejectableNow(s: System, reading: Reading)
    requires s.toClient != [] && Rejects(s, ClientReads)
    ensures Rejectable(s, reading)
  {
    assert RejectedBy(s, [ClientReads], reading);
  }

  lemma RejectableLater(s: System, act: Action, reading: Reading)
    requires Possible(s, act) && !Rejects(s, act) && !act.ServerConnects? && !act.ServerDisconnects?
    requires Rejectable(Act(s, act, reading), reading)
    ensures Rejectable(s, reading)
  {
    var acts :| RejectedBy(Act(s, act, reading), acts, reading);
    assert ([act] + acts)[1..] == acts;
    assert RejectedBy(s, [act] + acts, reading);
  }

  lemma {:induction false} BalancedNotRejected(s: System, acts: seq<Action>, reading: Reading)
    requires TrustingBalanced(s) && Trusting(reading)
    ensures !RejectedBy(s, acts, reading)
    decreases |acts|
  {
    if acts != [] && Possible(s, acts[0]) && !acts[0].ServerConnects? {
      TrustingActs(s, acts[0], reading);
      BalancedNotRejected(Act(s, acts[0], reading), acts[1..], reading);
    }
  }

  /** With the wires empty and more tokens than the client holds, one fragment too many goes out. */
  lemma {:induction false} FloodRejected(s: System, reading: Reading)
    requires s.toClient == [] && s.toServer == [] && s.attached && s.account.connected
    requires s.serverTokens > s.account.tokens
    ensures Rejectable(s, reading)
    decreases s.account.tokens
  {
    var sent := Act(s, ServerSends(true), reading);
    if s.account.tokens == 0 {
      RejectableNow(sent, reading);
    } else {
      FloodRejected(Act(sent, ClientReads, reading), reading);
      RejectableLater(sent, ClientReads, reading);
    }
    RejectableLater(s, ServerSends(true), reading);
  }

  /** Tokens the server has or will be given exceed what the client will hold. */
  ghost predicate Excess(s: System) {
    && s.attached
    && Held(s).0
    && s.serverTokens + Sum(s.toServer) + AGENT_RECEIVE_WINDOW * Connects(s.toClient) > Held(s).1
  }

  lemma {:induction false} ExcessRejected(s: System)
    requires Excess(s)
    ensures Rejectable(s, Adding)
    decreases |s.toClient|, |s.toServer|
  {
    if s.toClient != [] {
      if Rejects(s, ClientReads) {
        RejectableNow(s, Adding);
      } else {
        GrantedSends(s.toServer, Start(AGENT_RECEIVE_WINDOW), 0, 0);
        ExcessRejected(Act(s, ClientReads, Adding));
        RejectableLater(s, ClientReads, Adding);
      }
    } else if s.toServer != [] {
      ExcessRejected(Act(s, ServerReads, Adding));
      RejectableLater(s, ServerReads, Adding);
    } else {
      FloodRejected(s, Adding);
    }
  }

  /** The latest window is still to come or has been taken whole, and the client has spent some of it. */
  ghost predicate Owing(s: System) {
    && s.attached
    && Held(s).0
    && Held(s).1 < AGENT_RECEIVE_WINDOW
    && Proper(s.toServer)
    && (Connects(s.toClient) > 0 || Starts(s.toServer) > 0 || s.serverTokens >= AGENT_RECEIVE_WINDOW)
  }

  /** Once both have read everything, the server has the whole window and the client has less. */
  lemma {:induction false} OwingRejected(s: System, reading: Reading)
    requires Owing(s) && Trusting(reading)
    ensures Rejectable(s, reading)
    decreases |s.toClient|, |s.toServer|
  {
    if s.toClient != [] {
      if Rejects(s, ClientReads) {
        RejectableNow(s, reading);
      } else {
        StartsSends(s.toServer, Start(AGENT_RECEIVE_WINDOW));
        OwingRejected(Act(s, ClientReads, reading), reading);
        RejectableLater(s, ClientReads, reading);
      }
    } else if s.toServer != [] {
      OwingRejected(Act(s, ServerReads, reading), reading);
      RejectableLater(s, ServerReads, reading);
    } else {
      FloodRejected(s, reading);
    }
  }

  lemma {:induction false} StartsSends(wire: seq<FromClient>, m: FromClient)
    ensures Starts(wire + [m]) == Starts(wire) + Heard(0, m)
  {
    if wire == [] {
      assert wire + [m] == [m];
    } else {
      assert (wire + [m])[1..] == wire[1..] + [m];
      StartsSends(wire[1..], m);
    }
  }

  /** A reconnected server with a connect that the client has not read. */
  ghost predicate Reconnected(s: System, unread: nat) {
    && s.attached && Proper(s.toServer)
    && Connects(s.toClient) >= unread && Held(s) == (true, AGENT_RECEIVE_WINDOW)
  }

  /** An old grant pays for a fragment of the new connection, and the whole window is still to come. */
  lemma OldGrantRejected(s: System, reading: Reading)
    requires Reconnected(s, 1) && s.toServer != [] && Trusting(reading)
    ensures Rejectable(s, reading)
  {
    var granted := Act(s, ServerReads, reading);
    HoldingSends(s.toClient, AgentData(true), s.account.connected, s.account.tokens);
    OwingRejected(Act(granted, ServerSends(true), reading), reading);
    RejectableLater(granted, ServerSends(true), reading);
    RejectableLater(s, ServerReads, reading);
  }

  /** An older connect makes the client send a start that the server takes for the new one. */
  lemma {:induction false} OldConnectRejected(s: System, reading: Reading)
    requires Reconnected(s, 2) && Trusting(reading)
    ensures Rejectable(s, reading)
    decreases |s.toClient|
  {
    if s.toServer != [] {
      OldGrantRejected(s, reading);
    } else if Rejects(s, ClientReads) {
      RejectableNow(s, reading);
    } else {
      var read := Act(s, ClientReads, reading);
      if s.toClient[0].AgentConnected? {
        OldGrantRejected(read, reading);
      } else {
        OldConnectRejected(read, reading);
      }
      RejectableLater(s, ClientReads, reading);
    }
  }

  lemma {:induction false} NoDataDetached(wire: seq<FromServer>, tokens: int)
    requires Covered(wire, false, tokens) && Connects(wire) == 0
    ensures NoData(wire)
  {
    if wire != [] {
      NoDataDetached(wire[1..], 0);
    }
  }

  /** A client still holding credits of the old connection announces them too late. */
  lemma OldCreditRejected(s: System, reading: Reading)
    requires Reconnected(s, 1) && Conserved(s.account) && s.account.connected && Trusting(reading)
    requires s.account.tokens < AGENT_RECEIVE_WINDOW
    ensures Rejectable(s, reading)
  {
    var a := s.account;
    if a.pending == 0 {
      var dropped := Act(s, HostDrops(a.generation), reading);
      NextConserves(a, Dropped(a.generation));
      AnnouncedRejected(dropped, reading);
      RejectableLater(s, HostDrops(a.generation), reading);
    } else {
      AnnouncedRejected(s, reading);
    }
  }

  lemma AnnouncedRejected(s: System, reading: Reading)
    requires Reconnected(s, 1) && s.account.connected && s.account.pending > 0 && Trusting(reading)
    ensures Rejectable(s, reading)
  {
    var announced := Act(s, ClientAnnounces, reading);
    DataHolds(s.toClient, s.account.tokens, announced.account.tokens);
    OldGrantRejected(announced, reading);
    RejectableLater(s, ClientAnnounces, reading);
  }

  /** A connect that is not quiet lets some run within the new connection be rejected. */
  lemma UnquietRejected(s: System, reading: Reading)
    requires TrustingBalanced(s) && !Quiet(s) && Trusting(reading)
    ensures Rejectable(Act(s, ServerConnects, reading), reading)
  {
    var s' := Act(s, ServerConnects, reading);
    var a := s.account;
    HoldingSends(s.toClient, AgentConnected, a.connected, a.tokens);
    if s.toServer != [] {
      OldGrantRejected(s', reading);
    } else if Connects(s.toClient) > 0 {
      OldConnectRejected(s', reading);
    } else if !NoData(s.toClient) {
      if s.toClient[0].AgentDisconnected? {
        NoDataDetached(s.toClient[1..], 0);
      }
      assert s.toClient[0].AgentData?;
      assert s'.toClient[0] == s.toClient[0];
      NextConserves(a, Received(s.toClient[0].retained));
      OldCreditRejected(Act(s', ClientReads, reading), reading);
      RejectableLater(s', ClientReads, reading);
    } else {
      OldCreditRejected(s', reading);
    }
  }

  /** For a trusting server, a connect is safe if and only if it is quiet. */
  lemma ReconnectSafeIffQuiet(s: System, reading: Reading)
    requires TrustingBalanced(s) && Trusting(reading)
    ensures Quiet(s) <==> !Rejectable(Act(s, ServerConnects, reading), reading)
  {
    if Quiet(s) {
      TrustingActs(s, ServerConnects, reading);
      forall acts
        ensures !RejectedBy(Act(s, ServerConnects, reading), acts, reading)
      {
        BalancedNotRejected(Act(s, ServerConnects, reading), acts, reading);
      }
    } else {
      UnquietRejected(s, reading);
    }
  }

  /** Connect, start, disconnect, connect again before the start was read: a trusting server takes the old
      window for the second connection and can be rejected. */
  lemma StaleStartRejected(s: System, reading: Reading)
    requires TrustingBalanced(s) && Quiet(s) && s.toClient == [] && Trusting(reading)
    ensures var s1 := Act(s, ServerConnects, reading);
      var s2 := Act(s1, ClientReads, reading);
      var s3 := Act(s2, ServerDisconnects, reading);
      !Quiet(s3) && Rejectable(Act(s3, ServerConnects, reading), reading)
  {
    hide TrustingBalanced, Conserved, Covered, Holding, Rejectable;
    TrustingActs(s, ServerConnects, reading);
    var s1 := Act(s, ServerConnects, reading);
    TrustingActs(s1, ClientReads, reading);
    var s2 := Act(s1, ClientReads, reading);
    TrustingActs(s2, ServerDisconnects, reading);
    UnquietRejected(Act(s2, ServerDisconnects, reading), reading);
  }
}
