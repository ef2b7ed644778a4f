/** Inbound flow control of the Agent tunnel.

  The client grants the server ten fragment tokens per Agent generation. Each
  fragment turns one token into a credit, which the host may hold on to; a
  dropped credit becomes a pending return and, when announced to the server, a
  token again. Credits of an older generation return nothing.
*/
module AgentCredits {

  const AGENT_RECEIVE_WINDOW := 10

  /** The shared counter that dropped credits return to. */
  class AgentCreditReturns {
    var generation: nat
    var pending: nat

    constructor ()
      ensures generation == 0 && pending == 0
    {
      generation := 0;
      pending := 0;
    }

    /** Changes generation and discards the returns of the prior one. */
    method Reset(generation: nat)
      modifies this
      ensures this.generation == generation && pending == 0
    {
      this.generation := generation;
      pending := 0;
    }

    /** Returns one credit, unless its generation is over. */
    method ReturnNow(generation: nat)
      modifies this
      ensures this.generation == old(this.generation)
      ensures pending == old(pending) + if generation == this.generation then 1 else 0
    {
      if this.generation == generation {
        pending := pending + 1;
      }
    }

    /** Takes everything returned for the generation. */
    method Take(generation: nat) returns (returned: nat)
      modifies this
      ensures this.generation == old(this.generation)
      ensures returned == if generation == this.generation then old(pending) else 0
      ensures pending == old(pending) - returned
    {
      if this.generation != generation {
        return 0;
      }
      returned := pending;
      pending := 0;
    }
  }

  // ---------------------------------------------------------------------------
  // The client's account
  // ---------------------------------------------------------------------------

  /** `live` holds the generation of every credit some host object still keeps. */
  datatype Account = Account(
    generation: nat,
    connected: bool,
    tokens: nat,
    pending: nat,
    live: multiset<nat>)

  const CLOSED := Account(0, false, 0, 0, multiset{})

  function Begin(a: Account): Account {
    a.(generation := a.generation + 1, connected := true, tokens := AGENT_RECEIVE_WINDOW, pending := 0)
  }

  function Disconnect(a: Account): Account {
    a.(connected := false, tokens := 0)
  }

  predicate CanReceive(a: Account) {
    a.connected && a.tokens > 0
  }

  /** A fragment spends a token; its credit is kept by an event, or dropped at once. */
  function Receive(a: Account, retained: bool): Account
    requires CanReceive(a)
  {
    if retained then a.(tokens := a.tokens - 1, live := a.live + multiset{a.generation})
    else a.(tokens := a.tokens - 1, pending := a.pending + 1)
  }

  /** A fragment that cannot be decoded spends a token before any credit exists. */
  function Lose(a: Account): Account
    requires CanReceive(a)
  {
    a.(tokens := a.tokens - 1)
  }

  /** The host lets go of a credit. */
  function Drop(a: Account, generation: nat): Account
    requires generation in a.live
  {
    a.(live := a.live - multiset{generation},
       pending := a.pending + if generation == a.generation then 1 else 0)
  }

  /** Announcing the pending returns to the server. */
  function Announce(a: Account): Account {
    a.(tokens := a.tokens + a.pending, pending := 0)
  }

  /** Tokens, pending returns and live credits of this generation make up the window. */
  ghost predicate Conserved(a: Account) {
    && (a.connected ==> a.tokens + a.pending + a.live[a.generation] == AGENT_RECEIVE_WINDOW)
    && (!a.connected ==> a.tokens == 0 && a.pending + a.live[a.generation] <= AGENT_RECEIVE_WINDOW)
    && (forall g :: g in a.live ==> g <= a.generation)
  }

  datatype Event =
    | Begun
    | Disconnected
    | Received(retained: bool)
    | Dropped(generation: nat)
    | Announced

  predicate Enabled(a: Account, e: Event) {
    match e
    case Received(_) => CanReceive(a)
    case Dropped(g) => g in a.live
    case Announced => a.connected
    case _ => true
  }

  function Next(a: Account, e: Event): Account
    requires Enabled(a, e)
  {
    match e
    case Begun => Begin(a)
    case Disconnected => Disconnect(a)
    case Received(retained) => Receive(a, retained)
    case Dropped(g) => Drop(a, g)
    case Announced => Announce(a)
  }

  ghost predicate IsRun(a: Account, events: seq<Event>)
    decreases |events|
  {
    events == [] || (Enabled(a, events[0]) && IsRun(Next(a, events[0]), events[1..]))
  }

  ghost function After(a: Account, events: seq<Event>): Account
    requires IsRun(a, events)
    decreases |events|
  {
    if events == [] then a else After(Next(a, events[0]), events[1..])
  }

  lemma NextConserves(a: Account, e: Event)
    requires Conserved(a) && Enabled(a, e)
    ensures Conserved(Next(a, e))
  {
  }

  /** Conservation over every run, whatever the host does with its credits; so the announced
      tokens never exceed the window and no counter can overflow. */
  lemma {:induction false} RunConserves(a: Account, events: seq<Event>)
    requires Conserved(a) && IsRun(a, events)
    ensures var b := After(a, events);
      Conserved(b) && b.tokens + b.pending <= AGENT_RECEIVE_WINDOW && Announce(b).tokens <= AGENT_RECEIVE_WINDOW
    decreases |events|
  {
    if events != [] {
      NextConserves(a, events[0]);
      RunConserves(Next(a, events[0]), events[1..]);
    }
  }
}
