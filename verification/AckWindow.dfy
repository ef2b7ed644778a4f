/** The acknowledgement window every channel inherits, across transport swaps.

  A server installs a window and gets an acknowledgement for every so many
  envelopes. A window belongs to the transport it was installed on; the state
  notices a swap when the next message is handled.
*/
module AckWindow {

  /** Whole windows among `n` envelopes, and what is left over. */
  function Windows(n: nat, window: nat): (r: (nat, nat))
    requires window > 0
    ensures r.1 < window
  {
    if n < window then (0, n) else var w := Windows(n - window, window); (w.0 + 1, w.1)
  }

  /** One more envelope is left over, or completes a window. */
  lemma {:induction false} OneMore(n: nat, window: nat)
    requires window > 0
    ensures var (full, over) := Windows(n, window);
      Windows(n + 1, window) == if over + 1 == window then (full + 1, 0) else (full, over + 1)
  {
    if n >= window {
      OneMore(n - window, window);
    }
  }

  /** The window, the envelopes since the last acknowledgement and the activation count last seen. The
      fields from `installedAt` on record history: the activation the window was installed under, and the
      envelopes counted and acknowledgements sent since. */
  datatype Control = Control(
    generation: nat,
    window: nat,
    consumed: nat,
    activation: nat,
    installedAt: nat,
    counted: nat,
    acks: nat)

  /** No window, as after a swap. */
  function Unset(activation: nat): Control {
    Control(0, 0, 0, activation, activation, 0, 0)
  }

  ghost predicate ControlOk(c: Control) {
    if c.window == 0 then c.consumed == 0
    else (c.acks, c.consumed) == Windows(c.counted, c.window) && c.installedAt == c.activation
  }

  // ---------------------------------------------------------------------------
  // Steps
  // ---------------------------------------------------------------------------

  /** Before each message: a window of another transport is forgotten. */
  function Observed(c: Control, activation: nat): Control {
    if c.activation == activation then c else Unset(activation)
  }

  function Installed(c: Control, generation: nat, window: nat): Control {
    Control(generation, window, 0, c.activation, c.activation, 0, 0)
  }

  /** A state brought along by a host switch: a window installed on the new transport and some envelopes
      counted against it. */
  function Brought(generation: nat, window: nat, counted: nat, activation: nat): Control {
    if window == 0 then Unset(activation).(generation := generation)
    else
      var (acks, consumed) := Windows(counted, window);
      Control(generation, window, consumed, activation, activation, counted, acks)
  }

  /** After an envelope: whether an acknowledgement goes out. */
  function Acknowledged(c: Control): (bool, Control) {
    if c.window == 0 then (false, c)
    else if c.consumed + 1 >= c.window then (true, c.(consumed := 0, counted := c.counted + 1, acks := c.acks + 1))
    else (false, c.(consumed := c.consumed + 1, counted := c.counted + 1))
  }

  /** What handling one message amounts to here. Migration and host switch bring the state up to date with
      the new transport; the end of a migration that swaps does not. */
  datatype Effect =
    | Plain
    | Sets(generation: nat, window: nat)
    | Migrates
    | EndsMigration
    | SwitchesHost(generation: nat, window: nat, counted: nat)

  function Swaps(e: Effect): nat {
    if e.Migrates? || e.EndsMigration? || e.SwitchesHost? then 1 else 0
  }

  function Handled(c: Control, activation: nat, e: Effect): Control {
    var seen := Observed(c, activation);
    match e
    case Plain => seen
    case Sets(generation, window) => Installed(seen, generation, window)
    case Migrates => Unset(activation + 1)
    case EndsMigration => seen
    case SwitchesHost(generation, window, counted) => Brought(generation, window, counted, activation + 1)
  }

  /** State and activation count after the messages of an envelope. */
  function HandledAll(c: Control, activation: nat, effects: seq<Effect>): (Control, nat)
    decreases |effects|
  {
    if effects == [] then (c, activation)
    else HandledAll(Handled(c, activation, effects[0]), activation + Swaps(effects[0]), effects[1..])
  }

  lemma {:induction false} HandledAllNext(c: Control, activation: nat, effects: seq<Effect>, e: Effect)
    ensures var (c', activation') := HandledAll(c, activation, effects);
      HandledAll(c, activation, effects + [e]) == (Handled(c', activation', e), activation' + Swaps(e))
    decreases |effects|
  {
    hide Handled, Swaps;
    if effects == [] {
      assert effects + [e] == [e];
      var c', activation' := Handled(c, activation, e), activation + Swaps(e);
      assert HandledAll(c', activation', []) == (c', activation');
    } else {
      assert (effects + [e])[1..] == effects[1..] + [e];
      HandledAllNext(Handled(c, activation, effects[0]), activation + Swaps(effects[0]), effects[1..], e);
    }
  }

  // ---------------------------------------------------------------------------
  // Counting
  // ---------------------------------------------------------------------------

  lemma HandledOk(c: Control, activation: nat, e: Effect)
    requires ControlOk(c)
    ensures ControlOk(Handled(c, activation, e))
    ensures Handled(c, activation, e).activation == activation + Swaps(e)
      <==> !e.EndsMigration?
  {
  }

  /** An acknowledgement goes out on every window-th envelope and on no other. */
  lemma AcknowledgedCounts(c: Control)
    requires ControlOk(c)
    ensures var (ack, c') := Acknowledged(c);
      && ControlOk(c')
      && (c.window > 0 ==>
            && c'.counted == c.counted + 1
            && c'.acks == Windows(c'.counted, c.window).0
            && (ack <==> Windows(c'.counted, c.window).1 == 0))
      && (c.window == 0 ==> !ack)
  {
    if c.window > 0 {
      OneMore(c.counted, c.window);
    }
  }

  // ---------------------------------------------------------------------------
  // Acknowledgements and swaps
  // ---------------------------------------------------------------------------

  /** The envelope's acknowledgement goes out on another transport than its window was installed on. */
  ghost predicate Crosses(c: Control, activation: nat, effects: seq<Effect>) {
    var (c', activation') := HandledAll(c, activation, effects);
    Acknowledged(c').0 && c'.installedAt != activation'
  }

  lemma {:induction false} HandledAllOk(c: Control, activation: nat, effects: seq<Effect>)
    requires ControlOk(c)
    ensures var (c', activation') := HandledAll(c, activation, effects);
      && ControlOk(c')
      && (c'.activation == activation' <==>
            if effects == [] then c.activation == activation else !effects[|effects| - 1].EndsMigration?)
    decreases |effects|
  {
    hide ControlOk, Handled;
    if effects != [] {
      HandledOk(c, activation, effects[0]);
      HandledAllOk(Handled(c, activation, effects[0]), activation + Swaps(effects[0]), effects[1..]);
    }
  }

  /** An acknowledgement crosses a swap if and only if it is due and the envelope's last message was a
      migration end that swapped, or the envelope held no message and a swap had not been noticed yet. */
  lemma CrossesIff(c: Control, activation: nat, effects: seq<Effect>)
    requires ControlOk(c)
    ensures Crosses(c, activation, effects) <==>
      && Acknowledged(HandledAll(c, activation, effects).0).0
      && if effects == [] then c.activation != activation else effects[|effects| - 1].EndsMigration?
  {
    hide HandledAll, Handled;
    HandledAllOk(c, activation, effects);
  }

  /** A window of one envelope, and an envelope with nothing but a migration end that swaps. */
  lemma MigrationEndCrosses()
    ensures Crosses(Control(1, 1, 0, 0, 0, 0, 0), 0, [EndsMigration])
  {
  }

  // ---------------------------------------------------------------------------
  // The object
  // ---------------------------------------------------------------------------

  class ControlState {
    var generation: nat
    var window: nat
    var consumedSinceAck: nat
    var migrationActivationCount: nat
    ghost var installedAt: nat
    ghost var counted: nat
    ghost var acks: nat

    ghost function Value(): Control
      reads this
    {
      Control(generation, window, consumedSinceAck, migrationActivationCount, installedAt, counted, acks)
    }

    constructor ()
      ensures Value() == Unset(0)
    {
      generation, window, consumedSinceAck, migrationActivationCount := 0, 0, 0, 0;
      installedAt, counted, acks := 0, 0, 0;
    }

    method SetAck(generation: nat, window: nat)
      modifies this
      ensures Value() == Installed(old(Value()), generation, window)
      ensures this.generation == generation && this.window == window && consumedSinceAck == 0
    {
      this.generation, this.window, consumedSinceAck := generation, window, 0;
      installedAt, counted, acks := migrationActivationCount, 0, 0;
    }

    method Observe(activations: nat)
      modifies this
      ensures Value() == Observed(old(Value()), activations)
    {
      if migrationActivationCount != activations {
        Forget(activations);
      }
    }

    method Forget(activations: nat)
      modifies this
      ensures Value() == Unset(activations)
    {
      generation, window, consumedSinceAck := 0, 0, 0;
      migrationActivationCount := activations;
      installedAt, counted, acks := activations, 0, 0;
    }

    /** Takes over a state negotiated elsewhere. */
    method Adopt(state: Control)
      modifies this
      ensures Value() == state
    {
      generation, window, consumedSinceAck := state.generation, state.window, state.consumed;
      migrationActivationCount := state.activation;
      installedAt, counted, acks := state.installedAt, state.counted, state.acks;
    }

    /** Counts one envelope. */
    method AcknowledgeEnvelope() returns (ack: bool)
      requires ControlOk(Value())
      modifies this
      ensures (ack, Value()) == Acknowledged(old(Value())) && ControlOk(Value())
      ensures window == old(window) && (window > 0 ==> (ack <==> Windows(counted, window).1 == 0))
    {
      AcknowledgedCounts(Value());
      hide ControlOk;
      if window == 0 {
        return false;
      }
      consumedSinceAck := consumedSinceAck + 1;
      counted := counted + 1;
      ack := consumedSinceAck >= window;
      if ack {
        consumedSinceAck := 0;
        acks := acks + 1;
      }
    }
  }
}
