/** Generations of prepared migration targets.

  A preparation takes a new generation and hands its replacements out under that
  number; a failure, a cancel or a later preparation moves the number on, which
  is all it takes to invalidate what was handed out before.
*/
module Migration {

  /** `issued` and `revoked` record history: the generations handed out, and those of them that a
      failure, a cancel or a later preparation has invalidated. */
  datatype Ledger = Ledger(active: nat, issued: set<nat>, revoked: set<nat>)

  const UNUSED := Ledger(0, {}, {})

  function Prepared(l: Ledger): Ledger {
    Ledger(l.active + 1, l.issued + {l.active + 1}, l.revoked + l.issued)
  }

  function Invalidated(l: Ledger): Ledger {
    Ledger(l.active + 1, l.issued, l.revoked + l.issued)
  }

  /** Only the latest preparation can still be current. */
  ghost predicate Orderly(l: Ledger) {
    && l.revoked <= l.issued
    && (forall g :: g in l.issued ==> g <= l.active)
    && (forall g :: g in l.issued ==> (g in l.revoked <==> g < l.active))
  }

  lemma StepsKeepOrder(l: Ledger)
    requires Orderly(l)
    ensures Orderly(Prepared(l)) && Orderly(Invalidated(l))
  {
  }

  datatype Step = Prepare | Invalidate

  function After(l: Ledger, steps: seq<Step>): Ledger
    decreases |steps|
  {
    if steps == [] then l
    else After(if steps[0].Prepare? then Prepared(l) else Invalidated(l), steps[1..])
  }

  /** Over every run the number only grows, and a generation once invalidated is never current again. */
  lemma {:induction false} RevokedForGood(l: Ledger, steps: seq<Step>, g: nat)
    requires Orderly(l) && g in l.revoked
    ensures Orderly(After(l, steps)) && g in After(l, steps).revoked && g < After(l, steps).active
    ensures l.active <= After(l, steps).active
    decreases |steps|
  {
    if steps != [] {
      StepsKeepOrder(l);
      RevokedForGood(if steps[0].Prepare? then Prepared(l) else Invalidated(l), steps[1..], g);
    }
  }

  /** The shared counter, as the manager and the channels use it. */
  class MigrationManager {
    var active: nat
    ghost var ledger: Ledger

    ghost predicate Valid()
      reads this
    {
      Orderly(ledger) && ledger.active == active
    }

    constructor ()
      ensures Valid() && ledger == UNUSED
    {
      active := 0;
      ledger := UNUSED;
    }

    /** Takes the generation under which a preparation or a host switch sends replacements. */
    method Begin() returns (generation: nat)
      requires Valid()
      modifies this
      ensures Valid() && ledger == Prepared(old(ledger)) && generation == active
    {
      StepsKeepOrder(ledger);
      active := active + 1;
      ledger := Prepared(ledger);
      return active;
    }

    /** A failed preparation, or a cancel. */
    method Invalidate()
      requires Valid()
      modifies this
      ensures Valid() && ledger == Invalidated(old(ledger))
    {
      StepsKeepOrder(ledger);
      active := active + 1;
      ledger := Invalidated(ledger);
    }
  }
}
