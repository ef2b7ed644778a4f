/** File transfers to the guest: phases, byte accounting and identifiers. */
module AgentTransfers {
  import opened Basics

  const MAX_ACTIVE_FILE_TRANSFERS := 8
  const MAX_ID := 0xffff_ffff

  datatype Phase = WaitingForGuest | Sending | AwaitingCompletion

  datatype Transfer = Transfer(generation: nat, total: nat, accepted: nat, phase: Phase)

  /** `started` and `ended` count transfers; no step looks at them. */
  datatype Table = Table(generation: nat, active: map<nat, Transfer>, nextId: nat, started: nat, ended: nat)

  const EMPTY := Table(0, map[], 1, 0, 0)

  // ---------------------------------------------------------------------------
  // Identifiers
  // ---------------------------------------------------------------------------

  /** The identifier after `id`, wrapping past zero. */
  function Successor(id: nat): nat
    requires 1 <= id <= MAX_ID
  {
    if id == MAX_ID then 1 else id + 1
  }

  /** The `k`-th candidate from `first` on. */
  function Candidate(first: nat, k: nat): nat {
    if first + k <= MAX_ID then first + k else first + k - MAX_ID
  }

  /** More distinct candidates than taken identifiers: one of them is free. */
  lemma {:induction false} SomeCandidateIsFree(taken: set<nat>, first: nat, n: nat)
    requires 1 <= first <= MAX_ID && |taken| < n <= MAX_ID
    ensures exists k: nat :: k < n && Candidate(first, k) !in taken
  {
    if forall k: nat :: k < n ==> Candidate(first, k) in taken {
      CandidatesAreMany(first, n);
      var candidates := set k | 0 <= k < n :: Candidate(first, k);
      assert candidates <= taken;
      SubsetSize(candidates, taken);
    }
  }

  lemma {:induction false} CandidatesAreMany(first: nat, n: nat)
    requires 1 <= first <= MAX_ID && n <= MAX_ID
    ensures |set k | 0 <= k < n :: Candidate(first, k)| == n
  {
    var candidates := set k | 0 <= k < n :: Candidate(first, k);
    if n == 0 {
      assert candidates == {};
    } else {
      var before := set k | 0 <= k < n - 1 :: Candidate(first, k);
      CandidatesAreMany(first, n - 1);
      assert Candidate(first, n - 1) !in before;
      assert candidates == before + {Candidate(first, n - 1)};
    }
  }

  /** The allocation loop: always a free, nonzero identifier among the first nine. */
  method AllocateTransferId(active: map<nat, Transfer>, nextId: nat) returns (r: Option<nat>, next: nat)
    requires 1 <= nextId <= MAX_ID
    ensures |active| <= MAX_ACTIVE_FILE_TRANSFERS ==> r.Some?
    ensures r == Allocated(active, nextId, MAX_ACTIVE_FILE_TRANSFERS + 1)
    ensures r.Some? ==> next == Successor(r.value) && r.value !in active && 1 <= r.value <= MAX_ID
    ensures r.Some? ==> next == if r.value == 0xffff_ffff then 1 else r.value + 1
    ensures 1 <= next <= MAX_ID
  {
    next := nextId;
    var tries: nat := 0;
    while tries <= MAX_ACTIVE_FILE_TRANSFERS
      invariant tries <= MAX_ACTIVE_FILE_TRANSFERS + 1
      invariant 1 <= next <= MAX_ID && next == Candidate(nextId, tries)
      invariant Allocated(active, nextId, MAX_ACTIVE_FILE_TRANSFERS + 1)
             == Allocated(active, next, MAX_ACTIVE_FILE_TRANSFERS + 1 - tries)
      invariant forall k :: 0 <= k < tries ==> Candidate(nextId, k) in active
    {
      var candidate := next;
      next := Successor(candidate);
      if candidate !in active {
        return Some(candidate), next;
      }
      tries := tries + 1;
    }
    if |active| <= MAX_ACTIVE_FILE_TRANSFERS {
      SomeCandidateIsFree(active.Keys, nextId, tries);
    }
    return None, next;
  }

  /** The first free identifier within `tries` candidates. */
  function Allocated(active: map<nat, Transfer>, id: nat, tries: nat): (r: Option<nat>)
    requires 1 <= id <= MAX_ID
    ensures r.Some? ==> r.value !in active && 1 <= r.value <= MAX_ID
    decreases tries
  {
    if tries == 0 then None
    else if id !in active then Some(id)
    else Allocated(active, Successor(id), tries - 1)
  }

  lemma {:induction false} AllocatedFinds(active: map<nat, Transfer>, id: nat, tries: nat, k: nat)
    requires 1 <= id <= MAX_ID && k < tries <= MAX_ID && Candidate(id, k) !in active
    ensures Allocated(active, id, tries).Some?
    decreases k
  {
    if id in active {
      assert k > 0;
      assert Candidate(Successor(id), k - 1) == Candidate(id, k);
      AllocatedFinds(active, Successor(id), tries - 1, k - 1);
    }
  }

  // ---------------------------------------------------------------------------
  // Operations
  // ---------------------------------------------------------------------------

  datatype SendError = Unsupported | ResourceLimit | InvalidData

  datatype Reply = Started(id: nat) | Queued | Cancelled | Refused(error: SendError) | OutOfIdentifiers

  /** `encodable` says whether the request fits its wire form. */
  function Start(t: Table, total: nat, disabled: bool, encodable: bool): (Reply, Table)
    requires 1 <= t.nextId <= MAX_ID
  {
    if disabled then (Refused(Unsupported), t)
    else if |t.active| >= MAX_ACTIVE_FILE_TRANSFERS then (Refused(ResourceLimit), t)
    else
      var id := Allocated(t.active, t.nextId, MAX_ACTIVE_FILE_TRANSFERS + 1);
      if id.None? then (OutOfIdentifiers, t)
      else
        var t' := t.(nextId := Successor(id.value));
        if !encodable then (Refused(InvalidData), t')
        else (Started(id.value), Insert(t', id.value, total))
  }

  function Insert(t: Table, id: nat, total: nat): Table {
    t.(active := t.active[id := Transfer(t.generation, total, 0, WaitingForGuest)], started := t.started + 1)
  }

  const MAX_AGENT_FILE_CHUNK_BYTES := 64 * 1024

  function Data(t: Table, id: nat, bytes: nat): (Reply, Table) {
    if id !in t.active then (Refused(InvalidData), t)
    else
      var transfer := t.active[id];
      var accepted := transfer.accepted + bytes;
      if transfer.generation != t.generation || transfer.phase != Sending then (Refused(InvalidData), t)
      else if (bytes == 0) != (transfer.total == 0) then (Refused(InvalidData), t)
      else if accepted > transfer.total || bytes > MAX_AGENT_FILE_CHUNK_BYTES then (Refused(ResourceLimit), t)
      else
        var phase := if accepted == transfer.total then AwaitingCompletion else Sending;
        (Queued, t.(active := t.active[id := transfer.(accepted := accepted, phase := phase)]))
  }

  function Remove(t: Table, id: nat): Table
    requires id in t.active
  {
    t.(active := t.active - {id}, ended := t.ended + 1)
  }

  function Cancel(t: Table, id: nat): (Reply, Table) {
    if id !in t.active then (Refused(InvalidData), t) else (Cancelled, Remove(t, id))
  }

  datatype Status = CanSendData | Succeeded | GuestCancelled | Failed

  datatype Verdict = Handled(table: Table) | DuplicateAcceptance | EarlySuccess

  /** A status report from the guest. */
  function Report(t: Table, id: nat, status: Status): Verdict {
    if id !in t.active || t.active[id].generation != t.generation then Handled(t)
    else
      var transfer := t.active[id];
      match status
      case CanSendData =>
        if transfer.phase != WaitingForGuest then DuplicateAcceptance
        else Handled(t.(active := t.active[id := transfer.(phase := Sending)]))
      case Succeeded =>
        if transfer.phase != AwaitingCompletion || transfer.accepted != transfer.total then EarlySuccess
        else Handled(Remove(t, id))
      case GuestCancelled => Handled(Remove(t, id))
      case Failed => Handled(Remove(t, id))
  }

  /** A reset fails every transfer. */
  function Reset(t: Table, generation: nat): Table {
    t.(generation := generation, active := map[], ended := t.ended + |t.active|)
  }

  // ---------------------------------------------------------------------------
  // The phase invariant
  // ---------------------------------------------------------------------------

  predicate PhaseOk(t: Transfer) {
    match t.phase
    case WaitingForGuest => t.accepted == 0
    case Sending => t.accepted < t.total || (t.total == 0 && t.accepted == 0)
    case AwaitingCompletion => t.accepted == t.total
  }

  ghost predicate TransferOk(t: Table, id: nat)
    requires id in t.active
  {
    && 1 <= id <= MAX_ID
    && t.active[id].generation == t.generation
    && PhaseOk(t.active[id])
    && t.active[id].accepted <= t.active[id].total
  }

  ghost predicate TableOk(t: Table) {
    && |t.active| <= MAX_ACTIVE_FILE_TRANSFERS
    && 1 <= t.nextId <= MAX_ID
    && (forall id :: id in t.active ==> TransferOk(t, id))
    && t.started == |t.active| + t.ended
  }

  datatype Event =
    | StartFile(total: nat, disabled: bool, encodable: bool)
    | FileData(id: nat, bytes: nat)
    | CancelFile(id: nat)
    | Reported(id: nat, status: Status)
    | Renewed(generation: nat)

  function Next(t: Table, e: Event): Verdict
    requires 1 <= t.nextId <= MAX_ID
  {
    match e
    case StartFile(total, disabled, encodable) => Handled(Start(t, total, disabled, encodable).1)
    case FileData(id, bytes) => Handled(Data(t, id, bytes).1)
    case CancelFile(id) => Handled(Cancel(t, id).1)
    case Reported(id, status) => Report(t, id, status)
    case Renewed(generation) => Handled(Reset(t, generation))
  }

  lemma InsertSize(active: map<nat, Transfer>, id: nat, t: Transfer)
    ensures |active[id := t]| == |active| + if id in active then 0 else 1
  {
    assert active[id := t].Keys == active.Keys + {id};
  }

  lemma RemoveSize(active: map<nat, Transfer>, id: nat)
    requires id in active
    ensures |active - {id}| == |active| - 1
  {
    assert (active - {id}).Keys == active.Keys - {id};
  }

  /** Replacing or adding one good entry keeps the others. */
  lemma EntryKept(t: Table, t': Table, id: nat)
    requires forall k :: k in t.active ==> TransferOk(t, k)
    requires id in t'.active && TransferOk(t', id)
    requires t'.active == t.active[id := t'.active[id]] && t'.generation == t.generation
    ensures forall k :: k in t'.active ==> TransferOk(t', k)
  {
    hide PhaseOk;
    forall k | k in t'.active
      ensures TransferOk(t', k)
    {
      if k != id {
        assert TransferOk(t, k);
      }
    }
  }

  lemma StartKeepsTable(t: Table, total: nat, disabled: bool, encodable: bool)
    requires TableOk(t)
    ensures TableOk(Start(t, total, disabled, encodable).1)
  {
    var id := Allocated(t.active, t.nextId, MAX_ACTIVE_FILE_TRANSFERS + 1);
    hide Allocated;
    var r := Start(t, total, disabled, encodable);
    if r.0.Started? {
      InsertSize(t.active, id.value, Transfer(t.generation, total, 0, WaitingForGuest));
      EntryKept(t, r.1, id.value);
    } else {
      assert r.1.active == t.active;
      assert forall k :: k in t.active ==> TransferOk(t, k) ==> TransferOk(r.1, k);
    }
  }

  lemma DataKeepsTable(t: Table, id: nat, bytes: nat)
    requires TableOk(t)
    ensures TableOk(Data(t, id, bytes).1)
  {
    var t' := Data(t, id, bytes).1;
    if t' != t {
      assert TransferOk(t, id);
      assert TransferOk(t', id);
      InsertSize(t.active, id, t'.active[id]);
      EntryKept(t, t', id);
    }
  }

  lemma RemoveKeepsTable(t: Table, id: nat)
    requires TableOk(t) && id in t.active
    ensures TableOk(Remove(t, id))
  {
    hide PhaseOk;
    RemoveSize(t.active, id);
    var t' := Remove(t, id);
    forall k | k in t'.active
      ensures TransferOk(t', k)
    {
      assert TransferOk(t, k);
    }
  }

  lemma AcceptanceKeepsTable(t: Table, id: nat)
    requires TableOk(t) && id in t.active && t.active[id].phase == WaitingForGuest
    ensures TableOk(t.(active := t.active[id := t.active[id].(phase := Sending)]))
  {
    assert TransferOk(t, id);
    var t' := t.(active := t.active[id := t.active[id].(phase := Sending)]);
    InsertSize(t.active, id, t'.active[id]);
    EntryKept(t, t', id);
  }

  lemma ReportKeepsTable(t: Table, id: nat, status: Status)
    requires TableOk(t)
    ensures Report(t, id, status).Handled? ==> TableOk(Report(t, id, status).table)
  {
    if id in t.active {
      assert TransferOk(t, id);
      hide TableOk, Remove;
      RemoveKeepsTable(t, id);
      if status == CanSendData && t.active[id].phase == WaitingForGuest {
        AcceptanceKeepsTable(t, id);
      }
    }
  }

  // ---------------------------------------------------------------------------
  // What each step does to the transfers
  // ---------------------------------------------------------------------------

  /** All transfers but one are as they were. */
  ghost predicate OthersKept(before: map<nat, Transfer>, after: map<nat, Transfer>, id: nat) {
    forall k :: k != id ==> (k in after <==> k in before) && (k in before ==> after[k] == before[k])
  }

  /** A handled report of success, cancel or failure ends exactly its transfer; an acceptance lets exactly
      its transfer send; a report for no transfer changes nothing. */
  lemma ReportDoes(t: Table, id: nat, status: Status)
    requires TableOk(t) && Report(t, id, status).Handled?
    ensures var t' := Report(t, id, status).table;
      && OthersKept(t.active, t'.active, id)
      && (id !in t.active ==> t' == t)
      && (id in t.active && status != CanSendData ==>
            id !in t'.active && |t'.active| == |t.active| - 1 && t'.ended == t.ended + 1)
      && (id in t.active && status == CanSendData ==>
            && id in t'.active && t'.active[id].phase == Sending && t'.ended == t.ended
            && t'.active[id].total == t.active[id].total && t'.active[id].accepted == t.active[id].accepted)
      && t'.generation == t.generation && t'.nextId == t.nextId && t'.started == t.started
  {
    if id in t.active {
      assert TransferOk(t, id);
      RemoveSize(t.active, id);
    }
  }

  /** A start adds one transfer that waits for the guest with nothing accepted, under an identifier that was
      free, or is refused for the first of three reasons. */
  lemma StartDoes(t: Table, total: nat, disabled: bool, encodable: bool)
    requires TableOk(t)
    ensures var (reply, t') := Start(t, total, disabled, encodable);
      && (reply == Refused(Unsupported) <==> disabled)
      && (reply == Refused(ResourceLimit) <==> !disabled && |t.active| == MAX_ACTIVE_FILE_TRANSFERS)
      && (reply == Refused(InvalidData) <==> !disabled && |t.active| < MAX_ACTIVE_FILE_TRANSFERS && !encodable)
      && (reply.Started? <==> !disabled && |t.active| < MAX_ACTIVE_FILE_TRANSFERS && encodable)
      && (!reply.Started? ==> t'.active == t.active)
      && (reply.Started? ==>
            && reply.id !in t.active && OthersKept(t.active, t'.active, reply.id)
            && reply.id in t'.active && t'.active[reply.id].total == total && t'.active[reply.id].accepted == 0
            && t'.active[reply.id].phase == WaitingForGuest && t'.active[reply.id].generation == t.generation)
  {
    assert 1 <= t.nextId <= MAX_ID;
    if |t.active| < MAX_ACTIVE_FILE_TRANSFERS {
      StartFindsId(t, total);
    }
    hide Allocated, TableOk;
  }

  /** Data is taken exactly while its transfer sends, in chunks within the limit and the size, empty only for
      an empty file; it is added to what was accepted, and the last of it makes the transfer await its end. */
  lemma DataDoes(t: Table, id: nat, bytes: nat)
    requires TableOk(t)
    ensures var (reply, t') := Data(t, id, bytes);
      && (reply.Queued? <==>
            && id in t.active && t.active[id].phase == Sending && bytes <= MAX_AGENT_FILE_CHUNK_BYTES
            && t.active[id].accepted + bytes <= t.active[id].total && (bytes == 0 <==> t.active[id].total == 0))
      && (!reply.Queued? ==> t' == t)
      && (reply.Queued? ==>
            && OthersKept(t.active, t'.active, id) && id in t'.active
            && t'.active[id].accepted == t.active[id].accepted + bytes
            && t'.active[id].total == t.active[id].total
            && (t'.active[id].phase == AwaitingCompletion <==> t'.active[id].accepted == t.active[id].total)
            && (t'.active[id].phase == Sending <==> t'.active[id].accepted != t.active[id].total))
  {
    if id in t.active {
      assert TransferOk(t, id);
    }
  }

  /** A cancel ends exactly its transfer, in whatever phase. */
  lemma CancelDoes(t: Table, id: nat)
    requires TableOk(t)
    ensures var (reply, t') := Cancel(t, id);
      && (reply.Cancelled? <==> id in t.active)
      && (!reply.Cancelled? ==> t' == t)
      && (reply.Cancelled? ==> OthersKept(t.active, t'.active, id) && id !in t'.active && t'.ended == t.ended + 1)
  {
  }

  /** Every step keeps the phases: bytes accepted never exceed the size, at most eight transfers are
      active and all of the current generation, and each started transfer is active or ended once. */
  lemma StepKeepsTable(t: Table, e: Event)
    requires TableOk(t)
    ensures Next(t, e).Handled? ==> TableOk(Next(t, e).table)
  {
    match e
    case StartFile(total, disabled, encodable) =>
      hide Start;
      StartKeepsTable(t, total, disabled, encodable);
    case FileData(id, bytes) =>
      hide Data;
      DataKeepsTable(t, id, bytes);
    case CancelFile(id) =>
      hide Remove;
      if id in t.active {
        RemoveKeepsTable(t, id);
      }
    case Reported(id, status) =>
      hide Report;
      ReportKeepsTable(t, id, status);
    case Renewed(_) =>
  }

  /** Within the limit, a start is never refused for want of an identifier, and the identifier is new. */
  lemma StartFindsId(t: Table, total: nat)
    requires TableOk(t) && |t.active| < MAX_ACTIVE_FILE_TRANSFERS
    ensures var r := Start(t, total, false, true);
      r.0.Started? && r.0.id !in t.active && 1 <= r.0.id <= MAX_ID && r.0.id in r.1.active
  {
    assert 1 <= t.nextId <= MAX_ID;
    hide TableOk;
    SomeCandidateIsFree(t.active.Keys, t.nextId, MAX_ACTIVE_FILE_TRANSFERS + 1);
    var k: nat :| k < MAX_ACTIVE_FILE_TRANSFERS + 1 && Candidate(t.nextId, k) !in t.active.Keys;
    AllocatedFinds(t.active, t.nextId, MAX_ACTIVE_FILE_TRANSFERS + 1, k);
  }

  /** A success report is accepted exactly for a transfer that awaits it, and then every byte was accepted. */
  lemma SuccessMeansComplete(t: Table, id: nat)
    requires TableOk(t) && id in t.active
    ensures Report(t, id, Succeeded).Handled? <==> t.active[id].phase == AwaitingCompletion
    ensures Report(t, id, Succeeded).Handled? ==> t.active[id].accepted == t.active[id].total
  {
  }

  function Run(t: Table, events: seq<Event>): Verdict
    requires 1 <= t.nextId <= MAX_ID
    decreases |events|
  {
    if events == [] then Handled(t)
    else
      var next := Next(t, events[0]);
      if !next.Handled? || !(1 <= next.table.nextId <= MAX_ID) then next else Run(next.table, events[1..])
  }

  lemma {:induction false} RunKeepsTable(t: Table, events: seq<Event>)
    requires TableOk(t)
    ensures Run(t, events).Handled? ==> TableOk(Run(t, events).table)
    decreases |events|
  {
    if events != [] {
      StepKeepsTable(t, events[0]);
      if Next(t, events[0]).Handled? {
        RunKeepsTable(Next(t, events[0]).table, events[1..]);
      }
    }
  }
}
