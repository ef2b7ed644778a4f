/** Completion serials shared by the channels, and barriers over them. */
module Progress {
  import opened Basics

  datatype Identity = Identity(channelType: nat, channelId: nat)

  type Entries = map<Identity, nat>

  datatype Error = MissingIdentity | NonMonotonicSerial | SelfReferentialWait | UnknownChannel | Cancelled | Stalled

  /** No entry is lost or lowered. */
  ghost predicate Advanced(before: Entries, after: Entries) {
    forall id :: id in before ==> id in after && before[id] <= after[id]
  }

  predicate Repeated(channels: seq<(Identity, nat)>) {
    exists i, j :: 0 <= i < j < |channels| && channels[i].0 == channels[j].0
  }

  /** The slots of a new registry: one for each channel with its serial so far, or none at all if some
      identity is listed twice. */
  method Slots(channels: seq<(Identity, nat)>) returns (entries: Option<Entries>)
    ensures entries.None? <==> Repeated(channels)
    ensures entries.Some? ==>
      && (forall i :: 0 <= i < |channels| ==>
            channels[i].0 in entries.value && entries.value[channels[i].0] == channels[i].1)
      && (forall id :: id in entries.value ==> exists i :: 0 <= i < |channels| && channels[i].0 == id)
  {
    var slots: Entries := map[];
    var n := 0;
    while n < |channels|
      invariant 0 <= n <= |channels|
      invariant forall i, j :: 0 <= i < j < n ==> channels[i].0 != channels[j].0
      invariant forall i :: 0 <= i < n ==> channels[i].0 in slots && slots[channels[i].0] == channels[i].1
      invariant forall id :: id in slots ==> exists i :: 0 <= i < n && channels[i].0 == id
    {
      if channels[n].0 in slots {
        return None;
      }
      slots := slots[channels[n].0 := channels[n].1];
      n := n + 1;
    }
    return Some(slots);
  }

  class ProgressRegistry {
    var entries: Entries

    constructor (entries: Entries)
      ensures this.entries == entries
    {
      this.entries := entries;
    }

    /** Publishes a completed serial; only a greater one is accepted. */
    method Complete(identity: Identity, serial: nat) returns (error: Option<Error>)
      modifies this
      ensures error.None? <==> identity in old(entries) && serial > old(entries)[identity]
      ensures error.None? ==> entries == old(entries)[identity := serial]
      ensures error.Some? ==> entries == old(entries)
      ensures error.Some? ==> error.value == if identity in entries then NonMonotonicSerial else MissingIdentity
      ensures Advanced(old(entries), entries)
    {
      if identity !in entries {
        return Some(MissingIdentity);
      }
      if serial <= entries[identity] {
        return Some(NonMonotonicSerial);
      }
      entries := entries[identity := serial];
      return None;
    }
  }

  /** What a waiting task sees of the others: their completions, and the cancel signal. */
  datatype Sight = Finished(identity: Identity, serial: nat) | CancelRaised

  datatype Wait = Wait(target: Identity, serial: nat)

  ghost predicate Reached(entries: Entries, w: Wait) {
    w.target in entries && entries[w.target] >= w.serial
  }

  predicate SelfReferential(requester: Identity, serial: nat, w: Wait) {
    w.target == requester && w.serial >= serial
  }

  lemma ReachedStays(before: Entries, after: Entries, waits: seq<Wait>)
    requires Advanced(before, after) && forall i :: 0 <= i < |waits| ==> Reached(before, waits[i])
    ensures forall i :: 0 <= i < |waits| ==> Reached(after, waits[i])
  {
  }

  lemma AdvancedTransitive(a: Entries, b: Entries, c: Entries)
    requires Advanced(a, b) && Advanced(b, c)
    ensures Advanced(a, c)
  {
  }

  /** The completions seen of other channels have been entered. */
  ghost predicate Noted(entries: Entries, requester: Identity, sights: seq<Sight>, from: nat, to: nat)
    requires from <= to <= |sights|
  {
    forall k :: from <= k < to && sights[k].Finished? && sights[k].identity != requester ==>
      (sights[k].identity in entries ==> sights[k].serial <= entries[sights[k].identity])
  }

  lemma NotedLater(before: Entries, after: Entries, requester: Identity, sights: seq<Sight>, mid: nat, to: nat)
    requires mid <= to <= |sights| && Advanced(before, after) && before.Keys == after.Keys
    requires Noted(before, requester, sights, 0, mid) && Noted(after, requester, sights, mid, to)
    ensures Noted(after, requester, sights, 0, to)
  {
  }

  /** Waits for one target while the others go on; `used` of the sights have been seen at the end. */
  method AwaitOne(registry: ProgressRegistry, requester: Identity, w: Wait, sights: seq<Sight>, start: nat)
    returns (error: Option<Error>, used: nat)
    requires w.target in registry.entries && start <= |sights|
    modifies registry
    ensures Advanced(old(registry.entries), registry.entries) && registry.entries.Keys == old(registry.entries.Keys)
    ensures requester in old(registry.entries) ==> registry.entries[requester] == old(registry.entries)[requester]
    ensures start <= used <= |sights|
    ensures error.None? ==> Reached(registry.entries, w)
    ensures error.Some? ==>
      || (error.value == Cancelled && start < used && sights[used - 1] == CancelRaised)
      || (error.value == Stalled && used == |sights| && !Reached(registry.entries, w))
    ensures forall k :: start <= k < used && sights[k] == CancelRaised ==> error == Some(Cancelled)
    ensures Noted(registry.entries, requester, sights, start, used)
  {
    used := start;
    while registry.entries[w.target] < w.serial
      invariant start <= used <= |sights|
      invariant Advanced(old(registry.entries), registry.entries)
      invariant registry.entries.Keys == old(registry.entries.Keys)
      invariant requester in old(registry.entries) ==> registry.entries[requester] == old(registry.entries)[requester]
      invariant forall k :: start <= k < used ==> sights[k] != CancelRaised
      invariant Noted(registry.entries, requester, sights, start, used)
      decreases |sights| - used
    {
      if used == |sights| {
        return Some(Stalled), used;
      }
      var sight := sights[used];
      used := used + 1;
      match sight
      case Finished(identity, serial) =>
        if identity != requester {
          ghost var before := registry.entries;
          var _ := registry.Complete(identity, serial);
          AdvancedTransitive(old(registry.entries), before, registry.entries);
        }
      case CancelRaised =>
        return Some(Cancelled), used;
    }
    return None, used;
  }

  /** The barrier: the targets are looked at one after another, while every other channel goes on
      completing, and yet at the end all of them have been reached at once. */
  method WaitFor(registry: ProgressRegistry, requester: Identity, requesterSerial: nat, waits: seq<Wait>,
                 sights: seq<Sight>) returns (error: Option<Error>, used: nat)
    modifies registry
    ensures Advanced(old(registry.entries), registry.entries) && registry.entries.Keys == old(registry.entries.Keys)
    ensures requester in old(registry.entries) ==> registry.entries[requester] == old(registry.entries)[requester]
    ensures used <= |sights|
    ensures error.None? ==>
      forall i :: 0 <= i < |waits| ==>
        Reached(registry.entries, waits[i]) && !SelfReferential(requester, requesterSerial, waits[i])
    ensures error == Some(SelfReferentialWait) ==>
      exists i :: 0 <= i < |waits| && SelfReferential(requester, requesterSerial, waits[i])
    ensures error == Some(UnknownChannel) ==> exists i :: 0 <= i < |waits| && waits[i].target !in registry.entries
    ensures error == Some(Stalled) ==>
      && used == |sights|
      && exists i :: 0 <= i < |waits| && waits[i].target in registry.entries && !Reached(registry.entries, waits[i])
    ensures error == Some(Cancelled) <==> exists k :: 0 <= k < used && sights[k] == CancelRaised
    ensures error.Some? ==> error.value in {SelfReferentialWait, UnknownChannel, Stalled, Cancelled}
    ensures Noted(registry.entries, requester, sights, 0, used)
  {
    used := 0;
    var i := 0;
    while i < |waits|
      invariant 0 <= i <= |waits| && used <= |sights|
      invariant Advanced(old(registry.entries), registry.entries)
      invariant registry.entries.Keys == old(registry.entries.Keys)
      invariant requester in old(registry.entries) ==> registry.entries[requester] == old(registry.entries)[requester]
      invariant forall j :: 0 <= j < i ==>
        Reached(registry.entries, waits[j]) && !SelfReferential(requester, requesterSerial, waits[j])
      invariant forall k :: 0 <= k < used ==> sights[k] != CancelRaised
      invariant Noted(registry.entries, requester, sights, 0, used)
    {
      var w := waits[i];
      if w.target == requester && w.serial >= requesterSerial {
        return Some(SelfReferentialWait), used;
      }
      if w.target !in registry.entries {
        return Some(UnknownChannel), used;
      }
      ghost var before, seen := registry.entries, used;
      error, used := AwaitOne(registry, requester, w, sights, used);
      NotedLater(before, registry.entries, requester, sights, seen, used);
      AdvancedTransitive(old(registry.entries), before, registry.entries);
      if error.Some? {
        return;
      }
      ReachedStays(before, registry.entries, waits[..i]);
      forall j | 0 <= j < i
        ensures Reached(registry.entries, waits[j])
      {
        assert Reached(registry.entries, waits[..i][j]);
      }
      i := i + 1;
    }
    return None, used;
  }

  /** The check for self-referential waits is meant to leave only waits that can end. It does so
      exactly when the requester's serials have no gap: a wait for its own skipped serial passes the
      check and can never be reached, because the requester completes nothing while it waits. */
  lemma SelfCheckSufficesWithoutGap(entries: Entries, requester: Identity, requesterSerial: nat)
    requires requester in entries
    ensures (forall w: Wait :: w.target == requester && !SelfReferential(requester, requesterSerial, w)
               ==> Reached(entries, w))
       <==> requesterSerial <= entries[requester] + 1
  {
    if requesterSerial > entries[requester] + 1 {
      var skipped := Wait(requester, entries[requester] + 1);
      assert !SelfReferential(requester, requesterSerial, skipped) && !Reached(entries, skipped);
    }
  }

  /** A requester whose serials jump from 5 to 10 passes the check with a wait for its own 7. */
  lemma SkippedSerialPassesCheck()
    ensures var me := Identity(1, 0);
      var w := Wait(me, 7);
      !SelfReferential(me, 10, w) && !Reached(map[me := 5], w)
  {
  }
}
