/** The session-wide GLZ dictionary.

  Display channels insert decoded images in racing order. The window advances a
  contiguous prefix of ids and evicts below the newest window head seen in that
  prefix. Its contents turn out to be a closed form of the set of images
  inserted, so insertion order does not matter.
*/
module GlzWindow {
  import opened Basics
  import opened GlzFormat

  const DICTIONARY_BYTES := 16 * 1024 * 1024

  /** A decoded image and the oldest id its header asks to retain. */
  datatype Entry = Entry(id: nat, pixels: seq<Pixel>, oldest: nat)

  predicate EntryOk(e: Entry) {
    e.oldest <= e.id
  }

  datatype Window = Window(
    images: map<nat, seq<Pixel>>,
    oldestByImage: map<nat, nat>,
    retainedBytes: nat,
    oldest: nat,
    next: nat,
    lastCleared: nat)

  datatype Verdict = Inserted | Duplicate | OverLimit

  const EMPTY := Window(map[], map[], 0, 0, 0, 0)

  // ---------------------------------------------------------------------------
  // Bytes held
  // ---------------------------------------------------------------------------

  function Size(pixels: seq<Pixel>): nat {
    4 * |pixels|
  }

  ghost function Bytes(images: map<nat, seq<Pixel>>): nat
    decreases |images|
  {
    if images == map[] then 0
    else
      var id :| id in images;
      assert |(images - {id}).Keys| == |images.Keys| - 1 by {
        assert (images - {id}).Keys == images.Keys - {id};
      }
      Size(images[id]) + Bytes(images - {id})
  }

  lemma RemoveShrinks(images: map<nat, seq<Pixel>>, id: nat)
    requires id in images
    ensures |images - {id}| < |images|
  {
    assert (images - {id}).Keys == images.Keys - {id};
  }

  /** The total does not depend on which image is counted first. */
  lemma {:induction false} BytesWithout(images: map<nat, seq<Pixel>>, id: nat)
    requires id in images
    ensures Bytes(images) == Size(images[id]) + Bytes(images - {id})
    decreases |images|
  {
    var first :| first in images && Bytes(images) == Size(images[first]) + Bytes(images - {first});
    if first != id {
      var rest := images - {first};
      RemoveShrinks(images, first);
      RemoveShrinks(images, id);
      BytesWithout(rest, id);
      BytesWithout(images - {id}, first);
      assert rest - {id} == images - {id} - {first};
    }
  }

  lemma BytesAdd(images: map<nat, seq<Pixel>>, id: nat, pixels: seq<Pixel>)
    requires id !in images
    ensures Bytes(images[id := pixels]) == Bytes(images) + 4 * |pixels|
  {
    BytesWithout(images[id := pixels], id);
    assert images[id := pixels] - {id} == images;
  }

  // ---------------------------------------------------------------------------
  // Insertion
  // ---------------------------------------------------------------------------

  datatype Progress = Progress(waiting: map<nat, nat>, next: nat, oldest: nat)

  /** Walks the contiguous prefix as far as it reaches. */
  function Advance(p: Progress): Progress
    decreases |p.waiting|
  {
    if p.next in p.waiting then
      assert |p.waiting - {p.next}| < |p.waiting| by {
        assert (p.waiting - {p.next}).Keys == p.waiting.Keys - {p.next};
      }
      Advance(Progress(p.waiting - {p.next}, p.next + 1, Max(p.oldest, p.waiting[p.next])))
    else p
  }

  function Evict(images: map<nat, seq<Pixel>>, oldest: nat): map<nat, seq<Pixel>> {
    map id | id in images && id >= oldest :: images[id]
  }

  lemma EvictKeeps(images: map<nat, seq<Pixel>>, oldest: nat)
    ensures Evict(images, oldest).Keys == (set id | id in images.Keys && id >= oldest)
    ensures forall id :: id in Evict(images, oldest) ==> Evict(images, oldest)[id] == images[id]
  {
  }

  /** An insertion; over the byte limit it is refused after the window has changed. */
  ghost function AfterInsert(w: Window, e: Entry): (r: (Verdict, Window)) {
    if e.id in w.images then (Duplicate, w)
    else
      var p := Advance(Progress(w.oldestByImage[e.id := e.oldest], w.next, w.oldest));
      var images := Evict(w.images[e.id := e.pixels], p.oldest);
      var w' := Window(images, p.waiting, Bytes(images), p.oldest, p.next, w.lastCleared);
      (if w'.retainedBytes > DICTIONARY_BYTES then OverLimit else Inserted, w')
  }

  /** A non-seamless migration empties the window, once per activation. */
  function AfterClear(w: Window, activation: nat): Window {
    if w.lastCleared >= activation then w
    else EMPTY.(lastCleared := activation)
  }

  /** However many channels report an activation, only the first report clears. */
  lemma ClearOnce(w: Window, activation: nat, w': Window)
    requires w'.lastCleared == AfterClear(w, activation).lastCleared
    ensures AfterClear(w', activation) == w'
  {
  }

  // ---------------------------------------------------------------------------
  // Closed form
  // ---------------------------------------------------------------------------

  type Log = map<nat, Entry>

  ghost predicate LogOk(log: Log) {
    forall id :: id in log ==> log[id].id == id && EntryOk(log[id])
  }

  /** The newest window head among the first `n` images. */
  ghost function NewestHead(log: Log, n: nat): (h: nat)
    requires forall i :: 0 <= i < n ==> i in log
  {
    if n == 0 then 0 else Max(NewestHead(log, n - 1), log[n - 1].oldest)
  }

  /** The window heads of the images at or after `next`. */
  ghost function HeadsFrom(log: Log, next: nat): map<nat, nat> {
    map id | id in log && id >= next :: log[id].oldest
  }

  /** The pixels of the images at or after `oldest`. */
  ghost function PixelsFrom(log: Log, oldest: nat): map<nat, seq<Pixel>> {
    map id | id in log && id >= oldest :: log[id].pixels
  }

  /** The window that holds exactly what the log of insertions implies. */
  ghost predicate Reflects(w: Window, log: Log) {
    && LogOk(log)
    && (forall i :: 0 <= i < w.next ==> i in log)
    && w.next !in log
    && w.oldest == NewestHead(log, w.next)
    && w.oldestByImage == HeadsFrom(log, w.next)
    && w.images == PixelsFrom(log, w.oldest)
    && w.retainedBytes == Bytes(w.images)
  }

  lemma {:induction false} NewestHeadExtends(log: Log, log': Log, n: nat)
    requires forall i :: 0 <= i < n ==> i in log && i in log' && log[i] == log'[i]
    ensures NewestHead(log, n) == NewestHead(log', n)
  {
    if n > 0 {
      NewestHeadExtends(log, log', n - 1);
    }
  }

  lemma {:induction false} NewestHeadBound(log: Log, n: nat, i: nat)
    requires LogOk(log) && forall k :: 0 <= k < n ==> k in log
    ensures NewestHead(log, n) <= n
    ensures i < n ==> log[i].oldest <= NewestHead(log, n)
  {
    if n > 0 {
      NewestHeadBound(log, n - 1, i);
      assert log[n - 1].id == n - 1 && EntryOk(log[n - 1]);
    }
  }

  /** Progress that agrees with the log. */
  ghost predicate Follows(p: Progress, log: Log) {
    && (forall i :: 0 <= i < p.next ==> i in log)
    && p.oldest == NewestHead(log, p.next)
    && p.waiting == HeadsFrom(log, p.next)
  }

  lemma {:induction false} AdvanceFollows(p: Progress, log: Log)
    requires LogOk(log) && Follows(p, log)
    ensures Follows(Advance(p), log) && Advance(p).next !in log && p.oldest <= Advance(p).oldest
    decreases |p.waiting|
  {
    if p.next in p.waiting {
      var waiting := p.waiting - {p.next};
      assert waiting.Keys == p.waiting.Keys - {p.next};
      var q := Progress(waiting, p.next + 1, Max(p.oldest, p.waiting[p.next]));
      assert q.waiting == HeadsFrom(log, q.next);
      AdvanceFollows(q, log);
    }
  }

  lemma WaitingExtends(log: Log, e: Entry, next: nat)
    requires e.id !in log && e.id >= next
    ensures HeadsFrom(log, next)[e.id := e.oldest] == HeadsFrom(log[e.id := e], next)
  {
  }

  lemma ImagesExtend(log: Log, e: Entry, oldest: nat, oldest': nat)
    requires e.id !in log && oldest <= oldest'
    ensures Evict(PixelsFrom(log, oldest)[e.id := e.pixels], oldest') == PixelsFrom(log[e.id := e], oldest')
  {
  }

  /** Inserting a new id keeps the window the closed form of its log. */
  lemma InsertReflects(w: Window, log: Log, e: Entry)
    requires Reflects(w, log) && EntryOk(e) && e.id !in log
    ensures AfterInsert(w, e).0 != Duplicate
    ensures Reflects(AfterInsert(w, e).1, log[e.id := e])
    ensures w.oldest <= AfterInsert(w, e).1.oldest
  {
    hide Bytes, Advance, NewestHead, Evict;
    var log' := log[e.id := e];
    var p := Progress(w.oldestByImage[e.id := e.oldest], w.next, w.oldest);
    NewestHeadExtends(log, log', w.next);
    WaitingExtends(log, e, w.next);
    AdvanceFollows(p, log');
    ImagesExtend(log, e, w.oldest, Advance(p).oldest);
  }

  /** The closed form leaves no choice: the log determines the window. */
  lemma ReflectsUnique(w: Window, v: Window, log: Log)
    requires Reflects(w, log) && Reflects(v, log)
    ensures w == v.(lastCleared := w.lastCleared)
  {
    hide Bytes, NewestHead;
    assert w.next == v.next;
  }

  /** Inserts a list in order, stopping at the first refusal. */
  ghost function InsertAll(w: Window, entries: seq<Entry>): (r: (Verdict, Window)) {
    if entries == [] then (Inserted, w)
    else
      var rest := InsertAll(w, entries[..|entries| - 1]);
      if rest.0 != Inserted then rest else AfterInsert(rest.1, entries[|entries| - 1])
  }

  /** The log of a list of entries with distinct ids. */
  ghost function LogOf(entries: seq<Entry>): Log {
    if entries == [] then map[]
    else
      var last := entries[|entries| - 1];
      LogOf(entries[..|entries| - 1])[last.id := last]
  }

  ghost predicate Distinct(entries: seq<Entry>) {
    && (forall i, j :: 0 <= i < j < |entries| ==> entries[i].id != entries[j].id)
    && (forall i :: 0 <= i < |entries| ==> EntryOk(entries[i]))
  }

  /** The log holds the entries of the list and no others. */
  lemma {:induction false} LogOfHolds(entries: seq<Entry>)
    requires Distinct(entries)
    ensures forall id :: id in LogOf(entries) ==> LogOf(entries)[id] in entries && LogOf(entries)[id].id == id
    ensures forall e :: e in entries ==> e.id in LogOf(entries) && LogOf(entries)[e.id] == e
  {
    if entries != [] {
      var before := entries[..|entries| - 1];
      LogOfHolds(before);
      assert entries == before + [entries[|entries| - 1]];
    }
  }

  lemma {:induction false} InsertAllReflects(entries: seq<Entry>)
    requires Distinct(entries) && InsertAll(EMPTY, entries).0 == Inserted
    ensures Reflects(InsertAll(EMPTY, entries).1, LogOf(entries))
  {
    hide AfterInsert, Reflects;
    if entries == [] {
      EmptyReflects();
    } else {
      var before, e := entries[..|entries| - 1], entries[|entries| - 1];
      InsertAllReflects(before);
      LogOfHolds(before);
      InsertReflects(InsertAll(EMPTY, before).1, LogOf(before), e);
    }
  }

  lemma EmptyReflects()
    ensures Reflects(EMPTY, map[])
  {
  }

  /** Any two successful orders of the same images leave the same window. */
  lemma Confluence(a: seq<Entry>, b: seq<Entry>)
    requires Distinct(a) && Distinct(b) && multiset(a) == multiset(b)
    requires InsertAll(EMPTY, a).0 == Inserted && InsertAll(EMPTY, b).0 == Inserted
    ensures InsertAll(EMPTY, a).1.(lastCleared := 0) == InsertAll(EMPTY, b).1.(lastCleared := 0)
  {
    hide InsertAll, Reflects, LogOf, Distinct;
    InsertAllReflects(a);
    InsertAllReflects(b);
    LogOfHolds(a);
    LogOfHolds(b);
    assert forall e :: e in a ==> e in multiset(a);
    assert forall e :: e in b ==> e in multiset(b);
    assert LogOf(a) == LogOf(b);
    ReflectsUnique(InsertAll(EMPTY, a).1, InsertAll(EMPTY, b).1, LogOf(a));
  }

  // ---------------------------------------------------------------------------
  // The shared object
  // ---------------------------------------------------------------------------

  /** The dictionary shared by every Display channel, one lock-protected operation at a time. */
  class SharedWindow {
    var images: map<nat, seq<Pixel>>
    var oldestByImage: map<nat, nat>
    var retainedBytes: nat
    var oldestImageId: nat
    var nextContiguousImageId: nat
    var lastClearedMigration: nat
    /** The generation that waiting channels watch. */
    var changed: nat

    ghost function Value(): Window
      reads this
    {
      Window(images, oldestByImage, retainedBytes, oldestImageId, nextContiguousImageId, lastClearedMigration)
    }

    ghost predicate Valid()
      reads this
    {
      retainedBytes == Bytes(images)
    }

    constructor ()
      ensures Valid() && Value() == EMPTY && changed == 0
    {
      images, oldestByImage := map[], map[];
      retainedBytes, oldestImageId, nextContiguousImageId, lastClearedMigration, changed := 0, 0, 0, 0, 0;
    }

    /** An image is found exactly when it was inserted and is not below the window, and it is the one inserted. */
    method Resolve(id: nat) returns (r: Option<seq<Pixel>>)
      ensures forall log: Log :: Reflects(Value(), log) ==>
        r == if id in log && oldestImageId <= id then Some(log[id].pixels) else None
    {
      hide Bytes, NewestHead;
      r := if id in images then Some(images[id]) else None;
    }

    method Insert(e: Entry) returns (verdict: Verdict)
      requires Valid()
      modifies this
      ensures Valid() && (verdict, Value()) == AfterInsert(old(Value()), e)
      ensures changed == old(changed) + if verdict == Inserted then 1 else 0
      ensures verdict == Duplicate <==> e.id in old(images)
      ensures verdict == Duplicate ==> Value() == old(Value())
      ensures verdict != Duplicate ==>
        && (verdict == OverLimit <==> retainedBytes > 16_777_216)
        && images.Keys == (set id | id in old(images).Keys + {e.id} && id >= oldestImageId)
        && (forall id :: id in images ==> images[id] == if id == e.id then e.pixels else old(images)[id])
        && lastClearedMigration == old(lastClearedMigration)
    {
      hide Bytes, Advance, Evict;
      if e.id in images {
        return Duplicate;
      }
      BytesAdd(images, e.id, e.pixels);
      retainedBytes := retainedBytes + Size(e.pixels);
      images := images[e.id := e.pixels];
      oldestByImage := oldestByImage[e.id := e.oldest];
      AdvancePrefix();
      EvictKeeps(images, oldestImageId);
      EvictOld();
      if retainedBytes > DICTIONARY_BYTES {
        return OverLimit;
      }
      changed := changed + 1;
      return Inserted;
    }

    /** Moves the contiguous prefix forward while the next id has arrived. */
    method AdvancePrefix()
      modifies this`oldestByImage, this`nextContiguousImageId, this`oldestImageId
      ensures Progress(oldestByImage, nextContiguousImageId, oldestImageId)
           == Advance(old(Progress(oldestByImage, nextContiguousImageId, oldestImageId)))
    {
      ghost var p := Advance(Progress(oldestByImage, nextContiguousImageId, oldestImageId));
      while nextContiguousImageId in oldestByImage
        invariant Advance(Progress(oldestByImage, nextContiguousImageId, oldestImageId)) == p
        decreases |oldestByImage|
      {
        assert (oldestByImage - {nextContiguousImageId}).Keys == oldestByImage.Keys - {nextContiguousImageId};
        oldestImageId := Max(oldestImageId, oldestByImage[nextContiguousImageId]);
        oldestByImage := oldestByImage - {nextContiguousImageId};
        nextContiguousImageId := nextContiguousImageId + 1;
      }
    }

    /** Drops every image below the oldest id, one at a time. */
    method EvictOld()
      requires Valid()
      modifies this`images, this`retainedBytes
      ensures Valid() && images == Evict(old(images), oldestImageId)
    {
      hide Bytes;
      ghost var before := images;
      var evicted := set id | id in images && id < oldestImageId;
      while evicted != {}
        invariant Valid()
        invariant images.Keys <= before.Keys
        invariant forall id :: id in evicted <==> id in images && id < oldestImageId
        invariant forall id :: id in before && id >= oldestImageId ==> id in images
        invariant forall id :: id in images ==> images[id] == before[id]
        decreases evicted
      {
        var id :| id in evicted;
        BytesWithout(images, id);
        retainedBytes := retainedBytes - Size(images[id]);
        images := images - {id};
        evicted := evicted - {id};
      }
      assert images == Evict(before, oldestImageId);
    }

    method ClearForMigration(activation: nat)
      requires Valid()
      modifies this
      ensures Valid() && Value() == AfterClear(old(Value()), activation)
      ensures changed == old(changed) + if old(lastClearedMigration) >= activation then 0 else 1
      ensures old(lastClearedMigration) >= activation ==> Value() == old(Value())
      ensures old(lastClearedMigration) < activation ==>
        && images == map[] && oldestByImage == map[] && retainedBytes == 0
        && oldestImageId == 0 && nextContiguousImageId == 0 && lastClearedMigration == activation
    {
      if lastClearedMigration >= activation {
        return;
      }
      images, oldestByImage := map[], map[];
      retainedBytes, oldestImageId, nextContiguousImageId := 0, 0, 0;
      lastClearedMigration := activation;
      changed := changed + 1;
    }
  }
}
