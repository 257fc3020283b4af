/** Pairs reference and distorted frames by id: a merge-join of two buffers with drops and timeouts. */
module FrameSync {
  import opened Bytes

  type Frame = nat

  datatype BufferedFrame = BufferedFrame(frame: Frame, arrivedAt: int)

  datatype Pair = Pair(id: nat, reference: Frame, distorted: Frame)

  // Durations in milliseconds.
  const MAX_DRIFT_GAP := 40
  const FORCE_DROP_TIMEOUT := 12_000
  const ZOMBIE_REF_TIMEOUT := 20_000
  const ZOMBIE_DIST_TIMEOUT := 5_000
  const HARD_TIMEOUT := 30_000

  type Frames = map<nat, BufferedFrame>

  ghost predicate IsLeast(id: nat, ids: set<nat>) {
    id in ids && forall x :: x in ids ==> id <= x
  }

  /** The first element of an ordered set. */
  method First(ids: set<nat>) returns (r: Option<nat>)
    ensures r.None? <==> ids == {}
    ensures r.Some? ==> IsLeast(r.value, ids)
  {
    if ids == {} {
      return None;
    }
    var least :| least in ids;
    var todo := ids - {least};
    while todo != {}
      invariant todo <= ids && least in ids
      invariant forall x :: x in ids && x !in todo ==> least <= x
      decreases todo
    {
      var x :| x in todo;
      if x < least {
        least := x;
      }
      todo := todo - {x};
    }
    r := Some(least);
  }

  lemma Without(m: Frames, id: nat)
    requires id in m
    ensures |m - {id}| == |m| - 1 && (m - {id}).Keys == m.Keys - {id}
  {
    assert (m - {id}).Keys == m.Keys - {id};
    assert |m.Keys| == |m.Keys - {id}| + 1;
    assert |m - {id}| == |(m - {id}).Keys| && |m| == |m.Keys|;
  }

  function Ids(pairs: seq<Pair>): set<nat> { set p | p in pairs :: p.id }

  function Common(r: Frames, d: Frames): set<nat> { r.Keys * d.Keys }

  ghost predicate Ascending(pairs: seq<Pair>) {
    forall i, j :: 0 <= i < j < |pairs| ==> pairs[i].id < pairs[j].id
  }

  ghost predicate SubMap(m: Frames, n: Frames) {
    forall id :: id in m ==> id in n && m[id] == n[id]
  }

  /**
   * What retrieving `pairs` may have done to the buffers: only frames that had a partner were returned, each with
   * the frames buffered under its id; every common id not returned is still common; whatever else went had no partner.
   */
  ghost predicate Joined(r: Frames, d: Frames, pairs: seq<Pair>, r': Frames, d': Frames) {
    && Ascending(pairs)
    && SubMap(r', r) && SubMap(d', d)
    && (forall p :: p in pairs ==>
          p.id in r && p.id in d && p.reference == r[p.id].frame && p.distorted == d[p.id].frame)
    && (forall p, x :: p in pairs && (x in r' || x in d') ==> p.id < x)
    && Common(r, d) == Ids(pairs) + Common(r', d')
  }

  lemma IdsAppend(pairs: seq<Pair>, p: Pair)
    ensures Ids(pairs + [p]) == Ids(pairs) + {p.id}
  {
    var longer := pairs + [p];
    assert forall q :: q in longer <==> q in pairs || q == p;
    forall id
      ensures id in Ids(longer) <==> id in Ids(pairs) + {p.id}
    {
      if id in Ids(pairs) {
        var q :| q in pairs && q.id == id;
        assert q in longer;
      }
      if id == p.id { assert p in longer; }
    }
  }

  lemma JoinOne(r: Frames, d: Frames, pairs: seq<Pair>, r': Frames, d': Frames, id: nat)
    requires Joined(r, d, pairs, r', d') && id in r' && id in d'
    requires IsLeast(id, r'.Keys) && IsLeast(id, d'.Keys)
    ensures Joined(r, d, pairs + [Pair(id, r'[id].frame, d'[id].frame)], r' - {id}, d' - {id})
  {
    var p := Pair(id, r'[id].frame, d'[id].frame);
    IdsAppend(pairs, p);
    var more := pairs + [p];
    assert forall q :: q in more <==> q in pairs || q == p;
    hide Ids;
    assert Common(r', d') == Common(r' - {id}, d' - {id}) + {id};
    forall i, j | 0 <= i < j < |more|
      ensures more[i].id < more[j].id
    {
      if j == |pairs| { assert more[i] in pairs; }
    }
  }

  /** A frame that lags behind everything buffered on the other side has no partner there. */
  lemma DropLone(r: Frames, d: Frames, pairs: seq<Pair>, r': Frames, d': Frames, r'': Frames, d'': Frames, id: nat)
    requires Joined(r, d, pairs, r', d')
    requires (r'' == r' - {id} && d'' == d' && id !in d') || (r'' == r' && d'' == d' - {id} && id !in r')
    ensures Joined(r, d, pairs, r'', d'')
  {
    hide Ids;
    assert Common(r', d') == Common(r'', d'');
  }

  /** The clock showed a frame to be older than `limit` at one of the readings [from, to). */
  ghost predicate Older(f: BufferedFrame, limit: int, clock: nat -> int, from: nat, to: nat) {
    exists n :: from <= n < to && clock(n) - f.arrivedAt > limit
  }

  /** A reference frame may go when distorted frames are far ahead, or ahead and it is old, or it is very old. */
  ghost predicate RefMayGo(f: BufferedFrame, id: nat, d: Frames, clock: nat -> int, from: nat, to: nat) {
    || (exists x :: x in d && id + MAX_DRIFT_GAP < x)
    || (Older(f, FORCE_DROP_TIMEOUT, clock, from, to) && exists x :: x in d && id < x)
    || Older(f, ZOMBIE_REF_TIMEOUT, clock, from, to)
  }

  /** A distorted frame may go when it is old, or less old if no reference frame is left. */
  ghost predicate DistMayGo(f: BufferedFrame, r': Frames, clock: nat -> int, from: nat, to: nat) {
    || Older(f, FORCE_DROP_TIMEOUT, clock, from, to)
    || (Older(f, ZOMBIE_DIST_TIMEOUT, clock, from, to) && r' == map[])
  }

  /** Every frame dropped (gone and not returned) had a reason to. */
  ghost predicate Excused(r: Frames, d: Frames, pairs: seq<Pair>, r': Frames, d': Frames, clock: nat -> int, from: nat,
                          to: nat)
  {
    && (forall id :: id in r && id !in r' && id !in Ids(pairs) ==> RefMayGo(r[id], id, d, clock, from, to))
    && (forall id :: id in d && id !in d' && id !in Ids(pairs) ==> DistMayGo(d[id], r', clock, from, to))
  }

  /** The clock showed a frame to be no older than `limit` at one of the readings [from, to). */
  ghost predicate Young(f: BufferedFrame, limit: int, clock: nat -> int, from: nat, to: nat) {
    exists n :: from <= n < to && clock(n) - f.arrivedAt <= limit
  }

  ghost predicate HeadYoung(m: Frames, limit: int, clock: nat -> int, from: nat, to: nat) {
    forall id :: id in m && IsLeast(id, m.Keys) ==> Young(m[id], limit, clock, from, to)
  }

  /** A frame old enough went unmatched. */
  ghost predicate OneWent(m: Frames, pairs: seq<Pair>, m': Frames, limit: int, clock: nat -> int, from: nat, to: nat) {
    exists id :: id in m && id !in m' && id !in Ids(pairs) && Older(m[id], limit, clock, from, to)
  }

  /** Two heads left waiting are close enough and the earlier one is young. */
  ghost predicate Waits(r': Frames, d': Frames, clock: nat -> int, from: nat, to: nat) {
    forall x, y :: x in r' && y in d' && IsLeast(x, r'.Keys) && IsLeast(y, d'.Keys) ==>
      || (x < y <= x + MAX_DRIFT_GAP && Young(r'[x], FORCE_DROP_TIMEOUT, clock, from, to))
      || (y < x && Young(d'[y], FORCE_DROP_TIMEOUT, clock, from, to))
  }

  /**
   * The merge-join stopped for a reason: its heads wait for partners, or a lone head was seen to and is gone or young.
   */
  ghost predicate Stopped(r: Frames, d: Frames, pairs: seq<Pair>, r': Frames, d': Frames, clock: nat -> int, from: nat,
                          to: nat)
  {
    && Waits(r', d', clock, from, to)
    && (d' == map[] ==>
          HeadYoung(r', ZOMBIE_REF_TIMEOUT, clock, from, to)
            || OneWent(r, pairs, r', ZOMBIE_REF_TIMEOUT, clock, from, to))
    && (r' == map[] ==>
          HeadYoung(d', ZOMBIE_DIST_TIMEOUT, clock, from, to)
            || OneWent(d, pairs, d', ZOMBIE_DIST_TIMEOUT, clock, from, to))
  }

  lemma OlderLater(f: BufferedFrame, limit: int, clock: nat -> int, from: nat, to: nat, to': nat)
    requires Older(f, limit, clock, from, to) && to <= to'
    ensures Older(f, limit, clock, from, to')
  {
    var n :| from <= n < to && clock(n) - f.arrivedAt > limit;
    assert from <= n < to' && clock(n) - f.arrivedAt > limit;
  }

  /** Excuses outlast further readings, further pairs and a further excused drop. */
  lemma ExcusedStep(r: Frames, d: Frames, pairs: seq<Pair>, r': Frames, d': Frames, clock: nat -> int, from: nat,
                    to: nat, pairs': seq<Pair>, r'': Frames, d'': Frames, to': nat)
    requires Excused(r, d, pairs, r', d', clock, from, to) && to <= to' && Ids(pairs) <= Ids(pairs')
    requires SubMap(r'', r') && SubMap(d'', d')
    requires forall id :: id in r && id in r' && id !in r'' && id !in Ids(pairs') ==>
               RefMayGo(r[id], id, d, clock, from, to')
    requires forall id :: id in d && id in d' && id !in d'' && id !in Ids(pairs') ==>
               DistMayGo(d[id], r'', clock, from, to')
    ensures Excused(r, d, pairs', r'', d'', clock, from, to')
  {
    hide Ids;
    forall id | id in r && id !in r'' && id !in Ids(pairs')
      ensures RefMayGo(r[id], id, d, clock, from, to')
    {
      if id !in r' {
        assert RefMayGo(r[id], id, d, clock, from, to);
        if Older(r[id], FORCE_DROP_TIMEOUT, clock, from, to) {
          OlderLater(r[id], FORCE_DROP_TIMEOUT, clock, from, to, to');
        }
        if Older(r[id], ZOMBIE_REF_TIMEOUT, clock, from, to) {
          OlderLater(r[id], ZOMBIE_REF_TIMEOUT, clock, from, to, to');
        }
      }
    }
    forall id | id in d && id !in d'' && id !in Ids(pairs')
      ensures DistMayGo(d[id], r'', clock, from, to')
    {
      if id !in d' {
        assert DistMayGo(d[id], r', clock, from, to);
        if Older(d[id], FORCE_DROP_TIMEOUT, clock, from, to) {
          OlderLater(d[id], FORCE_DROP_TIMEOUT, clock, from, to, to');
        }
        if Older(d[id], ZOMBIE_DIST_TIMEOUT, clock, from, to) {
          OlderLater(d[id], ZOMBIE_DIST_TIMEOUT, clock, from, to, to');
        }
      }
    }
  }

  /** A retrieval so far: the join is right and every drop had a reason. */
  ghost predicate Synced(r: Frames, d: Frames, pairs: seq<Pair>, r': Frames, d': Frames, clock: nat -> int, from: nat,
                         to: nat)
  {
    Joined(r, d, pairs, r', d') && Excused(r, d, pairs, r', d', clock, from, to)
  }

  lemma SyncedNone(r: Frames, d: Frames, clock: nat -> int, from: nat)
    ensures Synced(r, d, [], r, d, clock, from, from)
  {
    assert Ids([]) == {};
  }

  lemma SyncedTick(r: Frames, d: Frames, pairs: seq<Pair>, r': Frames, d': Frames, clock: nat -> int, from: nat,
                   to: nat)
    requires Synced(r, d, pairs, r', d', clock, from, to)
    ensures Synced(r, d, pairs, r', d', clock, from, to + 1)
  {
    hide Excused, Joined, RefMayGo, DistMayGo;
    ExcusedStep(r, d, pairs, r', d', clock, from, to, pairs, r', d', to + 1);
  }

  lemma StillBuffered(r: Frames, d: Frames, pairs: seq<Pair>, r': Frames, d': Frames, clock: nat -> int, from: nat,
                      to: nat, id: nat)
    requires Synced(r, d, pairs, r', d', clock, from, to) && (id in r' || id in d')
    ensures id !in Ids(pairs) && (id in r' ==> id in r && r[id] == r'[id]) && (id in d' ==> id in d && d[id] == d'[id])
  {
  }

  lemma StopsWaiting(r: Frames, d: Frames, pairs: seq<Pair>, r': Frames, d': Frames, clock: nat -> int, from: nat,
                     to: nat, x: nat, y: nat)
    requires x in r' && y in d' && IsLeast(x, r'.Keys) && IsLeast(y, d'.Keys)
    requires (x < y <= x + MAX_DRIFT_GAP && Young(r'[x], FORCE_DROP_TIMEOUT, clock, from, to))
          || (y < x && Young(d'[y], FORCE_DROP_TIMEOUT, clock, from, to))
    ensures Stopped(r, d, pairs, r', d', clock, from, to)
  {
    hide Young, OneWent, HeadYoung;
    assert d' != map[] && r' != map[];
  }

  lemma StopsYoung(m: Frames, limit: int, clock: nat -> int, from: nat, to: nat, id: nat)
    requires id in m && IsLeast(id, m.Keys) && Young(m[id], limit, clock, from, to)
    ensures HeadYoung(m, limit, clock, from, to)
  {
    hide Young;
  }

  lemma NoHead(limit: int, clock: nat -> int, from: nat, to: nat)
    ensures HeadYoung(map[], limit, clock, from, to)
  {
  }

  lemma StopsLone(r: Frames, d: Frames, pairs: seq<Pair>, r': Frames, d': Frames, clock: nat -> int, from: nat, to: nat)
    requires d' == map[] || r' == map[]
    requires d' == map[] ==>
      HeadYoung(r', ZOMBIE_REF_TIMEOUT, clock, from, to) || OneWent(r, pairs, r', ZOMBIE_REF_TIMEOUT, clock, from, to)
    requires r' == map[] ==>
      HeadYoung(d', ZOMBIE_DIST_TIMEOUT, clock, from, to) || OneWent(d, pairs, d', ZOMBIE_DIST_TIMEOUT, clock, from, to)
    ensures Stopped(r, d, pairs, r', d', clock, from, to)
  {
    hide HeadYoung, OneWent, Young;
  }

  /** What one look at a lone head does: it goes if it is old and stays if it is young. */
  ghost predicate LoneHead(m: Frames, m': Frames, id: nat, limit: int, clock: nat -> int, from: nat, to: nat) {
    id in m
    && ((m' == m - {id} && Older(m[id], limit, clock, from, to)) || (m' == m && Young(m[id], limit, clock, from, to)))
  }

  lemma LoneHeadDone(all: Frames, pairs: seq<Pair>, m: Frames, m': Frames, id: nat, limit: int, clock: nat -> int,
                     from: nat, to: nat)
    requires id in m && IsLeast(id, m.Keys) && id in all && all[id] == m[id] && id !in Ids(pairs)
    requires LoneHead(m, m', id, limit, clock, from, to)
    ensures HeadYoung(m', limit, clock, from, to) || OneWent(all, pairs, m', limit, clock, from, to)
  {
    hide Older, Ids, Young;
  }

  lemma StopsRef(r: Frames, d: Frames, pairs: seq<Pair>, m: Frames, m': Frames, clock: nat -> int, from: nat, to: nat,
                 id: nat)
    requires id in m && IsLeast(id, m.Keys) && id in r && r[id] == m[id] && id !in Ids(pairs)
    requires LoneHead(m, m', id, ZOMBIE_REF_TIMEOUT, clock, from, to)
    ensures Stopped(r, d, pairs, m', map[], clock, from, to)
  {
    hide LoneHead, Ids;
    LoneHeadDone(r, pairs, m, m', id, ZOMBIE_REF_TIMEOUT, clock, from, to);
    NoHead(ZOMBIE_DIST_TIMEOUT, clock, from, to);
    StopsLone(r, d, pairs, m', map[], clock, from, to);
  }

  lemma StopsDist(r: Frames, d: Frames, pairs: seq<Pair>, m: Frames, m': Frames, clock: nat -> int, from: nat, to: nat,
                  id: nat)
    requires id in m && IsLeast(id, m.Keys) && id in d && d[id] == m[id] && id !in Ids(pairs)
    requires LoneHead(m, m', id, ZOMBIE_DIST_TIMEOUT, clock, from, to)
    ensures Stopped(r, d, pairs, map[], m', clock, from, to)
  {
    hide LoneHead, Ids;
    LoneHeadDone(d, pairs, m, m', id, ZOMBIE_DIST_TIMEOUT, clock, from, to);
    NoHead(ZOMBIE_REF_TIMEOUT, clock, from, to);
    StopsLone(r, d, pairs, map[], m', clock, from, to);
  }

  lemma SyncedMatch(r: Frames, d: Frames, pairs: seq<Pair>, r': Frames, d': Frames, clock: nat -> int, from: nat,
                    to: nat, id: nat)
    requires Synced(r, d, pairs, r', d', clock, from, to) && id in r' && id in d'
    requires IsLeast(id, r'.Keys) && IsLeast(id, d'.Keys)
    ensures Synced(r, d, pairs + [Pair(id, r'[id].frame, d'[id].frame)], r' - {id}, d' - {id}, clock, from, to)
  {
    hide Excused, Joined, RefMayGo, DistMayGo, Ids;
    var p := Pair(id, r'[id].frame, d'[id].frame);
    JoinOne(r, d, pairs, r', d', id);
    IdsAppend(pairs, p);
    ExcusedStep(r, d, pairs, r', d', clock, from, to, pairs + [p], r' - {id}, d' - {id}, to);
  }

  lemma SyncedDropRef(r: Frames, d: Frames, pairs: seq<Pair>, r': Frames, d': Frames, clock: nat -> int, from: nat,
                      to: nat, id: nat)
    requires Synced(r, d, pairs, r', d', clock, from, to) && id in r' && id !in d'
    requires RefMayGo(r'[id], id, d, clock, from, to)
    ensures Synced(r, d, pairs, r' - {id}, d', clock, from, to)
  {
    assert r'[id] == r[id];
    hide Excused, Joined, RefMayGo, DistMayGo, Ids;
    DropLone(r, d, pairs, r', d', r' - {id}, d', id);
    ExcusedStep(r, d, pairs, r', d', clock, from, to, pairs, r' - {id}, d', to);
  }

  lemma SyncedDropDist(r: Frames, d: Frames, pairs: seq<Pair>, r': Frames, d': Frames, clock: nat -> int, from: nat,
                       to: nat, id: nat)
    requires Synced(r, d, pairs, r', d', clock, from, to) && id in d' && id !in r'
    requires DistMayGo(d'[id], r', clock, from, to)
    ensures Synced(r, d, pairs, r', d' - {id}, clock, from, to)
  {
    assert d'[id] == d[id];
    hide Excused, Joined, RefMayGo, DistMayGo, Ids;
    DropLone(r, d, pairs, r', d', r', d' - {id}, id);
    ExcusedStep(r, d, pairs, r', d', clock, from, to, pairs, r', d' - {id}, to);
  }

  /** An id set that indexes its buffer, and a buffer that holds what was put in and neither matched nor dropped. */
  ghost predicate Indexed(ids: set<nat>, buffer: Frames, inserted: nat, matched: nat, dropped: nat) {
    ids == buffer.Keys && inserted == matched + dropped + |buffer|
  }

  lemma IndexedAfterInsert(ids: set<nat>, m: Frames, inserted: nat, matched: nat, dropped: nat, id: nat,
                           f: BufferedFrame)
    requires Indexed(ids, m, inserted, matched, dropped)
    ensures if id in m then Indexed(ids, m[id := f], inserted, matched, dropped)
            else Indexed(ids + {id}, m[id := f], inserted + 1, matched, dropped)
  {
    assert m[id := f].Keys == m.Keys + {id};
    assert |m[id := f]| == |m[id := f].Keys| && |m| == |m.Keys|;
    if id in m { assert m.Keys + {id} == m.Keys; }
  }

  class FrameSyncManager {
    var refIds: set<nat>
    var distIds: set<nat>
    var refBuffer: Frames
    var distBuffer: Frames
    var lastProcessedId: int
    var droppedRef: nat
    var droppedDist: nat
    var syncStarted: bool
    /** The wall clock: reading number `ticks` shows `clock(ticks)`. */
    const clock: nat -> int
    var ticks: nat
    ghost var insertedRef: nat
    ghost var insertedDist: nat
    ghost var matched: nat

    constructor (clock: nat -> int)
      ensures Valid() && refBuffer == map[] && distBuffer == map[] && !syncStarted && this.clock == clock
      ensures insertedRef == insertedDist == matched == 0
    {
      refIds, distIds, refBuffer, distBuffer := {}, {}, map[], map[];
      lastProcessedId, droppedRef, droppedDist, syncStarted := -1, 0, 0, false;
      this.clock, ticks := clock, 0;
      insertedRef, insertedDist, matched := 0, 0, 0;
    }

    /** The id sets index the buffers, and every frame ever buffered was matched, dropped or is still there. */
    ghost predicate Valid()
      reads this
    {
      && Indexed(refIds, refBuffer, insertedRef, matched, droppedRef)
      && Indexed(distIds, distBuffer, insertedDist, matched, droppedDist)
    }

    method Now() returns (t: int)
      modifies this`ticks
      ensures t == clock(old(ticks)) && ticks == old(ticks) + 1
    {
      t := clock(ticks);
      ticks := ticks + 1;
    }

    method InsertRefFrame(id: nat, frame: Frame)
      requires Valid()
      modifies this`refIds, this`refBuffer, this`insertedRef, this`ticks
      ensures Valid()
      ensures refBuffer == old(refBuffer)[id := BufferedFrame(frame, clock(old(ticks)))]
      ensures insertedRef == old(insertedRef) + (if id in old(refBuffer) then 0 else 1)
    {
      var now := Now();
      var known := id in refBuffer;
      IndexedAfterInsert(refIds, refBuffer, insertedRef, matched, droppedRef, id, BufferedFrame(frame, now));
      hide Indexed;
      refBuffer := refBuffer[id := BufferedFrame(frame, now)];
      if !known {
        refIds := refIds + {id};
        insertedRef := insertedRef + 1;
      }
    }

    method InsertDistFrame(id: nat, frame: Frame)
      requires Valid()
      modifies this`distIds, this`distBuffer, this`insertedDist, this`ticks
      ensures Valid()
      ensures distBuffer == old(distBuffer)[id := BufferedFrame(frame, clock(old(ticks)))]
      ensures insertedDist == old(insertedDist) + (if id in old(distBuffer) then 0 else 1)
    {
      var now := Now();
      var known := id in distBuffer;
      IndexedAfterInsert(distIds, distBuffer, insertedDist, matched, droppedDist, id, BufferedFrame(frame, now));
      hide Indexed;
      distBuffer := distBuffer[id := BufferedFrame(frame, now)];
      if !known {
        distIds := distIds + {id};
        insertedDist := insertedDist + 1;
      }
    }

    method PopPair(id: nat) returns (p: Pair)
      requires Valid() && id in refBuffer && id in distBuffer
      modifies this`refIds, this`distIds, this`refBuffer, this`distBuffer, this`matched
      ensures Valid() && matched == old(matched) + 1
      ensures p == Pair(id, old(refBuffer)[id].frame, old(distBuffer)[id].frame)
      ensures refBuffer == old(refBuffer) - {id} && distBuffer == old(distBuffer) - {id}
      ensures |refBuffer| == old(|refBuffer|) - 1 && |distBuffer| == old(|distBuffer|) - 1
    {
      Without(refBuffer, id);
      Without(distBuffer, id);
      refIds, distIds := refIds - {id}, distIds - {id};
      p := Pair(id, refBuffer[id].frame, distBuffer[id].frame);
      refBuffer, distBuffer := refBuffer - {id}, distBuffer - {id};
      matched := matched + 1;
    }

    method DropRef(id: nat)
      requires Valid() && id in refBuffer
      modifies this`refIds, this`refBuffer, this`droppedRef
      ensures Valid() && droppedRef == old(droppedRef) + 1 && refBuffer == old(refBuffer) - {id}
      ensures refIds == old(refIds) - {id} && |refBuffer| == old(|refBuffer|) - 1
    {
      Without(refBuffer, id);
      refIds, refBuffer, droppedRef := refIds - {id}, refBuffer - {id}, droppedRef + 1;
    }

    method DropDist(id: nat)
      requires Valid() && id in distBuffer
      modifies this`distIds, this`distBuffer, this`droppedDist
      ensures Valid() && droppedDist == old(droppedDist) + 1 && distBuffer == old(distBuffer) - {id}
      ensures distIds == old(distIds) - {id} && |distBuffer| == old(|distBuffer|) - 1
    {
      Without(distBuffer, id);
      distIds, distBuffer, droppedDist := distIds - {id}, distBuffer - {id}, droppedDist + 1;
    }

    /**
     * Returns the pairs that are ready, in ascending order of id, and clears frames that lag too far behind. No frame
     * whose partner is buffered is dropped, none is dropped without a reason, and no pair is left waiting at the
     * head of both buffers.
     */
    method SyncAndRetrieve() returns (pairs: seq<Pair>)
      requires Valid()
      modifies this
      ensures Valid() && insertedRef == old(insertedRef) && insertedDist == old(insertedDist)
      ensures Joined(old(refBuffer), old(distBuffer), pairs, refBuffer, distBuffer)
      ensures Excused(old(refBuffer), old(distBuffer), pairs, refBuffer, distBuffer, clock, old(ticks), ticks)
      ensures matched == old(matched) + |pairs|
      ensures syncStarted == (old(syncStarted) || old(distBuffer) != map[])
      ensures !syncStarted ==> pairs == [] && refBuffer == old(refBuffer) && distBuffer == old(distBuffer)
      ensures syncStarted ==> Stopped(old(refBuffer), old(distBuffer), pairs, refBuffer, distBuffer, clock, old(ticks),
                                      ticks)
      ensures lastProcessedId == if pairs == [] then old(lastProcessedId) else pairs[|pairs| - 1].id
    {
      pairs := [];
      SyncedNone(refBuffer, distBuffer, clock, ticks);
      hide Joined, Excused;
      if !syncStarted {
        if distIds == {} {
          return;
        }
        syncStarted := true;
      }
      var more := true;
      while more
        invariant Valid() && insertedRef == old(insertedRef) && insertedDist == old(insertedDist) && syncStarted
        invariant Synced(old(refBuffer), old(distBuffer), pairs, refBuffer, distBuffer, clock, old(ticks), ticks)
        invariant old(ticks) <= ticks && matched == old(matched) + |pairs|
        invariant !more ==> Stopped(old(refBuffer), old(distBuffer), pairs, refBuffer, distBuffer, clock, old(ticks),
                                    ticks)
        invariant lastProcessedId == if pairs == [] then old(lastProcessedId) else pairs[|pairs| - 1].id
        decreases more, |refBuffer| + |distBuffer|
      {
        hide Synced, Stopped;
        pairs, more := SyncHeads(old(refBuffer), old(distBuffer), old(ticks), pairs);
      }
    }

    /** Two heads: match them, drop the one that lags too far, or stop. */
    method SyncBoth(ghost r0: Frames, ghost d0: Frames, ghost from: nat, pairs: seq<Pair>, r: nat, d: nat)
      returns (pairs': seq<Pair>, more: bool)
      requires Valid() && Synced(r0, d0, pairs, refBuffer, distBuffer, clock, from, ticks) && from <= ticks
      requires IsLeast(r, refIds) && IsLeast(d, distIds)
      modifies this`refIds, this`distIds, this`refBuffer, this`distBuffer, this`matched, this`droppedRef,
               this`droppedDist, this`lastProcessedId, this`ticks
      ensures Valid() && Synced(r0, d0, pairs', refBuffer, distBuffer, clock, from, ticks) && from <= ticks
      ensures (pairs' == pairs && lastProcessedId == old(lastProcessedId) && matched == old(matched))
           || (|pairs'| == |pairs| + 1 && pairs'[|pairs|].id == lastProcessedId && matched == old(matched) + 1)
      ensures more ==> |refBuffer| + |distBuffer| < old(|refBuffer| + |distBuffer|)
      ensures !more ==> Stopped(r0, d0, pairs', refBuffer, distBuffer, clock, from, ticks)
    {
      assert refIds == refBuffer.Keys && distIds == distBuffer.Keys && d in d0;
      hide Synced, Indexed, Stopped, Young;
      if r == d {
        pairs' := MatchHeads(r0, d0, from, pairs, r);
        return pairs', true;
      }
      pairs' := pairs;
      if r < d {
        more := LaggingRef(r0, d0, from, pairs, r, d);
      } else {
        more := LaggingDist(r0, d0, from, pairs, d);
      }
      if !more {
        StopsWaiting(r0, d0, pairs, refBuffer, distBuffer, clock, from, ticks, r, d);
      }
    }

    method MatchHeads(ghost r0: Frames, ghost d0: Frames, ghost from: nat, pairs: seq<Pair>, id: nat)
      returns (pairs': seq<Pair>)
      requires Valid() && Synced(r0, d0, pairs, refBuffer, distBuffer, clock, from, ticks)
      requires id in refBuffer && id in distBuffer && IsLeast(id, refBuffer.Keys) && IsLeast(id, distBuffer.Keys)
      modifies this`refIds, this`distIds, this`refBuffer, this`distBuffer, this`matched, this`lastProcessedId
      ensures Valid() && Synced(r0, d0, pairs', refBuffer, distBuffer, clock, from, ticks)
      ensures |pairs'| == |pairs| + 1 && pairs'[|pairs|].id == lastProcessedId && matched == old(matched) + 1
      ensures |refBuffer| == old(|refBuffer|) - 1 && |distBuffer| == old(|distBuffer|) - 1
    {
      hide Synced, Indexed;
      SyncedMatch(r0, d0, pairs, refBuffer, distBuffer, clock, from, ticks, id);
      var p := PopPair(id);
      lastProcessedId := id;
      pairs' := pairs + [p];
    }

    /** The reference stream lags: its oldest frame goes if the gap is large or it has waited long enough. */
    method LaggingRef(ghost r0: Frames, ghost d0: Frames, ghost from: nat, ghost pairs: seq<Pair>, r: nat, d: nat)
      returns (dropped: bool)
      requires Valid() && Synced(r0, d0, pairs, refBuffer, distBuffer, clock, from, ticks) && from <= ticks
      requires r in refBuffer && r !in distBuffer && r < d && d in d0
      modifies this`refIds, this`refBuffer, this`droppedRef, this`ticks
      ensures Valid() && Synced(r0, d0, pairs, refBuffer, distBuffer, clock, from, ticks) && from <= ticks
      ensures if dropped then |refBuffer| == old(|refBuffer|) - 1
              else
                && refBuffer == old(refBuffer) && d <= r + MAX_DRIFT_GAP
                && Young(refBuffer[r], FORCE_DROP_TIMEOUT, clock, from, ticks)
    {
      hide Synced, Indexed;
      SyncedTick(r0, d0, pairs, refBuffer, distBuffer, clock, from, ticks);
      var now := Now();
      dropped := d - r > MAX_DRIFT_GAP || now - refBuffer[r].arrivedAt > FORCE_DROP_TIMEOUT;
      if dropped {
        assert now - refBuffer[r].arrivedAt > FORCE_DROP_TIMEOUT ==>
                 Older(refBuffer[r], FORCE_DROP_TIMEOUT, clock, from, ticks);
        SyncedDropRef(r0, d0, pairs, refBuffer, distBuffer, clock, from, ticks, r);
        DropRef(r);
      }
    }

    /** The distorted stream lags: its oldest frame goes only if it has waited long enough. */
    method LaggingDist(ghost r0: Frames, ghost d0: Frames, ghost from: nat, ghost pairs: seq<Pair>, d: nat)
      returns (dropped: bool)
      requires Valid() && Synced(r0, d0, pairs, refBuffer, distBuffer, clock, from, ticks) && from <= ticks
      requires d in distBuffer && d !in refBuffer
      modifies this`distIds, this`distBuffer, this`droppedDist, this`ticks
      ensures Valid() && Synced(r0, d0, pairs, refBuffer, distBuffer, clock, from, ticks) && from <= ticks
      ensures if dropped then |distBuffer| == old(|distBuffer|) - 1
              else distBuffer == old(distBuffer) && Young(distBuffer[d], FORCE_DROP_TIMEOUT, clock, from, ticks)
    {
      hide Synced, Indexed;
      SyncedTick(r0, d0, pairs, refBuffer, distBuffer, clock, from, ticks);
      var now := Now();
      dropped := now - distBuffer[d].arrivedAt > FORCE_DROP_TIMEOUT;
      if dropped {
        assert Older(distBuffer[d], FORCE_DROP_TIMEOUT, clock, from, ticks);
        SyncedDropDist(r0, d0, pairs, refBuffer, distBuffer, clock, from, ticks, d);
        DropDist(d);
      }
    }

    /** Only reference frames are left: the oldest goes if it is very old. */
    method ClearZombieRef(ghost r0: Frames, ghost d0: Frames, ghost from: nat, ghost pairs: seq<Pair>, id: nat)
      requires Valid() && Synced(r0, d0, pairs, refBuffer, distBuffer, clock, from, ticks) && from <= ticks
      requires IsLeast(id, refIds) && distBuffer == map[]
      modifies this`refIds, this`refBuffer, this`droppedRef, this`ticks
      ensures Valid() && Synced(r0, d0, pairs, refBuffer, distBuffer, clock, from, ticks) && from <= ticks
      ensures Stopped(r0, d0, pairs, refBuffer, distBuffer, clock, from, ticks)
    {
      assert refIds == refBuffer.Keys;
      hide Synced, Indexed, Stopped, Older, Young, Ids;
      StillBuffered(r0, d0, pairs, refBuffer, distBuffer, clock, from, ticks, id);
      ghost var before := refBuffer;
      DropZombieRef(r0, d0, from, pairs, id);
      StopsRef(r0, d0, pairs, before, refBuffer, clock, from, ticks, id);
    }

    method DropZombieRef(ghost r0: Frames, ghost d0: Frames, ghost from: nat, ghost pairs: seq<Pair>, id: nat)
      requires Valid() && Synced(r0, d0, pairs, refBuffer, distBuffer, clock, from, ticks) && from <= ticks
      requires id in refBuffer && id !in distBuffer
      modifies this`refIds, this`refBuffer, this`droppedRef, this`ticks
      ensures Valid() && Synced(r0, d0, pairs, refBuffer, distBuffer, clock, from, ticks) && from <= ticks
      ensures LoneHead(old(refBuffer), refBuffer, id, ZOMBIE_REF_TIMEOUT, clock, from, ticks)
    {
      hide Synced, Indexed;
      SyncedTick(r0, d0, pairs, refBuffer, distBuffer, clock, from, ticks);
      var now := Now();
      if now - refBuffer[id].arrivedAt > ZOMBIE_REF_TIMEOUT {
        assert Older(refBuffer[id], ZOMBIE_REF_TIMEOUT, clock, from, ticks);
        SyncedDropRef(r0, d0, pairs, refBuffer, distBuffer, clock, from, ticks, id);
        DropRef(id);
      }
    }

    /** Only distorted frames are left: the oldest goes if it is old. */
    method ClearZombieDist(ghost r0: Frames, ghost d0: Frames, ghost from: nat, ghost pairs: seq<Pair>, id: nat)
      requires Valid() && Synced(r0, d0, pairs, refBuffer, distBuffer, clock, from, ticks) && from <= ticks
      requires IsLeast(id, distIds) && refBuffer == map[]
      modifies this`distIds, this`distBuffer, this`droppedDist, this`ticks
      ensures Valid() && Synced(r0, d0, pairs, refBuffer, distBuffer, clock, from, ticks) && from <= ticks
      ensures Stopped(r0, d0, pairs, refBuffer, distBuffer, clock, from, ticks)
    {
      assert distIds == distBuffer.Keys;
      hide Synced, Indexed, Stopped, Older, Young, Ids;
      StillBuffered(r0, d0, pairs, refBuffer, distBuffer, clock, from, ticks, id);
      ghost var before := distBuffer;
      DropZombieDist(r0, d0, from, pairs, id);
      StopsDist(r0, d0, pairs, before, distBuffer, clock, from, ticks, id);
    }

    method DropZombieDist(ghost r0: Frames, ghost d0: Frames, ghost from: nat, ghost pairs: seq<Pair>, id: nat)
      requires Valid() && Synced(r0, d0, pairs, refBuffer, distBuffer, clock, from, ticks) && from <= ticks
      requires id in distBuffer && refBuffer == map[]
      modifies this`distIds, this`distBuffer, this`droppedDist, this`ticks
      ensures Valid() && Synced(r0, d0, pairs, refBuffer, distBuffer, clock, from, ticks) && from <= ticks
      ensures LoneHead(old(distBuffer), distBuffer, id, ZOMBIE_DIST_TIMEOUT, clock, from, ticks)
    {
      hide Synced, Indexed;
      SyncedTick(r0, d0, pairs, refBuffer, distBuffer, clock, from, ticks);
      var now := Now();
      if now - distBuffer[id].arrivedAt > ZOMBIE_DIST_TIMEOUT {
        assert Older(distBuffer[id], ZOMBIE_DIST_TIMEOUT, clock, from, ticks);
        SyncedDropDist(r0, d0, pairs, refBuffer, distBuffer, clock, from, ticks, id);
        DropDist(id);
      }
    }

    /** One look at the heads of both buffers. */
    method SyncHeads(ghost r0: Frames, ghost d0: Frames, ghost from: nat, pairs: seq<Pair>)
      returns (pairs': seq<Pair>, more: bool)
      requires Valid() && Synced(r0, d0, pairs, refBuffer, distBuffer, clock, from, ticks) && from <= ticks
      modifies this`refIds, this`distIds, this`refBuffer, this`distBuffer, this`matched, this`droppedRef,
               this`droppedDist, this`lastProcessedId, this`ticks
      ensures Valid() && Synced(r0, d0, pairs', refBuffer, distBuffer, clock, from, ticks) && from <= ticks
      ensures (pairs' == pairs && lastProcessedId == old(lastProcessedId) && matched == old(matched))
           || (|pairs'| == |pairs| + 1 && pairs'[|pairs|].id == lastProcessedId && matched == old(matched) + 1)
      ensures more ==> |refBuffer| + |distBuffer| < old(|refBuffer| + |distBuffer|)
      ensures !more ==> Stopped(r0, d0, pairs', refBuffer, distBuffer, clock, from, ticks)
    {
      assert refIds == refBuffer.Keys && distIds == distBuffer.Keys;
      hide Synced, Indexed, Stopped;
      var minRef := First(refIds);
      var minDist := First(distIds);
      if minRef.Some? && minDist.Some? {
        pairs', more := SyncBoth(r0, d0, from, pairs, minRef.value, minDist.value);
        return;
      }
      pairs', more := pairs, false;
      if minRef.Some? {
        ClearZombieRef(r0, d0, from, pairs, minRef.value);
      } else if minDist.Some? {
        ClearZombieDist(r0, d0, from, pairs, minDist.value);
      } else {
        StopsLone(r0, d0, pairs, refBuffer, distBuffer, clock, from, ticks);
      }
    }

    /** Drops the oldest frames of each buffer as long as they are past the hard limit, and nothing else. */
    method CheckTimeouts()
      requires Valid()
      modifies this
      ensures Valid() && insertedRef == old(insertedRef) && insertedDist == old(insertedDist) && matched == old(matched)
      ensures Trimmed(old(refBuffer), refBuffer, clock, old(ticks), ticks)
      ensures Trimmed(old(distBuffer), distBuffer, clock, old(ticks), ticks)
      ensures !old(syncStarted) ==> refBuffer == old(refBuffer) && distBuffer == old(distBuffer)
      ensures old(syncStarted) ==>
        HeadYoung(refBuffer, HARD_TIMEOUT, clock, old(ticks), ticks)
          && HeadYoung(distBuffer, HARD_TIMEOUT, clock, old(ticks), ticks)
    {
      if !syncStarted {
        return;
      }
      CleanRefBuffer();
      ghost var between := ticks;
      CleanDistBuffer();
      TrimLonger(old(refBuffer), refBuffer, clock, old(ticks), between, ticks);
      TrimEarlier(old(distBuffer), distBuffer, clock, old(ticks), between, ticks);
    }

    method CleanRefBuffer()
      requires Valid()
      modifies this`refIds, this`refBuffer, this`droppedRef, this`ticks
      ensures Valid() && old(ticks) <= ticks
      ensures Trimmed(old(refBuffer), refBuffer, clock, old(ticks), ticks)
      ensures HeadYoung(refBuffer, HARD_TIMEOUT, clock, old(ticks), ticks)
    {
      TrimNone(refBuffer, clock, ticks);
      while true
        invariant Valid() && old(ticks) <= ticks && Trimmed(old(refBuffer), refBuffer, clock, old(ticks), ticks)
        decreases |refBuffer|
      {
        hide Trimmed;
        var oldest := First(refIds);
        if oldest.None? {
          return;
        }
        var id := oldest.value;
        var now := Now();
        TrimLonger(old(refBuffer), refBuffer, clock, old(ticks), ticks - 1, ticks);
        if now - refBuffer[id].arrivedAt <= HARD_TIMEOUT {
          StopsYoung(refBuffer, HARD_TIMEOUT, clock, old(ticks), ticks, id);
          return;
        }
        TrimOne(old(refBuffer), refBuffer, clock, old(ticks), ticks, id);
        DropRef(id);
      }
    }

    method CleanDistBuffer()
      requires Valid()
      modifies this`distIds, this`distBuffer, this`droppedDist, this`ticks
      ensures Valid() && old(ticks) <= ticks
      ensures Trimmed(old(distBuffer), distBuffer, clock, old(ticks), ticks)
      ensures HeadYoung(distBuffer, HARD_TIMEOUT, clock, old(ticks), ticks)
    {
      TrimNone(distBuffer, clock, ticks);
      while true
        invariant Valid() && old(ticks) <= ticks && Trimmed(old(distBuffer), distBuffer, clock, old(ticks), ticks)
        decreases |distBuffer|
      {
        hide Trimmed;
        var oldest := First(distIds);
        if oldest.None? {
          return;
        }
        var id := oldest.value;
        var now := Now();
        TrimLonger(old(distBuffer), distBuffer, clock, old(ticks), ticks - 1, ticks);
        if now - distBuffer[id].arrivedAt <= HARD_TIMEOUT {
          StopsYoung(distBuffer, HARD_TIMEOUT, clock, old(ticks), ticks, id);
          return;
        }
        TrimOne(old(distBuffer), distBuffer, clock, old(ticks), ticks, id);
        DropDist(id);
      }
    }
  }

  /** Only frames found stale went, and no frame went before an older one. */
  ghost predicate Trimmed(m: Frames, m': Frames, clock: nat -> int, from: nat, to: nat) {
    && SubMap(m', m)
    && (forall x, y :: x in m && x !in m' && y in m' ==> x < y)
    && (forall x :: x in m && x !in m' ==> Older(m[x], HARD_TIMEOUT, clock, from, to))
  }

  lemma TrimNone(m: Frames, clock: nat -> int, from: nat)
    ensures Trimmed(m, m, clock, from, from)
  {
  }

  lemma TrimLonger(m: Frames, m': Frames, clock: nat -> int, from: nat, mid: nat, to: nat)
    requires Trimmed(m, m', clock, from, mid) && mid <= to
    ensures Trimmed(m, m', clock, from, to)
  {
    forall x | x in m && x !in m'
      ensures Older(m[x], HARD_TIMEOUT, clock, from, to)
    {
      assert Older(m[x], HARD_TIMEOUT, clock, from, mid);
    }
  }

  lemma TrimEarlier(m: Frames, m': Frames, clock: nat -> int, from: nat, mid: nat, to: nat)
    requires Trimmed(m, m', clock, mid, to) && from <= mid
    ensures Trimmed(m, m', clock, from, to)
  {
    forall x | x in m && x !in m'
      ensures Older(m[x], HARD_TIMEOUT, clock, from, to)
    {
      assert Older(m[x], HARD_TIMEOUT, clock, mid, to);
    }
  }

  lemma TrimOne(m: Frames, m': Frames, clock: nat -> int, from: nat, to: nat, id: nat)
    requires Trimmed(m, m', clock, from, to) && IsLeast(id, m'.Keys)
    requires from < to && clock(to - 1) - m'[id].arrivedAt > HARD_TIMEOUT
    ensures Trimmed(m, m' - {id}, clock, from, to)
  {
    assert Older(m[id], HARD_TIMEOUT, clock, from, to);
  }

  /** From `Joined` alone: a frame that went without being returned had no partner at the time of the call. */
  lemma OnlyLoneFramesDropped(r: Frames, d: Frames, pairs: seq<Pair>, r': Frames, d': Frames, id: nat)
    requires Joined(r, d, pairs, r', d') && id !in Ids(pairs)
    ensures id in r && id !in r' ==> id !in d
    ensures id in d && id !in d' ==> id !in r
  {
    assert id in Common(r, d) <==> id in Ids(pairs) + Common(r', d');
  }
}
