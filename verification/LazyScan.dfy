/**
 CcLazyWriteScan: one walk around the ring of dirty streams, which moves its own cursor inside that ring. The
 ring holds the cursor, the list head, and the streams; its links are modelled as they are.
 */
module LazyScan {

  /** Where entry `i` of a ring of `n` is followed by. */
  function Next(i: int, n: int): int {
    if i + 1 == n then 0 else i + 1
  }

  predicate NoDuplicates(ring: seq<int>) {
    forall i, j | 0 <= i < j < |ring| :: ring[i] != ring[j]
  }

  /** The links run around the entries of `ring`, in both directions. */
  predicate Linked(flink: map<int, int>, blink: map<int, int>, ring: seq<int>) {
    && ring != [] && NoDuplicates(ring)
    && (forall i | 0 <= i < |ring| :: ring[i] in flink && flink[ring[i]] == ring[Next(i, |ring|)])
    && (forall i | 0 <= i < |ring| :: ring[i] in blink && ring[Next(i, |ring|)] in blink && blink[ring[Next(i, |ring|)]] == ring[i])
  }

  function Shifted(i: int, a: nat, b: nat): int {
    if i < b then a + i else i - b
  }

  lemma RotatedAt(a: seq<int>, b: seq<int>, i: int)
    requires 0 <= i < |a| + |b|
    ensures 0 <= Shifted(i, |a|, |b|) < |a| + |b| && (b + a)[i] == (a + b)[Shifted(i, |a|, |b|)]
    ensures Next(Shifted(i, |a|, |b|), |a| + |b|) == Shifted(Next(i, |a| + |b|), |a|, |b|)
  {
  }

  lemma RotatedNoDuplicates(a: seq<int>, b: seq<int>)
    requires NoDuplicates(a + b)
    ensures NoDuplicates(b + a)
  {
    forall i, j | 0 <= i < j < |b + a| ensures (b + a)[i] != (b + a)[j] {
      RotatedAt(a, b, i);
      RotatedAt(a, b, j);
      assert Shifted(i, |a|, |b|) != Shifted(j, |a|, |b|);
    }
  }

  /** A ring has no beginning. */
  lemma Rotated(flink: map<int, int>, blink: map<int, int>, a: seq<int>, b: seq<int>)
    requires Linked(flink, blink, a + b)
    ensures Linked(flink, blink, b + a)
  {
    hide NoDuplicates, Shifted, Next;
    RotatedNoDuplicates(a, b);
    var n := |a| + |b|;
    forall i | 0 <= i < n
      ensures (b + a)[i] in flink && 0 <= Next(i, n) < n && flink[(b + a)[i]] == (b + a)[Next(i, n)]
      ensures (b + a)[i] in blink && (b + a)[Next(i, n)] in blink && blink[(b + a)[Next(i, n)]] == (b + a)[i]
    {
      NextInRange(i, n);
      RotatedAt(a, b, i);
      RotatedAt(a, b, Next(i, n));
    }
  }

  lemma NextInRange(i: int, n: int)
    requires 0 <= i < n
    ensures 0 <= Next(i, n) < n
  {
  }

  lemma LinkedAt(flink: map<int, int>, blink: map<int, int>, ring: seq<int>, i: int)
    requires Linked(flink, blink, ring) && 0 <= i < |ring|
    ensures NoDuplicates(ring) && ring[i] in flink && 0 <= Next(i, |ring|) < |ring| && flink[ring[i]] == ring[Next(i, |ring|)]
    ensures ring[i] in blink && ring[Next(i, |ring|)] in blink && blink[ring[Next(i, |ring|)]] == ring[i]
  {
  }

  lemma Unlinked(flink: map<int, int>, blink: map<int, int>, e: int, b: seq<int>)
    requires Linked(flink, blink, [e] + b) && b != []
    ensures e in flink && e in blink
    ensures Linked(flink[blink[e] := flink[e]], blink[flink[e] := blink[e]], b)
  {
    hide NoDuplicates, Next;
    LinkedAt(flink, blink, [e] + b, 0);
    LinkedAt(flink, blink, [e] + b, |b|);
    LastOnce(e, b);
    AroundTheEnd(e, b);
    var flink', blink' := flink[b[|b| - 1] := b[0]], blink[b[0] := b[|b| - 1]];
    forall i | 0 <= i < |b|
      ensures b[i] in flink' && 0 <= Next(i, |b|) < |b| && flink'[b[i]] == b[Next(i, |b|)]
      ensures b[i] in blink' && b[Next(i, |b|)] in blink' && blink'[b[Next(i, |b|)]] == b[i]
    {
      UnlinkedAt(flink, blink, e, b, i);
    }
  }

  lemma AroundTheEnd(e: int, b: seq<int>)
    requires b != []
    ensures var ring := [e] + b;
            && ring[Next(0, |ring|)] == b[0] && ring[|b|] == b[|b| - 1] && ring[Next(|b|, |ring|)] == e && ring[0] == e
  {
  }

  lemma UnlinkedAt(flink: map<int, int>, blink: map<int, int>, e: int, b: seq<int>, i: int)
    requires Linked(flink, blink, [e] + b) && 0 <= i < |b| && NoDuplicates(b)
    requires (forall k | 0 <= k < |b| - 1 :: b[k] != b[|b| - 1]) && forall k | 0 < k < |b| :: b[k] != b[0]
    ensures var flink', blink' := flink[b[|b| - 1] := b[0]], blink[b[0] := b[|b| - 1]];
            && b[i] in flink' && 0 <= Next(i, |b|) < |b| && flink'[b[i]] == b[Next(i, |b|)]
            && b[i] in blink' && b[Next(i, |b|)] in blink' && blink'[b[Next(i, |b|)]] == b[i]
  {
    hide Linked, NoDuplicates;
    var ring := [e] + b;
    LinkedAt(flink, blink, ring, i + 1);
    assert ring[i + 1] == b[i];
    if i < |b| - 1 { assert ring[i + 2] == b[i + 1]; }
  }

  lemma LastOnce(e: int, b: seq<int>)
    requires NoDuplicates([e] + b) && b != []
    ensures NoDuplicates(b) && (forall i | 0 <= i < |b| - 1 :: b[i] != b[|b| - 1]) && forall i | 0 < i < |b| :: b[i] != b[0]
  {
    assert forall i | 0 <= i < |b| :: b[i] == ([e] + b)[i + 1];
  }

  /** InsertTailList: `e` goes in before `x`, which is behind the last of the others. */
  lemma LinkedBefore(flink: map<int, int>, blink: map<int, int>, x: int, t: seq<int>, e: int)
    requires Linked(flink, blink, [x] + t) && e !in [x] + t
    ensures x in blink
    ensures Linked(flink[e := x][blink[x] := e], blink[e := blink[x]][x := e], [x] + t + [e])
  {
    var ring, ring' := [x] + t, [x] + t + [e];
    var last := ring[|t|];
    assert Next(|t|, |ring|) == 0 && ring[0] == x;
    assert blink[x] == last;
    assert forall i | 0 <= i < |ring| :: ring'[i] == ring[i];
    var flink', blink' := flink[e := x][last := e], blink[e := last][x := e];
    forall i | 0 <= i < |ring'|
      ensures ring'[i] in flink' && flink'[ring'[i]] == ring'[Next(i, |ring'|)]
      ensures ring'[Next(i, |ring'|)] in blink' && blink'[ring'[Next(i, |ring'|)]] == ring'[i]
    {
      if i < |t| { assert flink[ring[i]] == ring[Next(i, |ring|)]; }
    }
  }

  /** InsertHeadList: `e` goes in behind `x`, which is before the entry that follows `x`. */
  lemma LinkedAfter(flink: map<int, int>, blink: map<int, int>, x: int, t: seq<int>, e: int)
    requires Linked(flink, blink, [x] + t) && e !in [x] + t
    ensures x in flink
    ensures Linked(flink[e := flink[x]][x := e], blink[e := x][flink[x] := e], [x] + [e] + t)
  {
    assert ([x] + t)[0] == x;
    if t == [] {
      assert [x] + t == [x] && [x] + [] + [e] == [x] + [e] + t;
      LinkedBefore(flink, blink, x, [], e);
    } else {
      assert flink[x] == t[0] && blink[t[0]] == x by { assert ([x] + t)[1] == t[0]; }
      hide Linked;
      Rotated(flink, blink, [x], t);
      assert t + [x] == [t[0]] + (t[1..] + [x]);
      LinkedBefore(flink, blink, t[0], t[1..] + [x], e);
      assert [t[0]] + (t[1..] + [x]) + [e] == t + ([x] + [e]);
      Rotated(flink[e := t[0]][x := e], blink[e := x][t[0] := e], t, [x] + [e]);
    }
  }

  datatype Item = WriteBehind(stream: int) | PostTick(id: int)

  function Items(streams: seq<int>): seq<Item> {
    seq(|streams|, i requires 0 <= i < |streams| => WriteBehind(streams[i]))
  }

  /** What the scan asks of a stream: `due` sums up its pass count and whether it is a temporary file, `closed`
      is an open count of zero, `everySixteenth` that the pass count has come round. */
  datatype Info = Info(
    dirtyPages: nat, due: bool, teardown: bool, closed: bool, emptyFile: bool, metadata: bool, everySixteenth: bool)

  predicate HasWork(x: Info, left: nat) {
    || (x.dirtyPages != 0 && (x.teardown || (left != 0 && x.due)))
    || (x.closed && x.dirtyPages == 0) || x.emptyFile
  }

  /** A large metadata stream is told to write an eighth. */
  function PagesToWrite(x: Info, smallSystem: bool): nat {
    if x.metadata && x.dirtyPages >= 64 && !smallSystem then x.dirtyPages / 8 else x.dirtyPages
  }

  /** The streams that a scan queues, from entry `i` of the ring on, with `left` pages still to be written. */
  ghost function Plan(order: seq<int>, i: nat, skip: set<int>, info: int -> Info, smallSystem: bool, left: nat, moved: bool): seq<int>
    requires i <= |order|
    decreases |order| - i
  {
    if i == |order| then []
    else if order[i] in skip || !HasWork(info(order[i]), left) then Plan(order, i + 1, skip, info, smallSystem, left, moved)
    else
      var pages := PagesToWrite(info(order[i]), smallSystem);
      [order[i]] + Plan(order, i + 1, skip, info, smallSystem,
                        if moved then left else if pages >= left then 0 else left - pages, moved || pages >= left)
  }

  /** Those of the streams that are awaited for teardown, or that are not. */
  function Those(streams: seq<int>, info: int -> Info, teardown: bool): seq<int> {
    if streams == [] then []
    else
      var last := streams[|streams| - 1];
      Those(streams[..|streams| - 1], info, teardown) + if info(last).teardown == teardown then [last] else []
  }

  /** The other entries, with the cursor in front of entry `p` (or behind the last). */
  function WithCursor(order: seq<int>, cursor: int, p: int): (ring: seq<int>)
    requires 0 <= p <= |order|
    ensures |ring| == |order| + 1 && ring[p] == cursor
  {
    order[..p] + [cursor] + order[p..]
  }

  /** The links run around that ring. */
  predicate Around(flink: map<int, int>, blink: map<int, int>, order: seq<int>, cursor: int, p: int) {
    0 <= p <= |order| && Linked(flink, blink, WithCursor(order, cursor, p))
  }

  function Place(p: int, i: int): int { if i < p then i else i + 1 }

  lemma RingAt(order: seq<int>, cursor: int, p: int, i: int)
    requires 0 <= p <= |order| && 0 <= i < |order|
    ensures WithCursor(order, cursor, p)[Place(p, i)] == order[i]
  {
  }

  lemma Follow(flink: map<int, int>, blink: map<int, int>, order: seq<int>, cursor: int, p: int, i: int)
    requires Around(flink, blink, order, cursor, p) && 0 <= i < |order|
    ensures order[i] in flink && order[i] != cursor
    ensures flink[order[i]] == if p == i + 1 then cursor else if i + 1 < |order| then order[i + 1]
                               else if p == 0 then cursor else order[0]
  {
    hide WithCursor, Linked, NoDuplicates;
    RingAt(order, cursor, p, i);
    RingAt(order, cursor, p, if i + 1 < |order| then i + 1 else 0);
    LinkedAt(flink, blink, WithCursor(order, cursor, p), Place(p, i));
    DistinctAt(order, cursor, p, i);
  }

  lemma DistinctAt(order: seq<int>, cursor: int, p: int, i: int)
    requires 0 <= p <= |order| && 0 <= i < |order| && NoDuplicates(WithCursor(order, cursor, p))
    ensures order[i] != cursor
  {
    hide WithCursor;
    RingAt(order, cursor, p, i);
    var ring := WithCursor(order, cursor, p);
    assert ring[p] == cursor && ring[Place(p, i)] == order[i];
  }

  lemma FollowCursor(flink: map<int, int>, blink: map<int, int>, order: seq<int>, cursor: int)
    requires Around(flink, blink, order, cursor, |order|) && order != []
    ensures cursor in flink && flink[cursor] == order[0]
  {
    RingAt(order, cursor, |order|, 0);
    LinkedAt(flink, blink, WithCursor(order, cursor, |order|), |order|);
  }

  lemma Distinct(flink: map<int, int>, blink: map<int, int>, order: seq<int>, cursor: int, p: int)
    requires Around(flink, blink, order, cursor, p)
    ensures cursor !in order && NoDuplicates(order)
  {
    hide WithCursor, Place, Linked;
    LinkedAt(flink, blink, WithCursor(order, cursor, p), p);
    forall i | 0 <= i < |order| ensures order[i] != cursor {
      DistinctAt(order, cursor, p, i);
    }
    forall i, j | 0 <= i < j < |order| ensures order[i] != order[j] {
      RingAt(order, cursor, p, i);
      RingAt(order, cursor, p, j);
      PlacesDiffer(p, i, j, |order|);
    }
  }

  lemma PlacesDiffer(p: int, i: int, j: int, n: int)
    requires 0 <= i < j < n
    ensures 0 <= Place(p, i) < Place(p, j) < n + 1
  {
  }

  /** Unlinking the cursor leaves the ring of the others. */
  lemma CursorUnlinked(flink: map<int, int>, blink: map<int, int>, order: seq<int>, cursor: int, p: int)
    requires Around(flink, blink, order, cursor, p) && order != []
    ensures cursor in flink && cursor in blink
    ensures Linked(flink[blink[cursor] := flink[cursor]], blink[flink[cursor] := blink[cursor]], order)
  {
    hide Linked;
    var a, b := order[..p], order[p..];
    assert order == a + b;
    assert a + [cursor] + b == a + ([cursor] + b);
    Rotated(flink, blink, a, [cursor] + b);
    assert [cursor] + b + a == [cursor] + (b + a);
    Unlinked(flink, blink, cursor, b + a);
    Rotated(flink[blink[cursor] := flink[cursor]], blink[flink[cursor] := blink[cursor]], b, a);
  }

  /** The same ring, seen from entry `i`. */
  lemma SeenFrom(flink: map<int, int>, blink: map<int, int>, order: seq<int>, i: int)
    requires Linked(flink, blink, order) && 0 <= i < |order|
    ensures Linked(flink, blink, [order[i]] + (order[i + 1..] + order[..i]))
  {
    hide Linked;
    assert order == order[..i] + order[i..];
    Rotated(flink, blink, order[..i], order[i..]);
    assert order[i..] + order[..i] == [order[i]] + (order[i + 1..] + order[..i]);
  }

  lemma CursorBefore(flink: map<int, int>, blink: map<int, int>, order: seq<int>, cursor: int, i: int)
    requires Linked(flink, blink, order) && 0 <= i < |order| && cursor !in order
    ensures order[i] in blink
    ensures Around(flink[cursor := order[i]][blink[order[i]] := cursor], blink[cursor := blink[order[i]]][order[i] := cursor], order, cursor, i)
  {
    hide Linked;
    SeenFrom(flink, blink, order, i);
    var x, t := order[i], order[i + 1..] + order[..i];
    assert cursor !in [x] + t;
    LinkedBefore(flink, blink, x, t, cursor);
    var flink', blink' := flink[cursor := x][blink[x] := cursor], blink[cursor := blink[x]][x := cursor];
    assert [x] + t + [cursor] == order[i..] + (order[..i] + [cursor]);
    Rotated(flink', blink', order[i..], order[..i] + [cursor]);
  }

  lemma CursorAfter(flink: map<int, int>, blink: map<int, int>, order: seq<int>, cursor: int, i: int)
    requires Linked(flink, blink, order) && 0 <= i < |order| && cursor !in order
    ensures order[i] in flink
    ensures Around(flink[cursor := flink[order[i]]][order[i] := cursor], blink[cursor := order[i]][flink[order[i]] := cursor], order, cursor, i + 1)
  {
    hide Linked;
    SeenFrom(flink, blink, order, i);
    var x, t := order[i], order[i + 1..] + order[..i];
    assert cursor !in [x] + t;
    LinkedAfter(flink, blink, x, t, cursor);
    var flink', blink' := flink[cursor := flink[x]][x := cursor], blink[cursor := x][flink[x] := cursor];
    assert [x] + [cursor] + t == ([x] + [cursor] + order[i + 1..]) + order[..i];
    Rotated(flink', blink', [x] + [cursor] + order[i + 1..], order[..i]);
    assert order[..i] + ([x] + [cursor] + order[i + 1..]) == order[..i + 1] + [cursor] + order[i + 1..];
  }

  /** A WriteBehind has been posted for each queued stream, in that order and to the right queue. */
  ghost predicate PostedAll(wasExpress: seq<Item>, wasRegular: seq<Item>, wasQueued: set<int>, express: seq<Item>, regular: seq<Item>,
                            writeQueued: set<int>, queued: seq<int>, info: int -> Info) {
    && express == wasExpress + Items(Those(queued, info, true)) && regular == wasRegular + Items(Those(queued, info, false))
    && writeQueued == wasQueued + Elements(queued)
  }

  lemma NonePosted(express: seq<Item>, regular: seq<Item>, writeQueued: set<int>, info: int -> Info)
    ensures PostedAll(express, regular, writeQueued, express, regular, writeQueued, [], info)
  {
    assert Those([], info, true) == [] && Those([], info, false) == [];
  }

  lemma PostedIs(wasExpress: seq<Item>, wasRegular: seq<Item>, wasQueued: set<int>, express: seq<Item>, regular: seq<Item>,
                 writeQueued: set<int>, queued: seq<int>, info: int -> Info)
    requires PostedAll(wasExpress, wasRegular, wasQueued, express, regular, writeQueued, queued, info)
    ensures express == wasExpress + Items(Those(queued, info, true)) && regular == wasRegular + Items(Those(queued, info, false))
    ensures writeQueued == wasQueued + Elements(queued)
  {
  }

  lemma PostedMore(wasExpress: seq<Item>, wasRegular: seq<Item>, wasQueued: set<int>, express: seq<Item>, regular: seq<Item>,
                   writeQueued: set<int>, queued: seq<int>, stream: int, info: int -> Info)
    requires PostedAll(wasExpress, wasRegular, wasQueued, express, regular, writeQueued, queued, info)
    ensures PostedAll(wasExpress, wasRegular, wasQueued, express + (if info(stream).teardown then [WriteBehind(stream)] else []),
                      regular + (if info(stream).teardown then [] else [WriteBehind(stream)]), writeQueued + {stream},
                      queued + [stream], info)
  {
    hide Items, Those, Elements;
    ElementsMore(queued, stream);
    ThoseMore(queued, stream, info);
  }

  /** There was memory for the work item of each. */
  ghost predicate AllAllocated(queued: seq<int>, allocates: int -> bool) {
    forall k | 0 <= k < |queued| :: allocates(queued[k])
  }

  lemma NoneAllocated(allocates: int -> bool)
    ensures AllAllocated([], allocates)
  {
  }

  lemma AllocatedMore(queued: seq<int>, stream: int, allocates: int -> bool)
    requires AllAllocated(queued, allocates) && allocates(stream)
    ensures AllAllocated(queued + [stream], allocates)
  {
  }

  class LazyWriter {
    const cursor: int                             // CcLazyWriterCursor
    const head: int                               // CcDirtySharedCacheMapList
    var flink: map<int, int>
    var blink: map<int, int>
    var express: seq<Item>
    var regular: seq<Item>
    var writeQueued: set<int>                     // streams with WRITE_QUEUED set

    constructor (cursor: int, head: int)
      requires cursor != head
      ensures this.cursor == cursor && this.head == head && express == regular == [] && writeQueued == {}
      ensures Around(flink, blink, [head], cursor, 1)
    {
      this.cursor, this.head := cursor, head;
      flink, blink := map[head := cursor, cursor := head], map[head := cursor, cursor := head];
      express, regular, writeQueued := [], [], {};
    }

    method RemoveCursor(ghost order: seq<int>, ghost p: int)
      requires Around(flink, blink, order, cursor, p) && order != []
      modifies this`flink, this`blink
      ensures Linked(flink, blink, order) && cursor !in order
    {
      Distinct(flink, blink, order, cursor, p);
      CursorUnlinked(flink, blink, order, cursor, p);
      hide Linked;
      var next, previous := flink[cursor], blink[cursor];
      flink, blink := flink[previous := next], blink[next := previous];
    }

    method MoveCursorBefore(stream: int, ghost order: seq<int>, ghost p: int, ghost i: int)
      requires Around(flink, blink, order, cursor, p) && 0 <= i < |order| && order[i] == stream
      modifies this`flink, this`blink
      ensures Around(flink, blink, order, cursor, i)
    {
      hide Around, Linked;
      RemoveCursor(order, p);
      CursorBefore(flink, blink, order, cursor, i);
      var previous := blink[stream];
      flink := flink[cursor := stream][previous := cursor];
      blink := blink[cursor := previous][stream := cursor];
    }

    method MoveCursorBehind(stream: int, ghost order: seq<int>, ghost p: int, ghost i: int)
      requires Around(flink, blink, order, cursor, p) && 0 <= i < |order| && order[i] == stream
      modifies this`flink, this`blink
      ensures Around(flink, blink, order, cursor, i + 1)
    {
      hide Around, Linked;
      RemoveCursor(order, p);
      CursorAfter(flink, blink, order, cursor, i);
      var next := flink[stream];
      flink := flink[cursor := next][stream := cursor];
      blink := blink[cursor := stream][next := cursor];
    }

    /** What CcLazyWriteScan does with a stream that has work for it: count its pages against what is still to
        be written, and when they exhaust that, put the cursor before it, or remember to put it behind. */
    method CountPages(stream: int, pages: nat, behind: bool, left: nat, alreadyMoved: bool, ghost order: seq<int>, ghost i: int)
      returns (nowLeft: nat, moved: bool, moveBehind: bool, ghost p: int)
      requires 0 <= i < |order| && order[i] == stream && (!alreadyMoved ==> Around(flink, blink, order, cursor, |order|))
      modifies this`flink, this`blink
      ensures alreadyMoved ==> moved && !moveBehind && nowLeft == left && flink == old(flink) && blink == old(blink)
      ensures !alreadyMoved ==> (moved <==> pages >= left) && nowLeft == (if moved then 0 else left - pages)
      ensures !alreadyMoved ==> p == (if moved && !behind then i else |order|) && Around(flink, blink, order, cursor, p)
      ensures moveBehind <==> moved && !alreadyMoved && behind
    {
      hide Around;
      nowLeft, moved, moveBehind, p := left, alreadyMoved, false, |order|;
      if !alreadyMoved {
        if pages >= left {
          if behind {
            moveBehind := true;
          } else {
            MoveCursorBefore(stream, order, |order|, i);
            p := i;
          }
          nowLeft, moved := 0, true;
        } else {
          nowLeft := left - pages;
        }
      }
    }

    method Post(stream: int, teardown: bool)
      modifies this`express, this`regular
      ensures express == old(express) + if teardown then [WriteBehind(stream)] else []
      ensures regular == old(regular) + if teardown then [] else [WriteBehind(stream)]
    {
      if teardown {
        express := express + [WriteBehind(stream)];
      } else {
        regular := regular + [WriteBehind(stream)];
      }
    }

    /** Counts the stream's pages, and queues it, on the express queue if it is awaited for teardown. */
    method QueueStream(stream: int, isFirst: bool, info: int -> Info, smallSystem: bool, left: nat, alreadyMoved: bool,
                       allocates: int -> bool,
                       ghost order: seq<int>, ghost i: nat, ghost p: int, ghost mark: int, ghost counted: seq<int>,
                       ghost queued: seq<int>, ghost target: nat,
                       ghost wasExpress: seq<Item>, ghost wasRegular: seq<Item>, ghost wasQueued: set<int>)
      returns (memory: bool, nowLeft: nat, moved: bool, moveBehind: bool, ghost p': int, ghost mark': int, ghost counted': seq<int>)
      requires i < |order| && order[i] == stream && (isFirst <==> i == 0) && Around(flink, blink, order, cursor, p)
      requires if alreadyMoved then 0 <= mark < i && p == PlaceOfCursor(order, mark, info) else mark == -1 && p == |order|
      requires !alreadyMoved ==> left + Pages(queued, info, smallSystem) == target && (queued == [] || left > 0)
      requires MarksExhausted(order, mark, counted, queued, info, smallSystem, target)
      requires PostedAll(wasExpress, wasRegular, wasQueued, express, regular, writeQueued, queued, info)
      modifies this`flink, this`blink, this`express, this`regular, this`writeQueued
      ensures Around(flink, blink, order, cursor, p')
      ensures var pages := PagesToWrite(info(stream), smallSystem);
              && nowLeft == (if alreadyMoved then left else if pages >= left then 0 else left - pages)
              && moved == (alreadyMoved || pages >= left)
      ensures moveBehind ==> moved && p' == |order| && mark' == i && PlaceOfCursor(order, i, info) == i + 1
      ensures moved && !moveBehind ==> 0 <= mark' <= i && p' == PlaceOfCursor(order, mark', info) && p' <= i
      ensures !moved ==> mark' == -1 && p' == |order| && nowLeft > 0 &&
                         nowLeft + Pages(queued + [stream], info, smallSystem) == target
      ensures memory ==> MarksExhausted(order, mark', counted', queued + [stream], info, smallSystem, target)
      ensures PostedAll(wasExpress, wasRegular, wasQueued, express, regular, writeQueued, if memory then queued + [stream] else queued, info)
      ensures writeQueued == if memory then old(writeQueued) + {stream} else old(writeQueued)
      ensures memory == allocates(stream)
    {
      hide Around, Pages, PagesToWrite, MarksExhausted, PlaceOfCursor, PostedAll;
      PagesMore(queued, stream, info, smallSystem);
      PlaceOf(order, i, info);
      if alreadyMoved { PlaceOf(order, mark, info); }
      var behind := info(stream).metadata || (isFirst && info(stream).everySixteenth);
      nowLeft, moved, moveBehind, p' :=
        CountPages(stream, PagesToWrite(info(stream), smallSystem), behind, left, alreadyMoved, order, i);
      p' := if alreadyMoved then p else p';
      mark' := if moved && !alreadyMoved then i else mark;
      MarkStep(order, i, mark', alreadyMoved, counted, queued, stream, info, smallSystem, target);
      counted' := if mark' == -1 then queued + [stream] else counted;
      memory := allocates(stream);
      if memory {
        PostedMore(wasExpress, wasRegular, wasQueued, express, regular, writeQueued, queued, stream, info);
        writeQueued := writeQueued + {stream};
        Post(stream, info(stream).teardown);
      }
    }

    /** One scan with nobody changing the ring meanwhile. It visits every entry of the ring exactly once, in
        ring order: it queues exactly the streams of the plan over the whole ring, on the queue each belongs
        to, and the post-tick items last. Those are the streams that deserve it, by what was left to be written
        when their turn came. If it cannot allocate a work item it gives up on the way, at entry `upTo`. The ring
        stays as it was, but for the cursor: that stays, or goes to the front or the back of the stream whose
        pages exhaust the target. */
    method Scan(pagesToWrite: nat, info: int -> Info, smallSystem: bool, allocates: int -> bool, postTick: seq<Item>, ghost order: seq<int>)
      returns (outOfMemory: bool, ghost queued: seq<int>, ghost p: int, ghost mark: int, ghost counted: seq<int>, ghost upTo: nat)
      requires Around(flink, blink, order, cursor, |order|) && head in order
      modifies this
      ensures var plan := Plan(order, 0, old(writeQueued) + {head}, info, smallSystem, pagesToWrite, false);
              if outOfMemory then queued < plan else queued == plan
      ensures express == old(express) + Items(Those(queued, info, true))
      ensures regular == old(regular) + Items(Those(queued, info, false)) + postTick
      ensures writeQueued == old(writeQueued) + Elements(queued)
      ensures Around(flink, blink, order, cursor, p)
      ensures if mark == -1 then p == |order| else 0 <= mark < |order| && (outOfMemory || p == PlaceOfCursor(order, mark, info))
      ensures !outOfMemory ==> MarksExhausted(order, mark, counted, queued, info, smallSystem, pagesToWrite)
      ensures if outOfMemory then upTo < |order| else upTo == |order|
      ensures forall k | 0 <= k < upTo ::
                order[k] in queued <==>
                  order[k] !in old(writeQueued) && order[k] != head &&
                  Deserves(info(order[k]), Pages(Before(order, k, queued), info, smallSystem) < pagesToWrite)
      ensures forall k | upTo <= k < |order| :: order[k] !in queued
      ensures AllAllocated(queued, allocates)
      ensures outOfMemory ==> !allocates(order[upTo]) && order[upTo] !in old(writeQueued) && order[upTo] != head &&
                              Deserves(info(order[upTo]), Pages(queued, info, smallSystem) < pagesToWrite)
    {
      hide Around, NoDuplicates, Pages, Plan, Those, HasWork, PagesToWrite, Items, MarksExhausted, PlaceOfCursor, Elements, OnPlan, Deserves, Before, AllAllocated, PostedAll;
      FollowCursor(flink, blink, order, cursor);
      Distinct(flink, blink, order, cursor, |order|);
      ghost var skip, plan := writeQueued + {head}, Plan(order, 0, writeQueued + {head}, info, smallSystem, pagesToWrite, false);
      var stream := flink[cursor];
      var firstVisited, first, alreadyMoved, moveBehind := false, cursor, false, false;
      var left: nat := pagesToWrite;
      ghost var i := 0;
      queued, counted, p, mark, outOfMemory, upTo := [], [], |order|, -1, false, 0;
      NothingQueued(order, info, smallSystem, pagesToWrite);
      NoneAllocated(allocates);
      NonePosted(express, regular, writeQueued, info);
      OnPlanBegins(order, skip, info, smallSystem, pagesToWrite);
      while !(firstVisited && stream == first) && stream != cursor
        invariant 0 <= i <= |order| && (firstVisited <==> i > 0) && (firstVisited ==> first == order[0])
        invariant !moveBehind && !outOfMemory
        invariant i < |order| ==> stream == order[i]
        invariant i == |order| ==> stream == cursor || stream == order[0]
        invariant Around(flink, blink, order, cursor, p) && (if alreadyMoved then p <= i else p == |order|)
        invariant OnPlan(plan, order, i, skip, info, smallSystem, pagesToWrite, left, alreadyMoved, queued)
        invariant writeQueued == old(writeQueued) + Elements(queued) && AllAllocated(queued, allocates)
        invariant if alreadyMoved then 0 <= mark < i && p == PlaceOfCursor(order, mark, info) else mark == -1
        invariant MarksExhausted(order, mark, counted, queued, info, smallSystem, pagesToWrite)
        invariant !alreadyMoved ==> left + Pages(queued, info, smallSystem) == pagesToWrite && (queued == [] || left > 0)
        invariant PostedAll(old(express), old(regular), old(writeQueued), express, regular, writeQueued, queued, info)
        decreases |order| - i
      {
        if !firstVisited {
          firstVisited, first := true, stream;
        }
        OnPlanStep(plan, order, i, skip, info, smallSystem, pagesToWrite, left, alreadyMoved, queued);
        if stream !in writeQueued && stream != head && HasWork(info(stream), left) {
          var memory, wasLeft, wasMoved := false, left, alreadyMoved;
          memory, left, alreadyMoved, moveBehind, p, mark, counted :=
            QueueStream(stream, first == stream, info, smallSystem, left, alreadyMoved, allocates, order, i, p, mark, counted, queued, pagesToWrite,
                        old(express), old(regular), old(writeQueued));
          if !memory {
            outOfMemory, left, alreadyMoved := true, wasLeft, wasMoved;
            break;
          }
          ElementsMore(queued, stream);
          AllocatedMore(queued, stream, allocates);
          queued := queued + [stream];
        }
        Follow(flink, blink, order, cursor, p, i);
        var next := flink[stream];
        if moveBehind {
          MoveCursorBehind(stream, order, p, i);
          p, moveBehind := i + 1, false;
        }
        stream, i := next, i + 1;
      }
      if !outOfMemory {
        NotYetBack(order, i, stream, cursor);
      }
      upTo := i;
      OnPlanEnds(plan, order, i, skip, info, smallSystem, pagesToWrite, left, alreadyMoved, queued);
      PostedIs(old(express), old(regular), old(writeQueued), express, regular, writeQueued, queued, info);
      regular := regular + postTick;
    }
  }

  /** In front of the stream, or behind a metadata stream, or behind the first one every sixteenth time. */
  function PlaceOfCursor(order: seq<int>, mark: int, info: int -> Info): int
    requires 0 <= mark < |order|
  {
    if info(order[mark]).metadata || (mark == 0 && info(order[mark]).everySixteenth) then mark + 1 else mark
  }

  lemma PlaceOf(order: seq<int>, i: int, info: int -> Info)
    requires 0 <= i < |order|
    ensures PlaceOfCursor(order, i, info) ==
              if info(order[i]).metadata || (i == 0 && info(order[i]).everySixteenth) then i + 1 else i
  {
  }

  /** `counted` are the streams queued before the one at `mark`, whose pages exhaust the target; without such a
      one they are all that were queued. */
  ghost predicate MarksExhausted(order: seq<int>, mark: int, counted: seq<int>, queued: seq<int>,
                                 info: int -> Info, smallSystem: bool, target: nat) {
    && (counted == [] || Pages(counted, info, smallSystem) < target)
    && if mark == -1 then counted == queued
       else 0 <= mark < |order| && counted + [order[mark]] <= queued &&
            Pages(counted, info, smallSystem) + PagesToWrite(info(order[mark]), smallSystem) >= target
  }

  /** One more stream is queued: it is the marked one, or one behind that, or there is none yet. */
  lemma MarkStep(order: seq<int>, i: nat, mark: int, was: bool, counted: seq<int>, queued: seq<int>, s: int,
                 info: int -> Info, smallSystem: bool, target: nat)
    requires i < |order| && s == order[i] && -1 <= mark < |order| && (was ==> mark != -1)
    requires MarksExhausted(order, if was then mark else -1, counted, queued, info, smallSystem, target)
    requires !was && mark != -1 ==> mark == i && Pages(queued, info, smallSystem) + PagesToWrite(info(s), smallSystem) >= target
    requires !was && mark == -1 ==> Pages(queued + [s], info, smallSystem) < target
    ensures MarksExhausted(order, mark, if mark == -1 then queued + [s] else counted, queued + [s], info, smallSystem, target)
  {
    hide Pages;
    assert queued <= queued + [s];
  }

  function Pages(streams: seq<int>, info: int -> Info, smallSystem: bool): nat {
    if streams == [] then 0
    else Pages(streams[..|streams| - 1], info, smallSystem) + PagesToWrite(info(streams[|streams| - 1]), smallSystem)
  }

  lemma PagesMore(streams: seq<int>, s: int, info: int -> Info, smallSystem: bool)
    ensures Pages(streams + [s], info, smallSystem) == Pages(streams, info, smallSystem) + PagesToWrite(info(s), smallSystem)
  {
    assert (streams + [s])[..|streams|] == streams;
  }

  ghost function Elements(q: seq<int>): set<int> {
    set x | x in q
  }

  lemma ElementsMore(q: seq<int>, s: int)
    ensures Elements(q + [s]) == Elements(q) + {s}
  {
  }

  lemma NothingQueued(order: seq<int>, info: int -> Info, smallSystem: bool, target: nat)
    ensures Pages([], info, smallSystem) == 0 && Elements([]) == {}
    ensures MarksExhausted(order, -1, [], [], info, smallSystem, target)
    ensures forall teardown :: Those([], info, teardown) == [] && Items(Those([], info, teardown)) == []
  {
  }

  lemma ItemsMore(streams: seq<int>, s: int)
    ensures Items(streams + [s]) == Items(streams) + [WriteBehind(s)]
  {
  }

  lemma ThoseMore(streams: seq<int>, s: int, info: int -> Info)
    ensures forall teardown :: Items(Those(streams + [s], info, teardown)) ==
              Items(Those(streams, info, teardown)) + if info(s).teardown == teardown then [WriteBehind(s)] else []
  {
    assert (streams + [s])[..|streams|] == streams;
    forall teardown
      ensures Items(Those(streams + [s], info, teardown)) ==
                Items(Those(streams, info, teardown)) + if info(s).teardown == teardown then [WriteBehind(s)] else []
    {
      ItemsMore(Those(streams, info, teardown), s);
    }
  }

  /** The streams among the first `k` of the ring that are queued. */
  function Before(order: seq<int>, k: nat, queued: seq<int>): seq<int>
    requires k <= |order|
  {
    if k == 0 then [] else Before(order, k - 1, queued) + if order[k - 1] in queued then [order[k - 1]] else []
  }

  /** What the scan asks of a stream that is not queued already: dirty pages and that it is awaited for teardown, or
      is due while there are pages left to be written; or that it is closed and clean, or its file is empty. */
  predicate Deserves(x: Info, some: bool) {
    || (x.dirtyPages != 0 && x.teardown)
    || (x.dirtyPages != 0 && x.due && some)
    || (x.dirtyPages == 0 && x.closed)
    || x.emptyFile
  }

  /** The scan has picked right among the first `i` entries. */
  ghost predicate Picked(order: seq<int>, i: nat, skip: set<int>, info: int -> Info, smallSystem: bool, target: nat, queued: seq<int>) {
    && i <= |order| && Before(order, i, queued) == queued
    && (forall k | 0 <= k < i :: PickedAt(order, k, skip, info, smallSystem, target, queued))
    && (forall k | i <= k < |order| :: order[k] !in queued)
  }

  ghost predicate PickedAt(order: seq<int>, k: nat, skip: set<int>, info: int -> Info, smallSystem: bool, target: nat, queued: seq<int>)
    requires k < |order|
  {
    order[k] in queued <==> order[k] !in skip && Deserves(info(order[k]), Pages(Before(order, k, queued), info, smallSystem) < target)
  }

  /** And it knows how much is left to be written. */
  ghost predicate Picking(order: seq<int>, i: nat, skip: set<int>, info: int -> Info, smallSystem: bool, target: nat,
                          left: nat, moved: bool, queued: seq<int>) {
    && Picked(order, i, skip, info, smallSystem, target, queued)
    && if moved then left == 0 && Pages(queued, info, smallSystem) >= target
       else left + Pages(queued, info, smallSystem) == target
  }

  lemma PickingBegins(order: seq<int>, skip: set<int>, info: int -> Info, smallSystem: bool, target: nat)
    ensures Picking(order, 0, skip, info, smallSystem, target, target, false, [])
  {
  }

  lemma {:induction false} BeforeMore(order: seq<int>, k: nat, queued: seq<int>, s: int)
    requires k <= |order| && forall j | 0 <= j < k :: order[j] != s
    ensures Before(order, k, queued + [s]) == Before(order, k, queued)
  {
    if k > 0 { BeforeMore(order, k - 1, queued, s); }
  }

  lemma PickStep(order: seq<int>, i: nat, skip: set<int>, info: int -> Info, smallSystem: bool, target: nat,
                 left: nat, moved: bool, queued: seq<int>)
    requires Picking(order, i, skip, info, smallSystem, target, left, moved, queued) && i < |order| && NoDuplicates(order)
    ensures HasWork(info(order[i]), left) <==> Deserves(info(order[i]), Pages(queued, info, smallSystem) < target)
    ensures if order[i] in skip || !HasWork(info(order[i]), left)
            then Picking(order, i + 1, skip, info, smallSystem, target, left, moved, queued)
            else
              var pages := PagesToWrite(info(order[i]), smallSystem);
              Picking(order, i + 1, skip, info, smallSystem, target,
                      if moved then left else if pages >= left then 0 else left - pages, moved || pages >= left, queued + [order[i]])
  {
    LeftIs(info(order[i]), left, moved, Pages(queued, info, smallSystem), target);
    PagesMore(queued, order[i], info, smallSystem);
    hide HasWork, Deserves, PagesToWrite, Pages, NoDuplicates, Picked;
    if order[i] in skip || !HasWork(info(order[i]), left) {
      PickNone(order, i, skip, info, smallSystem, target, queued);
    } else {
      PickOne(order, i, skip, info, smallSystem, target, queued, queued + [order[i]]);
    }
  }

  lemma PickNone(order: seq<int>, i: nat, skip: set<int>, info: int -> Info, smallSystem: bool, target: nat, queued: seq<int>)
    requires Picked(order, i, skip, info, smallSystem, target, queued) && i < |order|
    requires order[i] in skip || !Deserves(info(order[i]), Pages(queued, info, smallSystem) < target)
    ensures Picked(order, i + 1, skip, info, smallSystem, target, queued)
  {
    hide Deserves, Pages;
  }

  lemma LeftIs(x: Info, left: nat, moved: bool, pages: nat, target: nat)
    requires if moved then left == 0 && pages >= target else left + pages == target
    ensures HasWork(x, left) <==> Deserves(x, pages < target)
  {
  }

  lemma NotBefore(order: seq<int>, i: nat)
    requires NoDuplicates(order) && i < |order|
    ensures forall k | 0 <= k < |order| && k != i :: order[k] != order[i]
  {
  }

  lemma PickOne(order: seq<int>, i: nat, skip: set<int>, info: int -> Info, smallSystem: bool, target: nat, was: seq<int>, now: seq<int>)
    requires Picked(order, i, skip, info, smallSystem, target, was) && i < |order| && now == was + [order[i]] && NoDuplicates(order)
    requires order[i] !in skip && Deserves(info(order[i]), Pages(was, info, smallSystem) < target)
    ensures Picked(order, i + 1, skip, info, smallSystem, target, now)
  {
    NotBefore(order, i);
    BeforeMore(order, i, was, order[i]);
    assert now[|was|] == order[i];
    assert Before(order, i + 1, now) == Before(order, i, now) + [order[i]];
    hide Before, Deserves, Pages, NoDuplicates;
    forall k | 0 <= k < i + 1 ensures PickedAt(order, k, skip, info, smallSystem, target, now) {
      BeforeMore(order, k, was, order[i]);
      if k < i { assert PickedAt(order, k, skip, info, smallSystem, target, was); }
    }
  }

  /** So far the scan has followed the plan, and queued what deserves it. */
  ghost predicate OnPlan(plan: seq<int>, order: seq<int>, i: int, skip: set<int>, info: int -> Info, smallSystem: bool, target: nat,
                         left: nat, moved: bool, queued: seq<int>) {
    && Follows(plan, order, i, skip, info, smallSystem, left, moved, queued)
    && Picking(order, i, skip, info, smallSystem, target, left, moved, queued)
  }

  lemma OnPlanBegins(order: seq<int>, skip: set<int>, info: int -> Info, smallSystem: bool, target: nat)
    ensures OnPlan(Plan(order, 0, skip, info, smallSystem, target, false), order, 0, skip, info, smallSystem, target, target, false, [])
  {
    FollowBegins(order, skip, info, smallSystem, target);
    PickingBegins(order, skip, info, smallSystem, target);
  }

  lemma OnPlanStep(plan: seq<int>, order: seq<int>, i: nat, skip: set<int>, info: int -> Info, smallSystem: bool, target: nat,
                   left: nat, moved: bool, queued: seq<int>)
    requires OnPlan(plan, order, i, skip, info, smallSystem, target, left, moved, queued) && i < |order| && NoDuplicates(order)
    ensures order[i] !in Elements(queued) && (i > 0 ==> order[i] != order[0])
    ensures if order[i] in skip || !HasWork(info(order[i]), left)
            then OnPlan(plan, order, i + 1, skip, info, smallSystem, target, left, moved, queued)
            else
              var pages := PagesToWrite(info(order[i]), smallSystem);
              var left' := if moved then left else if pages >= left then 0 else left - pages;
              queued < plan &&
              OnPlan(plan, order, i + 1, skip, info, smallSystem, target, left', moved || pages >= left, queued + [order[i]])
  {
    hide Follows, Picking;
    FollowStep(plan, order, i, skip, info, smallSystem, left, moved, queued);
    PickStep(order, i, skip, info, smallSystem, target, left, moved, queued);
  }

  lemma OnPlanEnds(plan: seq<int>, order: seq<int>, i: nat, skip: set<int>, info: int -> Info, smallSystem: bool, target: nat,
                   left: nat, moved: bool, queued: seq<int>)
    requires OnPlan(plan, order, i, skip, info, smallSystem, target, left, moved, queued)
    ensures i == |order| ==> queued == plan
    ensures forall k | 0 <= k < i ::
              order[k] in queued <==> order[k] !in skip && Deserves(info(order[k]), Pages(Before(order, k, queued), info, smallSystem) < target)
    ensures forall k | i <= k < |order| :: order[k] !in queued
    ensures i < |order| ==> (HasWork(info(order[i]), left) <==> Deserves(info(order[i]), Pages(queued, info, smallSystem) < target))
  {
    hide Follows, Picking, HasWork, Deserves, Pages, Before;
    PickingEnds(order, i, skip, info, smallSystem, target, left, moved, queued);
    if i == |order| { FollowEnds(plan, order, skip, info, smallSystem, left, moved, queued); }
  }

  lemma PickingEnds(order: seq<int>, i: nat, skip: set<int>, info: int -> Info, smallSystem: bool, target: nat,
                    left: nat, moved: bool, queued: seq<int>)
    requires Picking(order, i, skip, info, smallSystem, target, left, moved, queued)
    ensures forall k | 0 <= k < i ::
              order[k] in queued <==> order[k] !in skip && Deserves(info(order[k]), Pages(Before(order, k, queued), info, smallSystem) < target)
    ensures forall k | i <= k < |order| :: order[k] !in queued
    ensures i < |order| ==> (HasWork(info(order[i]), left) <==> Deserves(info(order[i]), Pages(queued, info, smallSystem) < target))
  {
    if i < |order| { LeftIs(info(order[i]), left, moved, Pages(queued, info, smallSystem), target); }
    hide Before, Deserves, Pages, HasWork;
    forall k | 0 <= k < i
      ensures order[k] in queued <==> order[k] !in skip && Deserves(info(order[k]), Pages(Before(order, k, queued), info, smallSystem) < target)
    {
      assert PickedAt(order, k, skip, info, smallSystem, target, queued);
    }
  }

  /** What a stream is told to write: everything, or of a large metadata stream an eighth, but never nothing. */
  lemma EighthOrAll(x: Info, smallSystem: bool)
    ensures var pages := PagesToWrite(x, smallSystem);
            && (if x.metadata && x.dirtyPages >= 64 && !smallSystem then 8 * pages <= x.dirtyPages < 8 * pages + 8
                else pages == x.dirtyPages)
            && (x.dirtyPages > 0 <==> pages > 0)
  {
  }

  /** The plan covers the whole ring: a stream that has work even when no more pages are to be written (a lazy
      close, or a teardown) is in it wherever it stands, and no stream is in it twice. */
  lemma {:induction false} PlanCoversRing(order: seq<int>, i: nat, skip: set<int>, info: int -> Info, smallSystem: bool,
                                          left: nat, moved: bool, k: int)
    requires i <= k < |order| && NoDuplicates(order)
    ensures order[k] !in skip && HasWork(info(order[k]), 0) ==> order[k] in Plan(order, i, skip, info, smallSystem, left, moved)
    ensures order[k] in skip ==> order[k] !in Plan(order, i, skip, info, smallSystem, left, moved)
    decreases |order| - i
  {
    var work := !(order[i] in skip || !HasWork(info(order[i]), left));
    var pages := PagesToWrite(info(order[i]), smallSystem);
    var left' := if moved || !work then left else if pages >= left then 0 else left - pages;
    var moved' := moved || (work && pages >= left);
    if i < k {
      PlanCoversRing(order, i + 1, skip, info, smallSystem, left', moved', k);
    } else {
      PlanStaysAhead(order, i + 1, skip, info, smallSystem, left', moved');
    }
  }

  lemma {:induction false} PlanStaysAhead(order: seq<int>, i: nat, skip: set<int>, info: int -> Info, smallSystem: bool, left: nat, moved: bool)
    requires i <= |order| && NoDuplicates(order)
    ensures var plan := Plan(order, i, skip, info, smallSystem, left, moved);
            NoDuplicates(plan) && forall j | 0 <= j < |plan| :: plan[j] in order[i..]
    decreases |order| - i
  {
    if i < |order| {
      var work := !(order[i] in skip || !HasWork(info(order[i]), left));
      var pages := PagesToWrite(info(order[i]), smallSystem);
      PlanStaysAhead(order, i + 1, skip, info, smallSystem,
                     if moved || !work then left else if pages >= left then 0 else left - pages, moved || (work && pages >= left));
      assert order[i..] == [order[i]] + order[i + 1..];
    }
  }

  /** The scan is at entry `i`, has queued what the plan said so far, and the rest of the plan is ahead. */
  ghost predicate Follows(plan: seq<int>, order: seq<int>, i: int, skip: set<int>, info: int -> Info, smallSystem: bool,
                          left: nat, moved: bool, queued: seq<int>) {
    && 0 <= i <= |order| && plan == queued + Plan(order, i, skip, info, smallSystem, left, moved)
    && forall k | 0 <= k < |queued| :: queued[k] in order[..i]
  }

  lemma FollowBegins(order: seq<int>, skip: set<int>, info: int -> Info, smallSystem: bool, left: nat)
    ensures Follows(Plan(order, 0, skip, info, smallSystem, left, false), order, 0, skip, info, smallSystem, left, false, [])
  {
  }

  lemma FollowStep(plan: seq<int>, order: seq<int>, i: nat, skip: set<int>, info: int -> Info, smallSystem: bool,
                   left: nat, moved: bool, queued: seq<int>)
    requires Follows(plan, order, i, skip, info, smallSystem, left, moved, queued) && i < |order| && NoDuplicates(order)
    ensures order[i] !in Elements(queued) && (i > 0 ==> order[i] != order[0])
    ensures if order[i] in skip || !HasWork(info(order[i]), left)
            then Follows(plan, order, i + 1, skip, info, smallSystem, left, moved, queued)
            else
              var pages := PagesToWrite(info(order[i]), smallSystem);
              var left' := if moved then left else if pages >= left then 0 else left - pages;
              queued < plan &&
              Follows(plan, order, i + 1, skip, info, smallSystem, left', moved || pages >= left, queued + [order[i]])
  {
    assert order[..i + 1] == order[..i] + [order[i]];
  }

  lemma FollowEnds(plan: seq<int>, order: seq<int>, skip: set<int>, info: int -> Info, smallSystem: bool,
                   left: nat, moved: bool, queued: seq<int>)
    requires Follows(plan, order, |order|, skip, info, smallSystem, left, moved, queued)
    ensures queued == plan
  {
  }

  /** While not all entries are visited, the next is neither the first nor the cursor. */
  lemma NotYetBack(order: seq<int>, i: nat, stream: int, cursor: int)
    requires NoDuplicates(order) && cursor !in order && (i < |order| ==> stream == order[i])
    ensures i < |order| ==> stream != cursor && (i > 0 ==> stream != order[0])
  {
  }
}
