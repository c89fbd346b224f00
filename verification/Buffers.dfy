/**
 The message buffers of gridloadghostnodes in one/gridfortran.c: one array holds the messages to all
 partitions, each in its own stretch, and a second array holds the same messages in global numbers.
 */
module MessageBuffers {
  import opened Common
  import opened GhostStream

  /** A buffer with a stretch overwritten by a piece. */
  ghost predicate Puts(was: seq<int>, now: seq<int>, at: int, piece: seq<int>) {
    && 0 <= at && at + |piece| <= |was| == |now|
    && forall u :: Unfold(u) ==> IsPut(was, now, at, piece)
  }

  ghost predicate IsPut(was: seq<int>, now: seq<int>, at: int, piece: seq<int>)
    requires 0 <= at && at + |piece| <= |was| == |now|
  {
    && (forall i :: 0 <= i < at ==> now[i] == was[i])
    && now[at..at + |piece|] == piece
    && (forall i :: at + |piece| <= i < |now| ==> now[i] == was[i])
  }

  lemma PutsTwice(s: seq<int>, t: seq<int>, r: seq<int>, at: int, a: seq<int>, b: seq<int>)
    requires Puts(s, t, at, a) && Puts(t, r, at + |a|, b)
    ensures Puts(s, r, at, a + b)
  {
    assert Unfold(0);
    assert r[at..at + |a|] == t[at..at + |a|];
    assert r[at..at + |a + b|] == r[at..at + |a|] + r[at + |a|..at + |a| + |b|];
    assert IsPut(s, r, at, a + b);
  }

  /** A message stands in a buffer from start, counted from one. */
  ghost predicate IsMessageAt(buf: seq<int>, start: int, message: seq<int>) {
    1 <= start && start - 1 + |message| <= |buf| && forall u :: Unfold(u) ==>
      buf[start - 1..start - 1 + |message|] == message
  }

  /** The message to every partition stands in its own stretch. */
  ghost predicate IsFilled(buf: seq<int>, start: seq<int>, messages: seq<seq<int>>) {
    |messages| == |start| && forall p :: 0 <= p < |start| ==> IsMessageAt(buf, start[p], messages[p])
  }

  /** The stretches fit into a buffer and are apart. */
  ghost predicate Rooms(start: seq<int>, size: seq<nat>, length: nat) {
    && |start| == |size|
    && (forall p :: 0 <= p < |start| ==> 1 <= start[p] && start[p] - 1 + size[p] <= length)
    && forall p, q :: 0 <= p < |start| && 0 <= q < |start| && p != q ==> AreApart(start[p], size[p], start[q], size[q])
  }

  predicate AreApart(a: int, n: nat, b: int, m: nat) {
    a + n <= b || b + m <= a
  }

  ghost predicate FitRooms(messages: seq<seq<int>>, size: seq<nat>) {
    |messages| == |size| && forall q :: 0 <= q < |size| ==> |messages[q]| <= size[q]
  }

  lemma MessageGrows(buf: seq<int>, buf': seq<int>, start: int, message: seq<int>, piece: seq<int>)
    requires IsMessageAt(buf, start, message) && Puts(buf, buf', start - 1 + |message|, piece)
    ensures IsMessageAt(buf', start, message + piece)
  {
    assert Unfold(0);
    var from, at := start - 1, start - 1 + |message|;
    assert buf'[from..at] == buf[from..at];
    assert buf'[from..at + |piece|] == buf'[from..at] + buf'[at..at + |piece|];
  }

  lemma MessageStays(buf: seq<int>, buf': seq<int>, start: int, message: seq<int>, at: int, piece: seq<int>)
    requires IsMessageAt(buf, start, message) && Puts(buf, buf', at, piece)
    requires start - 1 + |message| <= at || at + |piece| <= start - 1
    ensures IsMessageAt(buf', start, message)
  {
    assert Unfold(0);
    assert buf'[start - 1..start - 1 + |message|] == buf[start - 1..start - 1 + |message|];
  }

  /** A piece appended to one message leaves the others as they are. */
  lemma FillOne(buf: seq<int>, buf': seq<int>, start: seq<int>, size: seq<nat>, messages: seq<seq<int>>, p: nat,
                at: int,
                piece: seq<int>)
    requires Rooms(start, size, |buf|) && IsFilled(buf, start, messages) && FitRooms(messages, size)
    requires p < |start| && |messages[p]| + |piece| <= size[p] && at == start[p] - 1 + |messages[p]|
    requires Puts(buf, buf', at, piece)
    ensures IsFilled(buf', start, messages[p := messages[p] + piece])
  {
    assert IsMessageAt(buf, start[p], messages[p]);
    MessageGrows(buf, buf', start[p], messages[p], piece);
    forall q | 0 <= q < |start| && q != p ensures IsMessageAt(buf', start[q], messages[q]) {
      assert IsMessageAt(buf, start[q], messages[q]);
      assert AreApart(start[p], size[p], start[q], size[q]);
      MessageStays(buf, buf', start[q], messages[q], at, piece);
    }
  }

  /** The entries of one kind of ids. */
  ghost predicate AreEntries(ids: seq<int>, e: seq<int>) {
    |e| == IdRoom(ids) && forall u :: Unfold(u) ==> e == IdEntries(ids)
  }

  function IdRoom(ids: seq<int>): nat {
    if |ids| == 0 then 0 else 1 + |ids|
  }

  /** The entries of a record. */
  ghost predicate IsRecord(g: Ghost, e: seq<int>) {
    |e| == 1 + IdRoom(g.faces) + IdRoom(g.edges) && forall u :: Unfold(u) ==> e == Encode(g)
  }

  lemma RecordOf(g: Ghost, a: seq<int>, b: seq<int>)
    requires AreEntries(g.faces, a) && AreEntries(g.edges, b)
    ensures IsRecord(g, [g.id + 1] + a + b)
  {
    assert Unfold(0);
  }

  ghost predicate IsWritten(was: seq<int>, now: seq<int>, at: nat, next: nat, piece: seq<int>) {
    && at <= next <= at + |piece| <= |was| == |now|
    && forall i :: 0 <= i < |now| ==> now[i] == if at <= i < next then piece[i - at] else was[i]
  }

  lemma WrittenAll(was: seq<int>, now: seq<int>, at: nat, piece: seq<int>)
    requires IsWritten(was, now, at, at + |piece|, piece)
    ensures Puts(was, now, at, piece)
  {
    assert now[at..at + |piece|] == piece;
    assert IsPut(was, now, at, piece);
  }

  /** One kind of ids of a ghost, written at the same place of both buffers. */
  method PutIds(ids: seq<int>, localnode: array<int>, globalnode: array<int>, at: nat)
    returns (next: nat, ghost e: seq<int>)
    requires localnode != globalnode && localnode.Length == globalnode.Length && at + IdRoom(ids) <= localnode.Length
    modifies localnode, globalnode
    ensures AreEntries(ids, e) && next == at + |e|
    ensures Puts(old(localnode[..]), localnode[..], at, e) && Puts(old(globalnode[..]), globalnode[..], at, e)
  {
    next := at;
    e := IdEntries(ids);
    if |ids| > 0 {
      localnode[next], globalnode[next] := -|ids|, -|ids|;
      next := next + 1;
      for i := 0 to |ids|
        invariant next == at + 1 + i
        invariant IsWritten(old(localnode[..]), localnode[..], at, next, e)
        invariant IsWritten(old(globalnode[..]), globalnode[..], at, next, e)
      {
        localnode[next], globalnode[next] := -ids[i], -ids[i];
        next := next + 1;
      }
    }
    WrittenAll(old(localnode[..]), localnode[..], at, e);
    WrittenAll(old(globalnode[..]), globalnode[..], at, e);
  }

  method PutNode(n: int, global: int, localnode: array<int>, globalnode: array<int>, at: nat)
    requires localnode != globalnode && localnode.Length == globalnode.Length && at < localnode.Length
    modifies localnode, globalnode
    ensures Puts(old(localnode[..]), localnode[..], at, [n + 1])
    ensures Puts(old(globalnode[..]), globalnode[..], at, [global + 1])
  {
    localnode[at], globalnode[at] := n + 1, global + 1;
    WrittenAll(old(localnode[..]), localnode[..], at, [n + 1]);
    WrittenAll(old(globalnode[..]), globalnode[..], at, [global + 1]);
  }

  lemma PutsThree(s0: seq<int>, s1: seq<int>, s2: seq<int>, s3: seq<int>, at: int, a: seq<int>, b: seq<int>,
                  c: seq<int>)
    requires Puts(s0, s1, at, a) && Puts(s1, s2, at + |a|, b) && Puts(s2, s3, at + |a| + |b|, c)
    ensures Puts(s0, s3, at, a + b + c)
  {
    PutsTwice(s0, s1, s2, at, a, b);
    PutsTwice(s0, s2, s3, at, a + b, c);
  }

  /** A ghost's record, written at the same place of both buffers. */
  method PutRecord(n: int, global: int, faceids: seq<int>, edgeids: seq<int>, localnode: array<int>,
                   globalnode: array<int>, at: nat)
    returns (next: nat, ghost e: seq<int>, ghost h: seq<int>)
    requires localnode != globalnode && localnode.Length == globalnode.Length
    requires at + 1 + IdRoom(faceids) + IdRoom(edgeids) <= localnode.Length
    modifies localnode, globalnode
    ensures IsRecord(Ghost(n, faceids, edgeids), e) && IsRecord(Ghost(global, faceids, edgeids), h) && next == at + |e|
    ensures Puts(old(localnode[..]), localnode[..], at, e) && Puts(old(globalnode[..]), globalnode[..], at, h)
  {
    ghost var a, b;
    ghost var l0, g0 := localnode[..], globalnode[..];
    PutNode(n, global, localnode, globalnode, at);
    ghost var l1, g1 := localnode[..], globalnode[..];
    next, a := PutIds(faceids, localnode, globalnode, at + 1);
    ghost var l2, g2 := localnode[..], globalnode[..];
    next, b := PutIds(edgeids, localnode, globalnode, next);
    e, h := [n + 1] + a + b, [global + 1] + a + b;
    RecordOf(Ghost(n, faceids, edgeids), a, b);
    RecordOf(Ghost(global, faceids, edgeids), a, b);
    PutsThree(l0, l1, l2, localnode[..], at, [n + 1], a, b);
    PutsThree(g0, g1, g2, globalnode[..], at, [global + 1], a, b);
  }
}
