/**
 The ghost-node exchange of one/gridfortran.c: a partition writes down which data its ghost nodes
 need, the owners answer, and the partition stores the answers.
 */
module GhostExchange {
  import opened Common
  import opened ItemStore
  import opened FacePacking
  import opened Geometry
  import opened NodeStore
  import opened NodeParameters
  import opened GhostStream
  import opened MessageBuffers
  import opened MeshGrid

  /** The largest number of face or edge ids around a node that a message has room for. */
  const MAXFACEIDDEG := 100
  const MAXEDGEIDDEG := 100

  /** What a partition has for its nodes; part is empty if it has no neighbours. */
  datatype View = View(xyz: seq<Point>, global: seq<int>, frozen: seq<bool>, part: seq<int>, partId: int,
                       faces: Lookups<(real, real)>, edges: Lookups<real>)

  type Row = seq<real>

  function OrNone<V>(found: Found<V>, none: V): V {
    match found
    case NotFound => none
    case Here(v) => v
  }

  /** The row holds what the owner of global node g has for it. */
  ghost predicate HoldsNode(v: View, ndim: nat, m: int, row: Row)
    requires IsValid(v.xyz, m) && m < |v.frozen| && |row| == ndim >= 3
  {
    && Point(row[0], row[1], row[2]) == v.xyz[m]
    && (ndim > 3 ==> row[3] == if v.frozen[m] then 1.0 else 0.0)
  }

  /** The row holds the answer to a role of a message with global numbers, m being the role's node there. */
  ghost predicate Holds(v: View, ndim: nat, role: Role, m: int, row: Row)
    requires IsValid(v.xyz, m) && m < |v.frozen| && |row| == ndim >= 3
  {
    match role
    case OfNode(_) => HoldsNode(v, ndim, m, row)
    case Count => true
    case OfFace(_, id) => (row[0], row[1]) == OrNone(Lookup(v.faces, m, id), (DBL_MAX, DBL_MAX))
    case OfEdge(_, id) => row[0] == OrNone(Lookup(v.edges, m, id), DBL_MAX)
  }

  /** Local node m has global id g. */
  ghost predicate IsAt(v: View, m: int, g: int) {
    IsValid(v.xyz, m) && m < |v.global| && m < |v.frozen| && v.global[m] == g
  }

  ghost predicate IsLoaded(v: View, ndim: nat, role: Role, row: Row) {
    |row| == ndim >= 3 && (role != Count ==> forall m :: IsAt(v, m, role.node) ==> Holds(v, ndim, role, m, row))
  }

  ghost predicate HasNode(v: View, g: int) {
    exists m :: IsAt(v, m, g)
  }

  /** The local number of a global id. */
  ghost function LocalNumber(v: View, g: int): int {
    if HasNode(v, g) then var m :| IsAt(v, m, g); m else EMPTY
  }

  ghost function LocalNumbers(v: View): int -> int {
    g => LocalNumber(v, g)
  }

  lemma LocalNumberIs(v: View, g: int, m: int)
    requires GlobalsOk(v.xyz, v.global) && if m == EMPTY then !HasNode(v, g) else IsAt(v, m, g)
    ensures LocalNumber(v, g) == m
  {
    assert UnfoldIds(0);
    assert m == EMPTY || HasNode(v, g);
  }

  /** The owner has every node a message asks for. */
  ghost predicate AllHere(v: View, roles: seq<Role>) {
    forall i :: 0 <= i < |roles| && roles[i].OfNode? ==> HasNode(v, roles[i].node)
  }

  lemma HereAt(v: View, roles: seq<Role>, i: nat)
    requires AllHere(v, roles) && i < |roles| && roles[i].OfNode?
    ensures HasNode(v, roles[i].node)
  {
  }

  ghost predicate WideRows(data: seq<Row>, ndim: nat) {
    ndim >= 3 && forall i :: 0 <= i < |data| ==> |data[i]| == ndim
  }

  /** The owner has one node for a global id. */
  lemma OneAt(v: View, m: int, g: int, role: Role, ndim: nat, row: Row)
    requires GlobalsOk(v.xyz, v.global) && |v.frozen| == |v.xyz| && IsAt(v, m, g) && |row| == ndim >= 3
    requires role != Count ==> role.node == g && Holds(v, ndim, role, m, row)
    ensures IsLoaded(v, ndim, role, row)
  {
    assert UnfoldIds(0);
    forall k | role != Count && IsAt(v, k, role.node) ensures Holds(v, ndim, role, k, row) {
      assert k == m;
    }
  }

  /** The first k rows of an answer. */
  ghost predicate LoadedUpTo(v: View, ndim: nat, roles: seq<Role>, data: seq<Row>, k: nat) {
    k <= |roles| == |data| && WideRows(data, ndim) && forall i :: 0 <= i < k ==> IsLoaded(v, ndim, roles[i], data[i])
  }

  lemma LoadedMore(v: View, ndim: nat, roles: seq<Role>, was: seq<Row>, data: seq<Row>, from: nat, to: nat)
    requires LoadedUpTo(v, ndim, roles, was, from) && from < to <= |roles| == |data| && WideRows(data, ndim)
    requires forall i :: 0 <= i < from ==> data[i] == was[i]
    requires roles[from] == Count || IsLoaded(v, ndim, roles[from], data[from])
    requires forall i :: from < i < to ==> IsLoaded(v, ndim, roles[i], data[i])
    ensures LoadedUpTo(v, ndim, roles, data, to)
  {
  }

  /** The last of the first k entries with a role. */
  function Last(roles: seq<Role>, k: nat, role: Role): (i: int)
    requires k <= |roles|
    ensures EMPTY <= i < k && (i >= 0 ==> roles[i] == role) && forall j :: i < j < k ==> roles[j] != role
  {
    if k == 0 then EMPTY else if roles[k - 1] == role then k - 1 else Last(roles, k - 1, role)
  }

  /** Node n after the first k rows: as the last row for it says, if there is one. */
  ghost predicate NodeUpdated(v0: View, v: View, ndim: nat, roles: seq<Role>, data: seq<Row>, k: nat, n: nat)
    requires k <= |roles| == |data| && WideRows(data, ndim)
  {
    && n < |v0.xyz| == |v.xyz| == |v0.frozen| == |v.frozen|
    && var i := Last(roles, k, OfNode(n));
    if i == EMPTY || !IsValid(v0.xyz, n) then v.xyz[n] == v0.xyz[n] && v.frozen[n] == v0.frozen[n]
    else
      && v.xyz[n] == Point(data[i][0], data[i][1], data[i][2]) && data[i][0] != DBL_MAX
      && v.frozen[n] == if ndim > 3 then data[i][3] > 0.5 else v0.frozen[n]
  }

  /**
   The uv of node n for face id after the first k rows: as the last row for it says, if there is one and the
   node is there.
   */
  ghost predicate FaceUpdated(v0: View, v: View, ndim: nat, roles: seq<Role>, data: seq<Row>, k: nat, n: int, id: int)
    requires k <= |roles| == |data| && WideRows(data, ndim)
  {
    var i := Last(roles, k, OfFace(n, id));
    Lookup(v.faces, n, id) == if i == EMPTY || Lookup(v0.faces, n, id) == NotFound then Lookup(v0.faces, n, id)
                              else Here((data[i][0], data[i][1]))
  }

  /** The same for the t of node n for edge id. */
  ghost predicate EdgeUpdated(v0: View, v: View, ndim: nat, roles: seq<Role>, data: seq<Row>, k: nat, n: int, id: int)
    requires k <= |roles| == |data| && WideRows(data, ndim)
  {
    var i := Last(roles, k, OfEdge(n, id));
    Lookup(v.edges, n, id) == if i == EMPTY || Lookup(v0.edges, n, id) == NotFound then Lookup(v0.edges, n, id)
                              else Here(data[i][0])
  }

  /** A partition after the first k rows of an answer. */
  ghost predicate IsUpdated(v0: View, v: View, ndim: nat, roles: seq<Role>, data: seq<Row>, k: nat) {
    && k <= |roles| == |data| && WideRows(data, ndim)
    && forall u :: OpenUpdate(k, u) ==> AllUpdated(v0, v, ndim, roles, data, k)
  }

  /** The handle for a partition under way. */
  ghost predicate OpenUpdate(k: int, u: int) {
    true
  }

  ghost predicate AllUpdated(v0: View, v: View, ndim: nat, roles: seq<Role>, data: seq<Row>, k: nat)
    requires k <= |roles| == |data| && WideRows(data, ndim)
  {
    && v.global == v0.global && v.part == v0.part && v.partId == v0.partId
    && SameItems(v0.faces, v.faces) && SameItems(v0.edges, v.edges)
    && |v.xyz| == |v0.xyz| == |v.frozen| == |v0.frozen|
    && (forall n :: 0 <= n < |v.xyz| ==> NodeUpdated(v0, v, ndim, roles, data, k, n))
    && (forall n, id :: FaceUpdated(v0, v, ndim, roles, data, k, n, id))
    && (forall n, id :: EdgeUpdated(v0, v, ndim, roles, data, k, n, id))
  }

  lemma UpdateNothing(v: View, ndim: nat, roles: seq<Role>, data: seq<Row>)
    requires |roles| == |data| && WideRows(data, ndim) && |v.frozen| == |v.xyz|
    requires |v.faces.data| == |v.faces.rows| && |v.edges.data| == |v.edges.rows|
    ensures IsUpdated(v, v, ndim, roles, data, 0)
  {
    assert AllUpdated(v, v, ndim, roles, data, 0);
  }

  /** The tables a row changes, by its role. */
  ghost predicate IsStep(v: View, v': View, ndim: nat, role: Role, row: Row)
    requires |row| == ndim >= 3
  {
    match role
    case Count => v' == v
    case OfNode(n) =>
      if IsValid(v.xyz, n) && n < |v.frozen| then
        row[0] != DBL_MAX &&
        v' == v.(xyz := v.xyz[n := Point(row[0], row[1], row[2])],
                 frozen := if ndim > 3 then v.frozen[n := row[3] > 0.5] else v.frozen)
      else v' == v
    case OfFace(n, id) => v' == v.(faces := v'.faces) && IsSetIn(v.faces, v'.faces, n, id, (row[0], row[1]))
    case OfEdge(n, id) => v' == v.(edges := v'.edges) && IsSetIn(v.edges, v'.edges, n, id, row[0])
  }

  lemma UpdateNodes(v0: View, v: View, v': View, ndim: nat, roles: seq<Role>, data: seq<Row>, k: nat, n: nat)
    requires k < |roles| == |data| && WideRows(data, ndim) && AllUpdated(v0, v, ndim, roles, data, k)
    requires IsStep(v, v', ndim, roles[k], data[k]) && n < |v.xyz|
    ensures NodeUpdated(v0, v', ndim, roles, data, k + 1, n)
  {
    assert NodeUpdated(v0, v, ndim, roles, data, k, n);
    assert IsValid(v.xyz, n) <==> IsValid(v0.xyz, n);
  }

  lemma UpdateFaces(v0: View, v: View, v': View, ndim: nat, roles: seq<Role>, data: seq<Row>, k: nat, n: int, id: int)
    requires k < |roles| == |data| && WideRows(data, ndim) && AllUpdated(v0, v, ndim, roles, data, k)
    requires IsStep(v, v', ndim, roles[k], data[k])
    ensures FaceUpdated(v0, v', ndim, roles, data, k + 1, n, id)
  {
    assert FaceUpdated(v0, v, ndim, roles, data, k, n, id);
  }

  lemma UpdateEdges(v0: View, v: View, v': View, ndim: nat, roles: seq<Role>, data: seq<Row>, k: nat, n: int, id: int)
    requires k < |roles| == |data| && WideRows(data, ndim) && AllUpdated(v0, v, ndim, roles, data, k)
    requires IsStep(v, v', ndim, roles[k], data[k])
    ensures EdgeUpdated(v0, v', ndim, roles, data, k + 1, n, id)
  {
    assert EdgeUpdated(v0, v, ndim, roles, data, k, n, id);
  }

  lemma UpdateOne(v0: View, v: View, v': View, ndim: nat, roles: seq<Role>, data: seq<Row>, k: nat)
    requires k < |roles| && IsUpdated(v0, v, ndim, roles, data, k) && IsStep(v, v', ndim, roles[k], data[k])
    ensures IsUpdated(v0, v', ndim, roles, data, k + 1)
  {
    assert OpenUpdate(k, 0);
    var next := k + 1;
    forall n | 0 <= n < |v.xyz| ensures NodeUpdated(v0, v', ndim, roles, data, next, n) {
      UpdateNodes(v0, v, v', ndim, roles, data, k, n);
    }
    forall n, id ensures FaceUpdated(v0, v', ndim, roles, data, next, n, id) {
      UpdateFaces(v0, v, v', ndim, roles, data, k, n, id);
    }
    forall n, id ensures EdgeUpdated(v0, v', ndim, roles, data, next, n, id) {
      UpdateEdges(v0, v, v', ndim, roles, data, k, n, id);
    }
    assert AllUpdated(v0, v', ndim, roles, data, next);
  }

  lemma UpdateCount(v0: View, v: View, ndim: nat, roles: seq<Role>, data: seq<Row>, k: nat)
    requires k < |roles| && IsUpdated(v0, v, ndim, roles, data, k) && roles[k] == Count
    ensures IsUpdated(v0, v, ndim, roles, data, k + 1)
  {
    UpdateOne(v0, v, v, ndim, roles, data, k);
  }

  /** A row of an answer as it is filled in, keeping what the row had elsewhere. */
  function NodeRowOf(row: Row, p: Point, frozen: bool): (r: Row)
    requires |row| >= 3
    ensures |r| == |row|
  {
    var r := row[0 := p.x][1 := p.y][2 := p.z];
    if |row| > 3 then r[3 := if frozen then 1.0 else 0.0] else r
  }

  /** Node n is owned by another partition, p. */
  ghost predicate IsGhostOf(v: View, n: int, p: int) {
    IsValid(v.xyz, n) && n < |v.part| && v.part[n] == p && p != v.partId
  }

  /** The owners of all ghosts are among nproc partitions. */
  ghost predicate GhostsWithin(v: View, nproc: nat) {
    forall n, p :: IsGhostOf(v, n, p) ==> 0 <= p < nproc
  }

  ghost function FaceIdsAt(v: View, n: int): set<int> {
    IdSet(v.faces.rows, v.faces.data, n)
  }

  ghost function EdgeIdsAt(v: View, n: int): set<int> {
    IdSet(v.edges.rows, v.edges.data, n)
  }

  /** The ids a record can hold: none, if there are too many. */
  ghost function Kept(all: set<int>, maxId: nat): set<int> {
    if |all| <= maxId then all else {}
  }

  /** The record of a ghost node. */
  ghost predicate Describes(v: View, n: int, g: Ghost) {
    && g.id == n && IsIdList(g.faces, Kept(FaceIdsAt(v, n), MAXFACEIDDEG))
    && IsIdList(g.edges, Kept(EdgeIdsAt(v, n), MAXEDGEIDDEG))
  }

  /** A record holds all ids of its node exactly if there are no more than a message has room for. */
  lemma AllIdsSent(v: View, n: int, g: Ghost)
    requires Describes(v, n, g)
    ensures (forall id :: id in FaceIdsAt(v, n) ==> id in g.faces) &&
      (forall id :: id in EdgeIdsAt(v, n) ==> id in g.edges)
      <==> |FaceIdsAt(v, n)| <= 100 && |EdgeIdsAt(v, n)| <= 100
  {
    if |FaceIdsAt(v, n)| > MAXFACEIDDEG {
      var id :| id in FaceIdsAt(v, n);
      assert id !in g.faces;
    }
    if |EdgeIdsAt(v, n)| > MAXEDGEIDDEG {
      var id :| id in EdgeIdsAt(v, n);
      assert id !in g.edges;
    }
  }

  /** A node on 101 faces with different ids. */
  ghost function Crowded(): View {
    var corner := Point(0.0, 0.0, 0.0);
    var rows := seq(MAXFACEIDDEG + 1, _ => [0, 1, 2]);
    var data := seq(MAXFACEIDDEG + 1, f => Tag(f + 1, [(0.0, 0.0), (0.0, 0.0), (0.0, 0.0)]));
    View([corner, corner, corner], [0, 1, 2], [false, false, false], [1, 0, 0], 0,
         Lookups(rows, data, seq(3, _ => seq(MAXFACEIDDEG + 1, f => f))), Lookups([], [], [[], [], []]))
  }

  /** None of its ids is sent. */
  lemma CrowdedSendsNothing(g: Ghost)
    ensures IsGhostOf(Crowded(), 0, 1) && |FaceIdsAt(Crowded(), 0)| == MAXFACEIDDEG + 1
    ensures Describes(Crowded(), 0, g) <==> g == Ghost(0, [], [])
  {
    var v, all := Crowded(), FaceIdsAt(Crowded(), 0);
    forall id ensures id in all <==> id in Below(MAXFACEIDDEG + 2) - {0} {
      if 1 <= id <= MAXFACEIDDEG + 1 {
        assert IsItemOn(v.faces.rows, v.faces.data, id - 1, 0, id);
      }
    }
    assert all == Below(MAXFACEIDDEG + 2) - {0};
    assert EdgeIdsAt(v, 0) == {};
  }

  /** The records of the ghosts below n that p owns, in the order of the nodes. */
  ghost predicate IsListOf(v: View, p: int, n: nat, list: seq<Ghost>) {
    if n == 0 then list == []
    else if IsGhostOf(v, n - 1, p) then
      list != [] && Describes(v, n - 1, list[|list| - 1]) && IsListOf(v, p, n - 1, list[..|list| - 1])
    else IsListOf(v, p, n - 1, list)
  }

  ghost function IdsSize(all: set<int>, maxId: nat): nat {
    if 0 < |all| <= maxId then |all| + 1 else 0
  }

  /** The entries a ghost needs in a message. */
  ghost function GhostSize(v: View, n: int): nat {
    1 + IdsSize(FaceIdsAt(v, n), MAXFACEIDDEG) + IdsSize(EdgeIdsAt(v, n), MAXEDGEIDDEG)
  }

  /** The entries the ghosts below n that p owns need. */
  ghost function Size(v: View, p: int, n: nat): nat {
    if n == 0 then 0 else Size(v, p, n - 1) + if IsGhostOf(v, n - 1, p) then GhostSize(v, n - 1) else 0
  }

  lemma DescribedSize(v: View, n: int, g: Ghost)
    requires Describes(v, n, g)
    ensures |Encode(g)| == GhostSize(v, n) == 1 + IdRoom(g.faces) + IdRoom(g.edges)
  {
  }

  lemma FrontAndLast<T>(s: seq<T>)
    requires s != []
    ensures s[..|s| - 1] + [s[|s| - 1]] == s
  {
  }

  lemma {:induction false} ListLast(v: View, p: int, n: nat, list: seq<Ghost>) returns (front: seq<Ghost>, g: Ghost)
    requires IsListOf(v, p, n + 1, list) && IsGhostOf(v, n, p)
    ensures IsListOf(v, p, n, front) && Describes(v, n, g) && list != [] && front == list[..|list| - 1]
    ensures g == list[|list| - 1]
    ensures |EncodeAll(list)| == |EncodeAll(front)| + GhostSize(v, n)
  {
    front, g := list[..|list| - 1], list[|list| - 1];
    FrontAndLast(list);
    EncodeAppend(front, g);
    DescribedSize(v, n, g);
  }

  /** The counted sizes are the lengths of the messages. */
  lemma {:induction false} ListSize(v: View, p: int, n: nat, list: seq<Ghost>)
    requires IsListOf(v, p, n, list)
    ensures |EncodeAll(list)| == Size(v, p, n)
  {
    if n > 0 {
      if IsGhostOf(v, n - 1, p) {
        var front, g := ListLast(v, p, n - 1, list);
        ListSize(v, p, n - 1, front);
      } else {
        ListSize(v, p, n - 1, list);
      }
    }
  }

  lemma {:induction false} SizeGrows(v: View, p: int, n: nat, m: nat)
    requires n <= m
    ensures Size(v, p, n) <= Size(v, p, m)
  {
    if n < m {
      SizeGrows(v, p, n, m - 1);
    }
  }

  /** The records of a list are those of ghosts that p owns. */
  lemma {:induction false} ListIn(v: View, p: int, n: nat, list: seq<Ghost>, i: nat)
    requires IsListOf(v, p, n, list) && i < |list|
    ensures list[i].id < n && IsGhostOf(v, list[i].id, p) && Describes(v, list[i].id, list[i])
  {
    if IsGhostOf(v, n - 1, p) {
      if i < |list| - 1 {
        ListIn(v, p, n - 1, list[..|list| - 1], i);
      }
    } else {
      ListIn(v, p, n - 1, list, i);
    }
  }

  /** Every ghost that p owns has a record. */
  lemma {:induction false} ListHas(v: View, p: int, n: nat, list: seq<Ghost>, k: nat) returns (i: nat)
    requires IsListOf(v, p, n, list) && k < n && IsGhostOf(v, k, p)
    ensures i < |list| && list[i].id == k
  {
    if !IsGhostOf(v, n - 1, p) {
      i := ListHas(v, p, n - 1, list, k);
    } else if k < n - 1 {
      i := ListHas(v, p, n - 1, list[..|list| - 1], k);
    } else {
      i := |list| - 1;
    }
  }

  /** The global id of a node. */
  function GlobalOf(global: seq<int>): int -> int {
    n => if 0 <= n < |global| then global[n] else EMPTY
  }

  /**
   What the writer has written: the records for every partition, and their messages in local and in global
   numbers.
   */
  datatype Written = Written(lists: seq<seq<Ghost>>, local: seq<seq<int>>, global: seq<seq<int>>)

  ghost predicate AreMessages(w: Written, nproc: nat, f: int -> int) {
    && |w.lists| == |w.local| == |w.global| == nproc
    && forall u :: Unfold(u) ==> forall p :: 0 <= p < nproc ==>
         w.local[p] == EncodeAll(w.lists[p]) && w.global[p] == EncodeAll(Labelled(w.lists[p], f))
  }

  /** The messages have the sizes counted for the nodes below n. */
  ghost predicate AreSized(v: View, w: Written, size: seq<nat>, n: nat) {
    && |w.lists| == |w.local| == |w.global| == |size|
    && forall p :: 0 <= p < |size| ==> |w.local[p]| == |w.global[p]| == Size(v, p, n) <= size[p]
  }

  ghost predicate AreListed(v: View, w: Written, n: nat) {
    forall p :: 0 <= p < |w.lists| ==> IsListOf(v, p, n, w.lists[p])
  }

  /** The writer before node n. */
  ghost predicate IsWriting(v: View, start: seq<int>, size: seq<nat>, w: Written, n: nat, l: seq<int>, m: seq<int>) {
    && |l| == |m| && |start| == |size| && AreMessages(w, |start|, GlobalOf(v.global))
    && forall u :: Unfold(u) ==>
         && Rooms(start, size, |l|) && AreListed(v, w, n) && AreSized(v, w, size, n)
         && IsFilled(l, start, w.local) && IsFilled(m, start, w.global)
  }

  ghost function Sizes(v: View, nproc: nat, n: nat): (sizes: seq<nat>)
    ensures |sizes| == nproc && forall p :: 0 <= p < nproc ==> sizes[p] == Size(v, p, n)
  {
    seq(nproc, p requires 0 <= p < nproc => Size(v, p, n))
  }

  ghost predicate RoomUpTo(v: View, size: seq<nat>, n: nat) {
    forall u :: Unfold(u) ==> forall q :: 0 <= q < |size| ==> Size(v, q, n) <= size[q]
  }

  function NothingWritten(nproc: nat): Written {
    Written(seq(nproc, _ => []), seq(nproc, _ => []), seq(nproc, _ => []))
  }

  lemma WriteNothing(v: View, start: seq<int>, size: seq<nat>, l: seq<int>, m: seq<int>)
    requires |l| == |m| && Rooms(start, size, |l|)
    ensures IsWriting(v, start, size, NothingWritten(|start|), 0, l, m)
  {
    var w := NothingWritten(|start|);
    forall p | 0 <= p < |start|
      ensures IsMessageAt(l, start[p], w.local[p]) && IsMessageAt(m, start[p], w.global[p])
      ensures w.local[p] == EncodeAll(w.lists[p]) && w.global[p] == EncodeAll(Labelled(w.lists[p], GlobalOf(v.global)))
    {
    }
  }

  /** A record added for partition p. */
  ghost function WithRecord(w: Written, p: nat, g: Ghost, e: seq<int>, h: seq<int>): Written
    requires p < |w.lists| == |w.local| == |w.global|
  {
    Written(w.lists[p := w.lists[p] + [g]], w.local[p := w.local[p] + e], w.global[p := w.global[p] + h])
  }

  lemma {:induction false} MessagesGrow(w: Written, nproc: nat, f: int -> int, p: nat, g: Ghost, e: seq<int>,
                                        h: seq<int>)
    requires AreMessages(w, nproc, f) && p < nproc && IsRecord(g, e) && IsRecord(g.(id := f(g.id)), h)
    ensures AreMessages(WithRecord(w, p, g, e, h), nproc, f)
  {
    assert Unfold(0);
    EncodeAppend(w.lists[p], g);
    EncodeAppend(Labelled(w.lists[p], f), g.(id := f(g.id)));
    assert Labelled(w.lists[p] + [g], f) == Labelled(w.lists[p], f) + [g.(id := f(g.id))];
  }

  lemma ListsGrow(v: View, w: Written, n: nat, p: nat, g: Ghost, e: seq<int>, h: seq<int>)
    requires AreListed(v, w, n) && p < |w.lists| == |w.local| == |w.global| && IsGhostOf(v, n, p) && Describes(v, n, g)
    ensures AreListed(v, WithRecord(w, p, g, e, h), n + 1)
  {
    var lists', next := WithRecord(w, p, g, e, h).lists, n + 1;
    forall q | 0 <= q < |lists'| ensures IsListOf(v, q, next, lists'[q]) {
      assert IsListOf(v, q, n, w.lists[q]);
      if q == p {
        assert lists'[q][..|lists'[q]| - 1] == w.lists[q];
      }
    }
  }

  lemma SizesGrow(v: View, w: Written, size: seq<nat>, n: nat, p: nat, g: Ghost, e: seq<int>, h: seq<int>)
    requires AreSized(v, w, size, n) && RoomUpTo(v, size, n + 1) && p < |size| && IsGhostOf(v, n, p)
    requires |e| == |h| == GhostSize(v, n)
    ensures AreSized(v, WithRecord(w, p, g, e, h), size, n + 1)
    ensures |w.local[p]| + |e| <= size[p] && |w.global[p]| + |h| <= size[p]
    ensures FitRooms(w.local, size) && FitRooms(w.global, size)
  {
    assert Unfold(0);
    var next := n + 1;
    forall q | 0 <= q < |size| ensures Size(v, q, next) == Size(v, q, n) + if q == p then |e| else 0 {
      assert IsGhostOf(v, n, q) <==> q == p;
    }
  }

  /** The same record at the end of both messages for p. */
  lemma FillBoth(start: seq<int>, size: seq<nat>, w: Written, l: seq<int>, m: seq<int>, l': seq<int>, m': seq<int>,
                 p: nat, e: seq<int>, h: seq<int>)
    requires Rooms(start, size, |l|) && |l| == |m| && p < |start| == |w.local| == |w.global| == |size|
    requires IsFilled(l, start, w.local) && IsFilled(m, start, w.global)
    requires FitRooms(w.local, size) && FitRooms(w.global, size)
    requires |w.local[p]| == |w.global[p]| && |w.local[p]| + |e| <= size[p] && |e| == |h|
    requires var at := start[p] - 1 + |w.local[p]|; Puts(l, l', at, e) && Puts(m, m', at, h)
    ensures IsFilled(l', start, w.local[p := w.local[p] + e]) && IsFilled(m', start, w.global[p := w.global[p] + h])
  {
    var at := start[p] - 1 + |w.local[p]|;
    FillOne(l, l', start, size, w.local, p, at, e);
    FillOne(m, m', start, size, w.global, p, at, h);
  }

  lemma WriteGhost(v: View, start: seq<int>, size: seq<nat>, w: Written, n: nat, l: seq<int>, m: seq<int>,
                   l': seq<int>, m': seq<int>, p: nat, g: Ghost, e: seq<int>, h: seq<int>)
    requires IsWriting(v, start, size, w, n, l, m) && RoomUpTo(v, size, n + 1)
    requires p < |start| && IsGhostOf(v, n, p) && Describes(v, n, g) && n < |v.global| && |e| == |h| == GhostSize(v, n)
    requires IsRecord(g, e) && IsRecord(g.(id := v.global[n]), h)
    requires var at := start[p] - 1 + |w.local[p]|; Puts(l, l', at, e) && Puts(m, m', at, h)
    ensures IsWriting(v, start, size, WithRecord(w, p, g, e, h), n + 1, l', m')
  {
    RoomOfGhost(v, start, size, w, n, l, m, p, g, e, h);
    MessagesGrow(w, |start|, GlobalOf(v.global), p, g, e, h);
    ListsOfWriting(v, start, size, w, n, l, m);
    ListsGrow(v, w, n, p, g, e, h);
    FillBoth(start, size, w, l, m, l', m', p, e, h);
    WritingOf(v, start, size, WithRecord(w, p, g, e, h), n + 1, l', m');
  }

  lemma WritingOf(v: View, start: seq<int>, size: seq<nat>, w: Written, n: nat, l: seq<int>, m: seq<int>)
    requires |l| == |m| && |start| == |size| && AreMessages(w, |start|, GlobalOf(v.global))
    requires Rooms(start, size, |l|) && AreListed(v, w, n) && AreSized(v, w, size, n)
    requires IsFilled(l, start, w.local) && IsFilled(m, start, w.global)
    ensures IsWriting(v, start, size, w, n, l, m)
  {
  }

  lemma ListsOfWriting(v: View, start: seq<int>, size: seq<nat>, w: Written, n: nat, l: seq<int>, m: seq<int>)
    requires IsWriting(v, start, size, w, n, l, m)
    ensures AreListed(v, w, n) && |w.lists| == |w.local| == |w.global| == |start|
  {
    assert Unfold(0);
  }

  /** The stretches and the sizes when a ghost is added. */
  lemma RoomOfGhost(v: View, start: seq<int>, size: seq<nat>, w: Written, n: nat, l: seq<int>, m: seq<int>,
                    p: nat, g: Ghost, e: seq<int>, h: seq<int>)
    requires IsWriting(v, start, size, w, n, l, m) && RoomUpTo(v, size, n + 1)
    requires p < |start| && IsGhostOf(v, n, p) && |e| == |h| == GhostSize(v, n)
    ensures Rooms(start, size, |l|) && IsFilled(l, start, w.local) && IsFilled(m, start, w.global)
    ensures FitRooms(w.local, size) && FitRooms(w.global, size)
    ensures |w.lists| == |w.local| == |w.global| == |start| == |size|
    ensures |w.local[p]| == |w.global[p]| && |w.local[p]| + |e| <= size[p]
    ensures AreSized(v, WithRecord(w, p, g, e, h), size, n + 1)
  {
    assert Unfold(0);
    SizesGrow(v, w, size, n, p, g, e, h);
  }

  /** A node that is no ghost adds nothing to a list. */
  lemma ListsSkip(v: View, w: Written, n: nat)
    requires AreListed(v, w, n) && forall p :: !IsGhostOf(v, n, p)
    ensures AreListed(v, w, n + 1)
  {
    var next := n + 1;
    forall p | 0 <= p < |w.lists| ensures IsListOf(v, p, next, w.lists[p]) {
      assert IsListOf(v, p, n, w.lists[p]);
      assert !IsGhostOf(v, n, p);
    }
  }

  lemma SizesSkip(v: View, w: Written, size: seq<nat>, n: nat)
    requires AreSized(v, w, size, n) && forall p :: !IsGhostOf(v, n, p)
    ensures AreSized(v, w, size, n + 1)
  {
    var next := n + 1;
    forall p | 0 <= p < |size| ensures Size(v, p, next) == Size(v, p, n) {
      assert !IsGhostOf(v, n, p);
    }
  }

  lemma PartsOfWriting(v: View, start: seq<int>, size: seq<nat>, w: Written, n: nat, l: seq<int>, m: seq<int>)
    requires IsWriting(v, start, size, w, n, l, m)
    ensures Rooms(start, size, |l|) && AreSized(v, w, size, n)
    ensures IsFilled(l, start, w.local) && IsFilled(m, start, w.global)
  {
    assert Unfold(0);
  }

  lemma WriteNone(v: View, start: seq<int>, size: seq<nat>, w: Written, n: nat, l: seq<int>, m: seq<int>)
    requires IsWriting(v, start, size, w, n, l, m) && forall p :: !IsGhostOf(v, n, p)
    ensures IsWriting(v, start, size, w, n + 1, l, m)
  {
    PartsOfWriting(v, start, size, w, n, l, m);
    ListsOfWriting(v, start, size, w, n, l, m);
    ListsSkip(v, w, n);
    SizesSkip(v, w, size, n);
    WritingOf(v, start, size, w, n + 1, l, m);
  }

  /** The counters of the writer. */
  ghost predicate Counted(count: seq<nat>, w: Written) {
    |count| == |w.local| && forall p :: 0 <= p < |count| ==> count[p] == |w.local[p]|
  }

  lemma AllFit(v: View, nproc: nat, n: nat, maxnode: nat)
    requires n < maxnode
    ensures RoomUpTo(v, Sizes(v, nproc, maxnode), n + 1)
  {
    var next := n + 1;
    forall p | 0 <= p < nproc ensures Size(v, p, next) <= Sizes(v, nproc, maxnode)[p] {
      SizeGrows(v, p, n + 1, maxnode);
    }
  }

  /** There is room for one more ghost. */
  lemma GhostFits(v: View, start: seq<int>, size: seq<nat>, w: Written, n: nat, p: nat, l: seq<int>, m: seq<int>)
    requires IsWriting(v, start, size, w, n, l, m) && p < |start| && IsGhostOf(v, n, p) && RoomUpTo(v, size, n + 1)
    ensures 1 <= start[p] && start[p] - 1 + |w.local[p]| + GhostSize(v, n) <= |l|
  {
    assert Unfold(0);
    assert Size(v, p, n + 1) == Size(v, p, n) + GhostSize(v, n);
  }

  lemma EmptyTags<V>(rows: seq<seq<int>>, data: seq<Tag<V>>)
    requires |rows| == |data| && (forall c :: 0 <= c < |rows| ==> |rows[c]| >= 2) && Compact(rows, 0)
    ensures TagsOk(rows, data)
  {
  }

  /** The handle for the state of a partition. */
  ghost predicate OpenState(u: int) {
    true
  }

  class Partition {
    const nodes: Nodes
    const faces: Store<FaceTag>
    const edges: Store<EdgeTag>
    const partId: int
    var frozen: seq<bool>
    /** part is NULL in the program until a part is first set. */
    var hasPart: bool
    var part: seq<int>

    ghost const Parts: set<object> := {nodes, faces, faces.adj, edges, edges.adj}

    ghost predicate Valid()
      reads this, Parts
    {
      && this !in Parts && faces.adj != edges.adj && |nodes.xyz| == nodes.maxnode
      && |frozen| == nodes.maxnode
      && (hasPart ==> |part| == nodes.maxnode)
      && (nodes.hasGlobal ==> |nodes.nodeGlobal| == nodes.maxnode)
      && forall u :: Unfold(u) ==> PartsValid()
    }

    ghost predicate PartsValid()
      reads Parts
    {
      && nodes.Valid() && faces.Valid() && edges.Valid() && faces.per == 3 && edges.per == 2
      && TagsOk(faces.rows, faces.data) && TagsOk(edges.rows, edges.data)
    }

    ghost function State(): (v: View)
      reads this, Parts
    {
      var parts := if hasPart then part else [];
      View(nodes.xyz, nodes.nodeGlobal, frozen, parts, partId, LookupsOf(faces), LookupsOf(edges))
    }

    /** The partition is valid, numbered, and in state v. Kept folded. */
    ghost predicate Shows(v: View)
      reads this, Parts
    {
      this !in Parts && forall u :: OpenState(u) ==> Valid() && nodes.hasGlobal && State() == v
    }

    lemma ShowsSizes(v: View)
      requires Shows(v)
      ensures |v.xyz| == |v.global| == |v.frozen| == nodes.maxnode && GlobalsOk(v.xyz, v.global)
    {
      assert OpenState(0) && Unfold(0);
    }

    constructor (partId: int, maxnode: nat, maxface: nat, maxedge: nat)
      ensures Valid() && fresh(Parts) && this.partId == partId && !hasPart && nodes.nnode == 0 && faces.count == 0
      ensures edges.count == 0
    {
      var n := Max(maxnode, 1);
      nodes := new Nodes(maxnode);
      faces := new Store<FaceTag>(3, Tag(EMPTY, [(DBL_MAX, DBL_MAX), (DBL_MAX, DBL_MAX), (DBL_MAX, DBL_MAX)]),
        maxnode, maxface);
      edges := new Store<EdgeTag>(2, Tag(EMPTY, [DBL_MAX, DBL_MAX]), maxnode, maxedge);
      this.partId := partId;
      frozen := seq(n, _ => false);
      hasPart, part := false, [];
      new;
      EmptyTags(faces.rows, faces.data);
      EmptyTags(edges.rows, edges.data);
      assert PartsValid();
    }

    /** gridGlobal2Local in this partition. */
    method Local(ghost v: View, g: int) returns (m: int)
      requires Shows(v)
      modifies nodes`hasSorted, nodes`sortedGlobal, nodes`sortedLocal
      ensures Shows(v)
      ensures if m == EMPTY then !HasNode(v, g) else IsAt(v, m, g)
    {
      assert OpenState(0) && Unfold(0);
      m := nodes.Global2Local(g);
    }

    /** gridloadlocalnodes: a message in global numbers, translated to this partition's numbers. */
    method LoadLocalNodes(global: seq<int>) returns (local: seq<int>)
      requires Valid() && nodes.hasGlobal
      modifies nodes`hasSorted, nodes`sortedGlobal, nodes`sortedLocal
      ensures Valid() && State() == old(State()) && local == Renumbered(global, LocalNumbers(State()))
    {
      ghost var v := State();
      ShowsSizes(v);
      local := [];
      for node := 0 to |global|
        invariant Shows(v) && |local| == node
        invariant forall i :: 0 <= i < node ==>
          local[i] == if global[i] > 0 then LocalNumber(v, global[i] - 1) + 1 else global[i]
      {
        if global[node] > 0 {
          var localnode := Local(v, global[node] - 1);
          LocalNumberIs(v, global[node] - 1, localnode);
          local := local + [1 + localnode];
        } else {
          local := local + [global[node]];
        }
      }
      assert OpenState(0);
      assert local == Renumbered(global, LocalNumbers(v));
    }

    /** gridNodeUV, or DBL_MAX. */
    method FaceParameter(ghost v: View, m: int, id: int) returns (uv: (real, real))
      requires Shows(v)
      ensures uv == OrNone(Lookup(v.faces, m, id), (DBL_MAX, DBL_MAX))
    {
      assert OpenState(0) && Unfold(0);
      var found;
      found, uv := NodeParameter(faces, m, id, (DBL_MAX, DBL_MAX));
    }

    /** gridNodeT, or DBL_MAX. */
    method EdgeParameter(ghost v: View, m: int, id: int) returns (t: real)
      requires Shows(v)
      ensures t == OrNone(Lookup(v.edges, m, id), DBL_MAX)
    {
      assert OpenState(0) && Unfold(0);
      var found;
      found, t := NodeParameter(edges, m, id, DBL_MAX);
    }

    /** gridNodeXYZ and gridNodeFrozen for a valid node, stored in a row. */
    method NodeData(ghost v: View, m: int, row: Row) returns (r: Row)
      requires Shows(v) && IsValid(v.xyz, m) && m < |v.frozen| && |row| >= 3
      ensures |r| == |row| && HoldsNode(v, |row|, m, r)
    {
      assert OpenState(0);
      r := NodeRowOf(row, nodes.xyz[m], frozen[m]);
    }

    /** The face part of gridloadglobalnodedata. */
    method LoadFaces(ghost v: View, ndim: nat, s: seq<int>, from: nat, to: nat, m: int, ghost node: int,
                     before: seq<Row>)
      returns (data: seq<Row>)
      requires Shows(v) && IsAt(v, m, node) && from <= to <= |s| == |before| && WideRows(before, ndim)
      ensures |data| == |before| && WideRows(data, ndim)
      ensures forall i :: 0 <= i < |data| && !(from <= i < to) ==> data[i] == before[i]
      ensures forall i :: from <= i < to ==> IsLoaded(v, ndim, OfFace(node, -s[i]), data[i])
    {
      ShowsSizes(v);
      data := before;
      for i := from to to
        invariant |data| == |before| && WideRows(data, ndim)
        invariant forall j :: 0 <= j < |data| && !(from <= j < i) ==> data[j] == before[j]
        invariant forall j :: from <= j < i ==> IsLoaded(v, ndim, OfFace(node, -s[j]), data[j])
      {
        var uv := FaceParameter(v, m, -s[i]);
        data := data[i := data[i][0 := uv.0][1 := uv.1]];
        OneAt(v, m, node, OfFace(node, -s[i]), ndim, data[i]);
      }
    }

    /** The edge part of gridloadglobalnodedata. */
    method LoadEdges(ghost v: View, ndim: nat, s: seq<int>, from: nat, to: nat, m: int, ghost node: int,
                     before: seq<Row>)
      returns (data: seq<Row>)
      requires Shows(v) && IsAt(v, m, node) && from <= to <= |s| == |before| && WideRows(before, ndim)
      ensures |data| == |before| && WideRows(data, ndim)
      ensures forall i :: 0 <= i < |data| && !(from <= i < to) ==> data[i] == before[i]
      ensures forall i :: from <= i < to ==> IsLoaded(v, ndim, OfEdge(node, -s[i]), data[i])
    {
      ShowsSizes(v);
      data := before;
      for i := from to to
        invariant |data| == |before| && WideRows(data, ndim)
        invariant forall j :: 0 <= j < |data| && !(from <= j < i) ==> data[j] == before[j]
        invariant forall j :: from <= j < i ==> IsLoaded(v, ndim, OfEdge(node, -s[j]), data[j])
      {
        var t := EdgeParameter(v, m, -s[i]);
        data := data[i := data[i][0 := t]];
        OneAt(v, m, node, OfEdge(node, -s[i]), ndim, data[i]);
      }
    }

    /** The part of gridloadglobalnodedata for the ids after a node: faces, then edges. */
    method LoadIds(ghost v: View, ndim: nat, s: seq<int>, node: nat, m: int, ghost last: int, ghost roles: seq<Role>,
                   before: seq<Row>)
      returns (next: nat, data: seq<Row>)
      requires Shows(v) && IsAt(v, m, last)
      requires node < |s| == |before| && s[node] <= 0 && ReaderAt(s, node, last, roles)
      requires LoadedUpTo(v, ndim, roles, before, node)
      ensures node < next <= |s| == |data| && ReaderAt(s, next, last, roles)
      ensures LoadedUpTo(v, ndim, roles, data, next)
    {
      ReadFaces(s, node, last, roles);
      next := node + 1 - s[node];
      assert AfterFaces(s, next, last, roles);
      data := LoadFaces(v, ndim, s, node + 1, next, m, last, before);
      LoadedMore(v, ndim, roles, before, data, node, next);
      next, data := LoadEdgeIds(v, ndim, s, next, m, last, roles, data);
    }

    method LoadEdgeIds(ghost v: View, ndim: nat, s: seq<int>, node: nat, m: int, ghost last: int,
                       ghost roles: seq<Role>, before: seq<Row>)
      returns (next: nat, data: seq<Row>)
      requires Shows(v) && IsAt(v, m, last) && AfterFaces(s, node, last, roles) && |before| == |s|
      requires LoadedUpTo(v, ndim, roles, before, node)
      ensures node <= next <= |s| == |data| && ReaderAt(s, next, last, roles)
      ensures LoadedUpTo(v, ndim, roles, data, next)
    {
      next, data := node, before;
      if node < |s| && s[node] < 0 {
        next := node + 1 - s[node];
        data := LoadEdges(v, ndim, s, node + 1, next, m, last, before);
        LoadedMore(v, ndim, roles, before, data, node, next);
      }
    }

    /** The part of gridloadglobalnodedata for a node. */
    method LoadNode(ghost v: View, ndim: nat, s: seq<int>, node: nat, ghost last: int, ghost roles: seq<Role>,
                    before: seq<Row>)
      returns (localnode: int, data: seq<Row>)
      requires Shows(v) && node < |s| == |before| && s[node] > 0 && ReaderAt(s, node, last, roles)
      requires AllHere(v, roles) && LoadedUpTo(v, ndim, roles, before, node)
      modifies nodes`hasSorted, nodes`sortedGlobal, nodes`sortedLocal
      ensures Shows(v) && ReaderAt(s, node + 1, s[node] - 1, roles) && |data| == |s| && IsAt(v, localnode, s[node] - 1)
      ensures LoadedUpTo(v, ndim, roles, data, node + 1)
    {
      ReadNode(s, node, last, roles);
      HereAt(v, roles, node);
      ShowsSizes(v);
      localnode := Local(v, s[node] - 1);
      var row := NodeData(v, localnode, before[node]);
      data := before[node := row];
      OneAt(v, localnode, s[node] - 1, roles[node], ndim, row);
      LoadedMore(v, ndim, roles, before, data, node, node + 1);
    }

    /** gridloadglobalnodedata: each row answers what its entry is read as. */
    method LoadGlobalNodeData(ghost v: View, ndim: nat, s: seq<int>, before: seq<Row>, ghost roles: seq<Role>)
      returns (data: seq<Row>)
      requires Shows(v) && ReaderAt(s, 0, 0, roles) && |before| == |s| && WideRows(before, ndim)
      requires (s != [] ==> s[0] > 0) && AllHere(v, roles)
      modifies nodes`hasSorted, nodes`sortedGlobal, nodes`sortedLocal
      ensures Shows(v) && |data| == |s| && LoadedUpTo(v, ndim, roles, data, |s|)
    {
      ghost var last := 0;
      data := before;
      var localnode, node := 0, 0;
      while node < |s|
        invariant Shows(v) && 0 <= node <= |s| && ReaderAt(s, node, last, roles)
        invariant |data| == |s| && LoadedUpTo(v, ndim, roles, data, node)
        invariant node > 0 ==> IsAt(v, localnode, last)
      {
        if s[node] > 0 {
          localnode, data := LoadNode(v, ndim, s, node, last, roles, data);
          last := s[node] - 1;
          node := node + 1;
        } else {
          node, data := LoadIds(v, ndim, s, node, localnode, last, roles, data);
        }
      }
    }

    method PlaceNode(n: int, p: Point)
      requires Valid() && IsValid(nodes.xyz, n) && p.x != DBL_MAX
      modifies nodes`xyz
      ensures Valid() && State() == old(State().(xyz := nodes.xyz[n := p]))
    {
      assert Unfold(0);
      nodes.SetNodeXYZ(n, p);
    }

    /** gridThawNode and gridFreezeNode for a valid node. */
    method SetFrozen(n: nat, freeze: bool)
      requires Valid() && n < |frozen|
      modifies `frozen
      ensures Valid() && State() == old(State().(frozen := frozen[n := freeze]))
    {
      frozen := frozen[n := freeze];
    }

    /** gridSetNodeXYZ, with the freezing and thawing of gridsetlocalnodedata. */
    method SetNode(n: int, ndim: nat, row: Row)
      requires Valid() && |row| == ndim >= 3 && row[0] != DBL_MAX
      modifies nodes`xyz, `frozen
      ensures Valid() && IsStep(old(State()), State(), ndim, OfNode(n), row)
    {
      if IsValid(nodes.xyz, n) {
        PlaceNode(n, Point(row[0], row[1], row[2]));
        if ndim > 3 {
          SetFrozen(n, false);
          if row[3] > 0.5 {
            SetFrozen(n, true);
          }
        }
      }
    }

    method SetFace(n: int, id: int, ndim: nat, row: Row)
      requires Valid() && |row| == ndim >= 3
      modifies faces`data
      ensures Valid() && IsStep(old(State()), State(), ndim, OfFace(n, id), row)
    {
      assert Unfold(0);
      ghost var data := faces.data;
      var found := SetNodeParameter(faces, n, id, (row[0], row[1]));
      SetParameter(faces, data, n, id, (row[0], row[1]));
    }

    method SetEdge(n: int, id: int, ndim: nat, row: Row)
      requires Valid() && |row| == ndim >= 3
      modifies edges`data
      ensures Valid() && IsStep(old(State()), State(), ndim, OfEdge(n, id), row)
    {
      assert Unfold(0);
      ghost var data := edges.data;
      var found := SetNodeParameter(edges, n, id, row[0]);
      SetParameter(edges, data, n, id, row[0]);
    }

    method TakeFace(ghost v0: View, ndim: nat, n: int, id: int, data: seq<Row>, ghost roles: seq<Role>, k: nat)
      requires Valid() && k < |data| == |roles| && IsUpdated(v0, State(), ndim, roles, data, k)
      requires roles[k] == OfFace(n, id)
      modifies faces`data
      ensures Valid() && IsUpdated(v0, State(), ndim, roles, data, k + 1)
    {
      ghost var v := State();
      SetFace(n, id, ndim, data[k]);
      UpdateOne(v0, v, State(), ndim, roles, data, k);
    }

    /** The face part of gridsetlocalnodedata. */
    method SetFaces(ghost v0: View, ndim: nat, s: seq<int>, from: nat, to: nat, n: int, data: seq<Row>,
                    ghost roles: seq<Role>)
      requires Valid() && from <= to <= |s| && IsUpdated(v0, State(), ndim, roles, data, from) && |s| == |roles|
      requires forall i :: from <= i < to ==> roles[i] == OfFace(n, -s[i])
      modifies faces`data
      ensures Valid() && IsUpdated(v0, State(), ndim, roles, data, to)
    {
      for i := from to to
        invariant Valid() && IsUpdated(v0, State(), ndim, roles, data, i)
      {
        TakeFace(v0, ndim, n, -s[i], data, roles, i);
      }
    }

    method TakeEdge(ghost v0: View, ndim: nat, n: int, id: int, data: seq<Row>, ghost roles: seq<Role>, k: nat)
      requires Valid() && k < |data| == |roles| && IsUpdated(v0, State(), ndim, roles, data, k)
      requires roles[k] == OfEdge(n, id)
      modifies edges`data
      ensures Valid() && IsUpdated(v0, State(), ndim, roles, data, k + 1)
    {
      ghost var v := State();
      SetEdge(n, id, ndim, data[k]);
      UpdateOne(v0, v, State(), ndim, roles, data, k);
    }

    /** The edge part of gridsetlocalnodedata. */
    method SetEdges(ghost v0: View, ndim: nat, s: seq<int>, from: nat, to: nat, n: int, data: seq<Row>,
                    ghost roles: seq<Role>)
      requires Valid() && from <= to <= |s| && IsUpdated(v0, State(), ndim, roles, data, from) && |s| == |roles|
      requires forall i :: from <= i < to ==> roles[i] == OfEdge(n, -s[i])
      modifies edges`data
      ensures Valid() && IsUpdated(v0, State(), ndim, roles, data, to)
    {
      for i := from to to
        invariant Valid() && IsUpdated(v0, State(), ndim, roles, data, i)
      {
        TakeEdge(v0, ndim, n, -s[i], data, roles, i);
      }
    }

    /** The part of gridsetlocalnodedata for the ids after a node: faces, then edges. */
    method SetIds(ghost v0: View, ndim: nat, s: seq<int>, node: nat, n: int, data: seq<Row>, ghost roles: seq<Role>)
      returns (next: nat)
      requires Valid() && node < |s| && s[node] <= 0 && ReaderAt(s, node, n, roles)
      requires IsUpdated(v0, State(), ndim, roles, data, node)
      modifies faces`data, edges`data
      ensures Valid() && IsUpdated(v0, State(), ndim, roles, data, next)
      ensures node < next <= |s| && ReaderAt(s, next, n, roles)
    {
      ReadFaces(s, node, n, roles);
      next := node + 1 - s[node];
      UpdateCount(v0, State(), ndim, roles, data, node);
      SetFaces(v0, ndim, s, node + 1, next, n, data, roles);
      next := SetEdgeIds(v0, ndim, s, next, n, data, roles);
    }

    method SetEdgeIds(ghost v0: View, ndim: nat, s: seq<int>, node: nat, n: int, data: seq<Row>, ghost roles: seq<Role>)
      returns (next: nat)
      requires Valid() && AfterFaces(s, node, n, roles) && IsUpdated(v0, State(), ndim, roles, data, node)
      modifies edges`data
      ensures Valid() && IsUpdated(v0, State(), ndim, roles, data, next)
      ensures node <= next <= |s| && ReaderAt(s, next, n, roles)
    {
      next := node;
      if node < |s| && s[node] < 0 {
        next := node + 1 - s[node];
        UpdateCount(v0, State(), ndim, roles, data, node);
        SetEdges(v0, ndim, s, node + 1, next, n, data, roles);
      }
    }

    method TakeNode(ghost v0: View, ndim: nat, n: int, data: seq<Row>, ghost roles: seq<Role>, k: nat)
      requires Valid() && k < |data| == |roles| && IsUpdated(v0, State(), ndim, roles, data, k) && roles[k] == OfNode(n)
      requires data[k][0] != DBL_MAX
      modifies nodes`xyz, `frozen
      ensures Valid() && IsUpdated(v0, State(), ndim, roles, data, k + 1)
    {
      ghost var v := State();
      SetNode(n, ndim, data[k]);
      UpdateOne(v0, v, State(), ndim, roles, data, k);
    }

    /** gridsetlocalnodedata: everything a row is for has its value afterwards, and nothing else changes. */
    method SetLocalNodeData(ndim: nat, s: seq<int>, data: seq<Row>)
      requires Valid() && Fits(s, 0) && |data| == |s| && WideRows(data, ndim)
      requires var roles := Read(s, 0, 0); forall i :: 0 <= i < |roles| && roles[i].OfNode? ==> data[i][0] != DBL_MAX
      modifies nodes`xyz, `frozen, faces`data, edges`data
      ensures Valid() && IsUpdated(old(State()), State(), ndim, Read(s, 0, 0), data, |s|)
    {
      ghost var roles := Read(s, 0, 0);
      ghost var v0 := State();
      assert |v0.faces.data| == |v0.faces.rows| && |v0.edges.data| == |v0.edges.rows| by {
        assert Unfold(0);
      }
      UpdateNothing(v0, ndim, roles, data);
      var localnode, node := 0, 0;
      ReadBegins(s);
      while node < |s|
        invariant Valid() && 0 <= node <= |s| && ReaderAt(s, node, localnode, roles)
        invariant IsUpdated(v0, State(), ndim, roles, data, node)
      {
        if s[node] > 0 {
          ReadNode(s, node, localnode, roles);
          localnode := s[node] - 1;
          TakeNode(v0, ndim, localnode, data, roles, node);
          node := node + 1;
        } else {
          node := SetIds(v0, ndim, s, node, localnode, data, roles);
        }
      }
    }

    /** The ids around a node that a record holds. */
    method RecordIds<V>(s: Store<Tag<V>>, n: int, maxId: nat) returns (ids: seq<int>)
      requires s.Valid()
      ensures IsIdList(ids, Kept(IdSet(s.rows, s.data, n), maxId))
    {
      var ok;
      ok, ids := NodeIds(s, n, maxId);
    }

    /** One ghost of gridloadghostnodes. */
    method PutGhost(ghost v: View, n: nat, localnode: array<int>, globalnode: array<int>, at: nat)
      returns (next: nat, ghost g: Ghost, ghost e: seq<int>, ghost h: seq<int>)
      requires Shows(v) && n < |v.xyz| == |v.global|
      requires localnode != globalnode && localnode !in Parts && globalnode !in Parts
      requires localnode.Length == globalnode.Length && at + GhostSize(v, n) <= localnode.Length
      modifies localnode, globalnode
      ensures Describes(v, n, g) && next == at + |e| && |e| == |h| == GhostSize(v, n)
      ensures IsRecord(g, e) && IsRecord(g.(id := v.global[n]), h)
      ensures Puts(old(localnode[..]), localnode[..], at, e) && Puts(old(globalnode[..]), globalnode[..], at, h)
    {
      var global, faceids, edgeids := GhostIds(v, n);
      g := Ghost(n, faceids, edgeids);
      DescribedSize(v, n, g);
      next, e, h := PutRecord(n, global, faceids, edgeids, localnode, globalnode, at);
    }

    /** gridNodeGlobal, gridNodeFaceId and gridNodeEdgeId for a ghost. */
    method GhostIds(ghost v: View, n: nat) returns (global: int, faceids: seq<int>, edgeids: seq<int>)
      requires Shows(v) && n < |v.xyz| == |v.global|
      ensures global == v.global[n] && Describes(v, n, Ghost(n, faceids, edgeids))
    {
      assert OpenState(0) && Unfold(0);
      global := nodes.nodeGlobal[n];
      faceids := RecordIds(faces, n, MAXFACEIDDEG);
      edgeids := RecordIds(edges, n, MAXEDGEIDDEG);
    }

    /** gridNodeGhost and gridNodePart. */
    method OwnerOf(ghost v: View, n: nat) returns (isGhost: bool, p: int)
      requires Shows(v) && n < |v.xyz|
      ensures isGhost ==> IsGhostOf(v, n, p)
      ensures !isGhost ==> forall q :: !IsGhostOf(v, n, q)
    {
      assert OpenState(0);
      isGhost, p := IsGhost(n), EMPTY;
      if isGhost {
        p := part[n];
      }
    }

    /** gridNodeGhost */
    predicate IsGhost(n: int)
      requires Valid()
      reads this, Parts
    {
      IsValid(nodes.xyz, n) && hasPart && part[n] != partId
    }

    /** The entries one kind of ids needs. */
    method CountEntries<V>(s: Store<Tag<V>>, n: int, maxId: nat) returns (size: nat)
      requires s.Valid()
      ensures size == IdsSize(IdSet(s.rows, s.data, n), maxId)
    {
      var degree := NodeIdDegree(s, n, maxId);
      size := if degree > 0 then degree + 1 else 0;
    }

    /** gridGhostDataCountByPartition: the size of the message to every partition. */
    method GhostDataCount(ghost v: View, nproc: nat) returns (count: seq<nat>)
      requires Shows(v) && GhostsWithin(v, nproc)
      ensures |count| == nproc && forall p :: 0 <= p < nproc ==> count[p] == Size(v, p, |v.xyz|)
    {
      ShowsSizes(v);
      count := seq(nproc, _ => 0);
      for n := 0 to nodes.maxnode
        invariant |count| == nproc && forall p :: 0 <= p < nproc ==> count[p] == Size(v, p, n)
      {
        var isGhost, p := OwnerOf(v, n);
        if isGhost {
          var size := CountGhost(v, n);
          count := count[p := count[p] + size];
        }
      }
    }

    method CountGhost(ghost v: View, n: nat) returns (size: nat)
      requires Shows(v)
      ensures size == GhostSize(v, n)
    {
      assert OpenState(0) && Unfold(0);
      var faceEntries := CountEntries(faces, n, MAXFACEIDDEG);
      var edgeEntries := CountEntries(edges, n, MAXEDGEIDDEG);
      size := 1 + faceEntries + edgeEntries;
    }

    /** The loop of gridloadghostnodes for one ghost. */
    method WriteNode(ghost v: View, n: nat, clientindex: seq<int>, ghost size: seq<nat>, localnode: array<int>,
                     globalnode: array<int>,
                     p: nat, at: nat, ghost w: Written) returns (next: nat, ghost w': Written)
      requires Shows(v) && n < |v.xyz| == |v.global| && p < |clientindex| && IsGhostOf(v, n, p)
      requires localnode != globalnode && localnode !in Parts && globalnode !in Parts
      requires IsWriting(v, clientindex, size, w, n, localnode[..], globalnode[..]) && RoomUpTo(v, size, n + 1)
      requires at == clientindex[p] - 1 + |w.local[p]|
      modifies localnode, globalnode
      ensures IsWriting(v, clientindex, size, w', n + 1, localnode[..], globalnode[..])
      ensures |w'.local| == |w.local| && w'.local == w.local[p := w'.local[p]]
      ensures next == clientindex[p] - 1 + |w'.local[p]|
    {
      ghost var l, m := localnode[..], globalnode[..];
      GhostFits(v, clientindex, size, w, n, p, l, m);
      ghost var g, e, h;
      next, g, e, h := PutGhost(v, n, localnode, globalnode, at);
      WriteGhost(v, clientindex, size, w, n, l, m, localnode[..], globalnode[..], p, g, e, h);
      w' := WithRecord(w, p, g, e, h);
    }

    /** The loop of gridloadghostnodes. */
    method WriteIfGhost(ghost v: View, n: nat, clientindex: seq<int>, ghost size: seq<nat>, localnode: array<int>,
                        globalnode: array<int>,
                        before: seq<nat>, ghost w0: Written) returns (count: seq<nat>, ghost w: Written)
      requires Shows(v) && n < |v.xyz| == |v.global| && GhostsWithin(v, |clientindex|)
      requires localnode != globalnode && localnode !in Parts && globalnode !in Parts
      requires IsWriting(v, clientindex, size, w0, n, localnode[..], globalnode[..])
      requires RoomUpTo(v, size, n + 1) && Counted(before, w0)
      modifies localnode, globalnode
      ensures IsWriting(v, clientindex, size, w, n + 1, localnode[..], globalnode[..]) && Counted(count, w)
    {
      count, w := before, w0;
      var isGhost, p := OwnerOf(v, n);
      if isGhost {
        GhostFits(v, clientindex, size, w, n, p, localnode[..], globalnode[..]);
        var next;
        next, w := WriteNode(v, n, clientindex, size, localnode, globalnode, p, clientindex[p] - 1 + count[p], w);
        count := count[p := next - (clientindex[p] - 1)];
      } else {
        WriteNone(v, clientindex, size, w, n, localnode[..], globalnode[..]);
      }
    }

    /** gridloadghostnodes: the messages to all partitions, in local and in global numbers. */
    method LoadGhostNodes(ghost v: View, nproc: nat, clientindex: seq<int>, localnode: array<int>,
                          globalnode: array<int>)
      returns (ghost w: Written)
      requires Shows(v) && |clientindex| == nproc && GhostsWithin(v, nproc)
      requires localnode != globalnode && localnode !in Parts && globalnode !in Parts
      requires localnode.Length == globalnode.Length
      requires Rooms(clientindex, Sizes(v, nproc, |v.xyz|), localnode.Length)
      modifies localnode, globalnode
      ensures IsWriting(v, clientindex, Sizes(v, nproc, |v.xyz|), w, |v.xyz|, localnode[..], globalnode[..])
    {
      ghost var size := Sizes(v, nproc, |v.xyz|);
      ShowsSizes(v);
      var count: seq<nat> := seq(nproc, _ => 0);
      w := NothingWritten(nproc);
      WriteNothing(v, clientindex, size, localnode[..], globalnode[..]);
      for n := 0 to nodes.maxnode
        invariant Counted(count, w) && IsWriting(v, clientindex, size, w, n, localnode[..], globalnode[..])
      {
        AllFit(v, nproc, n, |v.xyz|);
        count, w := WriteIfGhost(v, n, clientindex, size, localnode, globalnode, count, w);
      }
    }
  }
}
