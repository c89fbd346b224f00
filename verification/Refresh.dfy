/**
 One exchange of ghost data between partitions: the messages are written, the owners answer, and the
 answers are stored. Afterwards the ghosts agree with their owners.
 */
module GhostRefresh {
  import opened Common
  import opened ItemStore
  import opened Geometry
  import opened NodeStore
  import opened NodeParameters
  import opened GhostStream
  import opened MessageBuffers
  import opened GhostExchange

  /** The face ids whose uv is asked for: those of the node, but those of its edges if it has none. */
  ghost function AskedFaces(v: View, n: int): set<int> {
    var faces := Kept(FaceIdsAt(v, n), MAXFACEIDDEG);
    if faces == {} then Kept(EdgeIdsAt(v, n), MAXEDGEIDDEG) else faces
  }

  /** The edge ids whose t is asked for. */
  ghost function AskedEdges(v: View, n: int): set<int> {
    if Kept(FaceIdsAt(v, n), MAXFACEIDDEG) == {} then {} else Kept(EdgeIdsAt(v, n), MAXEDGEIDDEG)
  }

  /** A parameter after an exchange, from what it was and what the owner has. */
  function Refreshed<V>(was: Found<V>, owners: Found<V>, none: V): Found<V> {
    if was == NotFound then NotFound else Here(OrNone(owners, none))
  }

  ghost predicate FaceRefreshed(v0: View, v: View, o: View, n: int, m: int, id: int) {
    Lookup(v.faces, n, id) ==
      if id in AskedFaces(v0, n) then Refreshed(Lookup(v0.faces, n, id), Lookup(o.faces, m, id), (DBL_MAX, DBL_MAX))
      else Lookup(v0.faces, n, id)
  }

  ghost predicate EdgeRefreshed(v0: View, v: View, o: View, n: int, m: int, id: int) {
    Lookup(v.edges, n, id) ==
      if id in AskedEdges(v0, n) then Refreshed(Lookup(v0.edges, n, id), Lookup(o.edges, m, id), DBL_MAX)
      else Lookup(v0.edges, n, id)
  }

  /** Ghost n has what its owner has for node m. */
  ghost predicate NodeRefreshed(v0: View, v: View, o: View, ndim: nat, n: nat, m: nat) {
    && n < |v.xyz| == |v.frozen| && n < |v0.frozen| && m < |o.xyz| && m < |o.frozen|
    && v.xyz[n] == o.xyz[m] && v.frozen[n] == (if ndim > 3 then o.frozen[m] else v0.frozen[n])
    && (forall id :: FaceRefreshed(v0, v, o, n, m, id))
    && (forall id :: EdgeRefreshed(v0, v, o, n, m, id))
  }

  ghost predicate NodeKept(v0: View, v: View, n: int) {
    && (0 <= n < |v0.xyz| == |v.xyz| == |v0.frozen| == |v.frozen| ==>
      v.xyz[n] == v0.xyz[n] && v.frozen[n] == v0.frozen[n])
    && (forall id :: Lookup(v.faces, n, id) == Lookup(v0.faces, n, id))
    && (forall id :: Lookup(v.edges, n, id) == Lookup(v0.edges, n, id))
  }

  /** An exchange leaves the shape of a partition alone. */
  ghost predicate SameShape(v0: View, v: View) {
    && v.global == v0.global && v.part == v0.part && v.partId == v0.partId
    && |v.xyz| == |v0.xyz| == |v.frozen| == |v0.frozen|
    && SameItems(v0.faces, v.faces) && SameItems(v0.edges, v.edges)
    && forall n :: 0 <= n < |v.xyz| ==> (IsValid(v.xyz, n) <==> IsValid(v0.xyz, n))
  }

  /** The handle for what an exchange did. */
  ghost predicate OpenExchange(u: int) {
    true
  }

  /** The ghosts that p owns have what p has; all other nodes have what they had. Kept folded. */
  ghost predicate IsRefreshed(v0: View, v: View, o: View, ndim: nat, p: int) {
    forall u :: OpenExchange(u) ==> AllRefreshed(v0, v, o, ndim, p)
  }

  ghost predicate AllRefreshed(v0: View, v: View, o: View, ndim: nat, p: int) {
    && SameShape(v0, v)
    && (forall n, m :: IsGhostOf(v0, n, p) && n < |v0.global| && IsAt(o, m, v0.global[n]) ==>
      NodeRefreshed(v0, v, o, ndim, n, m))
    && (forall n :: !IsGhostOf(v0, n, p) ==> NodeKept(v0, v, n))
  }

  lemma {:induction false} LastFinds(roles: seq<Role>, role: Role)
    ensures Last(roles, |roles|, role) == EMPTY <==> role !in roles
  {
    var i := Last(roles, |roles|, role);
    if role in roles {
      var j :| 0 <= j < |roles| && roles[j] == role;
      assert i != EMPTY;
    }
  }

  /** The data a record of a node asks for. */
  ghost predicate Wanted(v: View, role: Role)
    requires role != Count
  {
    match role
    case OfNode(_) => true
    case OfFace(n, id) => id in AskedFaces(v, n)
    case OfEdge(n, id) => id in AskedEdges(v, n)
  }

  lemma UnderstoodAsks(v: View, g: Ghost, role: Role)
    requires role != Count && Describes(v, role.node, g)
    ensures Asks(Understood(g), role) <==> Wanted(v, role)
  {
    var faces := Kept(FaceIdsAt(v, role.node), MAXFACEIDDEG);
    if g.faces == [] {
      assert faces == {};
    } else {
      assert g.faces[0] in faces;
    }
  }

  /** The records are those of the ghosts that p owns; kept folded. */
  ghost predicate AreGhostsOf(v: View, p: int, list: seq<Ghost>) {
    forall u :: Unfold(u) ==>
      && (forall i :: 0 <= i < |list| ==> IsGhostOf(v, list[i].id, p) && Describes(v, list[i].id, list[i]))
      && (forall k :: IsGhostOf(v, k, p) ==> exists i :: 0 <= i < |list| && list[i].id == k)
  }

  lemma {:induction false} ListIs(v: View, p: int, list: seq<Ghost>)
    requires IsListOf(v, p, |v.xyz|, list)
    ensures AreGhostsOf(v, p, list)
  {
    forall i | 0 <= i < |list| ensures IsGhostOf(v, list[i].id, p) && Describes(v, list[i].id, list[i]) {
      ListIn(v, p, |v.xyz|, list, i);
    }
    forall k | IsGhostOf(v, k, p) ensures exists i :: 0 <= i < |list| && list[i].id == k {
      var i := ListHas(v, p, |v.xyz|, list, k);
    }
  }

  lemma AskedIsWanted(v: View, p: int, list: seq<Ghost>, role: Role, k: nat)
    requires AreGhostsOf(v, p, list) && role != Count && k < |list| && Asks(Understood(list[k]), role)
    ensures IsGhostOf(v, role.node, p) && Wanted(v, role)
  {
    assert Unfold(0);
    assert list[k].id == role.node;
    UnderstoodAsks(v, list[k], role);
  }

  lemma WantedIsAsked(v: View, p: int, list: seq<Ghost>, role: Role) returns (k: nat)
    requires AreGhostsOf(v, p, list) && role != Count && IsGhostOf(v, role.node, p) && Wanted(v, role)
    ensures k < |list| && Asks(Understood(list[k]), role)
  {
    assert Unfold(0);
    k :| 0 <= k < |list| && list[k].id == role.node;
    UnderstoodAsks(v, list[k], role);
  }

  /** What the message to p asks for. */
  lemma AskedIs(v: View, p: int, list: seq<Ghost>, role: Role)
    requires AreGhostsOf(v, p, list) && role != Count
    ensures role in RolesAll(UnderstoodAll(list)) <==> IsGhostOf(v, role.node, p) && Wanted(v, role)
  {
    var asked := UnderstoodAll(list);
    RolesAreAsked(asked, role);
    if k :| 0 <= k < |asked| && Asks(asked[k], role) {
      AskedIsWanted(v, p, list, role, k);
    }
    if IsGhostOf(v, role.node, p) && Wanted(v, role) {
      var k := WantedIsAsked(v, p, list, role);
      assert Asks(asked[k], role);
    }
  }

  /** What the owner was asked for it, and what it answered. */
  ghost predicate IsAnswered(v0: View, o: View, ndim: nat, roles: seq<Role>, data: seq<Row>) {
    LoadedUpTo(o, ndim, LabelledRoles(roles, GlobalOf(v0.global)), data, |data|)
  }

  /** The last row for a role answers it. */
  lemma LastAnswer(v0: View, o: View, ndim: nat, roles: seq<Role>, data: seq<Row>, role: Role, m: int) returns (i: nat)
    requires IsAnswered(v0, o, ndim, roles, data) && role != Count && role in roles
    requires 0 <= role.node < |v0.global| && IsAt(o, m, v0.global[role.node])
    ensures i == Last(roles, |roles|, role) && i < |data| == |roles| && |data[i]| == ndim >= 3
    ensures Holds(o, ndim, LabelledRole(role, GlobalOf(v0.global)), m, data[i])
  {
    LastFinds(roles, role);
    i := Last(roles, |roles|, role);
    assert IsLoaded(o, ndim, LabelledRoles(roles, GlobalOf(v0.global))[i], data[i]);
  }

  lemma {:induction false} RefreshNode(v0: View, v: View, o: View, ndim: nat, p: int, list: seq<Ghost>,
                                       roles: seq<Role>, data: seq<Row>, n: nat, m: nat)
    requires AreGhostsOf(v0, p, list) && roles == RolesAll(UnderstoodAll(list)) && IsAnswered(v0, o, ndim, roles, data)
    requires |data| == |roles| && WideRows(data, ndim) && AllUpdated(v0, v, ndim, roles, data, |roles|)
    requires |v0.global| == |v0.xyz| && IsGhostOf(v0, n, p) && IsAt(o, m, v0.global[n])
    ensures v.xyz[n] == o.xyz[m] && v.frozen[n] == if ndim > 3 then o.frozen[m] else v0.frozen[n]
  {
    AskedIs(v0, p, list, OfNode(n));
    var i := LastAnswer(v0, o, ndim, roles, data, OfNode(n), m);
    assert NodeUpdated(v0, v, ndim, roles, data, |roles|, n);
  }

  lemma {:induction false} RefreshFace(v0: View, v: View, o: View, ndim: nat, p: int, list: seq<Ghost>,
                                       roles: seq<Role>, data: seq<Row>, n: nat, m: nat, id: int)
    requires AreGhostsOf(v0, p, list) && roles == RolesAll(UnderstoodAll(list)) && IsAnswered(v0, o, ndim, roles, data)
    requires |data| == |roles| && WideRows(data, ndim) && AllUpdated(v0, v, ndim, roles, data, |roles|)
    requires |v0.global| == |v0.xyz| && IsGhostOf(v0, n, p) && IsAt(o, m, v0.global[n])
    ensures FaceRefreshed(v0, v, o, n, m, id)
  {
    var role := OfFace(n, id);
    AskedIs(v0, p, list, role);
    LastFinds(roles, role);
    if id in AskedFaces(v0, n) {
      var i := LastAnswer(v0, o, ndim, roles, data, role, m);
    }
    assert FaceUpdated(v0, v, ndim, roles, data, |roles|, n, id);
  }

  lemma {:induction false} RefreshEdge(v0: View, v: View, o: View, ndim: nat, p: int, list: seq<Ghost>,
                                       roles: seq<Role>, data: seq<Row>, n: nat, m: nat, id: int)
    requires AreGhostsOf(v0, p, list) && roles == RolesAll(UnderstoodAll(list)) && IsAnswered(v0, o, ndim, roles, data)
    requires |data| == |roles| && WideRows(data, ndim) && AllUpdated(v0, v, ndim, roles, data, |roles|)
    requires |v0.global| == |v0.xyz| && IsGhostOf(v0, n, p) && IsAt(o, m, v0.global[n])
    ensures EdgeRefreshed(v0, v, o, n, m, id)
  {
    var role := OfEdge(n, id);
    AskedIs(v0, p, list, role);
    LastFinds(roles, role);
    if id in AskedEdges(v0, n) {
      var i := LastAnswer(v0, o, ndim, roles, data, role, m);
    }
    assert EdgeUpdated(v0, v, ndim, roles, data, |roles|, n, id);
  }

  lemma {:induction false} KeepNode(v0: View, v: View, ndim: nat, p: int, list: seq<Ghost>, roles: seq<Role>,
                                    data: seq<Row>, n: int)
    requires AreGhostsOf(v0, p, list) && roles == RolesAll(UnderstoodAll(list))
    requires |data| == |roles| && WideRows(data, ndim) && AllUpdated(v0, v, ndim, roles, data, |roles|)
    requires !IsGhostOf(v0, n, p)
    ensures NodeKept(v0, v, n)
  {
    AskedIs(v0, p, list, OfNode(n));
    LastFinds(roles, OfNode(n));
    if 0 <= n < |v.xyz| {
      assert NodeUpdated(v0, v, ndim, roles, data, |roles|, n);
    }
    forall id ensures Lookup(v.faces, n, id) == Lookup(v0.faces, n, id) {
      AskedIs(v0, p, list, OfFace(n, id));
      LastFinds(roles, OfFace(n, id));
      assert FaceUpdated(v0, v, ndim, roles, data, |roles|, n, id);
    }
    forall id ensures Lookup(v.edges, n, id) == Lookup(v0.edges, n, id) {
      AskedIs(v0, p, list, OfEdge(n, id));
      LastFinds(roles, OfEdge(n, id));
      assert EdgeUpdated(v0, v, ndim, roles, data, |roles|, n, id);
    }
  }

  lemma ShapeKept(v0: View, v: View, ndim: nat, roles: seq<Role>, data: seq<Row>)
    requires |data| == |roles| && WideRows(data, ndim) && AllUpdated(v0, v, ndim, roles, data, |roles|)
    ensures SameShape(v0, v)
  {
    forall n | 0 <= n < |v.xyz| ensures IsValid(v.xyz, n) <==> IsValid(v0.xyz, n) {
      assert NodeUpdated(v0, v, ndim, roles, data, |roles|, n);
    }
  }

  /** Storing an answer to the message to p brings the ghosts that p owns up to date. */
  lemma {:induction false} AnswerRefreshes(v0: View, v: View, o: View, ndim: nat, p: int, list: seq<Ghost>,
                                           data: seq<Row>)
    requires AreGhostsOf(v0, p, list) && |v0.global| == |v0.xyz|
    requires var roles := RolesAll(UnderstoodAll(list)); |data| == |roles| && IsAnswered(v0, o, ndim, roles, data)
    requires IsUpdated(v0, v, ndim, RolesAll(UnderstoodAll(list)), data, |data|)
    ensures IsRefreshed(v0, v, o, ndim, p)
  {
    var roles := RolesAll(UnderstoodAll(list));
    assert OpenUpdate(|data|, 0) && OpenExchange(0);
    ShapeKept(v0, v, ndim, roles, data);
    forall n, m | IsGhostOf(v0, n, p) && n < |v0.global| && IsAt(o, m, v0.global[n])
      ensures NodeRefreshed(v0, v, o, ndim, n, m)
    {
      RefreshNode(v0, v, o, ndim, p, list, roles, data, n, m);
      forall id ensures FaceRefreshed(v0, v, o, n, m, id) {
        RefreshFace(v0, v, o, ndim, p, list, roles, data, n, m, id);
      }
      forall id ensures EdgeRefreshed(v0, v, o, n, m, id) {
        RefreshEdge(v0, v, o, ndim, p, list, roles, data, n, m, id);
      }
    }
    forall n | !IsGhostOf(v0, n, p) ensures NodeKept(v0, v, n) {
      KeepNode(v0, v, ndim, p, list, roles, data, n);
    }
  }

  /** The owner has the ghosts that p owns. Kept folded. */
  ghost predicate KnowsGhosts(v: View, o: View, p: int) {
    forall u :: Unfold(u) ==>
      forall n :: IsGhostOf(v, n, p) ==> n < |v.global| && v.global[n] >= 0 && HasNode(o, v.global[n])
  }

  lemma GhostIdsOk(v: View, o: View, p: int, list: seq<Ghost>)
    requires AreGhostsOf(v, p, list) && KnowsGhosts(v, o, p)
    ensures forall i :: 0 <= i < |list| ==> list[i].id >= 0 && GlobalOf(v.global)(list[i].id) >= 0
  {
    assert Unfold(0);
    forall i | 0 <= i < |list| ensures list[i].id >= 0 && GlobalOf(v.global)(list[i].id) >= 0 {
      assert IsGhostOf(v, list[i].id, p);
    }
  }

  lemma {:induction false} GlobalReads(list: seq<Ghost>, f: int -> int, global: seq<int>)
    requires global == EncodeAll(Labelled(list, f)) && forall i :: 0 <= i < |list| ==> f(list[i].id) >= 0
    ensures Fits(global, 0) && Read(global, 0, 0) == LabelledRoles(RolesAll(UnderstoodAll(list)), f)
    ensures global != [] ==> global[0] > 0
  {
    ReadsAsUnderstood(Labelled(list, f));
    LabelUnderstood(list, f);
    LabelAll(UnderstoodAll(list), f);
  }

  /** How the two readers understand the two messages to p. */
  lemma {:induction false} MessagesRead(v: View, o: View, p: int, list: seq<Ghost>, local: seq<int>, global: seq<int>)
    requires AreGhostsOf(v, p, list) && KnowsGhosts(v, o, p)
    requires local == EncodeAll(list) && global == EncodeAll(Labelled(list, GlobalOf(v.global)))
    ensures Fits(local, 0) && Read(local, 0, 0) == RolesAll(UnderstoodAll(list))
    ensures Fits(global, 0)
    ensures Read(global, 0, 0) == LabelledRoles(RolesAll(UnderstoodAll(list)), GlobalOf(v.global))
    ensures |global| == |local| && (global != [] ==> global[0] > 0)
    ensures AllHere(o, Read(global, 0, 0))
  {
    GhostIdsOk(v, o, p, list);
    ReadsAsUnderstood(list);
    GlobalReads(list, GlobalOf(v.global), global);
    GlobalsHere(v, o, p, list);
  }

  lemma {:induction false} ReadsAsUnderstood(list: seq<Ghost>)
    requires forall i :: 0 <= i < |list| ==> list[i].id >= 0
    ensures Fits(EncodeAll(list), 0) && Read(EncodeAll(list), 0, 0) == RolesAll(UnderstoodAll(list))
    ensures EncodeAll(list) != [] ==> EncodeAll(list)[0] > 0
  {
    var s := EncodeAll(list);
    assert s[0..] == s;
    ReadAll(s, 0, list, 0);
    if list != [] {
      assert s[0] == Encode(list[0])[0];
    }
  }

  lemma {:induction false} GlobalsHere(v: View, o: View, p: int, list: seq<Ghost>)
    requires AreGhostsOf(v, p, list) && KnowsGhosts(v, o, p)
    ensures AllHere(o, LabelledRoles(RolesAll(UnderstoodAll(list)), GlobalOf(v.global)))
  {
    assert Unfold(0);
    var f := GlobalOf(v.global);
    var roles := RolesAll(UnderstoodAll(list));
    var globals := LabelledRoles(roles, f);
    forall i | 0 <= i < |globals| && globals[i].OfNode? ensures HasNode(o, globals[i].node) {
      assert roles[i].OfNode? && roles[i] in roles;
      AskedIs(v, p, list, roles[i]);
    }
  }

  /** An answered message holds coordinates of nodes. */
  lemma AnswersArePlaces(v: View, o: View, ndim: nat, roles: seq<Role>, data: seq<Row>)
    requires IsAnswered(v, o, ndim, roles, data) && |data| == |roles|
    requires AllHere(o, LabelledRoles(roles, GlobalOf(v.global)))
    ensures forall i :: 0 <= i < |roles| && roles[i].OfNode? ==> data[i][0] != DBL_MAX
  {
    var globals := LabelledRoles(roles, GlobalOf(v.global));
    forall i | 0 <= i < |roles| && roles[i].OfNode? ensures data[i][0] != DBL_MAX {
      assert globals[i].OfNode? && IsLoaded(o, ndim, globals[i], data[i]);
      HereAt(o, globals, i);
      var m :| IsAt(o, m, globals[i].node);
      assert Holds(o, ndim, globals[i], m, data[i]);
    }
  }

  ghost predicate Separate(a: Partition, b: Partition) {
    a != b && a !in b.Parts && b !in a.Parts && a.Parts !! b.Parts
  }

  /** Data that answer the message to p; kept folded. */
  ghost predicate IsAnswerTo(v: View, o: View, ndim: nat, list: seq<Ghost>, local: seq<int>, data: seq<Row>) {
    && |data| == |local| && WideRows(data, ndim) && Fits(local, 0)
    && forall u :: Unfold(u) ==>
         && var roles := RolesAll(UnderstoodAll(list));
         && Read(local, 0, 0) == roles && IsAnswered(v, o, ndim, roles, data)
         && forall i :: 0 <= i < |roles| && roles[i].OfNode? ==> data[i][0] != DBL_MAX
  }

  lemma {:induction false} AnswerIs(v: View, o: View, ndim: nat, list: seq<Ghost>, local: seq<int>, data: seq<Row>)
    requires IsAnswerTo(v, o, ndim, list, local, data)
    ensures Read(local, 0, 0) == RolesAll(UnderstoodAll(list))
    ensures IsAnswered(v, o, ndim, RolesAll(UnderstoodAll(list)), data)
    ensures var roles := RolesAll(UnderstoodAll(list));
            |roles| == |data| && forall i :: 0 <= i < |roles| && roles[i].OfNode? ==> data[i][0] != DBL_MAX
  {
    assert Unfold(0);
  }

  /** The owner answers the message in global numbers. */
  method AskOwner(owner: Partition, ndim: nat, global: seq<int>, before: seq<Row>,
                  ghost v: View, ghost o: View, ghost p: int, ghost list: seq<Ghost>, ghost local: seq<int>)
                  returns (data: seq<Row>)
    requires owner.Shows(o) && AreGhostsOf(v, p, list) && KnowsGhosts(v, o, p)
    requires local == EncodeAll(list) && global == EncodeAll(Labelled(list, GlobalOf(v.global)))
    requires |before| == |global| && WideRows(before, ndim)
    modifies owner.nodes`hasSorted, owner.nodes`sortedGlobal, owner.nodes`sortedLocal
    ensures owner.Shows(o) && IsAnswerTo(v, o, ndim, list, local, data)
  {
    MessagesRead(v, o, p, list, local, global);
    ReadBegins(global);
    data := owner.LoadGlobalNodeData(o, ndim, global, before, Read(global, 0, 0));
    AnswersArePlaces(v, o, ndim, RolesAll(UnderstoodAll(list)), data);
  }

  /** The client stores the answer to its message. */
  method StoreAnswer(client: Partition, ndim: nat, local: seq<int>, data: seq<Row>,
                     ghost v: View, ghost o: View, ghost p: int, ghost list: seq<Ghost>) returns (ghost v': View)
    requires client.Shows(v) && AreGhostsOf(v, p, list) && IsAnswerTo(v, o, ndim, list, local, data)
    modifies client.nodes`xyz, client`frozen, client.faces`data, client.edges`data
    ensures client.Shows(v') && IsRefreshed(v, v', o, ndim, p)
  {
    client.ShowsSizes(v);
    AnswerIs(v, o, ndim, list, local, data);
    assert OpenState(0);
    client.SetLocalNodeData(ndim, local, data);
    v' := client.State();
    AnswerRefreshes(v, v', o, ndim, p, list, data);
  }

  /** A message translated by gridloadlocalnodes is the message of the same records in local numbers. */
  lemma {:induction false} LocalMessage(o: View, list: seq<Ghost>)
    requires forall i :: 0 <= i < |list| ==> RecordOk(list[i])
    ensures Renumbered(EncodeAll(list), LocalNumbers(o)) == EncodeAll(Labelled(list, LocalNumbers(o)))
  {
    RenumberedAll(list, LocalNumbers(o));
  }

  /** Node n is a ghost of one of the first k partitions. */
  ghost predicate IsGhostBelow(v: View, n: int, k: int) {
    IsValid(v.xyz, n) && n < |v.part| && 0 <= v.part[n] < k && v.part[n] != v.partId
  }

  /**
   The ghosts of the first k partitions have what their owners have; all other nodes have what they had. Kept
   folded.
   */
  ghost predicate IsExchanged(v0: View, v: View, os: seq<View>, ndim: nat, k: nat) {
    forall u :: OpenExchange(u) ==> AllExchanged(v0, v, os, ndim, k)
  }

  ghost predicate AllExchanged(v0: View, v: View, os: seq<View>, ndim: nat, k: nat) {
    && k <= |os| && SameShape(v0, v)
    && (forall n, m :: IsGhostBelow(v0, n, k) && n < |v0.global| && IsAt(os[v0.part[n]], m, v0.global[n]) ==>
          NodeRefreshed(v0, v, os[v0.part[n]], ndim, n, m))
    && (forall n :: !IsGhostBelow(v0, n, k) ==> NodeKept(v0, v, n))
  }

  lemma ExchangedShape(v0: View, v: View, os: seq<View>, ndim: nat, k: nat)
    requires IsExchanged(v0, v, os, ndim, k)
    ensures SameShape(v0, v)
  {
    assert OpenExchange(0);
  }

  lemma SameIds(v0: View, v: View, n: int)
    requires SameShape(v0, v)
    ensures FaceIdsAt(v, n) == FaceIdsAt(v0, n) && EdgeIdsAt(v, n) == EdgeIdsAt(v0, n)
  {
    SameIdSet(v0.faces, v.faces, n);
    SameIdSet(v0.edges, v.edges, n);
  }

  lemma SameIdSet<V>(t: Lookups<V>, t': Lookups<V>, n: int)
    requires SameItems(t, t')
    ensures IdSet(t'.rows, t'.data, n) == IdSet(t.rows, t.data, n)
  {
    forall id ensures IsOn(t'.rows, t'.data, n, id) <==> IsOn(t.rows, t.data, n, id) {
      if IsOn(t.rows, t.data, n, id) {
        var f :| 0 <= f < |t.rows| && f < |t.data| && IsItemOn(t.rows, t.data, f, n, id);
        assert IsItemOn(t'.rows, t'.data, f, n, id);
      }
      if IsOn(t'.rows, t'.data, n, id) {
        var f :| 0 <= f < |t'.rows| && f < |t'.data| && IsItemOn(t'.rows, t'.data, f, n, id);
        assert IsItemOn(t.rows, t.data, f, n, id);
      }
    }
  }

  lemma SameGhosts(v0: View, v: View, n: int, p: int)
    requires SameShape(v0, v)
    ensures IsGhostOf(v, n, p) <==> IsGhostOf(v0, n, p)
  {
  }

  /** The messages stay right while ghosts are brought up to date. */
  lemma {:induction false} ListsStay(v0: View, v: View, p: int, n: nat, list: seq<Ghost>)
    requires SameShape(v0, v) && IsListOf(v0, p, n, list)
    ensures IsListOf(v, p, n, list)
  {
    if n > 0 {
      SameGhosts(v0, v, n - 1, p);
      SameIds(v0, v, n - 1);
      ListsStay(v0, v, p, n - 1, if IsGhostOf(v0, n - 1, p) then list[..|list| - 1] else list);
    }
  }

  lemma KnownStay(v0: View, v: View, o: View, p: int)
    requires SameShape(v0, v) && KnowsGhosts(v0, o, p)
    ensures KnowsGhosts(v, o, p)
  {
    assert Unfold(0);
    forall n | IsGhostOf(v, n, p) ensures n < |v.global| && v.global[n] >= 0 && HasNode(o, v.global[n]) {
      SameGhosts(v0, v, n, p);
    }
  }

  lemma RefreshedThenKept(v0: View, v: View, v': View, o: View, ndim: nat, n: nat, m: nat)
    requires SameShape(v0, v) && SameShape(v, v') && NodeRefreshed(v0, v, o, ndim, n, m) && NodeKept(v, v', n)
    ensures NodeRefreshed(v0, v', o, ndim, n, m)
  {
    forall id ensures FaceRefreshed(v0, v', o, n, m, id) {
      assert FaceRefreshed(v0, v, o, n, m, id);
    }
    forall id ensures EdgeRefreshed(v0, v', o, n, m, id) {
      assert EdgeRefreshed(v0, v, o, n, m, id);
    }
  }

  lemma KeptThenRefreshed(v0: View, v: View, v': View, o: View, ndim: nat, n: nat, m: nat)
    requires SameShape(v0, v) && SameShape(v, v') && NodeKept(v0, v, n) && NodeRefreshed(v, v', o, ndim, n, m)
    ensures NodeRefreshed(v0, v', o, ndim, n, m)
  {
    SameIds(v0, v, n);
    forall id ensures FaceRefreshed(v0, v', o, n, m, id) {
      assert FaceRefreshed(v, v', o, n, m, id);
    }
    forall id ensures EdgeRefreshed(v0, v', o, n, m, id) {
      assert EdgeRefreshed(v, v', o, n, m, id);
    }
  }

  lemma SameShapeTwice(v0: View, v: View, v': View)
    requires SameShape(v0, v) && SameShape(v, v')
    ensures SameShape(v0, v')
  {
  }

  /** The exchange with one more owner. */
  lemma OneMoreOwner(v0: View, v: View, v': View, os: seq<View>, ndim: nat, k: nat)
    requires k < |os| && IsExchanged(v0, v, os, ndim, k)
    requires if k == v0.partId then v' == v else IsRefreshed(v, v', os[k], ndim, k)
    ensures IsExchanged(v0, v', os, ndim, k + 1)
  {
    assert OpenExchange(0);
    var next := k + 1;
    if k == v0.partId {
      assert forall n :: IsGhostBelow(v0, n, next) <==> IsGhostBelow(v0, n, k);
    } else {
      SameShapeTwice(v0, v, v');
      forall n, m | IsGhostBelow(v0, n, next) && n < |v0.global| && IsAt(os[v0.part[n]], m, v0.global[n])
        ensures NodeRefreshed(v0, v', os[v0.part[n]], ndim, n, m)
      {
        SameGhosts(v0, v, n, k);
        if v0.part[n] == k {
          assert !IsGhostBelow(v0, n, k);
          KeptThenRefreshed(v0, v, v', os[k], ndim, n, m);
        } else {
          assert IsGhostBelow(v0, n, k) && !IsGhostOf(v, n, k);
          RefreshedThenKept(v0, v, v', os[v0.part[n]], ndim, n, m);
        }
      }
      forall n | !IsGhostBelow(v0, n, next) ensures NodeKept(v0, v', n) {
        SameGhosts(v0, v, n, k);
        assert !IsGhostBelow(v0, n, k) && !IsGhostOf(v, n, k);
      }
    }
  }

  /** What a node has agrees with what its owner has for it, DBL_MAX standing for nothing. */
  ghost predicate Agrees(v: View, o: View, n: nat, m: nat) {
    && n < |v.xyz| && m < |o.xyz| && v.xyz[n] == o.xyz[m]
    && (forall id :: id in FaceIdsAt(v, n) ==>
      Lookup(v.faces, n, id) == Here(OrNone(Lookup(o.faces, m, id), (DBL_MAX, DBL_MAX))))
    && (forall id :: id in EdgeIdsAt(v, n) ==> Lookup(v.edges, n, id) == Here(OrNone(Lookup(o.edges, m, id), DBL_MAX)))
  }

  /** There is a parameter for every id around a node. */
  ghost predicate HasParameters(v: View, n: int) {
    && (forall id :: Lookup(v.faces, n, id) != NotFound <==> id in FaceIdsAt(v, n))
    && (forall id :: Lookup(v.edges, n, id) != NotFound <==> id in EdgeIdsAt(v, n))
  }

  /** A message has room for the ids of a node, and edge ids do not come without face ids. */
  ghost predicate IsSendable(v: View, n: int) {
    && |FaceIdsAt(v, n)| <= MAXFACEIDDEG && |EdgeIdsAt(v, n)| <= MAXEDGEIDDEG
    && (EdgeIdsAt(v, n) != {} ==> FaceIdsAt(v, n) != {})
  }

  /** Everything that is asked for is everything there is exactly for the sendable nodes. */
  lemma SendableIffAllAsked(v: View, n: int)
    ensures IsSendable(v, n) <==> AskedFaces(v, n) == FaceIdsAt(v, n) && AskedEdges(v, n) == EdgeIdsAt(v, n)
  {
  }

  /** What a reader makes of the record of a node is all the ids of the node exactly for the sendable nodes. */
  lemma SendableIffUnderstood(v: View, n: int, g: Ghost)
    requires Describes(v, n, g)
    ensures IsSendable(v, n) <==>
      IsIdList(Understood(g).faces, FaceIdsAt(v, n)) && IsIdList(Understood(g).edges, EdgeIdsAt(v, n))
  {
    if EdgeIdsAt(v, n) != {} && FaceIdsAt(v, n) == {} {
      assert Understood(g).edges == [];
    }
  }

  /** After an exchange every sendable ghost agrees with its owner. */
  lemma RefreshedAgrees(v0: View, v: View, o: View, ndim: nat, n: nat, m: nat)
    requires SameShape(v0, v) && NodeRefreshed(v0, v, o, ndim, n, m) && HasParameters(v0, n) && IsSendable(v0, n)
    ensures Agrees(v, o, n, m)
  {
    SameIds(v0, v, n);
    SendableIffAllAsked(v0, n);
    forall id | id in FaceIdsAt(v, n)
      ensures Lookup(v.faces, n, id) == Here(OrNone(Lookup(o.faces, m, id), (DBL_MAX, DBL_MAX)))
    {
      assert FaceRefreshed(v0, v, o, n, m, id);
    }
    forall id | id in EdgeIdsAt(v, n) ensures Lookup(v.edges, n, id) == Here(OrNone(Lookup(o.edges, m, id), DBL_MAX)) {
      assert EdgeRefreshed(v0, v, o, n, m, id);
    }
  }

  /** The t parameters of a ghost with edge ids but without face ids stay what they were, whatever its owner has. */
  lemma EdgesWithoutFacesStay(v0: View, v: View, o: View, ndim: nat, n: nat, m: nat, id: int)
    requires NodeRefreshed(v0, v, o, ndim, n, m) && FaceIdsAt(v0, n) == {}
    ensures Lookup(v.edges, n, id) == Lookup(v0.edges, n, id)
  {
    assert EdgeRefreshed(v0, v, o, n, m, id);
  }

  /** All other partitions share nothing with the client and with each other. */
  ghost predicate AreSeparate(client: Partition, owners: seq<Partition>) {
    && (forall p :: 0 <= p < |owners| && p != client.partId ==> Separate(client, owners[p]))
    && forall p, q :: 0 <= p < |owners| && 0 <= q < |owners| && p != client.partId && q != client.partId && p != q ==>
         Separate(owners[p], owners[q])
  }

  lemma NothingExchanged(v: View, os: seq<View>, ndim: nat)
    requires |v.frozen| == |v.xyz| && |v.faces.data| == |v.faces.rows| && |v.edges.data| == |v.edges.rows|
    ensures IsExchanged(v, v, os, ndim, 0)
  {
  }

  /** The messages as they stand in the buffers. */
  lemma {:induction false} MessageTo(v: View, start: seq<int>, size: seq<nat>, w: Written, n: nat, l: seq<int>,
                                     m: seq<int>, p: nat)
    requires IsWriting(v, start, size, w, n, l, m) && p < |start|
    ensures |w.lists| == |start| && IsListOf(v, p, n, w.lists[p])
    ensures 1 <= start[p] && start[p] - 1 + Size(v, p, n) <= |l|
    ensures l[start[p] - 1..start[p] - 1 + Size(v, p, n)] == EncodeAll(w.lists[p])
    ensures m[start[p] - 1..start[p] - 1 + Size(v, p, n)] == EncodeAll(Labelled(w.lists[p], GlobalOf(v.global)))
  {
    assert Unfold(0);
    assert IsMessageAt(l, start[p], w.local[p]) && IsMessageAt(m, start[p], w.global[p]);
  }

  lemma {:induction false} StillAsked(v0: View, v: View, o: View, p: int, list: seq<Ghost>)
    requires SameShape(v0, v) && KnowsGhosts(v0, o, p) && IsListOf(v0, p, |v0.xyz|, list)
    ensures AreGhostsOf(v, p, list) && KnowsGhosts(v, o, p) && v.global == v0.global
  {
    ListsStay(v0, v, p, |v0.xyz|, list);
    ListIs(v, p, list);
    KnownStay(v0, v, o, p);
  }

  /** The exchange with one owner, by messages written in an earlier state v0 of the client. */
  method ExchangeOne(client: Partition, owner: Partition, ndim: nat, local: seq<int>, global: seq<int>, ghost p: int,
                     ghost list: seq<Ghost>,
                     ghost v0: View, ghost v: View, ghost o: View) returns (ghost v': View)
    requires client.Shows(v) && owner.Shows(o) && Separate(client, owner) && ndim >= 3
    requires SameShape(v0, v) && KnowsGhosts(v0, o, p) && IsListOf(v0, p, |v0.xyz|, list)
    requires local == EncodeAll(list) && global == EncodeAll(Labelled(list, GlobalOf(v0.global)))
    modifies client.nodes`xyz, client`frozen, client.faces`data, client.edges`data
    modifies owner.nodes`hasSorted, owner.nodes`sortedGlobal, owner.nodes`sortedLocal
    ensures client.Shows(v') && owner.Shows(o) && IsRefreshed(v, v', o, ndim, p)
  {
    StillAsked(v0, v, o, p, list);
    var before := seq(|global|, _ => seq(ndim, _ => 0.0));
    var data := AskOwner(owner, ndim, global, before, v, o, p, list, local);
    v' := StoreAnswer(client, ndim, local, data, v, o, p, list);
  }

  /** The exchange with one of several owners leaves the others as they are. */
  method ExchangeWith(client: Partition, owners: seq<Partition>, p: nat, ndim: nat, local: seq<int>, global: seq<int>,
                      ghost list: seq<Ghost>, ghost v0: View, ghost v: View, ghost os: seq<View>)
                      returns (ghost v': View)
    requires client.Shows(v) && ndim >= 3 && |os| == |owners| && p < |owners| && p != client.partId
    requires AreSeparate(client, owners)
    requires forall q :: 0 <= q < |owners| && q != client.partId ==> owners[q].Shows(os[q])
    requires SameShape(v0, v) && KnowsGhosts(v0, os[p], p) && IsListOf(v0, p, |v0.xyz|, list)
    requires local == EncodeAll(list) && global == EncodeAll(Labelled(list, GlobalOf(v0.global)))
    modifies client.nodes`xyz, client`frozen, client.faces`data, client.edges`data
    modifies owners[p].nodes`hasSorted, owners[p].nodes`sortedGlobal, owners[p].nodes`sortedLocal
    ensures client.Shows(v') && IsRefreshed(v, v', os[p], ndim, p)
    ensures forall q :: 0 <= q < |owners| && q != client.partId ==> owners[q].Shows(os[q])
  {
    v' := ExchangeOne(client, owners[p], ndim, local, global, p, list, v0, v, os[p]);
  }

  /** The owners answer one after the other; l and m are the messages, written in state v of the client. */
  method ExchangeAll(client: Partition, owners: seq<Partition>, ndim: nat, clientindex: seq<int>, count: seq<nat>,
                     l: seq<int>, m: seq<int>,
                     ghost v: View, ghost os: seq<View>, ghost w: Written) returns (ghost v': View)
    requires client.Shows(v) && ndim >= 3 && client.partId == v.partId
    requires |owners| == |clientindex| == |os| == |count| && AreSeparate(client, owners)
    requires forall p :: 0 <= p < |owners| && p != client.partId ==> owners[p].Shows(os[p]) && KnowsGhosts(v, os[p], p)
    requires IsWriting(v, clientindex, Sizes(v, |owners|, |v.xyz|), w, |v.xyz|, l, m)
    requires forall p :: 0 <= p < |owners| ==> count[p] == Size(v, p, |v.xyz|)
    requires IsExchanged(v, v, os, ndim, 0)
    modifies client.nodes`xyz, client`frozen, client.faces`data, client.edges`data
    modifies set p | 0 <= p < |owners| :: owners[p].nodes
    ensures client.Shows(v') && IsExchanged(v, v', os, ndim, |owners|)
    ensures forall p :: 0 <= p < |owners| && p != client.partId ==> owners[p].Shows(os[p])
  {
    ghost var size := Sizes(v, |owners|, |v.xyz|);
    v' := v;
    for p := 0 to |owners|
      invariant client.Shows(v') && IsExchanged(v, v', os, ndim, p)
      invariant forall q :: 0 <= q < |owners| && q != client.partId ==> owners[q].Shows(os[q])
    {
      ghost var before := v';
      if p != client.partId {
        ExchangedShape(v, before, os, ndim, p);
        MessageTo(v, clientindex, size, w, |v.xyz|, l, m, p);
        var from, to := clientindex[p] - 1, clientindex[p] - 1 + count[p];
        v' := ExchangeWith(client, owners, p, ndim, l[from..to], m[from..to], w.lists[p], v, before, os);
      }
      OneMoreOwner(v, before, v', os, ndim, p);
    }
  }

  /** Ghost n of a partition is owned by p, and is p's node m. */
  ghost predicate IsShared(v: View, os: seq<View>, n: int, p: int, m: int) {
    IsGhostOf(v, n, p) && 0 <= p < |os| && n < |v.global| && IsAt(os[p], m, v.global[n])
  }

  /** All ghosts of a partition agree with their owners. */
  ghost predicate AllAgree(v: View, os: seq<View>) {
    forall n, p, m :: IsShared(v, os, n, p, m) && IsSendable(v, n) ==> Agrees(v, os[p], n, m)
  }

  lemma {:induction false} ExchangedAgree(v0: View, v: View, os: seq<View>, ndim: nat)
    requires IsExchanged(v0, v, os, ndim, |os|) && forall n :: HasParameters(v0, n)
    ensures AllAgree(v, os)
  {
    ExchangedShape(v0, v, os, ndim, |os|);
    forall n, p, m | IsShared(v, os, n, p, m) && IsSendable(v, n) ensures Agrees(v, os[p], n, m) {
      SameGhosts(v0, v, n, p);
      SameIds(v0, v, n);
      GhostAgrees(v0, v, os, ndim, n, m, p);
    }
  }

  /** The exchange with every owner brings all ghosts up to date. */
  method Exchange(client: Partition, owners: seq<Partition>, ndim: nat, clientindex: seq<int>, localnode: array<int>,
                  globalnode: array<int>,
                  ghost v: View, ghost os: seq<View>) returns (ghost v': View)
    requires client.Shows(v) && ndim >= 3
    requires |owners| == |clientindex| == |os| && GhostsWithin(v, |owners|) && AreSeparate(client, owners)
    requires forall p :: 0 <= p < |owners| && p != client.partId ==> owners[p].Shows(os[p]) && KnowsGhosts(v, os[p], p)
    requires localnode != globalnode && localnode.Length == globalnode.Length && localnode !in client.Parts
    requires globalnode !in client.Parts
    requires forall p :: 0 <= p < |owners| ==> localnode !in owners[p].Parts && globalnode !in owners[p].Parts
    requires Rooms(clientindex, Sizes(v, |owners|, |v.xyz|), localnode.Length)
    modifies localnode, globalnode, client.nodes`xyz, client`frozen, client.faces`data, client.edges`data
    modifies set p | 0 <= p < |owners| :: owners[p].nodes
    ensures client.Shows(v') && IsExchanged(v, v', os, ndim, |owners|) && AllAgree(v', os)
    ensures forall p :: 0 <= p < |owners| && p != client.partId ==> owners[p].Shows(os[p])
  {
    ShownTables(client, v);
    ShownParameters(client, v);
    NothingExchanged(v, os, ndim);
    var count := client.GhostDataCount(v, |owners|);
    ghost var w := client.LoadGhostNodes(v, |owners|, clientindex, localnode, globalnode);
    v' := ExchangeAll(client, owners, ndim, clientindex, count, localnode[..], globalnode[..], v, os, w);
    ExchangedAgree(v, v', os, ndim);
  }

  lemma ShownParameters(c: Partition, v: View)
    requires c.Shows(v)
    ensures forall n :: HasParameters(v, n)
  {
    assert OpenState(0);
    forall n ensures HasParameters(v, n) {
      ParametersFound(c, n);
    }
  }

  lemma ShownTables(c: Partition, v: View)
    requires c.Shows(v)
    ensures |v.frozen| == |v.xyz| && |v.faces.data| == |v.faces.rows| && |v.edges.data| == |v.edges.rows|
    ensures v.partId == c.partId
  {
    assert OpenState(0) && Unfold(0);
  }

  /** In a partition there is a parameter exactly for the ids around a node. */
  lemma ParametersFound(c: Partition, n: int)
    requires c.Valid()
    ensures HasParameters(c.State(), n)
  {
    assert Unfold(0);
    forall id
      ensures Lookup(c.State().faces, n, id) != NotFound <==> id in FaceIdsAt(c.State(), n)
      ensures Lookup(c.State().edges, n, id) != NotFound <==> id in EdgeIdsAt(c.State(), n)
    {
      ParameterIffOn(c.faces, n, id);
      ParameterIffOn(c.edges, n, id);
    }
  }

  /**
   After one exchange a ghost has its owner's coordinates, and its owner's parameters for all its faces
   and edges, if its message has room and its edge ids come with face ids.
   */
  lemma GhostAgrees(v0: View, v: View, os: seq<View>, ndim: nat, n: nat, m: nat, p: nat)
    requires IsExchanged(v0, v, os, ndim, |os|) && p < |os| && HasParameters(v0, n) && IsSendable(v0, n)
    requires IsGhostOf(v0, n, p) && n < |v0.global| && IsAt(os[p], m, v0.global[n])
    ensures Agrees(v, os[p], n, m)
  {
    assert OpenExchange(0) && IsGhostBelow(v0, n, |os|);
    RefreshedAgrees(v0, v, os[p], ndim, n, m);
  }

  /** Partitions that number their nodes alike: every ghost is there where it is owned, and is no ghost there. */
  ghost predicate AreConsistent(vs: seq<View>) {
    && (forall c :: 0 <= c < |vs| ==> vs[c].partId == c && GhostsWithin(vs[c], |vs|))
    && (forall c, p :: 0 <= c < |vs| && 0 <= p < |vs| && c != p ==> KnowsGhosts(vs[c], vs[p], p))
    && forall c, n, p, m, q :: 0 <= c < |vs| && IsShared(vs[c], vs, n, p, m) ==> !IsGhostOf(vs[p], m, q)
  }

  /** The states have the shapes they had. */
  ghost predicate SameShapes(vs: seq<View>, ws: seq<View>) {
    |ws| == |vs| && forall c :: 0 <= c < |vs| ==> SameShape(vs[c], ws[c])
  }

  lemma SameOwner(o: View, o': View, m: int, g: int)
    requires SameShape(o, o')
    ensures IsAt(o', m, g) <==> IsAt(o, m, g)
  {
  }

  lemma SameShares(v: View, v': View, vs: seq<View>, ws: seq<View>, n: int, p: int, m: int)
    requires SameShapes(vs, ws) && SameShape(v, v')
    ensures IsShared(v', ws, n, p, m) <==> IsShared(v, vs, n, p, m)
  {
    SameGhosts(v, v', n, p);
    if 0 <= p < |vs| && 0 <= n < |v.global| {
      SameOwner(vs[p], ws[p], m, v.global[n]);
    }
  }

  lemma KnownElsewhere(v: View, o: View, o': View, p: int)
    requires SameShape(o, o') && KnowsGhosts(v, o, p)
    ensures KnowsGhosts(v, o', p)
  {
    assert Unfold(0);
    forall n | IsGhostOf(v, n, p) ensures n < |v.global| && v.global[n] >= 0 && HasNode(o', v.global[n]) {
      var m :| IsAt(o, m, v.global[n]);
      SameOwner(o, o', m, v.global[n]);
      assert IsAt(o', m, v.global[n]);
    }
  }

  lemma {:induction false} StillConsistent(vs: seq<View>, ws: seq<View>)
    requires AreConsistent(vs) && SameShapes(vs, ws)
    ensures AreConsistent(ws)
  {
    forall c | 0 <= c < |ws| ensures ws[c].partId == c && GhostsWithin(ws[c], |ws|) {
      forall n, p | IsGhostOf(ws[c], n, p) ensures 0 <= p < |ws| {
        SameGhosts(vs[c], ws[c], n, p);
      }
    }
    forall c, p | 0 <= c < |ws| && 0 <= p < |ws| && c != p ensures KnowsGhosts(ws[c], ws[p], p) {
      KnownStay(vs[c], ws[c], vs[p], p);
      KnownElsewhere(ws[c], vs[p], ws[p], p);
    }
    forall c, n, p, m, q | 0 <= c < |ws| && IsShared(ws[c], ws, n, p, m) ensures !IsGhostOf(ws[p], m, q) {
      SameShares(vs[c], ws[c], vs, ws, n, p, m);
      SameGhosts(vs[p], ws[p], m, q);
    }
  }

  /** What agrees with a node that is kept still agrees with it. */
  lemma AgreesWithKept(v: View, o: View, o': View, n: nat, m: nat)
    requires Agrees(v, o, n, m) && NodeKept(o, o', m) && SameShape(o, o')
    ensures Agrees(v, o', n, m)
  {
    forall id
      ensures Lookup(o'.faces, m, id) == Lookup(o.faces, m, id) && Lookup(o'.edges, m, id) == Lookup(o.edges, m, id)
    {
    }
  }

  /** A turn of partition c does not undo what the partition q got in its turn. */
  lemma {:induction false} AgreementStays(ws: seq<View>, c: nat, v': View, ndim: nat, q: nat)
    requires AreConsistent(ws) && c < |ws| && q < |ws| && q != c && IsExchanged(ws[c], v', ws, ndim, |ws|)
    requires AllAgree(ws[q], ws)
    ensures AllAgree(ws[q], ws[c := v'])
  {
    var ws' := ws[c := v'];
    ExchangedShape(ws[c], v', ws, ndim, |ws|);
    forall n, p, m | IsShared(ws[q], ws', n, p, m) && IsSendable(ws[q], n) ensures Agrees(ws[q], ws'[p], n, m) {
      SameOwner(ws[c], v', m, ws[q].global[n]);
      assert IsShared(ws[q], ws, n, p, m);
      if p == c {
        assert forall k :: !IsGhostOf(ws[c], m, k);
        OwnedIsKept(ws[c], v', ws, ndim, m);
        AgreesWithKept(ws[q], ws[c], v', n, m);
      }
    }
  }

  lemma OwnedIsKept(v: View, v': View, os: seq<View>, ndim: nat, m: int)
    requires IsExchanged(v, v', os, ndim, |os|) && forall k :: !IsGhostOf(v, m, k)
    ensures NodeKept(v, v', m)
  {
    assert OpenExchange(0);
    assert m < |v.part| && 0 <= m ==> !IsGhostOf(v, m, v.part[m]);
  }

  /** A partition agrees with itself as before, having no ghosts that it owns. */
  lemma {:induction false} OwnAgreement(ws: seq<View>, c: nat, v': View)
    requires c < |ws| && SameShape(ws[c], v') && ws[c].partId == c && AllAgree(v', ws)
    ensures AllAgree(v', ws[c := v'])
  {
    var ws' := ws[c := v'];
    forall n, p, m | IsShared(v', ws', n, p, m) && IsSendable(v', n) ensures Agrees(v', ws'[p], n, m) {
      assert IsShared(v', ws, n, p, m);
    }
  }

  /** The states after the turn of partition c. */
  lemma {:induction false} TurnDone(vs: seq<View>, ws: seq<View>, c: nat, v': View, ws': seq<View>, ndim: nat)
    requires AreConsistent(vs) && SameShapes(vs, ws) && c < |ws| && IsExchanged(ws[c], v', ws, ndim, |ws|)
    requires (forall q :: 0 <= q < c ==> AllAgree(ws[q], ws)) && AllAgree(v', ws) && ws' == ws[c := v']
    ensures SameShapes(vs, ws') && forall q :: 0 <= q <= c ==> AllAgree(ws'[q], ws')
  {
    ExchangedShape(ws[c], v', ws, ndim, |ws|);
    SameShapeTwice(vs[c], ws[c], v');
    StillConsistent(vs, ws);
    OwnAgreement(ws, c, v');
    forall q | 0 <= q < c ensures AllAgree(ws[q], ws') {
      AgreementStays(ws, c, v', ndim, q);
    }
  }

  /** The partitions share nothing with each other. */
  ghost predicate AllSeparate(parts: seq<Partition>) {
    && (forall p :: 0 <= p < |parts| ==> parts[p].partId == p)
    && forall p, q :: 0 <= p < |parts| && 0 <= q < |parts| && p != q ==> Separate(parts[p], parts[q])
  }

  ghost predicate AllShow(parts: seq<Partition>, vs: seq<View>)
    reads set p | 0 <= p < |parts| :: parts[p]
    reads set p: int, o: object | 0 <= p < |parts| && o in parts[p].Parts :: o
  {
    |vs| == |parts| && forall p :: 0 <= p < |parts| ==> parts[p].Shows(vs[p])
  }

  /** The buffers belong to no partition, and have room for every message. */
  ghost predicate HaveBuffers(parts: seq<Partition>, vs: seq<View>, clientindex: seq<seq<int>>, localnode: array<int>,
                              globalnode: array<int>) {
    && localnode != globalnode && localnode.Length == globalnode.Length && |clientindex| == |parts| == |vs|
    && (forall p :: 0 <= p < |parts| ==> localnode !in parts[p].Parts && globalnode !in parts[p].Parts)
    && forall p :: 0 <= p < |parts| ==> Rooms(clientindex[p], Sizes(vs[p], |parts|, |vs[p].xyz|), localnode.Length)
  }

  /** The turn of partition c. */
  method Turn(client: Partition, parts: seq<Partition>, c: nat, ndim: nat, clientindex: seq<int>,
              localnode: array<int>, globalnode: array<int>, ghost ws: seq<View>) returns (ghost ws': seq<View>)
    requires AllSeparate(parts) && c < |parts| == |clientindex| && client == parts[c]
    requires AllShow(parts, ws) && AreConsistent(ws) && ndim >= 3
    requires localnode != globalnode && localnode.Length == globalnode.Length
    requires forall p :: 0 <= p < |parts| ==> localnode !in parts[p].Parts && globalnode !in parts[p].Parts
    requires Rooms(clientindex, Sizes(ws[c], |parts|, |ws[c].xyz|), localnode.Length)
    modifies localnode, globalnode, client`frozen, client.faces`data, client.edges`data
    modifies set p | 0 <= p < |parts| :: parts[p].nodes
    ensures |ws'| == |ws| && ws' == ws[c := ws'[c]] && AllShow(parts, ws')
    ensures IsExchanged(ws[c], ws'[c], ws, ndim, |ws|) && AllAgree(ws'[c], ws)
  {
    ghost var v' := Exchange(client, parts, ndim, clientindex, localnode, globalnode, ws[c], ws);
    ws' := ws[c := v'];
  }

  /** When every partition has had its turn, all ghosts of all partitions agree with their owners. */
  method ExchangeInTurn(parts: seq<Partition>, ndim: nat, clientindex: seq<seq<int>>, localnode: array<int>,
                        globalnode: array<int>, ghost vs: seq<View>) returns (ghost ws: seq<View>)
    requires AllSeparate(parts) && AllShow(parts, vs) && AreConsistent(vs) && ndim >= 3
    requires HaveBuffers(parts, vs, clientindex, localnode, globalnode)
    requires forall p :: 0 <= p < |parts| ==> |clientindex[p]| == |parts|
    modifies localnode, globalnode, set p | 0 <= p < |parts| :: parts[p], set p | 0 <= p < |parts| :: parts[p].nodes
    modifies set p | 0 <= p < |parts| :: parts[p].faces, set p | 0 <= p < |parts| :: parts[p].edges
    ensures AllShow(parts, ws) && SameShapes(vs, ws)
    ensures forall c :: 0 <= c < |parts| ==> AllAgree(ws[c], ws)
  {
    ws := vs;
    assert SameShapes(vs, ws) by {
      forall c | 0 <= c < |vs| ensures SameShape(vs[c], vs[c]) {
        ShownTables(parts[c], vs[c]);
      }
    }
    for c := 0 to |parts|
      invariant AllShow(parts, ws) && SameShapes(vs, ws)
      invariant forall q :: c <= q < |parts| ==> ws[q] == vs[q]
      invariant forall q :: 0 <= q < c ==> AllAgree(ws[q], ws)
    {
      StillConsistent(vs, ws);
      ghost var before := ws;
      ws := Turn(parts[c], parts, c, ndim, clientindex[c], localnode, globalnode, before);
      TurnDone(vs, before, c, ws[c], ws, ndim);
    }
  }
}
