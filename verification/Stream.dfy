/**
 The messages of one/gridfortran.c that keep ghost nodes up to date: a node's id, then the number of
 its face ids and the ids, then the same for its edge ids, everything but the node's id negated.
 */
module GhostStream {
  import opened Common

  /** A record: a node, counted from zero, and the ids of the faces and edges around it. */
  datatype Ghost = Ghost(id: int, faces: seq<int>, edges: seq<int>)

  /** What an entry of a message is to its readers. */
  datatype Role = OfNode(node: int) | Count | OfFace(node: int, id: int) | OfEdge(node: int, id: int)

  function IdEntries(ids: seq<int>): (s: seq<int>)
    ensures |s| == if ids == [] then 0 else 1 + |ids|
  {
    if ids == [] then [] else seq(1 + |ids|, i requires 0 <= i <= |ids| => if i == 0 then -|ids| else -ids[i - 1])
  }

  function Encode(g: Ghost): (s: seq<int>)
    ensures |s| == 1 + |IdEntries(g.faces)| + |IdEntries(g.edges)|
  {
    [g.id + 1] + IdEntries(g.faces) + IdEntries(g.edges)
  }

  /** Node 4, on faces 7 and 9 and edge 3, is written as 5 -2 -7 -9 -1 -3. */
  lemma RecordOfGhost()
    ensures Encode(Ghost(4, [7, 9], [3])) == [5, -2, -7, -9, -1, -3]
    ensures Roles(Ghost(4, [7, 9], [3])) == [OfNode(4), Count, OfFace(4, 7), OfFace(4, 9), Count, OfEdge(4, 3)]
  {
    assert IdEntries([7, 9]) == [-2, -7, -9] && IdEntries([3]) == [-1, -3];
    assert FaceRoles(4, [7, 9]) == [Count, OfFace(4, 7), OfFace(4, 9)] && EdgeRoles(4, [3]) == [Count, OfEdge(4, 3)];
  }

  function EncodeAll(list: seq<Ghost>): seq<int> {
    if list == [] then [] else Encode(list[0]) + EncodeAll(list[1..])
  }

  function FaceRoles(node: int, ids: seq<int>): (s: seq<Role>)
    ensures |s| == |IdEntries(ids)|
  {
    if ids == [] then [] else seq(1 + |ids|, i requires 0 <= i <= |ids| => if i == 0 then Count
      else OfFace(node, ids[i - 1]))
  }

  function EdgeRoles(node: int, ids: seq<int>): (s: seq<Role>)
    ensures |s| == |IdEntries(ids)|
  {
    if ids == [] then [] else seq(1 + |ids|, i requires 0 <= i <= |ids| => if i == 0 then Count
      else OfEdge(node, ids[i - 1]))
  }

  function Roles(g: Ghost): seq<Role> {
    [OfNode(g.id)] + FaceRoles(g.id, g.faces) + EdgeRoles(g.id, g.edges)
  }

  /** What the writer means by the entries of EncodeAll. */
  function RolesAll(list: seq<Ghost>): seq<Role> {
    if list == [] then [] else Roles(list[0]) + RolesAll(list[1..])
  }

  lemma {:induction false} EncodeAppend(list: seq<Ghost>, g: Ghost)
    ensures EncodeAll(list + [g]) == EncodeAll(list) + Encode(g)
  {
    if list == [] {
      assert list + [g] == [g];
      assert EncodeAll([g]) == Encode(g) + EncodeAll([]);
    } else {
      assert (list + [g])[1..] == list[1..] + [g];
      EncodeAppend(list[1..], g);
    }
  }

  /** The counts of a message from pos on stay inside it. */
  predicate Fits(s: seq<int>, pos: nat)
    requires pos <= |s|
    decreases |s| - pos
  {
    if pos == |s| then true
    else if s[pos] > 0 then Fits(s, pos + 1)
    else
      var faces := pos + 1 - s[pos];
      faces <= |s| &&
      if faces < |s| && s[faces] < 0 then
        var edges := faces + 1 - s[faces];
        edges <= |s| && Fits(s, edges)
      else Fits(s, faces)
  }

  function FacesRead(s: seq<int>, from: nat, to: nat, node: int): (roles: seq<Role>)
    requires from < to <= |s|
    ensures |roles| == to - from
    ensures forall i :: 0 <= i < |roles| ==> roles[i] == if i == 0 then Count else OfFace(node, -s[from + i])
  {
    seq(to - from, i requires 0 <= i < to - from => if i == 0 then Count else OfFace(node, -s[from + i]))
  }

  function EdgesRead(s: seq<int>, from: nat, to: nat, node: int): (roles: seq<Role>)
    requires from < to <= |s|
    ensures |roles| == to - from
    ensures forall i :: 0 <= i < |roles| ==> roles[i] == if i == 0 then Count else OfEdge(node, -s[from + i])
  {
    seq(to - from, i requires 0 <= i < to - from => if i == 0 then Count else OfEdge(node, -s[from + i]))
  }

  /** What the readers take the entries from pos on for; `node` is the last node read. */
  function Read(s: seq<int>, pos: nat, node: int): (roles: seq<Role>)
    requires pos <= |s| && Fits(s, pos)
    ensures |roles| == |s| - pos
    decreases |s| - pos
  {
    if pos == |s| then []
    else if s[pos] > 0 then [OfNode(s[pos] - 1)] + Read(s, pos + 1, s[pos] - 1)
    else
      var faces := pos + 1 - s[pos];
      if faces < |s| && s[faces] < 0 then
        var edges := faces + 1 - s[faces];
        FacesRead(s, pos, faces, node) + (EdgesRead(s, faces, edges, node) + Read(s, edges, node))
      else FacesRead(s, pos, faces, node) + Read(s, faces, node)
  }

  /** How a record is understood: edge ids that no face ids precede are taken for face ids. */
  function Understood(g: Ghost): Ghost {
    if g.faces == [] then Ghost(g.id, g.edges, []) else g
  }

  function UnderstoodAll(list: seq<Ghost>): (r: seq<Ghost>)
    ensures |r| == |list| && forall i :: 0 <= i < |list| ==> r[i] == Understood(list[i])
  {
    seq(|list|, i requires 0 <= i < |list| => Understood(list[i]))
  }

  /** The part of a message from pos on is the list. */
  ghost predicate IsMessage(s: seq<int>, pos: nat, list: seq<Ghost>) {
    pos <= |s| && s[pos..] == EncodeAll(list) && forall i :: 0 <= i < |list| ==> list[i].id >= 0
  }

  lemma MessageRest(s: seq<int>, pos: nat, list: seq<Ghost>)
    requires IsMessage(s, pos, list) && list != []
    ensures var g := list[0]; var next := pos + |Encode(g)|; IsMessage(s, next, list[1..]) && s[pos..next] == Encode(g)
    ensures var next := pos + |Encode(list[0])|; next < |s| ==> s[next] > 0
  {
    var g := list[0];
    var next := pos + |Encode(g)|;
    assert s[pos..] == Encode(g) + EncodeAll(list[1..]);
    assert s[next..] == s[pos..][|Encode(g)|..] == EncodeAll(list[1..]);
    assert s[pos..next] == s[pos..][..|Encode(g)|] == Encode(g);
    if next < |s| {
      assert s[next] == s[next..][0];
      assert list[1..] != [] && list[1..][0].id >= 0;
      assert EncodeAll(list[1..])[0] == Encode(list[1..][0])[0];
    }
  }

  /** The ids of one kind stand at a place of a message. */
  ghost predicate IdsAt(s: seq<int>, pos: nat, next: nat, ids: seq<int>) {
    && ids != [] && next == pos + 1 + |ids| <= |s|
    && s[pos] == -|ids|
    && forall i :: pos < i < next ==> s[i] == -ids[i - pos - 1]
  }

  lemma EntriesAt(s: seq<int>, pos: nat, next: nat, ids: seq<int>)
    requires ids != [] && next == pos + 1 + |ids| <= |s| && s[pos..next] == IdEntries(ids)
    ensures IdsAt(s, pos, next, ids)
  {
    var e := s[pos..next];
    assert e[0] == s[pos];
    forall i | pos < i < next ensures s[i] == -ids[i - pos - 1] {
      assert e[i - pos] == s[i];
    }
  }

  lemma FacesAt(s: seq<int>, pos: nat, next: nat, ids: seq<int>, node: int)
    requires IdsAt(s, pos, next, ids)
    ensures FacesRead(s, pos, next, node) == FaceRoles(node, ids)
  {
  }

  lemma EdgesAt(s: seq<int>, pos: nat, next: nat, ids: seq<int>, node: int)
    requires IdsAt(s, pos, next, ids)
    ensures EdgesRead(s, pos, next, node) == EdgeRoles(node, ids)
  {
  }

  /** A message may go on here: at its end, or with a node. */
  ghost predicate Starts(s: seq<int>, next: nat) {
    next <= |s| && Fits(s, next) && (next < |s| ==> s[next] > 0)
  }

  lemma {:induction false} ReadOneKind(s: seq<int>, pos: nat, next: nat, ids: seq<int>, node: int)
    requires IdsAt(s, pos, next, ids) && Starts(s, next)
    ensures Fits(s, pos) && Read(s, pos, node) == FaceRoles(node, ids) + Read(s, next, node)
  {
    FacesAt(s, pos, next, ids, node);
  }

  /** The two kinds of ids of one node. */
  lemma {:induction false} UnfoldTwoKinds(s: seq<int>, pos: nat, mid: nat, next: nat, node: int)
    requires pos < mid < next <= |s| && s[pos] == pos + 1 - mid && s[mid] == mid + 1 - next && s[mid] < 0
    requires Fits(s, next)
    ensures Fits(s, pos)
    ensures Read(s, pos, node) == FacesRead(s, pos, mid, node) + (EdgesRead(s, mid, next, node) + Read(s, next, node))
  {
  }

  lemma {:induction false} ReadTwoKinds(s: seq<int>, pos: nat, mid: nat, next: nat, faces: seq<int>, edges: seq<int>,
                                        node: int)
    requires IdsAt(s, pos, mid, faces) && IdsAt(s, mid, next, edges) && Starts(s, next)
    ensures Fits(s, pos)
    ensures Read(s, pos, node) == FaceRoles(node, faces) + (EdgeRoles(node, edges) + Read(s, next, node))
  {
    UnfoldTwoKinds(s, pos, mid, next, node);
    FacesAt(s, pos, mid, faces, node);
    EdgesAt(s, mid, next, edges, node);
  }

  lemma Regrouped<T>(a: seq<T>, b: seq<T>, c: seq<T>, d: seq<T>)
    ensures a + (b + (c + d)) == (a + b + c) + d
  {
  }

  lemma SplitAt<T>(s: seq<T>, pos: nat, next: nat, a: seq<T>, b: seq<T>)
    requires pos <= next <= |s| && s[pos..next] == a + b
    ensures var mid := pos + |a|; mid <= next && s[pos..mid] == a && s[mid..next] == b
  {
    var e := s[pos..next];
    assert s[pos..pos + |a|] == e[..|a|];
    assert s[pos + |a|..next] == e[|a|..];
  }

  lemma {:induction false} ReadIds(s: seq<int>, pos: nat, next: nat, g: Ghost, node: int)
    requires pos <= next <= |s| && s[pos..next] == IdEntries(g.faces) + IdEntries(g.edges) && Starts(s, next)
    ensures Fits(s, pos)
    ensures var u := Understood(g);
            Read(s, pos, node) == FaceRoles(node, u.faces) + (EdgeRoles(node, u.edges) + Read(s, next, node))
  {
    SplitAt(s, pos, next, IdEntries(g.faces), IdEntries(g.edges));
    var mid := pos + |IdEntries(g.faces)|;
    var rest := Read(s, next, node);
    assert [] + rest == rest;
    if g.faces == [] {
      if g.edges != [] {
        EntriesAt(s, mid, next, g.edges);
        ReadOneKind(s, mid, next, g.edges, node);
      }
    } else {
      EntriesAt(s, pos, mid, g.faces);
      if g.edges == [] {
        ReadOneKind(s, pos, next, g.faces, node);
      } else {
        EntriesAt(s, mid, next, g.edges);
        ReadTwoKinds(s, pos, mid, next, g.faces, g.edges, node);
      }
    }
  }

  lemma RecordAt(s: seq<int>, pos: nat, next: nat, g: Ghost)
    requires next == pos + |Encode(g)| <= |s| && s[pos..next] == Encode(g)
    ensures pos < next && s[pos] == g.id + 1 && s[pos + 1..next] == IdEntries(g.faces) + IdEntries(g.edges)
  {
    var a, b := IdEntries(g.faces), IdEntries(g.edges);
    assert s[pos..next] == [g.id + 1] + (a + b);
    SplitAt(s, pos, next, [g.id + 1], a + b);
    assert s[pos] == s[pos..next][0];
  }

  lemma {:induction false} ReadRecord(s: seq<int>, pos: nat, next: nat, g: Ghost, last: int)
    requires g.id >= 0 && next == pos + |Encode(g)| <= |s| && s[pos..next] == Encode(g) && Starts(s, next)
    ensures Fits(s, pos) && Read(s, pos, last) == Roles(Understood(g)) + Read(s, next, g.id)
  {
    RecordAt(s, pos, next, g);
    ReadIds(s, pos + 1, next, g, g.id);
    var u := Understood(g);
    Regrouped([OfNode(g.id)], FaceRoles(g.id, u.faces), EdgeRoles(g.id, u.edges), Read(s, next, g.id));
  }

  lemma {:induction false} UnderstoodFirst(list: seq<Ghost>)
    requires list != []
    ensures RolesAll(UnderstoodAll(list)) == Roles(Understood(list[0])) + RolesAll(UnderstoodAll(list[1..]))
  {
    assert UnderstoodAll(list)[1..] == UnderstoodAll(list[1..]);
    assert UnderstoodAll(list)[0] == Understood(list[0]);
  }

  /** Every message made of records is read record for record, each as it is understood. */
  lemma {:induction false} ReadAll(s: seq<int>, pos: nat, list: seq<Ghost>, last: int)
    requires IsMessage(s, pos, list)
    ensures Fits(s, pos) && Read(s, pos, last) == RolesAll(UnderstoodAll(list))
    decreases |list|
  {
    if list != [] {
      MessageRest(s, pos, list);
      var next := pos + |Encode(list[0])|;
      ReadAll(s, next, list[1..], list[0].id);
      ReadRecord(s, pos, next, list[0], last);
      UnderstoodFirst(list);
    }
  }

  /** No record has edge ids without face ids. */
  predicate EdgesHaveFaces(list: seq<Ghost>) {
    forall i :: 0 <= i < |list| && list[i].edges != [] ==> list[i].faces != []
  }

  lemma ConcatDiffers<T>(a: seq<T>, b: seq<T>, c: seq<T>, d: seq<T>)
    requires |a| == |b| && (a != b || c != d)
    ensures a + c != b + d
  {
    assert (a + c)[..|a|] == a && (a + c)[|a|..] == c;
    assert (b + d)[..|b|] == b && (b + d)[|b|..] == d;
  }

  lemma OneDiffers(g: Ghost)
    ensures |Roles(Understood(g))| == |Roles(g)|
    ensures g.faces == [] && g.edges != [] ==> Roles(Understood(g)) != Roles(g)
  {
    if g.faces == [] && g.edges != [] {
      var a, b := Roles(g), Roles(Understood(g));
      assert a[2] == OfEdge(g.id, g.edges[0]);
      assert b[2] == OfFace(g.id, g.edges[0]);
    }
  }

  lemma {:induction false} UnderstoodDiffers(list: seq<Ghost>, i: nat)
    requires i < |list| && list[i].faces == [] && list[i].edges != []
    ensures RolesAll(UnderstoodAll(list)) != RolesAll(list)
  {
    var list' := UnderstoodAll(list);
    assert list'[1..] == UnderstoodAll(list[1..]);
    assert list'[0] == Understood(list[0]);
    OneDiffers(list[0]);
    if i > 0 {
      UnderstoodDiffers(list[1..], i - 1);
    }
    ConcatDiffers(Roles(list'[0]), Roles(list[0]), RolesAll(list'[1..]), RolesAll(list[1..]));
  }

  /** A message is read as it was meant exactly if every node with edge ids has a face id. */
  lemma {:induction false} RoundTrip(list: seq<Ghost>)
    requires forall i :: 0 <= i < |list| ==> list[i].id >= 0
    ensures Fits(EncodeAll(list), 0)
    ensures Read(EncodeAll(list), 0, 0) == RolesAll(list) <==> EdgesHaveFaces(list)
  {
    var s := EncodeAll(list);
    assert s[0..] == s;
    ReadAll(s, 0, list, 0);
    if EdgesHaveFaces(list) {
      assert UnderstoodAll(list) == list;
    } else {
      var i :| 0 <= i < |list| && list[i].edges != [] && list[i].faces == [];
      UnderstoodDiffers(list, i);
    }
  }

  /** A node on edge 7 but on no face: its message 1 -1 -7 is read as face 7. */
  lemma EdgeTakenForFace()
    ensures Fits([1, -1, -7], 0)
    ensures EncodeAll([Ghost(0, [], [7])]) == [1, -1, -7] && Read([1, -1, -7], 0, 0) == [OfNode(0), Count, OfFace(0, 7)]
  {
    var g := Ghost(0, [], [7]);
    var s := [1, -1, -7];
    assert IdEntries([7]) == [-1, -7];
    assert EncodeAll([g]) == Encode(g) + EncodeAll([]) == s;
    assert s[0..] == s;
    ReadAll(s, 0, [g], 0);
    assert UnderstoodAll([g]) == [Ghost(0, [7], [])];
    assert FaceRoles(0, [7]) == [Count, OfFace(0, 7)] && EdgeRoles(0, []) == [];
    assert RolesAll([Ghost(0, [7], [])]) == Roles(Ghost(0, [7], [])) + RolesAll([]);
  }

  /** A reader at a place of a message, `node` being the last node it read. */
  ghost predicate Reading(s: seq<int>, pos: nat, node: int, roles: seq<Role>) {
    pos <= |s| == |roles| && Fits(s, pos) && roles[pos..] == Read(s, pos, node)
  }

  /** The handle for where a reader stands. */
  ghost predicate OpenReader(pos: int, node: int, u: int) {
    true
  }

  /** A reader at a place of a message, kept folded. */
  ghost predicate ReaderAt(s: seq<int>, pos: nat, node: int, roles: seq<Role>) {
    pos <= |s| == |roles| && forall u :: OpenReader(pos, node, u) ==> Reading(s, pos, node, roles)
  }

  lemma {:induction false} ReadBegins(s: seq<int>)
    requires Fits(s, 0)
    ensures ReaderAt(s, 0, 0, Read(s, 0, 0))
  {
    assert Read(s, 0, 0)[0..] == Read(s, 0, 0);
  }

  /** A reader at a node. */
  lemma ReadNode(s: seq<int>, pos: nat, node: int, roles: seq<Role>)
    requires pos < |s| && ReaderAt(s, pos, node, roles) && s[pos] > 0
    ensures roles[pos] == OfNode(s[pos] - 1) && ReaderAt(s, pos + 1, s[pos] - 1, roles)
  {
    assert OpenReader(pos, node, 0);
    var rest := Read(s, pos, node);
    assert roles[pos] == rest[0];
    assert roles[pos + 1..] == rest[1..];
  }

  lemma TakesFaces(s: seq<int>, pos: nat, to: nat, node: int, roles: seq<Role>, rest: seq<Role>)
    requires pos < to <= |s| == |roles| && roles[pos..] == FacesRead(s, pos, to, node) + rest
    ensures roles[pos] == Count && roles[to..] == rest && forall i :: pos < i < to ==> roles[i] == OfFace(node, -s[i])
  {
    PartsOf(roles, pos, FacesRead(s, pos, to, node), rest);
    forall i | pos < i < to ensures roles[i] == OfFace(node, -s[i]) {
      assert roles[i] == FacesRead(s, pos, to, node)[i - pos];
    }
  }

  lemma TakesEdges(s: seq<int>, pos: nat, to: nat, node: int, roles: seq<Role>, rest: seq<Role>)
    requires pos < to <= |s| == |roles| && roles[pos..] == EdgesRead(s, pos, to, node) + rest
    ensures roles[pos] == Count && roles[to..] == rest && forall i :: pos < i < to ==> roles[i] == OfEdge(node, -s[i])
  {
    PartsOf(roles, pos, EdgesRead(s, pos, to, node), rest);
    forall i | pos < i < to ensures roles[i] == OfEdge(node, -s[i]) {
      assert roles[i] == EdgesRead(s, pos, to, node)[i - pos];
    }
  }

  /** A reader at a number of face ids. */
  lemma ReadFaces(s: seq<int>, pos: nat, node: int, roles: seq<Role>)
    requires pos < |s| && ReaderAt(s, pos, node, roles) && s[pos] <= 0
    ensures roles[pos] == Count && pos + 1 - s[pos] <= |s|
    ensures forall i :: pos < i < pos + 1 - s[pos] ==> roles[i] == OfFace(node, -s[i])
    ensures AfterFaces(s, pos + 1 - s[pos], node, roles)
  {
    assert OpenReader(pos, node, 0);
    var faces := pos + 1 - s[pos];
    if faces < |s| && s[faces] < 0 {
      var edges := faces + 1 - s[faces];
      var rest := Read(s, edges, node);
      UnfoldTwoKinds(s, pos, faces, edges, node);
      TakesFaces(s, pos, faces, node, roles, EdgesRead(s, faces, edges, node) + rest);
      TakesEdges(s, faces, edges, node, roles, rest);
    } else {
      TakesFaces(s, pos, faces, node, roles, Read(s, faces, node));
    }
  }

  lemma PartsOf<T>(s: seq<T>, pos: nat, a: seq<T>, b: seq<T>)
    requires pos <= |s| && s[pos..] == a + b
    ensures pos + |a| <= |s| && s[pos + |a|..] == b && forall i :: pos <= i < pos + |a| ==> s[i] == a[i - pos]
  {
    var e := s[pos..];
    assert s[pos + |a|..] == e[|a|..];
    forall i | pos <= i < pos + |a| ensures s[i] == a[i - pos] {
      assert e[i - pos] == s[i];
    }
  }

  /** Where a reader stands when it has read face ids. */
  ghost predicate AfterFaces(s: seq<int>, faces: nat, node: int, roles: seq<Role>) {
    faces <= |s| == |roles| &&
    if faces < |s| && s[faces] < 0 then
      var edges := faces + 1 - s[faces];
      && edges <= |s| && roles[faces] == Count && (forall i :: faces < i < edges ==> roles[i] == OfEdge(node, -s[i]))
      && ReaderAt(s, edges, node, roles)
    else ReaderAt(s, faces, node, roles)
  }

  /** The same records with other numbers for the nodes. */
  function Labelled(list: seq<Ghost>, f: int -> int): (r: seq<Ghost>)
    ensures |r| == |list| && forall i :: 0 <= i < |list| ==> r[i] == list[i].(id := f(list[i].id))
  {
    seq(|list|, i requires 0 <= i < |list| => list[i].(id := f(list[i].id)))
  }

  function LabelledRole(role: Role, f: int -> int): Role {
    match role
    case OfNode(n) => OfNode(f(n))
    case Count => Count
    case OfFace(n, id) => OfFace(f(n), id)
    case OfEdge(n, id) => OfEdge(f(n), id)
  }

  function LabelledRoles(roles: seq<Role>, f: int -> int): (r: seq<Role>)
    ensures |r| == |roles| && forall i :: 0 <= i < |roles| ==> r[i] == LabelledRole(roles[i], f)
  {
    seq(|roles|, i requires 0 <= i < |roles| => LabelledRole(roles[i], f))
  }

  lemma LabelParts(a: seq<Role>, b: seq<Role>, f: int -> int)
    ensures LabelledRoles(a + b, f) == LabelledRoles(a, f) + LabelledRoles(b, f)
  {
  }

  lemma LabelOne(g: Ghost, f: int -> int)
    ensures Roles(g.(id := f(g.id))) == LabelledRoles(Roles(g), f)
  {
    var h := g.(id := f(g.id));
    var faces, edges := FaceRoles(g.id, g.faces), EdgeRoles(g.id, g.edges);
    LabelParts([OfNode(g.id)] + faces, edges, f);
    LabelParts([OfNode(g.id)], faces, f);
    assert LabelledRoles(faces, f) == FaceRoles(h.id, g.faces);
    assert LabelledRoles(edges, f) == EdgeRoles(h.id, g.edges);
    assert LabelledRoles([OfNode(g.id)], f) == [OfNode(h.id)];
  }

  /** Messages that differ in the node numbers only are read alike, place by place. */
  lemma {:induction false} LabelAll(list: seq<Ghost>, f: int -> int)
    ensures RolesAll(Labelled(list, f)) == LabelledRoles(RolesAll(list), f)
  {
    if list == [] {
      assert LabelledRoles([], f) == [];
    } else {
      LabelAll(list[1..], f);
      LabelOne(list[0], f);
      assert Labelled(list, f)[1..] == Labelled(list[1..], f);
      LabelParts(Roles(list[0]), RolesAll(list[1..]), f);
    }
  }

  lemma LabelUnderstood(list: seq<Ghost>, f: int -> int)
    ensures UnderstoodAll(Labelled(list, f)) == Labelled(UnderstoodAll(list), f)
  {
  }

  /** The record asks for the data of a role. */
  predicate Asks(g: Ghost, role: Role) {
    match role
    case OfNode(n) => n == g.id
    case Count => false
    case OfFace(n, id) => n == g.id && id in g.faces
    case OfEdge(n, id) => n == g.id && id in g.edges
  }

  lemma AsksInRoles(g: Ghost, role: Role)
    requires role != Count
    ensures role in Roles(g) <==> Asks(g, role)
  {
    var faces, edges := FaceRoles(g.id, g.faces), EdgeRoles(g.id, g.edges);
    assert role in Roles(g) <==> role == OfNode(g.id) || role in faces || role in edges;
    assert role in faces <==> role.OfFace? && role.node == g.id && role.id in g.faces by {
      if role.OfFace? && role.node == g.id && role.id in g.faces {
        var i :| 0 <= i < |g.faces| && g.faces[i] == role.id;
        assert faces[1 + i] == role;
      }
    }
    assert role in edges <==> role.OfEdge? && role.node == g.id && role.id in g.edges by {
      if role.OfEdge? && role.node == g.id && role.id in g.edges {
        var i :| 0 <= i < |g.edges| && g.edges[i] == role.id;
        assert edges[1 + i] == role;
      }
    }
  }

  /** The roles in a message are those its records ask for. */
  lemma {:induction false} RolesAreAsked(list: seq<Ghost>, role: Role)
    requires role != Count
    ensures role in RolesAll(list) <==> exists k :: 0 <= k < |list| && Asks(list[k], role)
  {
    if list != [] {
      AsksInRoles(list[0], role);
      RolesAreAsked(list[1..], role);
      assert role in RolesAll(list) <==> role in Roles(list[0]) || role in RolesAll(list[1..]);
      if k :| 0 <= k < |list| && Asks(list[k], role) {
        assert k > 0 ==> list[1..][k - 1] == list[k];
      }
      if k :| 0 <= k < |list[1..]| && Asks(list[1..][k], role) {
        assert list[1 + k] == list[1..][k];
      }
    }
  }

  /** An entry of a message with the node numbers changed. */
  function Renumbered(s: seq<int>, f: int -> int): (r: seq<int>)
    ensures |r| == |s| && forall i :: 0 <= i < |s| ==> r[i] == if s[i] > 0 then f(s[i] - 1) + 1 else s[i]
  {
    seq(|s|, i requires 0 <= i < |s| => if s[i] > 0 then f(s[i] - 1) + 1 else s[i])
  }

  predicate NonNegative(ids: seq<int>) {
    forall i :: 0 <= i < |ids| ==> ids[i] >= 0
  }

  predicate RecordOk(g: Ghost) {
    g.id >= 0 && NonNegative(g.faces) && NonNegative(g.edges)
  }

  lemma RenumberedParts(a: seq<int>, b: seq<int>, f: int -> int)
    ensures Renumbered(a + b, f) == Renumbered(a, f) + Renumbered(b, f)
  {
  }

  lemma RenumberedOne(g: Ghost, f: int -> int)
    requires RecordOk(g)
    ensures Renumbered(Encode(g), f) == Encode(g.(id := f(g.id)))
  {
    var faces, edges := IdEntries(g.faces), IdEntries(g.edges);
    RenumberedParts([g.id + 1] + faces, edges, f);
    RenumberedParts([g.id + 1], faces, f);
    assert Renumbered(faces, f) == faces && Renumbered(edges, f) == edges;
    assert Renumbered([g.id + 1], f) == [f(g.id) + 1];
  }

  /** Renumbering the positive entries of a message renumbers its records. */
  lemma {:induction false} RenumberedAll(list: seq<Ghost>, f: int -> int)
    requires forall i :: 0 <= i < |list| ==> RecordOk(list[i])
    ensures Renumbered(EncodeAll(list), f) == EncodeAll(Labelled(list, f))
  {
    if list == [] {
      assert Renumbered([], f) == [];
    } else {
      RenumberedAll(list[1..], f);
      RenumberedOne(list[0], f);
      assert Labelled(list, f)[1..] == Labelled(list[1..], f);
      RenumberedParts(Encode(list[0]), EncodeAll(list[1..]), f);
    }
  }
}
