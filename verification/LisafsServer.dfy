/** The lisafs server's operations on the node tree, in place. */
module LisafsServer {
  import opened Options
  import opened LisafsTree

  // ---------------------------------------------------------------------
  // Marking a subtree through the tables
  // ---------------------------------------------------------------------

  /** x reaches n through tables. */
  ghost predicate Reaches(t: Tree, n: Id, x: Id)
    requires Rooted(t) && n in t.nodes
    decreases t.depth[n]
  {
    n == x ||
    (n != t.root && (assert HasParent(t, n); Linked(t, n) && Reaches(t, Parent(t, n), x)))
  }

  ghost function Clan(t: Tree, x: Id): set<Id>
    requires Rooted(t)
  {
    set n <- t.nodes | Reaches(t, n, x)
  }

  lemma {:induction false} ReachesVia(t: Tree, n: Id, c: Id, x: Id)
    requires Rooted(t) && n in t.nodes && c in t.nodes && Reaches(t, n, c)
    requires c != t.root && HasParent(t, c) && Linked(t, c) && Parent(t, c) == x
    ensures Reaches(t, n, x)
    decreases t.depth[n]
  {
    if n != c {
      assert HasParent(t, n);
      ReachesVia(t, Parent(t, n), c, x);
    }
  }

  /** Whatever x reaches, other than itself, one of its children reaches. */
  lemma {:induction false} ReachedByChild(t: Tree, n: Id, x: Id) returns (k: Name)
    requires Rooted(t) && n in t.nodes && x in t.nodes && Reaches(t, n, x) && n != x
    ensures k in t.nodes[x].children && Reaches(t, n, t.nodes[x].children[k])
    decreases t.depth[n]
  {
    assert HasParent(t, n);
    if Parent(t, n) == x {
      k := t.nodes[n].name;
    } else {
      k := ReachedByChild(t, Parent(t, n), x);
    }
  }

  function Mark(nodes: map<Id, Node>, marked: set<Id>): map<Id, Node> {
    map n <- nodes :: if n in marked then nodes[n].(deleted := true) else nodes[n]
  }

  /** Where every live node is in its parent's table, marking through tables
      deletes the whole subtree: what the tables miss is deleted already. */
  lemma {:induction false} LiveIsReached(t: Tree, loose: set<Id>, n: Id, y: Id)
    requires TreeInv(t, loose) && n in t.nodes && Under(t, n, y) && !t.nodes[n].deleted
    requires forall z <- loose :: z != y && z in t.nodes ==> !Under(t, z, y)
    ensures Reaches(t, n, y)
    decreases t.depth[n]
  {
    if n != y {
      assert HasParent(t, n) && LinkedLive(t, n);
      LiveIsReached(t, loose, Parent(t, n), y);
    }
  }

  lemma {:induction false} ReachedIsUnder(t: Tree, n: Id, y: Id)
    requires Rooted(t) && n in t.nodes && Reaches(t, n, y)
    ensures Under(t, n, y)
    decreases t.depth[n]
  {
    if n != y {
      assert HasParent(t, n);
      ReachedIsUnder(t, Parent(t, n), y);
    }
  }

  lemma MarkIsBuried(t: Tree, loose: set<Id>, y: Id)
    requires TreeInv(t, loose)
    requires forall z <- loose :: z != y && z in t.nodes ==> !Under(t, z, y)
    ensures Mark(t.nodes, Clan(t, y)) == Buried(t, y).nodes
  {
    forall n <- t.nodes
      ensures Mark(t.nodes, Clan(t, y))[n] == Buried(t, y).nodes[n]
    {
      if Reaches(t, n, y) { ReachedIsUnder(t, n, y); }
      if Under(t, n, y) && !t.nodes[n].deleted { LiveIsReached(t, loose, n, y); }
    }
  }

  lemma MarkShape(t: Tree, marked: set<Id>)
    requires Rooted(t) && TablesAgree(t) && t.root !in marked
    ensures var t' := t.(nodes := Mark(t.nodes, marked)); Rooted(t') && TablesAgree(t')
  {
    var t' := t.(nodes := Mark(t.nodes, marked));
    forall n <- t'.nodes | n != t'.root
      ensures HasParent(t', n)
    {
      assert HasParent(t, n);
    }
    forall p <- t'.nodes, k <- t'.nodes[p].children
      ensures EntryAgrees(t', p, k)
    {
      assert EntryAgrees(t, p, k);
    }
  }

  lemma {:induction false} MarkReaches(t: Tree, marked: set<Id>, n: Id, x: Id)
    requires Rooted(t) && TablesAgree(t) && t.root !in marked && n in t.nodes
    ensures var t' := t.(nodes := Mark(t.nodes, marked)); Rooted(t') && Reaches(t', n, x) == Reaches(t, n, x)
    decreases t.depth[n]
  {
    MarkShape(t, marked);
    if n != t.root {
      assert HasParent(t, n);
      MarkReaches(t, marked, Parent(t, n), x);
    }
  }

  lemma MarkClan(t: Tree, marked: set<Id>, x: Id)
    requires Rooted(t) && TablesAgree(t) && t.root !in marked
    ensures var t' := t.(nodes := Mark(t.nodes, marked)); Rooted(t') && Clan(t', x) == Clan(t, x)
  {
    MarkShape(t, marked);
    forall n <- t.nodes
      ensures var t' := t.(nodes := Mark(t.nodes, marked)); Reaches(t', n, x) == Reaches(t, n, x)
    {
      MarkReaches(t, marked, n, x);
    }
  }

  lemma MarkTwice(nodes: map<Id, Node>, a: set<Id>, b: set<Id>)
    ensures Mark(Mark(nodes, a), b) == Mark(nodes, a + b)
  {
  }

  lemma ClanOfChild(t: Tree, x: Id, k: Name)
    requires Rooted(t) && TablesAgree(t) && x in t.nodes && k in t.nodes[x].children
    ensures var c := t.nodes[x].children[k];
            c in t.nodes && c != t.root && t.depth[c] == t.depth[x] + 1 && Clan(t, c) <= Clan(t, x)
  {
    var c := t.nodes[x].children[k];
    assert EntryAgrees(t, x, k) && HasParent(t, c);
    forall n <- Clan(t, c)
      ensures n in Clan(t, x)
    {
      ReachesVia(t, n, c, x);
    }
  }

  lemma ClanCovered(t: Tree, x: Id, marked: set<Id>)
    requires Rooted(t) && x in t.nodes && x in marked
    requires forall k <- t.nodes[x].children :: Clan(t, t.nodes[x].children[k]) <= marked
    ensures Clan(t, x) <= marked
  {
    forall n <- Clan(t, x)
      ensures n in marked
    {
      if n != x {
        var k := ReachedByChild(t, n, x);
        assert n in Clan(t, t.nodes[x].children[k]);
      }
    }
  }

  class Server {
    var nodes: map<Id, Node>
    const root: Id
    var nextId: Id
    ghost var depth: map<Id, nat>

    ghost function T(): Tree
      reads this
    {
      Tree(nodes, root, depth)
    }

    ghost predicate Valid()
      reads this
    {
      TreeInv(T(), {}) && EntriesLive(T()) && NamesSafe(T()) && IdsBelow(T(), nextId)
    }

    /** Mark x and everything its tables lead to, in any order. */
    method MarkDeletedRecursive(x: Id, ghost bound: nat)
      requires Rooted(T()) && TablesAgree(T()) && x in nodes && x != root
      requires forall n <- nodes :: depth[n] <= bound
      modifies this`nodes
      ensures nodes == Mark(old(nodes), Clan(old(T()), x))
      decreases bound - depth[x]
    {
      hide Rooted;
      hide TablesAgree;
      hide Clan;
      ghost var t := T();
      ghost var marked := {x};
      nodes := nodes[x := nodes[x].(deleted := true)];
      var todo := nodes[x].children.Keys;
      SelfInClan(t, x);
      while todo != {}
        invariant todo <= t.nodes[x].children.Keys && x in marked && marked <= Clan(t, x)
        invariant nodes == Mark(t.nodes, marked)
        invariant forall k <- t.nodes[x].children :: k in todo || Clan(t, t.nodes[x].children[k]) <= marked
        decreases |todo|
      {
        var k :| k in todo;
        todo := todo - {k};
        var c := nodes[x].children[k];
        ClanOfChild(t, x, k);
        MarkShape(t, marked);
        MarkClan(t, marked, c);
        MarkTwice(t.nodes, marked, Clan(t, c));
        MarkDeletedRecursive(c, bound);
        marked := marked + Clan(t, c);
      }
      ClanCovered(t, x, marked);
    }

    constructor ()
      ensures Valid() && nodes == map[root := Node("", None, false, map[])]
    {
      root, nextId := 0, 1;
      nodes := map[0 := Node("", None, false, map[])];
      depth := map[0 := 0];
    }

    method RemoveChild(d: Id, k: Name) returns (c: Option<Id>)
      requires d in nodes
      modifies this`nodes
      ensures c == Child(old(T()), d, k) && T() == Detach(old(T()), d, k)
    {
      var table := nodes[d].children;
      c := if k in table then Some(table[k]) else None;
      nodes := nodes[d := nodes[d].(children := table - {k})];
    }

    /** Give x a new parent and a new name there. */
    method Rehome(x: Id, d: Id, k: Name)
      requires Rooted(T()) && Movable(T(), x, d, k)
      modifies this`nodes, this`depth
      ensures T() == Move(old(T()), x, d, k)
    {
      ghost var t := T();
      nodes := nodes[x := nodes[x].(parent := Some(d), name := k)];
      nodes := nodes[d := nodes[d].(children := nodes[d].children[k := x])];
      depth := Move(t, x, d, k).depth;
    }

    /** The tree part of a rename that the host has carried out. */
    method UpdateTree(r: Rename, ghost bound: nat)
      requires TreeInv(T(), {}) && Allowed(T(), r)
      requires forall n <- nodes :: depth[n] <= bound
      modifies this`nodes, this`depth
      ensures T() == Renamed(old(T()), r) && TreeInv(T(), {})
    {
      hide TreeInv;
      hide Allowed;
      hide Rooted;
      hide Cleared;
      hide Renamed;
      hide Detach;
      ghost var t := T();
      ReplaceSteps(t, r);
      RenamedIs(t, r);
      var replaced := RemoveChild(r.newDir, r.newName);
      var renamed := RemoveChild(r.oldDir, r.oldName);
      if replaced.Some? {
        if !r.exchange {
          MarkDeletedRecursive(replaced.value, bound);
        } else {
          Rehome(replaced.value, r.oldDir, r.oldName);
        }
      }
      if renamed.Some? {
        Rehome(renamed.value, r.newDir, r.newName);
      }
      RenameKeepsInv(t, r);
    }

    /** renameAtCommon. The host's answer is an input; if it agrees to the
        rename, the place must be one it could agree to. */
    method RenameAt(r: Rename, host: Errno) returns (err: Errno)
      requires Valid() && r.oldDir in nodes && r.newDir in nodes
      requires host == OK && !SamePlace(r) && !nodes[r.oldDir].deleted && !nodes[r.newDir].deleted ==> Allowed(T(), r)
      modifies this
      ensures Valid()
      ensures err == if !SafeName(r.oldName) || !SafeName(r.newName) then EINVAL
                     else if old(nodes[r.oldDir].deleted || nodes[r.newDir].deleted) then EINVAL
                     else if SamePlace(r) then OK else host
      ensures if err == OK && !SamePlace(r) then T() == Renamed(old(T()), r) else T() == old(T())
    {
      hide TreeInv;
      hide Allowed;
      hide Renamed;
      hide NamesSafe;
      hide EntriesLive;
      hide IdsBelow;
      if !SafeName(r.oldName) || !SafeName(r.newName) {
        return EINVAL;
      }
      if nodes[r.oldDir].deleted || nodes[r.newDir].deleted {
        return EINVAL;
      }
      if r.oldDir == r.newDir && r.oldName == r.newName {
        return OK;
      }
      if host != OK {
        return host;
      }
      DepthsKnown(T());
      ghost var bound := DepthBound(depth);
      RenamedRecords(T(), r, nextId);
      RenamedLive(T(), r);
      UpdateTree(r, bound);
      return OK;
    }

    /** The tree part of UnlinkAtHandler. */
    method Unlink(d: Id, k: Name, host: Errno) returns (err: Errno)
      requires Valid() && d in nodes
      modifies this
      ensures Valid()
      ensures err == if !SafeName(k) || old(nodes[d].deleted) then EINVAL else host
      ensures if err == OK && k in old(nodes[d].children) then T() == Unlinked(old(T()), d, k) else T() == old(T())
    {
      hide TreeInv;
      hide Unlinked;
      hide NamesSafe;
      hide EntriesLive;
      hide IdsBelow;
      if !SafeName(k) {
        return EINVAL;
      }
      if nodes[d].deleted {
        return EINVAL;
      }
      ghost var t := T();
      var child := if k in nodes[d].children then Some(nodes[d].children[k]) else None;
      if host != OK {
        return host;
      }
      if child.Some? {
        UnlinkSteps(t, d, k);
        UnlinkedRecords(t, d, k, nextId);
        UnlinkedLive(t, d, k);
        ghost var bound := DepthBound(depth);
        var _ := RemoveChild(d, k);
        MarkDeletedRecursive(child.value, bound);
      }
      return OK;
    }

    /** One step of the walk in MountHandler: the child of d named k, made if
        there is none yet. */
    method Step(d: Id, k: Name) returns (n: Id, ok: bool)
      requires Valid() && d in nodes && SafeName(k)
      modifies this
      ensures Valid() && nextId >= old(nextId)
      ensures ok <==> !old(nodes[d].deleted)
      ensures !ok ==> T() == old(T())
      ensures ok && k in old(nodes[d].children) ==> T() == old(T()) && n == nodes[d].children[k]
      ensures ok && k !in old(nodes[d].children) ==> n !in old(nodes) && T() == Created(old(T()), d, k, n)
    {
      hide TreeInv;
      hide Created;
      hide EntriesLive;
      if nodes[d].deleted {
        return d, false;
      }
      if k in nodes[d].children {
        return nodes[d].children[k], true;
      }
      ghost var t := T();
      n, ok := nextId, true;
      CreatedKeeps(t, d, k, n);
      CreatedLive(t, d, k, n);
      CreatedIs(t, d, k, n);
      nodes := nodes[n := Node(k, Some(d), false, map[])];
      nodes := nodes[d := nodes[d].(children := nodes[d].children[k := n])];
      depth := depth[n := depth[d] + 1];
      nextId := nextId + 1;
    }

    /** What Node.DecRef does with the last reference on n. */
    method DestroyNode(n: Id)
      requires Rooted(T()) && n in nodes && n != root && HasParent(T(), n)
      modifies this`nodes, this`depth
      ensures T() == Destroyed(old(T()), n)
    {
      var _ := RemoveChild(nodes[n].parent.value, nodes[n].name);
      nodes := nodes - {n};
      depth := depth - {n};
    }

    /** Giving up a walk: the references on the nodes it made go, from the last. */
    method Unwind(last: Id, made: nat, ghost trees: seq<Tree>, ghost ids: seq<Id>)
      requires |trees| == |ids| == made + 1 && T() == trees[made] && last == ids[made] && Grown(trees, ids)
      modifies this`nodes, this`depth
      ensures T() == trees[0]
    {
      var n, k := last, made;
      while k > 0
        invariant 0 <= k <= made && T() == trees[k] && n == ids[k]
      {
        assert Grew(trees[k - 1], trees[k], ids[k - 1], ids[k]);
        UndoCreated(trees[k - 1], trees[k], ids[k - 1], n);
        var p := nodes[n].parent.value;
        DestroyNode(n);
        n, k := p, k - 1;
      }
    }

    /** The walk of MountHandler, with the host's answer to the mount as an input.
        It fails exactly on an unsafe name or if the host does, and then leaves
        the tree as it was. Otherwise it ends at the live node with the given
        path, the one there was if there was one, and no other node changes path
        or is deleted. */
    method Walk(path: seq<Name>, host: Errno) returns (n: Id, err: Errno)
      requires Valid()
      modifies this
      ensures Valid()
      ensures err == if forall k <- path :: SafeName(k) then host else EINVAL
      ensures err != OK ==> T() == old(T())
      ensures err == OK ==>
                && n in nodes && !nodes[n].deleted && Path(T(), n) == path && StillThere(old(T()), T())
                && forall m <- old(nodes) :: !old(nodes)[m].deleted && Path(old(T()), m) == path ==> m == n
    {
      hide Rooted;
      hide TablesAgree;
      hide LiveLinked;
      hide EntriesLive;
      hide Path;
      hide Created;
      hide NamesSafe;
      hide IdsBelow;
      hide StillThere;
      hide Grown;
      hide Grew;
      var made, i := 0, 0;
      n := root;
      ghost var trees, ids := [T()], [n];
      RootFacts(T());
      NothingMoved(T());
      OneTree(trees, ids);
      while i < |path|
        invariant 0 <= i <= |path| && Valid() && n in nodes && !nodes[n].deleted && Path(T(), n) == path[..i]
        invariant (forall k <- path[..i] :: SafeName(k)) && StillThere(old(T()), T())
        invariant |trees| == |ids| == made + 1 && trees[0] == old(T()) && trees[made] == T() && ids[made] == n
        invariant Grown(trees, ids) && (made > 0 ==> nodes[n].children == map[]) && nextId >= old(nextId)
      {
        if !SafeName(path[i]) {
          assert path[i] in path;
          Unwind(n, made, trees, ids);
          FewerIds(T(), old(nextId), nextId);
          return n, EINVAL;
        }
        ghost var t := T();
        var isNew := path[i] !in nodes[n].children;
        var next, _ := Step(n, path[i]);
        WalkStep(t, n, path[i], next);
        StillThereOn(old(T()), t, T());
        if isNew {
          GrowTrees(trees, ids, T(), next);
          trees, ids, made := trees + [T()], ids + [next], made + 1;
        } else {
          ids := [next];
          OneTree(trees, ids);
        }
        assert path[..i + 1] == path[..i] + [path[i]];
        n, i := next, i + 1;
      }
      assert path[..|path|] == path;
      if host != OK {
        Unwind(n, made, trees, ids);
        FewerIds(T(), old(nextId), nextId);
        return n, host;
      }
      OnlyThatPath(old(T()), T(), n, path);
      return n, OK;
    }

    /** The path of n as a string, built from the end. */
    method FilePath(n: Id) returns (res: string)
      requires Valid() && n in nodes
      ensures res == Render(Path(T(), n))
    {
      hide Path;
      hide TablesAgree;
      hide LiveLinked;
      hide NamesSafe;
      hide Join;
      res := "";
      var needSep := false;
      var at := n;
      ghost var rest: seq<Name> := [];
      JoinNone();
      while nodes[at].parent.Some?
        invariant at in nodes && Path(T(), n) == Path(T(), at) + rest
        invariant res == Join(rest) && needSep == (rest != [])
        decreases depth[at]
      {
        PathStep(T(), at, rest);
        JoinCons(nodes[at].name, rest);
        rest := [nodes[at].name] + rest;
        if needSep {
          res := "/" + res;
        }
        res := nodes[at].name + res;
        needSep := true;
        at := nodes[at].parent.value;
      }
      RootFacts(T());
      OnlyRootHasNoParent(T(), at);
      assert [] + rest == rest;
      res := "/" + res;
    }
  }

  lemma OnlyRootHasNoParent(t: Tree, n: Id)
    requires Rooted(t) && n in t.nodes && t.nodes[n].parent.None?
    ensures n == t.root
  {
  }

  lemma PathStep(t: Tree, n: Id, rest: seq<Name>)
    requires Rooted(t) && n in t.nodes && t.nodes[n].parent.Some?
    ensures HasParent(t, n)
    ensures Path(t, n) + rest == Path(t, Parent(t, n)) + ([t.nodes[n].name] + rest)
  {
    assert HasParent(t, n);
  }

  // ---------------------------------------------------------------------
  // Paths as strings
  // ---------------------------------------------------------------------

  function Join(p: seq<Name>): string {
    if |p| == 0 then "" else if |p| == 1 then p[0] else p[0] + "/" + Join(p[1..])
  }

  lemma JoinNone()
    ensures Join([]) == ""
  {
  }

  lemma JoinCons(first: Name, rest: seq<Name>)
    ensures Join([first] + rest) == if rest == [] then first else first + ("/" + Join(rest))
  {
    assert ([first] + rest)[1..] == rest;
  }

  function Render(p: seq<Name>): string {
    "/" + Join(p)
  }

  predicate Components(p: seq<Name>) {
    forall i | 0 <= i < |p| :: SafeName(p[i])
  }

  /** The first component ends at the first slash, or with the string. */
  lemma JoinFirst(p: seq<Name>)
    requires p != [] && Components(p)
    ensures p[0] <= Join(p) && p[0] != "" && '/' !in p[0]
    ensures |p| == 1 ==> Join(p) == p[0]
    ensures |p| > 1 ==> |Join(p)| > |p[0]| && Join(p)[|p[0]|] == '/' && Join(p)[|p[0]| + 1..] == Join(p[1..])
  {
    assert SafeName(p[0]);
  }

  lemma NotShorter(p: seq<Name>, q: seq<Name>)
    requires p != [] && q != [] && Components(p) && Components(q) && Join(p) == Join(q)
    ensures |p[0]| >= |q[0]|
  {
    JoinFirst(p);
    JoinFirst(q);
    assert forall i | 0 <= i < |q[0]| :: Join(q)[i] == q[0][i] && q[0][i] in q[0];
  }

  lemma {:induction false} JoinInjective(p: seq<Name>, q: seq<Name>)
    requires Components(p) && Components(q) && Join(p) == Join(q)
    ensures p == q
  {
    if p == [] || q == [] {
      if p != [] { JoinFirst(p); }
      if q != [] { JoinFirst(q); }
    } else {
      JoinFirst(p);
      JoinFirst(q);
      NotShorter(p, q);
      NotShorter(q, p);
      assert p[0] == q[0];
      if |p| > 1 { JoinInjective(p[1..], q[1..]); }
    }
  }

  lemma {:induction false} PathComponents(t: Tree, n: Id)
    requires Rooted(t) && NamesSafe(t) && n in t.nodes
    ensures Components(Path(t, n))
    decreases t.depth[n]
  {
    if n != t.root {
      assert HasParent(t, n);
      PathComponents(t, Parent(t, n));
    }
  }

  /** Two live nodes whose paths read the same are one node. */
  lemma FilePathsAreUnique(t: Tree, n: Id, m: Id)
    requires TreeInv(t, {}) && NamesSafe(t) && n in t.nodes && m in t.nodes
    requires !t.nodes[n].deleted && !t.nodes[m].deleted && Render(Path(t, n)) == Render(Path(t, m))
    ensures n == m
  {
    PathComponents(t, n);
    PathComponents(t, m);
    assert Join(Path(t, n)) == Render(Path(t, n))[1..] && Join(Path(t, m)) == Render(Path(t, m))[1..];
    JoinInjective(Path(t, n), Path(t, m));
    PathsAreUnique(t, n, m);
  }

  // ---------------------------------------------------------------------
  // Names and identities
  // ---------------------------------------------------------------------

  ghost predicate NamesSafe(t: Tree) {
    forall n <- t.nodes :: n != t.root ==> SafeName(t.nodes[n].name)
  }

  ghost predicate IdsBelow(t: Tree, next: Id) {
    forall n <- t.nodes :: n < next
  }

  lemma MarkRecords(t: Tree, marked: set<Id>, next: Id)
    requires NamesSafe(t) && IdsBelow(t, next)
    ensures var t' := t.(nodes := Mark(t.nodes, marked)); NamesSafe(t') && IdsBelow(t', next)
  {
  }

  lemma DetachRecords(t: Tree, d: Id, k: Name, next: Id)
    requires d in t.nodes && NamesSafe(t) && IdsBelow(t, next)
    ensures NamesSafe(Detach(t, d, k)) && IdsBelow(Detach(t, d, k), next)
  {
  }

  lemma MoveRecords(t: Tree, x: Id, d: Id, k: Name, next: Id)
    requires Rooted(t) && Movable(t, x, d, k) && NamesSafe(t) && IdsBelow(t, next) && SafeName(k)
    ensures NamesSafe(Move(t, x, d, k)) && IdsBelow(Move(t, x, d, k), next)
  {
    hide Rooted;
  }

  lemma RenamedRecords(t: Tree, r: Rename, next: Id)
    requires TreeInv(t, {}) && Allowed(t, r) && NamesSafe(t) && IdsBelow(t, next)
    requires SafeName(r.oldName) && SafeName(r.newName)
    ensures NamesSafe(Renamed(t, r)) && IdsBelow(Renamed(t, r), next)
  {
    hide TreeInv;
    hide Allowed;
    hide Rooted;
    hide NamesSafe;
    hide IdsBelow;
    hide Cleared;
    hide Renamed;
    hide Detach;
    ReplaceSteps(t, r);
    RenamedIs(t, r);
    var t2, y, x := BothDetached(t, r), Replaced(t, r), Child(t, r.oldDir, r.oldName);
    DetachRecords(t, r.newDir, r.newName, next);
    DetachRecords(Detach(t, r.newDir, r.newName), r.oldDir, r.oldName, next);
    if y.Some? {
      if r.exchange {
        MoveRecords(t2, y.value, r.oldDir, r.oldName, next);
      } else {
        MarkRecords(t2, Clan(t2, y.value), next);
      }
    }
    if x.Some? { MoveRecords(Cleared(t, r), x.value, r.newDir, r.newName, next); }
  }

  lemma UnlinkedRecords(t: Tree, d: Id, k: Name, next: Id)
    requires TreeInv(t, {}) && d in t.nodes && k in t.nodes[d].children && NamesSafe(t) && IdsBelow(t, next)
    ensures NamesSafe(Unlinked(t, d, k)) && IdsBelow(Unlinked(t, d, k), next)
  {
  }

  // ---------------------------------------------------------------------
  // The entries of a live directory are live
  // ---------------------------------------------------------------------

  ghost predicate EntriesLive(t: Tree) {
    forall p <- t.nodes :: forall k <- t.nodes[p].children :: EntryLive(t, p, k)
  }

  predicate EntryLive(t: Tree, p: Id, k: Name)
    requires p in t.nodes && k in t.nodes[p].children
  {
    var c := t.nodes[p].children[k];
    t.nodes[p].deleted || (c in t.nodes && !t.nodes[c].deleted)
  }

  lemma DetachLive(t: Tree, d: Id, k: Name)
    requires d in t.nodes && EntriesLive(t)
    ensures EntriesLive(Detach(t, d, k))
  {
    var t' := Detach(t, d, k);
    forall p <- t'.nodes, k' <- t'.nodes[p].children
      ensures EntryLive(t', p, k')
    {
      assert EntryLive(t, p, k');
    }
  }

  /** Marking all that a detached node reaches: what is marked is in the table of
      a marked node or in none. */
  lemma MarkLive(t: Tree, x: Id)
    requires Rooted(t) && TablesAgree(t) && EntriesLive(t) && x in t.nodes && x != t.root
    requires HasParent(t, x) && !Linked(t, x)
    ensures EntriesLive(t.(nodes := Mark(t.nodes, Clan(t, x))))
  {
    var t' := t.(nodes := Mark(t.nodes, Clan(t, x)));
    forall p <- t'.nodes, k <- t'.nodes[p].children
      ensures EntryLive(t', p, k)
    {
      assert EntryLive(t, p, k) && EntryAgrees(t, p, k);
      var c := t.nodes[p].children[k];
      assert HasParent(t, c) && Linked(t, c) && c != x;
      assert Reaches(t, c, x) <==> Reaches(t, p, x);
    }
  }

  lemma MoveLive(t: Tree, x: Id, d: Id, k: Name)
    requires Rooted(t) && Movable(t, x, d, k) && EntriesLive(t) && !t.nodes[x].deleted
    ensures EntriesLive(Move(t, x, d, k))
  {
    hide Rooted;
    var t' := Move(t, x, d, k);
    forall p <- t'.nodes, k' <- t'.nodes[p].children
      ensures EntryLive(t', p, k')
    {
      if p != d || k' != k { assert EntryLive(t, p, k'); }
    }
  }

  lemma CreatedLive(t: Tree, d: Id, k: Name, n: Id)
    requires Rooted(t) && d in t.nodes && n !in t.nodes && EntriesLive(t)
    ensures EntriesLive(Created(t, d, k, n))
  {
    var t' := Created(t, d, k, n);
    forall p <- t'.nodes, k' <- t'.nodes[p].children
      ensures EntryLive(t', p, k')
    {
      if p != n && (p != d || k' != k) { assert EntryLive(t, p, k'); }
    }
  }

  lemma UnlinkedLive(t: Tree, d: Id, k: Name)
    requires TreeInv(t, {}) && EntriesLive(t) && d in t.nodes && k in t.nodes[d].children
    ensures EntriesLive(Unlinked(t, d, k))
  {
    var t1, c := Detach(t, d, k), t.nodes[d].children[k];
    UnlinkSteps(t, d, k);
    DetachLive(t, d, k);
    ChildFacts(t, d, k, c, c);
    assert HasParent(t1, c) && !Linked(t1, c);
    MarkLive(t1, c);
  }

  /** A child of a live directory is live, also after the replaced node is out of
      the way. */
  lemma RenamedIsLive(t: Tree, r: Rename, x: Id)
    requires TreeInv(t, {}) && Allowed(t, r) && EntriesLive(t) && Child(t, r.oldDir, r.oldName) == Some(x)
    ensures x in Cleared(t, r).nodes && !Cleared(t, r).nodes[x].deleted
  {
    assert EntryLive(t, r.oldDir, r.oldName);
    ClearedDeleted(t, r, x);
    var y := Replaced(t, r);
    if y.Some? { Unrelated(t, r, x, y.value, x); }
  }

  lemma ReplacedIsLive(t: Tree, r: Rename, y: Id)
    requires TreeInv(t, {}) && Allowed(t, r) && EntriesLive(t) && Replaced(t, r) == Some(y)
    ensures y in t.nodes && !t.nodes[y].deleted
    ensures y in BothDetached(t, r).nodes && !BothDetached(t, r).nodes[y].deleted
  {
    assert EntryLive(t, r.newDir, r.newName);
    BothDetachedKeeps(t, r);
  }

  lemma RenamedLive(t: Tree, r: Rename)
    requires TreeInv(t, {}) && Allowed(t, r) && EntriesLive(t)
    ensures EntriesLive(Renamed(t, r))
  {
    ReplaceSteps(t, r);
    RenamedIs(t, r);
    var t2, y, x := BothDetached(t, r), Replaced(t, r), Child(t, r.oldDir, r.oldName);
    if y.Some? {
      ReplacedIsLive(t, r, y.value);
      DetachedMovable(t, r, y.value);
    }
    if x.Some? { RenamedIsLive(t, r, x.value); }
    hide TreeInv;
    hide Allowed;
    hide EntriesLive;
    hide Cleared;
    hide Renamed;
    hide Detach;
    DetachLive(t, r.newDir, r.newName);
    DetachLive(Detach(t, r.newDir, r.newName), r.oldDir, r.oldName);
    if y.Some? {
      if r.exchange {
        MoveLive(t2, y.value, r.oldDir, r.oldName);
      } else {
        MarkLive(t2, y.value);
      }
    }
    if x.Some? { MoveLive(Cleared(t, r), x.value, r.newDir, r.newName); }
  }

  // ---------------------------------------------------------------------
  // Walking
  // ---------------------------------------------------------------------

  lemma RootFacts(t: Tree)
    requires TreeInv(t, {})
    ensures t.root in t.nodes && Path(t, t.root) == [] && !t.nodes[t.root].deleted
  {
  }

  /** Every node of t is in t', as deleted as it was and at the same path. */
  ghost predicate StillThere(t: Tree, t': Tree)
    requires Rooted(t) && Rooted(t')
  {
    forall m <- t.nodes :: m in t'.nodes && t'.nodes[m].deleted == t.nodes[m].deleted && Path(t', m) == Path(t, m)
  }

  lemma NothingMoved(t: Tree)
    requires Rooted(t)
    ensures StillThere(t, t)
  {
  }

  lemma StillThereOn(a: Tree, b: Tree, c: Tree)
    requires Rooted(a) && Rooted(b) && Rooted(c) && StillThere(a, b) && StillThere(b, c)
    ensures StillThere(a, c)
  {
    hide Rooted;
    hide Path;
  }

  /** t' is t with a new node n in directory d. */
  ghost predicate Grew(t: Tree, t': Tree, d: Id, n: Id) {
    && Rooted(t) && d in t.nodes && n !in t.nodes && n in t'.nodes
    && t'.nodes[n].name !in t.nodes[d].children && t' == Created(t, d, t'.nodes[n].name, n)
  }

  ghost predicate Grown(trees: seq<Tree>, ids: seq<Id>) {
    |trees| == |ids| && forall j | 0 < j < |trees| :: Grew(trees[j - 1], trees[j], ids[j - 1], ids[j])
  }

  lemma OneTree(trees: seq<Tree>, ids: seq<Id>)
    requires |trees| == |ids| == 1
    ensures Grown(trees, ids)
  {
  }

  lemma GrowTrees(trees: seq<Tree>, ids: seq<Id>, t: Tree, n: Id)
    requires Grown(trees, ids) && trees != [] && Grew(trees[|trees| - 1], t, ids[|ids| - 1], n)
    ensures Grown(trees + [t], ids + [n])
  {
    hide Grew;
  }

  /** Destroying a node that was just made gives the tree before. */
  lemma UndoCreated(t: Tree, t': Tree, d: Id, n: Id)
    requires Grew(t, t', d, n)
    ensures Rooted(t') && n != t'.root && HasParent(t', n) && Parent(t', n) == d && Destroyed(t', n) == t
  {
    var k := t'.nodes[n].name;
    forall m <- t'.nodes | m != t'.root
      ensures HasParent(t', m)
    {
      if m != n { assert HasParent(t, m); }
    }
    assert (t.nodes[d].children[k := n]) - {k} == t.nodes[d].children;
    assert Destroyed(t', n).nodes == t.nodes;
    assert Destroyed(t', n).depth == t.depth;
  }

  lemma WalkStep(t: Tree, d: Id, k: Name, n: Id)
    requires TreeInv(t, {}) && EntriesLive(t) && d in t.nodes && !t.nodes[d].deleted
    requires if k in t.nodes[d].children then n == t.nodes[d].children[k] else n !in t.nodes
    ensures var t' := if k in t.nodes[d].children then t else Created(t, d, k, n);
            && Rooted(t') && n in t'.nodes && !t'.nodes[n].deleted && Path(t', n) == Path(t, d) + [k]
              && StillThere(t, t')
            && (k !in t.nodes[d].children ==> Grew(t, t', d, n) && t'.nodes[n].children == map[])
  {
    StepPath(t, d, k, n);
    if k in t.nodes[d].children { assert EntryLive(t, d, k); }
    hide Path;
  }

  lemma FewerIds(t: Tree, next: Id, next': Id)
    requires IdsBelow(t, next) && next <= next'
    ensures IdsBelow(t, next')
  {
  }

  lemma OnlyThatPath(t: Tree, t': Tree, n: Id, path: seq<Name>)
    requires Rooted(t) && TreeInv(t', {}) && StillThere(t, t')
    requires n in t'.nodes && !t'.nodes[n].deleted && Path(t', n) == path
    ensures forall m <- t.nodes :: !t.nodes[m].deleted && Path(t, m) == path ==> m == n
  {
    forall m <- t.nodes | !t.nodes[m].deleted && Path(t, m) == path
      ensures m == n
    {
      PathsAreUnique(t', m, n);
    }
  }

  lemma StepPath(t: Tree, d: Id, k: Name, n: Id)
    requires TreeInv(t, {}) && d in t.nodes && !t.nodes[d].deleted
    requires if k in t.nodes[d].children then n == t.nodes[d].children[k] else n !in t.nodes
    ensures var t' := if k in t.nodes[d].children then t else Created(t, d, k, n);
            && Rooted(t') && n in t'.nodes && Path(t', n) == Path(t, d) + [k]
            && t.nodes.Keys <= t'.nodes.Keys && forall m <- t.nodes :: Path(t', m) == Path(t, m)
  {
    if k in t.nodes[d].children {
      ChildFacts(t, d, k, n, n);
    } else {
      CreatedPath(t, d, k, n, n);
      forall m <- t.nodes
        ensures Path(Created(t, d, k, n), m) == Path(t, m)
      {
        CreatedPath(t, d, k, n, m);
      }
    }
  }

  datatype Errno = OK | EINVAL | EOTHER

  predicate SamePlace(r: Rename) {
    r.oldDir == r.newDir && r.oldName == r.newName
  }

  predicate SafeName(name: Name) {
    name != "" && '/' !in name && name != "." && name != ".."
  }

  lemma DepthsKnown(t: Tree)
    requires TreeInv(t, {})
    ensures t.depth.Keys == t.nodes.Keys
  {
  }

  lemma {:induction false} DepthBound(depth: map<Id, nat>) returns (bound: nat)
    ensures forall n <- depth :: depth[n] <= bound
    decreases |depth|
  {
    if depth == map[] {
      bound := 0;
    } else {
      var n :| n in depth;
      assert |depth - {n}| < |depth| by { assert (depth - {n}).Keys == depth.Keys - {n}; }
      var b := DepthBound(depth - {n});
      bound := if depth[n] > b then depth[n] else b;
      forall m <- depth
        ensures depth[m] <= bound
      {
        if m != n { assert (depth - {n})[m] == depth[m]; }
      }
    }
  }

  // ---------------------------------------------------------------------
  // Unlinking
  // ---------------------------------------------------------------------

  ghost function Unlinked(t: Tree, d: Id, k: Name): Tree
    requires TreeInv(t, {}) && d in t.nodes && k in t.nodes[d].children
  {
    DetachKeeps(t, {}, d, k);
    Buried(Detach(t, d, k), t.nodes[d].children[k])
  }

  lemma UnlinkSteps(t: Tree, d: Id, k: Name)
    requires TreeInv(t, {}) && d in t.nodes && k in t.nodes[d].children
    ensures TreeInv(Unlinked(t, d, k), {}) && t.depth.Keys == t.nodes.Keys
    ensures var t1, c := Detach(t, d, k), t.nodes[d].children[k];
            && Rooted(t1) && TablesAgree(t1) && c in t1.nodes && c != t1.root && t1.nodes.Keys == t.nodes.Keys
            && Unlinked(t, d, k) == t1.(nodes := Mark(t1.nodes, Clan(t1, c)))
  {
    var t1, c := Detach(t, d, k), t.nodes[d].children[k];
    DetachKeeps(t, {}, d, k);
    assert {} + Ids(Child(t, d, k)) == {c};
    ChildFacts(t, d, k, c, c);
    BuriedKeeps(t1, {c}, c);
    assert {c} - {c} == {};
    MarkIsBuried(t1, {c}, c);
  }

  lemma UnlinkedRecord(t: Tree, d: Id, k: Name, n: Id)
    requires TreeInv(t, {}) && d in t.nodes && k in t.nodes[d].children && n in t.nodes
    ensures var t' := Unlinked(t, d, k);
            && t'.nodes.Keys == t.nodes.Keys
            && t'.nodes[n].parent == t.nodes[n].parent && t'.nodes[n].name == t.nodes[n].name
            && t'.nodes[n].children == if n == d then t.nodes[n].children - {k} else t.nodes[n].children
  {
    hide Rooted;
    hide TreeInv;
    DetachKeeps(t, {}, d, k);
  }

  /** Unlinking deletes exactly the subtree of the child and moves no path. */
  lemma UnlinkCorrect(t: Tree, d: Id, k: Name, n: Id)
    requires TreeInv(t, {}) && d in t.nodes && k in t.nodes[d].children && n in t.nodes
    ensures var t', c := Unlinked(t, d, k), t.nodes[d].children[k];
            && TreeInv(t', {}) && t'.nodes.Keys == t.nodes.Keys && Path(t', n) == Path(t, n)
            && t'.nodes[n].deleted == (t.nodes[n].deleted || Under(t, n, c))
  {
    var t1, c := Detach(t, d, k), t.nodes[d].children[k];
    UnlinkSteps(t, d, k);
    DetachKeeps(t, {}, d, k);
    BuriedShape(t1, c);
    SameShapeSamePath(t, t1, n, c);
    SameShapeSamePath(t1, Unlinked(t, d, k), n, c);
  }

  // ---------------------------------------------------------------------
  // Creating nodes
  // ---------------------------------------------------------------------

  ghost function Created(t: Tree, d: Id, k: Name, n: Id): Tree
    requires Rooted(t) && d in t.nodes
  {
    var nodes := t.nodes[n := Node(k, Some(d), false, map[])];
    Tree(nodes[d := nodes[d].(children := nodes[d].children[k := n])], t.root, t.depth[n := t.depth[d] + 1])
  }

  lemma CreatedIs(t: Tree, d: Id, k: Name, n: Id)
    requires Rooted(t) && d in t.nodes
    ensures var nodes := t.nodes[n := Node(k, Some(d), false, map[])];
            Created(t, d, k, n) ==
              Tree(nodes[d := nodes[d].(children := nodes[d].children[k := n])], t.root, t.depth[n := t.depth[d] + 1])
  {
  }

  lemma CreatedKeeps(t: Tree, d: Id, k: Name, n: Id)
    requires TreeInv(t, {}) && d in t.nodes && n !in t.nodes && k !in t.nodes[d].children && !t.nodes[d].deleted
    ensures Rooted(t) && TreeInv(Created(t, d, k, n), {}) && d in t.depth
  {
    var t' := Created(t, d, k, n);
    forall m <- t'.nodes | m != t'.root
      ensures HasParent(t', m)
    {
      if m != n { assert HasParent(t, m); }
    }
    forall p <- t'.nodes, k' <- t'.nodes[p].children
      ensures EntryAgrees(t', p, k')
    {
      if p != d || k' != k { assert EntryAgrees(t, p, k'); }
    }
    forall m <- t'.nodes | m != t'.root && !t'.nodes[m].deleted
      ensures LinkedLive(t', m)
    {
      if m != n { assert HasParent(t, m) && LinkedLive(t, m); }
    }
  }

  lemma {:induction false} CreatedPath(t: Tree, d: Id, k: Name, n: Id, m: Id)
    requires TreeInv(t, {}) && d in t.nodes && n !in t.nodes && k !in t.nodes[d].children && !t.nodes[d].deleted
    requires m == n || m in t.nodes
    ensures Rooted(Created(t, d, k, n))
    ensures Path(Created(t, d, k, n), m) == if m == n then Path(t, d) + [k] else Path(t, m)
    decreases if m == n then 1 else 0, if m == n then 0 else t.depth[m]
  {
    CreatedKeeps(t, d, k, n);
    if m == n {
      CreatedPath(t, d, k, n, d);
    } else if m != t.root {
      assert HasParent(t, m) && HasParent(Created(t, d, k, n), m);
      CreatedPath(t, d, k, n, Parent(t, m));
    }
  }

  /** What is known once both names are detached. */
  lemma ReplaceSteps(t: Tree, r: Rename)
    requires TreeInv(t, {}) && Allowed(t, r)
    ensures r.oldDir in t.nodes && r.newDir in t.nodes
    ensures var t1 := Detach(t, r.newDir, r.newName);
            r.oldDir in t1.nodes && Child(t1, r.oldDir, r.oldName) == Child(t, r.oldDir, r.oldName)
    ensures var t2, y := BothDetached(t, r), Replaced(t, r);
            && Rooted(t2) && TablesAgree(t2) && t2.root == t.root && t2.depth == t.depth
              && t2.nodes.Keys == t.nodes.Keys
            && (y.None? ==> Cleared(t, r) == t2)
            && (y.Some? && r.exchange ==>
                  Movable(t2, y.value, r.oldDir, r.oldName) && Cleared(t, r) == Move(t2, y.value, r.oldDir, r.oldName))
            && (y.Some? && !r.exchange ==>
                  && y.value in t2.nodes && y.value != t2.root
                  && Cleared(t, r) == t2.(nodes := Mark(t2.nodes, Clan(t2, y.value))))
  {
    hide LiveLinked;
    var t2, y, x := BothDetached(t, r), Replaced(t, r), Child(t, r.oldDir, r.oldName);
    BothDetachedKeeps(t, r);
    if y.Some? {
      ChildFacts(t, r.newDir, r.newName, y.value, y.value);
      DetachedMovable(t, r, y.value);
      if x.Some? {
        ChildFacts(t, r.oldDir, r.oldName, x.value, y.value);
        SameShapeSamePath(t, t2, x.value, y.value);
      }
      MarkIsBuried(t2, Ids(x) + Ids(y), y.value);
    }
  }

  lemma RenamedIs(t: Tree, r: Rename)
    requires TreeInv(t, {}) && Allowed(t, r)
    ensures var t3, x := Cleared(t, r), Child(t, r.oldDir, r.oldName);
            && (x.None? ==> Renamed(t, r) == t3)
            && (x.Some? ==> Rooted(t3) && Movable(t3, x.value, r.newDir, r.newName)
                            && Renamed(t, r) == Move(t3, x.value, r.newDir, r.newName))
  {
    hide TreeInv;
    hide Cleared;
    var x := Child(t, r.oldDir, r.oldName);
    if x.Some? { PlaceMovable(t, r, x.value); }
  }

  lemma SelfInClan(t: Tree, x: Id)
    requires Rooted(t) && x in t.nodes && x != t.root
    ensures x in Clan(t, x) && t.root !in Clan(t, x)
  {
  }

  // ---------------------------------------------------------------------
  // Destroying a node
  // ---------------------------------------------------------------------

  /** What Node.DecRef does with the last reference: the entry under the node's
      name leaves the parent's table, whatever it leads to, and the node goes. */
  ghost function Destroyed(t: Tree, n: Id): Tree
    requires Rooted(t) && n in t.nodes && n != t.root && HasParent(t, n)
  {
    var t1 := Detach(t, Parent(t, n), t.nodes[n].name);
    Tree(t1.nodes - {n}, t1.root, t1.depth - {n})
  }

  /** No node has n as its parent, as when its last reference goes. */
  ghost predicate Childless(t: Tree, n: Id) {
    forall m <- t.nodes :: t.nodes[m].parent != Some(n)
  }

  /** The name of n now belongs to another live node. */
  ghost predicate NameReused(t: Tree, n: Id)
    requires n in t.nodes && t.nodes[n].parent.Some? && Parent(t, n) in t.nodes
  {
    var c := Child(t, Parent(t, n), t.nodes[n].name);
    c.Some? && c.value != n && c.value in t.nodes && !t.nodes[c.value].deleted
  }

  lemma DestroyedKeys(t: Tree, n: Id)
    requires Rooted(t) && n in t.nodes && n != t.root && HasParent(t, n)
    ensures var t' := Destroyed(t, n);
            t'.root == t.root && t'.nodes.Keys == t.nodes.Keys - {n} && t'.depth.Keys == t'.nodes.Keys
              && t'.root in t'.nodes
  {
  }

  lemma DestroyedRecord(t: Tree, n: Id, m: Id)
    requires Rooted(t) && n in t.nodes && n != t.root && HasParent(t, n) && m in t.nodes && m != n
    ensures var t' := Destroyed(t, n);
            && m in t'.nodes && m in t'.depth && t'.depth[m] == t.depth[m]
            && t'.nodes[m] == if m == Parent(t, n) then t.nodes[m].(children := t.nodes[m].children - {t.nodes[n].name})
                              else t.nodes[m]
  {
  }

  lemma DestroyedParent(t: Tree, n: Id, m: Id)
    requires Rooted(t) && n in t.nodes && n != t.root && HasParent(t, n) && Childless(t, n)
    requires m in t.nodes && m != t.root && m != n && HasParent(t, m)
    ensures var t' := Destroyed(t, n); m in t'.nodes && t'.depth.Keys == t'.nodes.Keys && HasParent(t', m)
  {
    hide Rooted;
    hide Destroyed;
    DestroyedKeys(t, n);
    DestroyedRecord(t, n, m);
    DestroyedRecord(t, n, Parent(t, m));
  }

  lemma DestroyedEntry(t: Tree, n: Id, p: Id, k: Name)
    requires TreeInv(t, {}) && n in t.nodes && n != t.root && HasParent(t, n) && Childless(t, n)
    requires p in Destroyed(t, n).nodes && k in Destroyed(t, n).nodes[p].children
    ensures EntryAgrees(Destroyed(t, n), p, k)
  {
    hide Rooted;
    hide LiveLinked;
    hide Destroyed;
    DestroyedKeys(t, n);
    DestroyedRecord(t, n, p);
    var c := t.nodes[p].children[k];
    assert EntryAgrees(t, p, k);
    assert c != n;
    DestroyedRecord(t, n, c);
  }

  lemma DestroyedLinked(t: Tree, n: Id, m: Id)
    requires TreeInv(t, {}) && n in t.nodes && n != t.root && HasParent(t, n) && Childless(t, n) && !NameReused(t, n)
    requires m in t.nodes && m != t.root && m != n && !t.nodes[m].deleted
    ensures var t' := Destroyed(t, n);
            m in t'.nodes && t'.nodes[m].parent.Some? && Parent(t', m) in t'.nodes && LinkedLive(t', m)
  {
    hide Destroyed;
    hide TablesAgree;
    assert HasParent(t, m) && LinkedLive(t, m);
    DestroyedRecord(t, n, m);
    DestroyedRecord(t, n, Parent(t, m));
  }

  lemma DestroyedShape(t: Tree, n: Id)
    requires TreeInv(t, {}) && n in t.nodes && n != t.root && Childless(t, n) && HasParent(t, n)
    ensures Rooted(Destroyed(t, n)) && TablesAgree(Destroyed(t, n))
  {
    hide HasParent;
    hide EntryAgrees;
    hide Destroyed;
    hide LiveLinked;
    hide Childless;
    var t' := Destroyed(t, n);
    DestroyedKeys(t, n);
    DestroyedRecord(t, n, t.root);
    forall m <- t'.nodes | m != t'.root
      ensures HasParent(t', m)
    {
      DestroyedParent(t, n, m);
    }
    forall p <- t'.nodes, k <- t'.nodes[p].children
      ensures EntryAgrees(t', p, k)
    {
      DestroyedEntry(t, n, p, k);
    }
  }

  lemma DestroyedKeeps(t: Tree, n: Id)
    requires TreeInv(t, {}) && n in t.nodes && n != t.root && Childless(t, n) && HasParent(t, n)
    requires !NameReused(t, n)
    ensures TreeInv(Destroyed(t, n), {})
  {
    hide Destroyed;
    hide TablesAgree;
    hide LinkedLive;
    hide NameReused;
    hide Childless;
    var t' := Destroyed(t, n);
    DestroyedShape(t, n);
    DestroyedKeys(t, n);
    forall m <- t'.nodes | m != t'.root
      ensures HasParent(t', m) && (t'.nodes[m].deleted || LinkedLive(t', m))
    {
      DestroyedParent(t, n, m);
      DestroyedRecord(t, n, m);
      if !t.nodes[m].deleted { DestroyedLinked(t, n, m); }
    }
  }

  /** Destroying a node keeps the tree exactly when no other live node has
      taken its name; otherwise that node loses its place. */
  lemma DestroyKeepsIffNameFree(t: Tree, n: Id)
    requires TreeInv(t, {}) && n in t.nodes && n != t.root && Childless(t, n) && HasParent(t, n)
    ensures TreeInv(Destroyed(t, n), {}) <==> !NameReused(t, n)
  {
    if NameReused(t, n) {
      var m := t.nodes[Parent(t, n)].children[t.nodes[n].name];
      assert EntryAgrees(t, Parent(t, n), t.nodes[n].name);
      assert !Linked(Destroyed(t, n), m);
    } else {
      DestroyedKeeps(t, n);
    }
  }

  /** The other parts of the server's invariant stay in any case. */
  lemma DestroyedLive(t: Tree, n: Id)
    requires Rooted(t) && TablesAgree(t) && EntriesLive(t) && n in t.nodes && n != t.root && HasParent(t, n)
    ensures EntriesLive(Destroyed(t, n))
  {
    var t' := Destroyed(t, n);
    hide Destroyed;
    DestroyedKeys(t, n);
    forall p <- t'.nodes, k <- t'.nodes[p].children
      ensures EntryLive(t', p, k)
    {
      DestroyedRecord(t, n, p);
      assert EntryAgrees(t, p, k) && EntryLive(t, p, k);
      var c := t.nodes[p].children[k];
      if c != n { DestroyedRecord(t, n, c); }
    }
  }

  lemma DestroyedRecords(t: Tree, n: Id, next: Id)
    requires Rooted(t) && NamesSafe(t) && IdsBelow(t, next) && n in t.nodes && n != t.root && HasParent(t, n)
    ensures NamesSafe(Destroyed(t, n)) && IdsBelow(Destroyed(t, n), next)
  {
    hide Destroyed;
    DestroyedKeys(t, n);
    forall m <- Destroyed(t, n).nodes
      ensures m in t.nodes && Destroyed(t, n).nodes[m].name == t.nodes[m].name
    {
      DestroyedRecord(t, n, m);
    }
  }

  /** So the condition is the same for the whole invariant. */
  lemma DestroyKeepsServer(t: Tree, n: Id, next: Id)
    requires TreeInv(t, {}) && EntriesLive(t) && NamesSafe(t) && IdsBelow(t, next)
    requires n in t.nodes && n != t.root && Childless(t, n) && HasParent(t, n)
    ensures var t' := Destroyed(t, n);
            TreeInv(t', {}) && EntriesLive(t') && NamesSafe(t') && IdsBelow(t', next) <==> !NameReused(t, n)
  {
    hide Destroyed;
    DestroyKeepsIffNameFree(t, n);
    DestroyedLive(t, n);
    DestroyedRecords(t, n, next);
  }

  /** It does happen: make a node, unlink it while it is still referenced, make
      another of the same name. */
  method ReuseName() returns (s: Server, n: Id)
    ensures s.Valid() && n in s.nodes && n != s.root && HasParent(s.T(), n) && Childless(s.T(), n)
    ensures !TreeInv(Destroyed(s.T(), n), {})
  {
    hide TablesAgree;
    hide LiveLinked;
    hide NamesSafe;
    hide Unlinked;
    s := new Server();
    var ok, err, m;
    n, ok := s.Step(s.root, "a");
    ghost var t := s.T();
    UnlinkCorrect(t, s.root, "a", s.root);
    UnlinkedRecord(t, s.root, "a", s.root);
    UnlinkedRecord(t, s.root, "a", n);
    err := s.Unlink(s.root, "a", OK);
    m, ok := s.Step(s.root, "a");
    assert HasParent(s.T(), n);
    DestroyKeepsIffNameFree(s.T(), n);
  }
}
