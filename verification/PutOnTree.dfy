// What Put.dfy says about mkdir and replace on a map of paths, derived from the jail's walk and from the
// change of one directory entry, on a tree of inodes that holds no symlink and stands still.
module PutOnTree {
  import opened Text
  import opened Paths
  import opened Wrappers
  import opened Tree
  import opened Jail
  import opened Resolver
  import opened Replace
  import opened Put

  predicate LinkFree(tree: Tree) {
    forall i :: i in tree ==> !tree[i].Symlink?
  }

  /** Only one path leads to each directory; files may have several names. */
  ghost predicate TreeShaped(tree: Tree, root: Ino) {
    && IsDir(tree, root)
    && forall p, q :: DirAtEnd(tree, root, p) && Descend(tree, root, p) == Descend(tree, root, q) ==> p == q
  }

  function ItemOf(node: Node): Option<Item> {
    match node
    case Dir(_, _) => Some(DirEntry)
    case File(body) => Some(FileEntry(body))
    case Symlink(_) => None
  }

  function ItemAt(tree: Tree, root: Ino, p: Path): Option<Item> {
    match Descend(tree, root, p)
    case None => None
    case Some(i) => if i in tree then ItemOf(tree[i]) else None
  }

  /** The cubby c is what the tree shows below root, path by path. */
  ghost predicate Mirrors(tree: Tree, root: Ino, c: Cubby) {
    [] !in c && forall p :: p != [] ==> Put.Look(c, p) == ItemAt(tree, root, p)
  }

  ghost predicate Pictured(tree: Tree, root: Ino, c: Cubby) {
    LinkFree(tree) && Sound(tree) && TreeShaped(tree, root) && Mirrors(tree, root, c)
  }

  // ---- the walk to a directory ------------------------------------------------------------------

  /** Without symlinks there is nothing to rewrite. */
  lemma NoRewrites(tree: Tree, root: Ino, p: seq<string>, n: nat, q: seq<string>)
    requires LinkFree(tree) && n > 0
    ensures Within(tree, root, p, n, q) <==> p == q
  {
    WithinUnfold(tree, root, p, n, q);
    assert forall m :: !Rewrite(tree, root, p, m);
  }

  /** So a resolve that asks for a directory returns the one at the end of the path, if it is one. */
  lemma ResolveToDir(w: World, tree: Tree, t: nat, root: Ino, parts: seq<string>)
    requires AlwaysStill(w, tree) && LinkFree(tree) && IsDir(tree, root) && AllSimple(parts)
    ensures var r := ResolveRun(w, t, root, parts, MAX_SYMLINKS, READDIR).0;
            if DirAtEnd(tree, root, parts) then r == Ok(Descend(tree, root, parts).value) else r.Err?
  {
    var r := ResolveRun(w, t, root, parts, MAX_SYMLINKS, READDIR);
    var made, x := w.newIno(r.1 - 1), if DirAtEnd(tree, root, parts) then Descend(tree, root, parts).value
                                      else if r.0.Ok? then r.0.value else root;
    RunReaches(w, tree, t, root, parts, MAX_SYMLINKS, READDIR, x, made);
    ReachesIsLeadsTo(tree, root, parts, MAX_SYMLINKS, READDIR, x, made);
    forall q ensures Within(tree, root, parts, MAX_SYMLINKS, q) <==> parts == q {
      NoRewrites(tree, root, parts, MAX_SYMLINKS, q);
    }
  }

  // ---- one new entry ------------------------------------------------------------------------------

  /** node, a new inode, under the name in directory d. */
  function Linked(tree: Tree, d: Ino, name: string, ino: Ino, node: Node): Tree
    requires IsDir(tree, d)
  {
    tree[ino := node][d := tree[d].(entries := tree[d].entries[name := ino])]
  }

  predicate Bare(node: Node) {
    node.File? || (node.Dir? && node.entries == map[])
  }

  lemma DescendSnoc(tree: Tree, root: Ino, up: Path, name: string)
    requires LinkFree(tree)
    ensures Descend(tree, root, up + [name]) ==
            match Descend(tree, root, up)
            case None => None
            case Some(e) => if HasEntry(tree, e, name) then Some(Child(tree, e, name)) else None
  {
    DescendConcat(tree, root, up, [name]);
  }

  lemma LinkedStaysLinkFree(tree: Tree, d: Ino, name: string, ino: Ino, node: Node)
    requires LinkFree(tree) && Sound(tree) && IsDir(tree, d) && ino !in tree && Bare(node)
    ensures LinkFree(Linked(tree, d, name, ino, node)) && Sound(Linked(tree, d, name, ino, node))
  {
  }

  /** A lookup in a directory of the new tree. */
  lemma LinkedEntry(tree: Tree, d: Ino, name: string, ino: Ino, node: Node, e: Ino, x: string)
    requires Sound(tree) && IsDir(tree, d) && ino !in tree && Bare(node) && (e in tree || e == ino)
    ensures var after := Linked(tree, d, name, ino, node);
            if e == ino then !HasEntry(after, e, x)
            else if e == d && x == name then HasEntry(after, e, x) && Child(after, e, x) == ino
            else (HasEntry(after, e, x) <==> HasEntry(tree, e, x))
                 && (HasEntry(tree, e, x) ==> Child(after, e, x) == Child(tree, e, x))
  {
  }

  lemma {:induction false} DescendInTree(tree: Tree, root: Ino, p: Path)
    requires LinkFree(tree) && root in tree
    ensures Descend(tree, root, p).Some? ==> Descend(tree, root, p).value in tree
  {
    if p != [] {
      DescendInTree(tree, root, p[..|p| - 1]);
      assert p == p[..|p| - 1] + [p[|p| - 1]];
      DescendSnoc(tree, root, p[..|p| - 1], p[|p| - 1]);
    }
  }

  /** Every path but the new one leads where it led; nothing is below the new one. */
  lemma {:induction false} DescendLinked(tree: Tree, root: Ino, up: Path, d: Ino, name: string, ino: Ino, node: Node, r: Path)
    requires LinkFree(tree) && Sound(tree) && TreeShaped(tree, root) && ino !in tree && Bare(node)
    requires Descend(tree, root, up) == Some(d) && IsDir(tree, d)
    ensures var p, after := up + [name], Linked(tree, d, name, ino, node);
            Descend(after, root, r) ==
            if p <= r then (if r == p then Some(ino) else None) else Descend(tree, root, r)
    decreases |r|
  {
    if r != [] {
      var r0, x := r[..|r| - 1], r[|r| - 1];
      assert r == r0 + [x];
      DescendLinked(tree, root, up, d, name, ino, node, r0);
      LinkedStaysLinkFree(tree, d, name, ino, node);
      DescendSnoc(Linked(tree, d, name, ino, node), root, r0, x);
      DescendSnoc(tree, root, r0, x);
      PrefixOfSnoc(up, name, r0, x);
      DescendInTree(tree, root, r0);
      if Descend(tree, root, r0).Some? { LinkedEntry(tree, d, name, ino, node, Descend(tree, root, r0).value, x); }
      LinkedEntry(tree, d, name, ino, node, ino, x);
      if Descend(tree, root, r0) == Some(d) { assert r0 == up; }
    }
  }

  lemma PrefixOfSnoc(up: Path, name: string, r0: Path, x: string)
    ensures up + [name] <= r0 + [x] <==> up + [name] <= r0 || (r0 == up && x == name)
  {
    var p, r := up + [name], r0 + [x];
    if p <= r && |p| == |r| {
      assert p == r && p[..|up|] == up && r[..|r0|] == r0;
    }
  }

  /** Adding a file or an empty directory where there is no directory is adding its item at that path. */
  lemma LinkedMirrors(tree: Tree, root: Ino, c: Cubby, up: Path, d: Ino, name: string, ino: Ino, node: Node)
    requires Pictured(tree, root, c) && ino !in tree && Bare(node)
    requires Descend(tree, root, up) == Some(d) && IsDir(tree, d)
    requires Put.Look(c, up + [name]) != Some(DirEntry)
    ensures Pictured(Linked(tree, d, name, ino, node), root, c[up + [name] := ItemOf(node).value])
  {
    var p, after := up + [name], Linked(tree, d, name, ino, node);
    var now := c[p := ItemOf(node).value];
    LinkedStaysLinkFree(tree, d, name, ino, node);
    forall r ensures Descend(after, root, r) == if p <= r then (if r == p then Some(ino) else None) else Descend(tree, root, r) {
      DescendLinked(tree, root, up, d, name, ino, node, r);
    }
    forall r | r != [] ensures Put.Look(now, r) == ItemAt(after, root, r) {
      assert Put.Look(c, r) == ItemAt(tree, root, r);
      if p <= r {
        if r != p { NothingBelow(tree, root, c, p, r); }
      } else {
        DescendInTree(tree, root, r);
        assert Descend(tree, root, r).Some? ==> ItemOf(after[Descend(tree, root, r).value]) == ItemOf(tree[Descend(tree, root, r).value]);
      }
    }
    LinkedTreeShaped(tree, root, p, d, name, ino, node);
  }

  lemma NothingBelow(tree: Tree, root: Ino, c: Cubby, p: Path, r: Path)
    requires Pictured(tree, root, c) && p != [] && p <= r && r != p && Put.Look(c, p) != Some(DirEntry)
    ensures Put.Look(c, r) == None
  {
    assert r == p + r[|p|..];
    DescendConcat(tree, root, p, r[|p|..]);
    DescendInTree(tree, root, p);
    assert Put.Look(c, p) == ItemAt(tree, root, p) && Put.Look(c, r) == ItemAt(tree, root, r);
  }

  lemma LinkedTreeShaped(tree: Tree, root: Ino, p: Path, d: Ino, name: string, ino: Ino, node: Node)
    requires TreeShaped(tree, root) && LinkFree(tree) && IsDir(tree, d) && ino !in tree
    requires var after := Linked(tree, d, name, ino, node);
             forall r :: Descend(after, root, r) == if p <= r then (if r == p then Some(ino) else None) else Descend(tree, root, r)
    ensures TreeShaped(Linked(tree, d, name, ino, node), root)
  {
    var after := Linked(tree, d, name, ino, node);
    forall a, b | DirAtEnd(after, root, a) && Descend(after, root, a) == Descend(after, root, b)
      ensures a == b
    {
      DescendInTree(tree, root, a);
      DescendInTree(tree, root, b);
    }
  }

  // ---- the operations -----------------------------------------------------------------------------

  lemma {:induction false} BackslashRefused(p: Path)
    requires AllEntries(p) && !AllSimple(p)
    ensures Components(Join(p, '/')).Refused?
  {
    SomeMalformed(p);
  }

  lemma {:induction false} SomeMalformed(p: Path)
    requires AllEntries(p) && !AllSimple(p)
    ensures Malformed(Join(p, '/'))
  {
    if |p| > 1 && Simple(p[0]) {
      var i :| 0 <= i < |p| && !Simple(p[i]);
      assert p[1..][i - 1] == p[i];
      assert AllEntries(p[1..]) by { assert forall k :: 0 <= k < |p| - 1 ==> p[1..][k] == p[k + 1]; }
      SomeMalformed(p[1..]);
    } else {
      assert Entry(p[0]);
    }
  }

  /** parentOf finds the parent exactly when the path is plain, not the root, and its parent is a
      directory of the cubby; and the last name is an entry of that directory exactly if the path exists. */
  lemma ParentOnTree(w: World, tree: Tree, t: nat, root: Ino, c: Cubby, p: Path)
    requires AlwaysStill(w, tree) && Pictured(tree, root, c) && AllEntries(p)
    ensures var r := ParentOutcome(w, t, root, Join(p, '/')).0;
            && (r.Ok? <==> AllSimple(p) && p != [] && IsDirAt(c, p[..|p| - 1]))
            && (r.Ok? ==>
                  var (d, name) := r.value;
                  && name == p[|p| - 1] && IsDir(tree, d) && Descend(tree, root, p[..|p| - 1]) == Some(d)
                  && (name in tree[d].entries <==> p in c)
                  && (IsDirEntry(tree, d, name) <==> Put.Look(c, p) == Some(DirEntry)))
  {
    if !AllSimple(p) {
      BackslashRefused(p);
    } else {
      ComponentsOfJoin(p);
      if p != [] {
        var up, name := p[..|p| - 1], p[|p| - 1];
        assert p == up + [name];
        ResolveToDir(w, tree, t, root, up);
        DescendInTree(tree, root, up);
        assert up != [] ==> Put.Look(c, up) == ItemAt(tree, root, up);
        DescendSnoc(tree, root, up, name);
        DescendInTree(tree, root, p);
        assert Put.Look(c, p) == ItemAt(tree, root, p);
      }
    }
  }

  lemma LinkedAtPath(tree: Tree, root: Ino, c: Cubby, p: Path, d: Ino, name: string, ino: Ino, node: Node)
    requires Pictured(tree, root, c) && ino !in tree && Bare(node)
    requires p != [] && name == p[|p| - 1] && Descend(tree, root, p[..|p| - 1]) == Some(d) && IsDir(tree, d)
    requires Put.Look(c, p) != Some(DirEntry)
    ensures Pictured(Linked(tree, d, name, ino, node), root, c[p := ItemOf(node).value])
  {
    assert p == p[..|p| - 1] + [name];
    LinkedMirrors(tree, root, c, p[..|p| - 1], d, name, ino, node);
  }

  lemma StagedIsLinked(tree: Tree, d: Ino, name: string, ino: Ino, body: string)
    requires IsDir(tree, d) && ino !in tree
    ensures Staged(tree, d, name, ino, body) == Linked(tree, d, name, ino, File(body))
  {
  }

  /** mkdirat under the parent that parentOf returned does to the tree what Put's Mkdir does to the map. */
  lemma MkdirOnTree(w: World, tree: Tree, t: nat, root: Ino, c: Cubby, p: Path, ino: Ino)
    requires AlwaysStill(w, tree) && Pictured(tree, root, c) && AllEntries(p) && ino !in tree
    requires ParentOutcome(w, t, root, Join(p, '/')).0.Ok? && p !in c
    ensures var (d, name) := ParentOutcome(w, t, root, Join(p, '/')).0.value;
            && IsDir(tree, d) && name !in tree[d].entries
            && Pictured(Linked(tree, d, name, ino, Dir(map[], d)), root, c[p := DirEntry])
  {
    ParentOnTree(w, tree, t, root, c, p);
    var (d, name) := ParentOutcome(w, t, root, Join(p, '/')).0.value;
    LinkedAtPath(tree, root, c, p, d, name, ino, Dir(map[], d));
  }

  /** The jail's Replace under that parent is refused for a directory exactly when Put's ReplaceFile is,
      and the tree its success leaves (Disk.Replace) is the map ReplaceFile leaves. */
  lemma ReplaceOnTree(w: World, tree: Tree, t: nat, root: Ino, c: Cubby, p: Path, ino: Ino, body: string)
    requires AlwaysStill(w, tree) && Pictured(tree, root, c) && AllEntries(p) && ino !in tree
    requires ParentOutcome(w, t, root, Join(p, '/')).0.Ok?
    ensures var (d, name) := ParentOutcome(w, t, root, Join(p, '/')).0.value;
            && IsDir(tree, d)
            && (IsDirEntry(tree, d, name) <==> Put.Look(c, p) == Some(DirEntry))
            && (!IsDirEntry(tree, d, name) ==> Pictured(Staged(tree, d, name, ino, body), root, c[p := FileEntry(body)]))
  {
    ParentOnTree(w, tree, t, root, c, p);
    var (d, name) := ParentOutcome(w, t, root, Join(p, '/')).0.value;
    if !IsDirEntry(tree, d, name) {
      LinkedAtPath(tree, root, c, p, d, name, ino, File(body));
      StagedIsLinked(tree, d, name, ino, body);
    }
  }
}
