// The reference: pathname resolution as POSIX.1-2017 XBD section 4.13 describes it, one component
// at a time through the tree itself, ".." by the parent of the directory one is in, rooted at the
// jail. The jail's lexical ".." agrees with it when every name a ".." cancels is a real directory.
module Physical {
  import opened Text
  import opened Paths
  import opened Wrappers
  import opened Tree
  import opened Jail
  import opened Resolver

  predicate Blank(p: string) {
    p == "" || p == "."
  }

  /** Follow pending from dir with at most budget symlink expansions; None is any refusal. */
  function Phys(tree: Tree, root: Ino, dir: Ino, pending: seq<string>, budget: nat): Option<Ino>
    decreases budget, |pending|
  {
    if pending == [] then Some(dir)
    else
      var p, rest := pending[0], pending[1..];
      if Blank(p) then Phys(tree, root, dir, rest, budget)
      else if p == ".." then
        if dir == root || !IsDir(tree, dir) then None
        else Phys(tree, root, tree[dir].parent, rest, budget)
      else if !HasEntry(tree, dir, p) then None
      else
        var c := Child(tree, dir, p);
        match tree[c]
        case Symlink(text) =>
          if budget == 0 || !Relative(text) then None
          else Phys(tree, root, dir, Split(text, '/') + rest, budget - 1)
        case _ => Phys(tree, root, c, rest, budget)
  }

  /** The same to the letter: at the root ".." stays there, an absolute text starts over at the root, and
      a trailing slash or "." asks for a directory. An empty text stands for the link's own directory, which
      is one of the two answers the standard allows. */
  function Posix(tree: Tree, root: Ino, dir: Ino, pending: seq<string>, budget: nat): Option<Ino>
    decreases budget, |pending|
  {
    if pending == [] then Some(dir)
    else
      var p, rest := pending[0], pending[1..];
      if !IsDir(tree, dir) then None
      else if Blank(p) then Posix(tree, root, dir, rest, budget)
      else if p == ".." then Posix(tree, root, if dir == root then root else tree[dir].parent, rest, budget)
      else if !HasEntry(tree, dir, p) then None
      else
        var c := Child(tree, dir, p);
        match tree[c]
        case Symlink(text) =>
          if budget == 0 then None
          else Posix(tree, root, if Relative(text) then dir else root, Split(text, '/') + rest, budget - 1)
        case _ => Posix(tree, root, c, rest, budget)
  }

  /** A whole pathname; the null pathname is refused. */
  function PosixOf(tree: Tree, root: Ino, rel: string, budget: nat): Option<Ino> {
    if rel == "" then None else Posix(tree, root, root, Split(rel, '/'), budget)
  }

  /** On its way the resolver stands on something that is no directory with a part still to follow. */
  predicate LeansOnFile(tree: Tree, root: Ino, dir: Ino, pending: seq<string>, budget: nat)
    decreases budget, |pending|
  {
    pending != [] &&
    var p, rest := pending[0], pending[1..];
    if !IsDir(tree, dir) then true
    else if Blank(p) then LeansOnFile(tree, root, dir, rest, budget)
    else if p == ".." then dir != root && LeansOnFile(tree, root, tree[dir].parent, rest, budget)
    else
      && HasEntry(tree, dir, p)
      && match tree[Child(tree, dir, p)]
         case Symlink(text) =>
           budget > 0 && Relative(text) && LeansOnFile(tree, root, dir, Split(text, '/') + rest, budget - 1)
         case _ => LeansOnFile(tree, root, Child(tree, dir, p), rest, budget)
  }

  /** On its way the resolver takes a ".." at the root or meets an absolute text. */
  predicate LeavesRoot(tree: Tree, root: Ino, dir: Ino, pending: seq<string>, budget: nat)
    decreases budget, |pending|
  {
    pending != [] && IsDir(tree, dir) &&
    var p, rest := pending[0], pending[1..];
    if Blank(p) then LeavesRoot(tree, root, dir, rest, budget)
    else if p == ".." then dir == root || LeavesRoot(tree, root, tree[dir].parent, rest, budget)
    else
      && HasEntry(tree, dir, p)
      && match tree[Child(tree, dir, p)]
         case Symlink(text) =>
           budget > 0 && (Relative(text) ==> LeavesRoot(tree, root, dir, Split(text, '/') + rest, budget - 1))
         case _ => LeavesRoot(tree, root, Child(tree, dir, p), rest, budget)
  }

  /** What Phys answers, Posix answers exactly if no part was left over at something that is no directory. */
  lemma {:induction false} PhysIsPosix(tree: Tree, root: Ino, dir: Ino, pending: seq<string>, budget: nat)
    requires Phys(tree, root, dir, pending, budget).Some?
    ensures Posix(tree, root, dir, pending, budget) ==
            if LeansOnFile(tree, root, dir, pending, budget) then None else Phys(tree, root, dir, pending, budget)
    decreases budget, |pending|
  {
    if pending != [] && IsDir(tree, dir) {
      var p, rest := pending[0], pending[1..];
      if Blank(p) {
        PhysIsPosix(tree, root, dir, rest, budget);
      } else if p == ".." {
        PhysIsPosix(tree, root, tree[dir].parent, rest, budget);
      } else {
        var c := Child(tree, dir, p);
        if tree[c].Symlink? {
          PhysIsPosix(tree, root, dir, Split(tree[c].text, '/') + rest, budget - 1);
        } else {
          PhysIsPosix(tree, root, c, rest, budget);
        }
      }
    }
  }

  /** What Posix answers, Phys answers exactly if the root was not left. */
  lemma {:induction false} PosixIsPhys(tree: Tree, root: Ino, dir: Ino, pending: seq<string>, budget: nat)
    requires Posix(tree, root, dir, pending, budget).Some?
    ensures Phys(tree, root, dir, pending, budget) ==
            if LeavesRoot(tree, root, dir, pending, budget) then None else Posix(tree, root, dir, pending, budget)
    decreases budget, |pending|
  {
    if pending != [] {
      var p, rest := pending[0], pending[1..];
      if Blank(p) {
        PosixIsPhys(tree, root, dir, rest, budget);
      } else if p == ".." {
        if dir != root { PosixIsPhys(tree, root, tree[dir].parent, rest, budget); }
      } else {
        var c := Child(tree, dir, p);
        if !tree[c].Symlink? {
          PosixIsPhys(tree, root, c, rest, budget);
        } else if Relative(tree[c].text) {
          PosixIsPhys(tree, root, dir, Split(tree[c].text, '/') + rest, budget - 1);
        }
      }
    }
  }

  /** A directory has one parent, the one that lists it; nothing lists the root. */
  predicate Rooted(tree: Tree, root: Ino) {
    && IsDir(tree, root)
    && forall d, name :: d in tree && tree[d].Dir? && name in tree[d].entries && IsDir(tree, tree[d].entries[name])
                         ==> tree[d].entries[name] != root && tree[tree[d].entries[name]].parent == d
  }

  predicate NoUp(ps: seq<string>) {
    forall i :: 0 <= i < |ps| ==> ps[i] != ".."
  }

  /** Followed from d: every name that a later ".." cancels is a directory, not a symlink. Where ".."
      leaves the root, what comes after does not matter. */
  predicate Tame(tree: Tree, root: Ino, d: Ino, ps: seq<string>)
    decreases |ps|
  {
    ps == [] ||
    if Blank(ps[0]) then Tame(tree, root, d, ps[1..])
    else if ps[0] == ".." then IsDir(tree, d) && d != root ==> Tame(tree, root, tree[d].parent, ps[1..])
    else NoUp(ps[1..]) || (HasEntry(tree, d, ps[0]) && IsDir(tree, Child(tree, d, ps[0]))
                           && Tame(tree, root, Child(tree, d, ps[0]), ps[1..]))
  }

  predicate TameText(tree: Tree, root: Ino, d: Ino, s: string) {
    Tame(tree, root, d, Split(s, '/'))
  }

  /** Every relative link is tame from each directory that lists it. */
  ghost predicate TameLinks(tree: Tree, root: Ino) {
    forall d, name :: HasEntry(tree, d, name) ==> TameLink(tree, root, d, tree[Child(tree, d, name)])
  }

  predicate TameLink(tree: Tree, root: Ino, d: Ino, node: Node) {
    node.Symlink? && Relative(node.text) ==> TameText(tree, root, d, node.text)
  }

  predicate WellFormedLinks(tree: Tree) {
    forall c :: c in tree && tree[c].Symlink? ==> !Malformed(tree[c].text)
  }

  // ---- blanks do not matter ---------------------------------------------------

  function Strip(ps: seq<string>): seq<string> {
    if ps == [] then []
    else if Blank(ps[0]) then Strip(ps[1..])
    else [ps[0]] + Strip(ps[1..])
  }

  lemma {:induction false} StripConcat(a: seq<string>, b: seq<string>)
    ensures Strip(a + b) == Strip(a) + Strip(b)
  {
    if a == [] {
      assert a + b == b;
    } else {
      assert (a + b)[0] == a[0] && (a + b)[1..] == a[1..] + b;
      StripConcat(a[1..], b);
    }
  }

  lemma {:induction false} StripTwice(a: seq<string>)
    ensures Strip(Strip(a)) == Strip(a)
  {
    if a != [] {
      StripTwice(a[1..]);
      if !Blank(a[0]) { assert ([a[0]] + Strip(a[1..]))[1..] == Strip(a[1..]); }
    }
  }

  lemma {:induction false} PhysStrip(tree: Tree, root: Ino, dir: Ino, pending: seq<string>, budget: nat)
    ensures Phys(tree, root, dir, pending, budget) == Phys(tree, root, dir, Strip(pending), budget)
    decreases budget, |pending|
  {
    if pending != [] {
      var p, rest := pending[0], pending[1..];
      if Blank(p) {
        PhysStrip(tree, root, dir, rest, budget);
      } else {
        assert Strip(pending)[0] == p && Strip(pending)[1..] == Strip(rest);
        if p == ".." {
          if dir != root && IsDir(tree, dir) { PhysStrip(tree, root, tree[dir].parent, rest, budget); }
        } else if HasEntry(tree, dir, p) {
          var c := Child(tree, dir, p);
          if tree[c].Symlink? {
            if budget > 0 {
              var text := Split(tree[c].text, '/');
              PhysSame(tree, root, dir, text + rest, text + Strip(rest), budget - 1) by {
                StripConcat(text, rest);
                StripConcat(text, Strip(rest));
                StripTwice(rest);
              }
            }
          } else {
            PhysStrip(tree, root, c, rest, budget);
          }
        }
      }
    }
  }

  lemma {:induction false} PhysSame(tree: Tree, root: Ino, dir: Ino, a: seq<string>, b: seq<string>, budget: nat)
    requires Strip(a) == Strip(b)
    ensures Phys(tree, root, dir, a, budget) == Phys(tree, root, dir, b, budget)
    decreases budget, |a| + |b| + 1
  {
    PhysStrip(tree, root, dir, a, budget);
    PhysStrip(tree, root, dir, b, budget);
  }

  // ---- lexical and physical ".." ------------------------------------------------

  predicate Name(p: string) {
    !Blank(p) && p != ".."
  }

  predicate AllNames(ps: seq<string>) {
    forall i :: 0 <= i < |ps| ==> Name(ps[i])
  }

  lemma {:induction false} PhysDescend(tree: Tree, root: Ino, dir: Ino, base: seq<string>, d: Ino,
                                       rest: seq<string>, budget: nat)
    requires AllNames(base) && Descend(tree, dir, base) == Some(d)
    ensures Phys(tree, root, dir, base + rest, budget) == Phys(tree, root, d, rest, budget)
    decreases |base|
  {
    if base == [] {
      assert base + rest == rest;
    } else {
      assert Name(base[0]);
      assert (base + rest)[0] == base[0] && (base + rest)[1..] == base[1..] + rest;
      PhysDescend(tree, root, Child(tree, dir, base[0]), base[1..], d, rest, budget);
    }
  }

  lemma {:induction false} FoldNoUp(base: seq<string>, ps: seq<string>)
    requires NoUp(ps)
    ensures FoldParts(base, ps) == Parsed(base + Strip(ps))
    decreases |ps|
  {
    if ps == [] {
      assert base + [] == base;
    } else {
      assert ps[0] != "..";
      if Blank(ps[0]) {
        FoldNoUp(base, ps[1..]);
      } else {
        FoldNoUp(base + [ps[0]], ps[1..]);
        assert base + [ps[0]] + Strip(ps[1..]) == base + Strip(ps);
      }
    }
  }

  /** The parent of the directory at the end of a plain path is the directory one name earlier. */
  lemma ParentOnPath(tree: Tree, root: Ino, base: seq<string>, d: Ino)
    requires Rooted(tree, root) && |base| > 0 && Descend(tree, root, base) == Some(d) && IsDir(tree, d)
    ensures d != root
    ensures Descend(tree, root, base[..|base| - 1]) == Some(tree[d].parent)
    ensures IsDir(tree, tree[d].parent)
  {
    var up, last := base[..|base| - 1], base[|base| - 1];
    assert base == up + [last];
    DescendConcat(tree, root, up, [last]);
    var e := Descend(tree, root, up).value;
    assert [last][0] == last;
    assert HasEntry(tree, e, last) && tree[e].entries[last] == d;
  }

  /** Standing at the end of base, a tame text followed physically is the text folded onto base. */
  lemma {:induction false} PhysFold(tree: Tree, root: Ino, base: seq<string>, d: Ino,
                                    ps: seq<string>, rest: seq<string>, budget: nat)
    requires Rooted(tree, root) && AllNames(base) && Tame(tree, root, d, ps)
    requires Descend(tree, root, base) == Some(d) && IsDir(tree, d)
    ensures Phys(tree, root, d, ps + rest, budget) ==
            match FoldParts(base, ps)
            case Refused(_) => None
            case Parsed(s) => Phys(tree, root, root, s + rest, budget)
    decreases |ps|
  {
    if ps == [] {
      assert ps + rest == rest;
      PhysDescend(tree, root, root, base, d, rest, budget);
    } else {
      assert (ps + rest)[0] == ps[0] && (ps + rest)[1..] == ps[1..] + rest;
      if Blank(ps[0]) {
        PhysFold(tree, root, base, d, ps[1..], rest, budget);
      } else if ps[0] == ".." {
        if base == [] {
          assert d == root;
        } else {
          ParentOnPath(tree, root, base, d);
          PhysFold(tree, root, base[..|base| - 1], tree[d].parent, ps[1..], rest, budget);
        }
      } else if !NoUp(ps[1..]) {
        PhysFold(tree, root, base + [ps[0]], Child(tree, d, ps[0]), ps[1..], rest, budget) by {
          DescendConcat(tree, root, base, [ps[0]]);
          assert [ps[0]][0] == ps[0] && [ps[0]][1..] == [];
        }
      } else {
        FoldNoUp(base, ps);
        assert base + Strip(ps) + rest == base + (Strip(ps) + rest);
        PhysDescend(tree, root, root, base, d, Strip(ps) + rest, budget);
        PhysSame(tree, root, d, ps + rest, Strip(ps) + rest, budget) by {
          StripConcat(ps, rest);
          StripConcat(Strip(ps), rest);
          StripTwice(ps);
        }
      }
    }
  }

  // ---- the walk against the reference --------------------------------------------

  /** At the first symlink, the reference stands before it. */
  lemma PhysToLink(tree: Tree, root: Ino, parts: seq<string>, i: nat, text: string, budget: nat)
    requires AllSimple(parts) && LinkAt(tree, root, parts, i, text)
    ensures !Relative(text) || budget == 0 ==> Phys(tree, root, root, parts, budget) == None
    ensures Relative(text) && budget > 0 ==>
            Phys(tree, root, root, parts, budget) ==
            Phys(tree, root, Descend(tree, root, parts[..i]).value, Split(text, '/') + parts[i + 1..], budget - 1)
  {
    var d := Descend(tree, root, parts[..i]).value;
    assert parts == parts[..i] + parts[i..];
    PhysDescend(tree, root, root, parts[..i], d, parts[i..], budget);
    assert Simple(parts[i]) && parts[i..][0] == parts[i] && parts[i..][1..] == parts[i + 1..];
  }

  /** There it goes on with the link's text. */
  lemma PhysAtLink(tree: Tree, root: Ino, parts: seq<string>, i: nat, text: string, budget: nat)
    requires Rooted(tree, root) && TameLinks(tree, root) && AllSimple(parts)
    requires LinkAt(tree, root, parts, i, text)
    ensures !Relative(text) || budget == 0 ==> Phys(tree, root, root, parts, budget) == None
    ensures Relative(text) && budget > 0 && !Malformed(text) ==>
            Phys(tree, root, root, parts, budget) ==
            match JoinComponents(parts[..i], text)
            case Refused(_) => None
            case Parsed(s) => Phys(tree, root, root, s + parts[i + 1..], budget - 1)
  {
    PhysToLink(tree, root, parts, i, text, budget);
    if Relative(text) && budget > 0 && !Malformed(text) {
      LinkBase(tree, root, parts, i, text);
      FoldAtLink(tree, root, parts[..i], Descend(tree, root, parts[..i]).value, text, parts[i + 1..], budget - 1);
    }
  }

  lemma LinkBase(tree: Tree, root: Ino, parts: seq<string>, i: nat, text: string)
    requires TameLinks(tree, root) && AllSimple(parts) && LinkAt(tree, root, parts, i, text) && Relative(text)
    ensures var d := Descend(tree, root, parts[..i]).value;
            AllSimple(parts[..i]) && IsDir(tree, d) && TameText(tree, root, d, text)
  {
    var d := Descend(tree, root, parts[..i]).value;
    assert TameLink(tree, root, d, tree[Child(tree, d, parts[i])]);
  }

  lemma FoldAtLink(tree: Tree, root: Ino, base: seq<string>, d: Ino, text: string, rest: seq<string>, budget: nat)
    requires Rooted(tree, root) && AllSimple(base) && Descend(tree, root, base) == Some(d) && IsDir(tree, d)
    requires TameText(tree, root, d, text) && Relative(text) && !Malformed(text)
    ensures Phys(tree, root, d, Split(text, '/') + rest, budget) ==
            if JoinComponents(base, text).Refused? then None
            else Phys(tree, root, root, JoinComponents(base, text).parts + rest, budget)
  {
    JoinComponentsIsFold(base, text);
    PhysFold(tree, root, base, d, Split(text, '/'), rest, budget);
  }

  lemma PhysMissing(tree: Tree, root: Ino, parts: seq<string>, i: nat, budget: nat)
    requires AllSimple(parts) && i < |parts| && Descend(tree, root, parts[..i]).Some?
    requires !HasEntry(tree, Descend(tree, root, parts[..i]).value, parts[i])
    ensures Phys(tree, root, root, parts, budget) == None
  {
    assert parts == parts[..i] + parts[i..];
    PhysDescend(tree, root, root, parts[..i], Descend(tree, root, parts[..i]).value, parts[i..], budget);
    assert Simple(parts[i]) && parts[i..][0] == parts[i];
  }

  lemma PhysStuck(tree: Tree, root: Ino, parts: seq<string>, i: nat, budget: nat)
    requires Rooted(tree, root) && TameLinks(tree, root) && AllSimple(parts)
    requires WellFormedLinks(tree) && Stuck(tree, root, parts, i)
    ensures Phys(tree, root, root, parts, budget) == None
  {
    var d := Descend(tree, root, parts[..i]).value;
    if HasEntry(tree, d, parts[i]) {
      PhysAtLink(tree, root, parts, i, tree[Child(tree, d, parts[i])].text, budget);
    } else {
      PhysMissing(tree, root, parts, i, budget);
    }
  }

  /** The jail's answer is the reference's; and every answer of the reference, if no text is malformed. */
  predicate Agreeing(tree: Tree, jail: Outcome<Ino>, ref: Option<Ino>) {
    && (jail.Ok? ==> ref == Some(jail.value))
    && (ref.Some? && WellFormedLinks(tree) ==> jail == Ok(ref.value))
  }

  /** Rewriting the first link is one expansion of the reference. */
  lemma RewriteIsExpansion(tree: Tree, root: Ino, parts: seq<string>, q: seq<string>, budget: nat)
    requires Rooted(tree, root) && TameLinks(tree, root) && AllSimple(parts) && Rewrite(tree, root, parts, q)
    ensures Phys(tree, root, root, parts, budget) ==
            if budget == 0 then None else Phys(tree, root, root, q, budget - 1)
  {
    var i: nat, text :| RewriteAt(tree, root, parts, i, text, q);
    JoinComponentsFailsExactly(parts[..i], text);
    PhysAtLink(tree, root, parts, i, text, budget);
  }

  /** A walk that opens a node: the reference goes down the same entries. */
  lemma RunOpens(w: World, tree: Tree, t: nat, root: Ino, parts: seq<string>, n: nat)
    requires AllSimple(parts) && n > 0 && WalkRun(w, t, root, parts, READ).0.Opened?
    requires Descend(tree, root, parts) == Some(WalkRun(w, t, root, parts, READ).0.fd)
    ensures Agreeing(tree, ResolveRun(w, t, root, parts, n, READ).0, Phys(tree, root, root, parts, n - 1))
  {
    assert parts + [] == parts;
    PhysDescend(tree, root, root, parts, WalkRun(w, t, root, parts, READ).0.fd, [], n - 1);
  }

  /** A walk that fails: the reference stops at the same component. */
  lemma RunStops(w: World, tree: Tree, t: nat, root: Ino, parts: seq<string>, n: nat)
    requires Rooted(tree, root) && TameLinks(tree, root) && AllSimple(parts) && n > 0
    requires WalkRun(w, t, root, parts, READ).0.Failed?
    requires Blocked(tree, root, parts, READ, WalkRun(w, t, root, parts, READ).0.error)
    ensures Agreeing(tree, ResolveRun(w, t, root, parts, n, READ).0, Phys(tree, root, root, parts, n - 1))
  {
    var i: nat :| StuckWith(tree, root, parts, i, WalkRun(w, t, root, parts, READ).0.error);
    if WellFormedLinks(tree) { PhysStuck(tree, root, parts, i, n - 1); }
  }

  /** A walk that meets a link: the rest of the run against the rest of the reference. */
  lemma RunRewrites(w: World, tree: Tree, t: nat, root: Ino, parts: seq<string>, n: nat, q: seq<string>, t1: nat)
    requires Rooted(tree, root) && TameLinks(tree, root) && AllSimple(parts) && n > 0
    requires WalkRun(w, t, root, parts, READ) == (Rewritten(q), t1) && Rewrite(tree, root, parts, q)
    requires n > 1 ==> Agreeing(tree, ResolveRun(w, t1, root, q, n - 1, READ).0, Phys(tree, root, root, q, n - 2))
    ensures Agreeing(tree, ResolveRun(w, t, root, parts, n, READ).0, Phys(tree, root, root, parts, n - 1))
  {
    ResolveTurn(w, t, root, parts, n, READ, Rewritten(q), t1);
    RewriteIsExpansion(tree, root, parts, q, n - 1);
  }

  /** n walks of the jail against the reference with n - 1 expansions. */
  lemma {:induction false} RunAgrees(w: World, tree: Tree, t: nat, root: Ino, parts: seq<string>, n: nat)
    requires AlwaysStill(w, tree) && Rooted(tree, root) && TameLinks(tree, root) && AllSimple(parts) && n > 0
    ensures Agreeing(tree, ResolveRun(w, t, root, parts, n, READ).0, Phys(tree, root, root, parts, n - 1))
    decreases n
  {
    WalkMeansRun(w, tree, t, root, parts, READ);
    match WalkRun(w, t, root, parts, READ) {
      case (Opened(_), _) => RunOpens(w, tree, t, root, parts, n);
      case (Failed(_), _) => RunStops(w, tree, t, root, parts, n);
      case (Rewritten(q), t1) =>
        RewriteSimple(tree, root, parts, q);
        if n > 1 { RunAgrees(w, tree, t1, root, q, n - 1); }
        RunRewrites(w, tree, t, root, parts, n, q, t1);
    }
  }

  /** When every name a ".." cancels is a directory, in the path and in the links: a node the jail
      returns is the one POSIX resolution returns with at most seven expansions, exactly if the path is
      not empty and no part was left over at a file; and if no text holds a backslash or NUL, the jail
      returns what POSIX returns exactly if the root was not left on the way. */
  lemma JailAgreesWithPhysical(w: World, tree: Tree, t: nat, root: Ino, rel: string)
    requires AlwaysStill(w, tree) && Rooted(tree, root) && TameLinks(tree, root) && TameText(tree, root, root, rel)
    ensures var jail, ps := ResolveOutcome(w, t, root, rel, READ).0, Split(rel, '/');
            var ref, posix := Phys(tree, root, root, ps, 7), PosixOf(tree, root, rel, 7);
            && (jail.Ok? ==> ref == Some(jail.value))
            && (jail.Ok? ==> posix == if rel == "" || LeansOnFile(tree, root, root, ps, 7) then None else Some(jail.value))
            && (ref.Some? && WellFormedLinks(tree) && !Malformed(rel) ==> jail == Ok(ref.value))
            && (posix.Some? && WellFormedLinks(tree) && !Malformed(rel) ==>
                  if LeavesRoot(tree, root, root, ps, 7) then jail.Err? else jail == Ok(posix.value))
  {
    if Phys(tree, root, root, Split(rel, '/'), 7).Some? { PhysIsPosix(tree, root, root, Split(rel, '/'), 7); }
    if PosixOf(tree, root, rel, 7).Some? { PosixIsPhys(tree, root, root, Split(rel, '/'), 7); }
    if !Malformed(rel) {
      var ps := Split(rel, '/');
      PhysFold(tree, root, [], root, ps, [], 7);
      assert ps + [] == ps;
      if Components(rel).Parsed? {
        var parts := Components(rel).parts;
        ComponentsAreSimple(rel);
        assert parts + [] == parts;
        RunAgrees(w, tree, t, root, parts, MAX_SYMLINKS);
      }
    }
  }

  // ---- where they part -----------------------------------------------------------

  predicate ForkNames(s: string, d: string, e: string, f: string) {
    Simple(s) && Simple(d) && Simple(e) && Simple(f) && s != d && d != f && f != s && e != f
  }

  /** s -> "d/e" at the top, and two files called f: 5 beside s, 4 beside e. */
  function Forked(s: string, d: string, e: string, f: string): Tree {
    map[0 := Dir(map[s := 1, d := 2, f := 5], 0),
        1 := Symlink(d + "/" + e),
        2 := Dir(map[e := 3, f := 4], 0),
        3 := Dir(map[], 2),
        4 := File("inner"),
        5 := File("outer")]
  }

  lemma ForkedTexts(s: string, d: string, e: string, f: string)
    requires ForkNames(s, d, e, f)
    ensures Split(d + "/" + e, '/') == [d] + [e]
    ensures Split(s + "/" + (".." + "/" + f), '/') == [s] + ([".."] + [f])
  {
    SplitWhole(s, '/');
    SplitWhole(d, '/');
    SplitWhole(e, '/');
    SplitWhole(f, '/');
    SplitWhole("..", '/');
    SplitConcat(d, e, '/');
    SplitConcat("..", f, '/');
    SplitConcat(s, ".." + "/" + f, '/');
  }

  lemma ForkedShape(s: string, d: string, e: string, f: string)
    requires ForkNames(s, d, e, f)
    ensures Rooted(Forked(s, d, e, f), 0) && TameLinks(Forked(s, d, e, f), 0)
  {
    ForkedTexts(s, d, e, f);
    assert NoUp([e]) && ([d] + [e])[1..] == [e];
  }

  /** One name further, through an entry that is no link. */
  lemma PhysDown(tree: Tree, root: Ino, dir: Ino, p: string, rest: seq<string>, budget: nat)
    requires Simple(p) && HasEntry(tree, dir, p) && !tree[Child(tree, dir, p)].Symlink?
    ensures Phys(tree, root, dir, [p] + rest, budget) == Phys(tree, root, Child(tree, dir, p), rest, budget)
  {
    assert ([p] + rest)[1..] == rest;
  }

  /** "s/../f", where s is a link to the directories d and then e, and f stands beside e. */
  lemma PhysThroughLink(tree: Tree, s: string, d: string, e: string, f: string)
    requires Simple(s) && Simple(d) && Simple(e) && Simple(f)
    requires HasEntry(tree, 0, s) && tree[Child(tree, 0, s)] == Symlink(d + "/" + e) && Relative(d + "/" + e)
    requires Split(d + "/" + e, '/') == [d] + [e]
    requires HasEntry(tree, 0, d) && Child(tree, 0, d) == 2 && HasEntry(tree, 2, e) && Child(tree, 2, e) == 3
    requires IsDir(tree, 2) && IsDir(tree, 3) && tree[3].parent == 2
    requires HasEntry(tree, 2, f) && Child(tree, 2, f) == 4 && !tree[4].Symlink?
    ensures Phys(tree, 0, 0, [s] + ([".."] + [f]), 7) == Some(4)
  {
    var up := [".."] + [f];
    assert ([s] + up)[1..] == up && [d] + [e] + up == [d] + ([e] + up);
    PhysDown(tree, 0, 0, d, [e] + up, 6);
    PhysDown(tree, 0, 2, e, up, 6);
    assert up[1..] == [f] && [f] + [] == [f];
    PhysDown(tree, 0, 2, f, [], 6);
  }

  lemma ForkedPhysically(s: string, d: string, e: string, f: string)
    requires ForkNames(s, d, e, f)
    ensures Phys(Forked(s, d, e, f), 0, 0, [s] + ([".."] + [f]), 7) == Some(4)
  {
    ForkedTexts(s, d, e, f);
    PhysThroughLink(Forked(s, d, e, f), s, d, e, f);
  }

  lemma UpCancels(s: string, f: string)
    requires Simple(s) && Simple(f)
    ensures FoldParts([], [s] + ([".."] + [f])) == Parsed([f])
  {
    var up := [".."] + [f];
    assert ([s] + up)[1..] == up && up[1..] == [f];
    assert [] + [s] == [s] && [s][..0] == [];
    assert FoldParts([], [s] + up) == FoldParts([s], up);
    assert FoldParts([s], up) == FoldParts([], [f]);
    FoldSimple([], [f]);
    assert [] + [f] == [f];
  }

  lemma ForkedLexically(s: string, d: string, e: string, f: string)
    requires ForkNames(s, d, e, f)
    ensures Components(s + "/" + (".." + "/" + f)) == Parsed([f])
  {
    ForkedTexts(s, d, e, f);
    UpCancels(s, f);
  }

  /** "s/../f" where s is a symlink: lexically the file beside s, physically the file beside the
      directory s points to. A ".." that cancels a symlink is what Tame excludes. */
  lemma DotDotAfterASymlink(w: World, t: nat, s: string, d: string, e: string, f: string)
    requires ForkNames(s, d, e, f) && AlwaysStill(w, Forked(s, d, e, f))
    ensures var tree, rel := Forked(s, d, e, f), s + "/" + (".." + "/" + f);
            && Rooted(tree, 0) && TameLinks(tree, 0) && !TameText(tree, 0, 0, rel)
            && ResolveOutcome(w, t, 0, rel, READ).0 == Ok(5)
            && Phys(tree, 0, 0, Split(rel, '/'), 7) == Some(4)
  {
    var tree, rel := Forked(s, d, e, f), s + "/" + (".." + "/" + f);
    ForkedShape(s, d, e, f);
    ForkedTexts(s, d, e, f);
    ForkedPhysically(s, d, e, f);
    ForkedLexically(s, d, e, f);
    assert !TameText(tree, 0, 0, rel) by {
      assert ([s] + ([".."] + [f]))[1..][0] == "..";
    }
    assert Descend(tree, 0, [f]) == Some(5) by { assert [f][1..] == []; }
    assert RewritesIn(tree, 0, [f], 0, [f]) && Within(tree, 0, [f], 8, [f]);
    OpenIsBoundedRewriting(w, tree, t, 0, rel, 5);
  }

  lemma PosixDown(tree: Tree, root: Ino, dir: Ino, p: string, rest: seq<string>, budget: nat)
    requires Simple(p) && HasEntry(tree, dir, p) && !tree[Child(tree, dir, p)].Symlink?
    ensures Posix(tree, root, dir, [p] + rest, budget) == Posix(tree, root, Child(tree, dir, p), rest, budget)
  {
    assert ([p] + rest)[1..] == rest;
  }

  /** A slash after a file: the jail opens the file, POSIX refuses. Without the slash both give the file. */
  lemma SlashAfterAFile(w: World, tree: Tree, t: nat, root: Ino, f: string)
    requires AlwaysStill(w, tree) && Simple(f) && HasEntry(tree, root, f) && tree[Child(tree, root, f)].File?
    ensures ResolveOutcome(w, t, root, f + "/", READ).0 == Ok(Child(tree, root, f))
    ensures PosixOf(tree, root, f + "/", 7) == None && LeansOnFile(tree, root, root, Split(f + "/", '/'), 7)
    ensures ResolveOutcome(w, t, root, f, READ).0 == Ok(Child(tree, root, f)) && PosixOf(tree, root, f, 7) == Some(Child(tree, root, f))
  {
    SplitWhole(f, '/');
    SplitConcat(f, "", '/');
    assert f + "/" + "" == f + "/" && Split("", '/') == [""];
    assert ([f] + [""])[1..] == [""] && [f][1..] == [] && [f] + [] == [f];
    PosixDown(tree, root, root, f, [""], 7);
    PosixDown(tree, root, root, f, [], 7);
    FoldSimple([], [f]);
    assert [] + [f] == [f] && FoldParts([f], [""]) == Parsed([f]);
    assert Descend(tree, root, [f]) == Some(Child(tree, root, f)) && RewritesIn(tree, root, [f], 0, [f]);
    assert Within(tree, root, [f], 8, [f]);
    OpenIsBoundedRewriting(w, tree, t, root, f + "/", Child(tree, root, f));
    OpenIsBoundedRewriting(w, tree, t, root, f, Child(tree, root, f));
  }

  /** A link s -> "/f": POSIX starts over at the root and finds f, the jail refuses. */
  lemma AbsoluteLink(w: World, tree: Tree, t: nat, root: Ino, s: string, f: string)
    requires AlwaysStill(w, tree) && Simple(s) && Simple(f)
    requires HasEntry(tree, root, s) && tree[Child(tree, root, s)] == Symlink("/" + f)
    requires HasEntry(tree, root, f) && tree[Child(tree, root, f)].File?
    ensures ResolveOutcome(w, t, root, s, READ).0 == Err(Path(Escape)) && LeavesRoot(tree, root, root, Split(s, '/'), 7)
    ensures PosixOf(tree, root, s, 7) == Some(Child(tree, root, f))
  {
    SplitWhole(s, '/');
    SplitWhole(f, '/');
    SplitConcat("", f, '/');
    assert "" + "/" + f == "/" + f && Split("", '/') == [""];
    FoldSimple([], [s]);
    assert [] + [s] == [s] && [s][..0] == [] && [s][1..] == [];
    assert StuckWith(tree, root, [s], 0, Path(Escape));
    StuckBlocks(tree, root, [s], 0, READ, Path(Escape));
    assert RewritesIn(tree, root, [s], 0, [s]) && Within(tree, root, [s], 8, [s]);
    ResolveIsBoundedRewriting(w, tree, t, root, s, READ, root, Path(Escape));
    var text := [""] + [f];
    assert text + [] == text && text[1..] == [f] && [f] + [] == [f];
    assert Posix(tree, root, root, [s], 7) == Posix(tree, root, root, text, 6) == Posix(tree, root, root, [f], 6);
    PosixDown(tree, root, root, f, [], 6);
  }

  /** ".." at the root: POSIX stays there, the jail refuses. The null pathname: the other way round. */
  lemma RootAndNull(w: World, tree: Tree, t: nat, root: Ino)
    requires AlwaysStill(w, tree) && IsDir(tree, root)
    ensures ResolveOutcome(w, t, root, "..", READ).0 == Err(Path(Escape)) && PosixOf(tree, root, "..", 7) == Some(root)
    ensures ResolveOutcome(w, t, root, "", READ).0 == Ok(root) && PosixOf(tree, root, "", 7) == None
  {
    SplitWhole("..", '/');
    assert FoldParts([], [".."]) == Refused(Escape);
    assert Split("", '/') == [""] && FoldParts([], [""]) == Parsed([]);
    assert [".."][1..] == [];
    assert RewritesIn(tree, root, [], 0, []) && Within(tree, root, [], 8, []);
    OpenIsBoundedRewriting(w, tree, t, root, "", root);
  }
}
