// On a tree that stands still, what a read-only resolve returns: first in terms of rewriting the
// first symlink of a path, then against a resolver that moves through the tree physically.
module Resolver {
  import opened Text
  import opened Paths
  import opened Wrappers
  import opened Tree
  import opened Jail

  /** The node at the end of a symlink-free path. */
  function Descend(tree: Tree, dir: Ino, parts: seq<string>): Option<Ino>
    decreases |parts|
  {
    if parts == [] then Some(dir)
    else if !HasEntry(tree, dir, parts[0]) then None
    else
      var c := Child(tree, dir, parts[0]);
      if tree[c].Symlink? then None else Descend(tree, c, parts[1..])
  }

  /** Component i is the first symlink of the path, with this text. */
  predicate LinkAt(tree: Tree, root: Ino, parts: seq<string>, i: nat, text: string) {
    && i < |parts|
    && Descend(tree, root, parts[..i]).Some?
    && var d := Descend(tree, root, parts[..i]).value;
      HasEntry(tree, d, parts[i]) && tree[Child(tree, d, parts[i])] == Symlink(text)
  }

  predicate Relative(text: string) {
    !(|text| > 0 && text[0] == '/')
  }

  /** q is p with its first symlink component replaced by the relative text of that link. */
  ghost predicate Rewrite(tree: Tree, root: Ino, p: seq<string>, q: seq<string>) {
    exists i: nat, text :: RewriteAt(tree, root, p, i, text, q)
  }

  predicate RewriteAt(tree: Tree, root: Ino, p: seq<string>, i: nat, text: string, q: seq<string>) {
    && LinkAt(tree, root, p, i, text)
    && Relative(text)
    && JoinComponents(p[..i], text).Parsed?
    && q == JoinComponents(p[..i], text).parts + p[i + 1..]
  }

  ghost predicate RewritesIn(tree: Tree, root: Ino, p: seq<string>, n: nat, q: seq<string>)
    decreases n
  {
    if n == 0 then p == q
    else exists m :: Rewrite(tree, root, p, m) && RewritesIn(tree, root, m, n - 1, q)
  }

  /** Component i neither can be entered nor is a link that can be rewritten. */
  predicate Stuck(tree: Tree, root: Ino, parts: seq<string>, i: nat) {
    && i < |parts|
    && Descend(tree, root, parts[..i]).Some?
    && var d := Descend(tree, root, parts[..i]).value;
      HasEntry(tree, d, parts[i]) ==>
        match tree[Child(tree, d, parts[i])]
        case Symlink(text) => Relative(text) ==> JoinComponents(parts[..i], text).Refused?
        case _ => false
  }

  lemma {:induction false} DescendConcat(tree: Tree, dir: Ino, a: seq<string>, b: seq<string>)
    ensures Descend(tree, dir, a + b) ==
            match Descend(tree, dir, a) case None => None case Some(d) => Descend(tree, d, b)
    decreases |a|
  {
    if a == [] {
      assert a + b == b;
    } else {
      assert (a + b)[0] == a[0] && (a + b)[1..] == a[1..] + b;
      if HasEntry(tree, dir, a[0]) {
        DescendConcat(tree, Child(tree, dir, a[0]), a[1..], b);
      }
    }
  }

  /** A prefix up to and including a component that cannot be entered leads nowhere. */
  lemma DescendBlocked(tree: Tree, root: Ino, parts: seq<string>, i: nat, k: nat)
    requires i < k <= |parts|
    requires Descend(tree, root, parts[..i]).Some?
    requires var d := Descend(tree, root, parts[..i]).value;
             HasEntry(tree, d, parts[i]) ==> tree[Child(tree, d, parts[i])].Symlink?
    ensures Descend(tree, root, parts[..k]) == None
  {
    assert parts[..k] == parts[..i] + parts[i..k];
    DescendConcat(tree, root, parts[..i], parts[i..k]);
    assert parts[i..k][0] == parts[i];
  }

  lemma OneFirstLink(tree: Tree, root: Ino, parts: seq<string>, i: nat, k: nat, text: string, other: string)
    requires LinkAt(tree, root, parts, i, text) && LinkAt(tree, root, parts, k, other)
    ensures i == k && text == other
  {
    if i < k { DescendBlocked(tree, root, parts, i, k); }
    if k < i { DescendBlocked(tree, root, parts, k, i); }
  }

  // ---- one walk --------------------------------------------------------------

  /** openat with these flags accepts what it finds. */
  predicate Fitting(tree: Tree, x: Ino, fl: Flags) {
    (fl.directory ==> IsDir(tree, x)) && (fl.creat ==> !IsDir(tree, x))
  }

  /** Everything but the last name of the path is there, and the last is free. */
  predicate Creatable(tree: Tree, root: Ino, parts: seq<string>) {
    && |parts| > 0
    && DirAtEnd(tree, root, parts[..|parts| - 1])
    && parts[|parts| - 1] !in tree[Descend(tree, root, parts[..|parts| - 1]).value].entries
  }

  predicate DirAtEnd(tree: Tree, root: Ino, parts: seq<string>) {
    Descend(tree, root, parts).Some? && IsDir(tree, Descend(tree, root, parts).value)
  }

  /** The path leads, without symlinks, to x, of the right kind; or x is made there as `made`. */
  predicate Lands(tree: Tree, root: Ino, parts: seq<string>, fl: Flags, x: Ino, made: Ino) {
    if parts == [] then !fl.creat && x == root
    else
      || (Descend(tree, root, parts) == Some(x) && Fitting(tree, x, fl))
      || (fl.creat && Creatable(tree, root, parts) && x == made)
  }

  /** The error for a component that is stuck. */
  function StuckError(tree: Tree, root: Ino, parts: seq<string>, i: nat): JailError
    requires Stuck(tree, root, parts, i)
  {
    var d := Descend(tree, root, parts[..i]).value;
    if !IsDir(tree, d) then Sys(ENOTDIR)
    else if !HasEntry(tree, d, parts[i]) then Sys(ENOENT)
    else
      match tree[Child(tree, d, parts[i])]
      case Symlink(text) =>
        if Relative(text) then Path(JoinComponents(parts[..i], text).err) else Path(Escape)
  }

  /** The path can neither be opened nor rewritten, and this is why. */
  ghost predicate Blocked(tree: Tree, root: Ino, parts: seq<string>, fl: Flags, e: JailError) {
    if parts == [] then fl.creat && e == Path(Invalid)
    else if Descend(tree, root, parts).Some? then
      var x := Descend(tree, root, parts).value;
      !Fitting(tree, x, fl) && e == Sys(if IsDir(tree, x) then EISDIR else ENOTDIR)
    else
      !(fl.creat && Creatable(tree, root, parts)) && exists i: nat :: StuckWith(tree, root, parts, i, e)
  }

  predicate StuckWith(tree: Tree, root: Ino, parts: seq<string>, i: nat, e: JailError) {
    Stuck(tree, root, parts, i) && e == StuckError(tree, root, parts, i)
  }

  /** What a walk on a still tree reports, in terms of the tree alone. */
  ghost predicate WalkMeans(tree: Tree, root: Ino, parts: seq<string>, fl: Flags, made: Ino, step: Step) {
    match step
    case Opened(x) => Lands(tree, root, parts, fl, x, made)
    case Rewritten(q) => Rewrite(tree, root, parts, q)
    case Failed(e) => Blocked(tree, root, parts, fl, e)
  }

  lemma StuckBlocks(tree: Tree, root: Ino, parts: seq<string>, i: nat, fl: Flags, e: JailError)
    requires StuckWith(tree, root, parts, i, e) && !(fl.creat && Creatable(tree, root, parts))
    ensures Blocked(tree, root, parts, fl, e)
  {
    DescendBlocked(tree, root, parts, i, |parts|);
    assert parts[..|parts|] == parts;
  }

  /** A component that leads somewhere or is a symlink is not to be made. */
  lemma NotCreatable(tree: Tree, root: Ino, parts: seq<string>, i: nat, d: Ino)
    requires i < |parts| && Descend(tree, root, parts[..i]) == Some(d)
    requires !IsDir(tree, d) || parts[i] in tree[d].entries || i + 1 < |parts|
    requires HasEntry(tree, d, parts[i]) ==> tree[Child(tree, d, parts[i])].Symlink?
    ensures !Creatable(tree, root, parts)
  {
    if i + 1 < |parts| { DescendBlocked(tree, root, parts, i, |parts| - 1); }
  }

  /** After openat failed at a component that is missing or a symlink. */
  lemma LinkStepMeans(w: World, tree: Tree, t: nat, root: Ino, dir: Ino, parts: seq<string>, i: nat, fl: Flags, made: Ino)
    requires AlwaysStill(w, tree) && AllSimple(parts) && i < |parts|
    requires Descend(tree, root, parts[..i]) == Some(dir)
    requires OpenAt(w, t, dir, parts[i], FlagsFor(parts, i, fl)).Fail?
    requires HasEntry(tree, dir, parts[i]) ==> tree[Child(tree, dir, parts[i])].Symlink?
    ensures var errno := OpenAt(w, t, dir, parts[i], FlagsFor(parts, i, fl)).errno;
            WalkMeans(tree, root, parts, fl, made, LinkStep(w, t + 1, dir, parts, i, errno).0)
  {
    assert Simple(parts[i]);
    assert Still(w, tree, t) && Still(w, tree, t + 1) && Still(w, tree, t + 2);
    var errno := OpenAt(w, t, dir, parts[i], FlagsFor(parts, i, fl)).errno;
    var step := LinkStep(w, t + 1, dir, parts, i, errno).0;
    if HasEntry(tree, dir, parts[i]) {
      var text := tree[Child(tree, dir, parts[i])].text;
      assert LinkAt(tree, root, parts, i, text);
      NotCreatable(tree, root, parts, i, dir);
      if step.Rewritten? {
        assert RewriteAt(tree, root, parts, i, text, step.parts);
      } else {
        assert StuckWith(tree, root, parts, i, step.error);
        StuckBlocks(tree, root, parts, i, fl, step.error);
      }
    } else {
      assert StuckWith(tree, root, parts, i, step.error);
      if !(fl.creat && i + 1 == |parts|) || !IsDir(tree, dir) || parts[i] in tree[dir].entries {
        if fl.creat { NotCreatable(tree, root, parts, i, dir); }
        StuckBlocks(tree, root, parts, i, fl, step.error);
      }
    }
  }

  lemma DescendNext(tree: Tree, root: Ino, dir: Ino, parts: seq<string>, i: nat)
    requires i < |parts| && Descend(tree, root, parts[..i]) == Some(dir)
    requires HasEntry(tree, dir, parts[i]) && !tree[Child(tree, dir, parts[i])].Symlink?
    ensures Descend(tree, root, parts[..i + 1]) == Some(Child(tree, dir, parts[i]))
  {
    assert parts[..i + 1] == parts[..i] + [parts[i]];
    DescendConcat(tree, root, parts[..i], [parts[i]]);
    assert [parts[i]][0] == parts[i] && [parts[i]][1..] == [];
  }

  /** The last component. */
  lemma WalkLastMeans(w: World, tree: Tree, t: nat, root: Ino, dir: Ino, parts: seq<string>, fl: Flags)
    requires AlwaysStill(w, tree) && AllSimple(parts) && |parts| > 0
    requires Descend(tree, root, parts[..|parts| - 1]) == Some(dir)
    ensures var r := WalkFrom(w, t, dir, parts, |parts| - 1, fl);
            WalkMeans(tree, root, parts, fl, w.newIno(r.1 - 1), r.0)
  {
    var i := |parts| - 1;
    assert Still(w, tree, t) && Still(w, tree, t + 1) && Simple(parts[i]);
    assert parts[..i + 1] == parts;
    if HasEntry(tree, dir, parts[i]) && !tree[Child(tree, dir, parts[i])].Symlink? {
      DescendNext(tree, root, dir, parts, i);
    } else if OpenAt(w, t, dir, parts[i], fl).Fail? {
      LinkStepMeans(w, tree, t, root, dir, parts, i, fl, w.newIno(WalkFrom(w, t, dir, parts, i, fl).1 - 1));
    }
  }

  /** A file where the path goes on: openat says ENOTDIR, and the next component is stuck. */
  lemma NotADirectory(w: World, tree: Tree, t: nat, root: Ino, dir: Ino, parts: seq<string>, i: nat, fl: Flags)
    requires AlwaysStill(w, tree) && AllSimple(parts) && i + 1 < |parts|
    requires Descend(tree, root, parts[..i]) == Some(dir)
    requires HasEntry(tree, dir, parts[i]) && tree[Child(tree, dir, parts[i])].File?
    ensures var step := WalkFrom(w, t, dir, parts, i, fl).0;
            step.Failed? && Blocked(tree, root, parts, fl, step.error)
  {
    assert Still(w, tree, t) && Still(w, tree, t + 1) && Simple(parts[i]);
    DescendNext(tree, root, dir, parts, i);
    assert StuckWith(tree, root, parts, i + 1, Sys(ENOTDIR));
    NotCreatable(tree, root, parts, i + 1, Child(tree, dir, parts[i]));
    StuckBlocks(tree, root, parts, i + 1, fl, Sys(ENOTDIR));
  }

  /** A component that is missing or a symlink ends the walk. */
  lemma WalkEnds(w: World, tree: Tree, t: nat, root: Ino, dir: Ino, parts: seq<string>, i: nat, fl: Flags)
    requires AlwaysStill(w, tree) && AllSimple(parts) && i + 1 < |parts|
    requires Descend(tree, root, parts[..i]) == Some(dir)
    requires HasEntry(tree, dir, parts[i]) ==> tree[Child(tree, dir, parts[i])].Symlink?
    ensures var r := WalkFrom(w, t, dir, parts, i, fl);
            WalkMeans(tree, root, parts, fl, w.newIno(r.1 - 1), r.0)
  {
    assert Still(w, tree, t) && Simple(parts[i]);
    var r := WalkFrom(w, t, dir, parts, i, fl);
    LinkStepMeans(w, tree, t, root, dir, parts, i, fl, w.newIno(r.1 - 1));
  }

  lemma {:induction false} WalkFromMeans(w: World, tree: Tree, t: nat, root: Ino, dir: Ino, parts: seq<string>, i: nat, fl: Flags)
    requires AlwaysStill(w, tree) && AllSimple(parts) && i < |parts|
    requires Descend(tree, root, parts[..i]) == Some(dir)
    ensures var r := WalkFrom(w, t, dir, parts, i, fl);
            WalkMeans(tree, root, parts, fl, w.newIno(r.1 - 1), r.0)
    decreases |parts| - i
  {
    if i + 1 == |parts| {
      WalkLastMeans(w, tree, t, root, dir, parts, fl);
    } else if !HasEntry(tree, dir, parts[i]) || tree[Child(tree, dir, parts[i])].Symlink? {
      WalkEnds(w, tree, t, root, dir, parts, i, fl);
    } else if tree[Child(tree, dir, parts[i])].File? {
      NotADirectory(w, tree, t, root, dir, parts, i, fl);
    } else {
      DescendNext(tree, root, dir, parts, i);
      WalkFromMeans(w, tree, t + 1, root, Child(tree, dir, parts[i]), parts, i + 1, fl);
      WalkEnters(w, tree, t, dir, parts, i, fl);
    }
  }

  lemma WalkEnters(w: World, tree: Tree, t: nat, dir: Ino, parts: seq<string>, i: nat, fl: Flags)
    requires AlwaysStill(w, tree) && AllSimple(parts) && i + 1 < |parts|
    requires HasEntry(tree, dir, parts[i]) && IsDir(tree, Child(tree, dir, parts[i]))
    ensures WalkFrom(w, t, dir, parts, i, fl) == WalkFrom(w, t + 1, Child(tree, dir, parts[i]), parts, i + 1, fl)
  {
    assert Still(w, tree, t) && Simple(parts[i]);
  }

  lemma WalkMeansRun(w: World, tree: Tree, t: nat, root: Ino, parts: seq<string>, fl: Flags)
    requires AlwaysStill(w, tree) && AllSimple(parts)
    ensures var r := WalkRun(w, t, root, parts, fl);
            WalkMeans(tree, root, parts, fl, w.newIno(r.1 - 1), r.0)
  {
    assert Still(w, tree, t);
    assert parts[..0] == [];
    if parts != [] { WalkFromMeans(w, tree, t + 1, root, root, parts, 0, fl); }
  }

  // ---- the three answers exclude each other --------------------------------------

  lemma RewriteIsAFunction(tree: Tree, root: Ino, parts: seq<string>, q: seq<string>)
    requires Rewrite(tree, root, parts, q)
    ensures Descend(tree, root, parts) == None && !Creatable(tree, root, parts)
    ensures forall i :: !Stuck(tree, root, parts, i)
    ensures forall r :: Rewrite(tree, root, parts, r) ==> r == q
  {
    var i: nat, text :| RewriteAt(tree, root, parts, i, text, q);
    DescendBlocked(tree, root, parts, i, |parts|);
    assert parts[..|parts|] == parts;
    NotCreatable(tree, root, parts, i, Descend(tree, root, parts[..i]).value);
    forall k: nat | Stuck(tree, root, parts, k) ensures false {
      if k < i { DescendBlocked(tree, root, parts, k, i); }
      if i < k { DescendBlocked(tree, root, parts, i, k); }
    }
    forall r | Rewrite(tree, root, parts, r) ensures r == q {
      var k: nat, other :| RewriteAt(tree, root, parts, k, other, r);
      OneFirstLink(tree, root, parts, i, k, text, other);
    }
  }

  lemma StuckOnce(tree: Tree, root: Ino, parts: seq<string>, i: nat, k: nat)
    requires Stuck(tree, root, parts, i) && Stuck(tree, root, parts, k)
    ensures i == k
  {
    if k < i { DescendBlocked(tree, root, parts, k, i); }
    if i < k { DescendBlocked(tree, root, parts, i, k); }
  }

  /** A path lands nowhere, at one node, or is blocked for one reason, and then is not rewritten. */
  lemma OneAnswer(tree: Tree, root: Ino, parts: seq<string>, fl: Flags, made: Ino, step: Step)
    requires WalkMeans(tree, root, parts, fl, made, step)
    ensures forall x :: Lands(tree, root, parts, fl, x, made) <==> step == Opened(x)
    ensures forall q :: Rewrite(tree, root, parts, q) <==> step == Rewritten(q)
    ensures forall e :: Blocked(tree, root, parts, fl, e) <==> step == Failed(e)
  {
    if q :| Rewrite(tree, root, parts, q) { RewriteIsAFunction(tree, root, parts, q); }
    if Creatable(tree, root, parts) { CreatableIsFree(tree, root, parts); }
    forall e, f | Blocked(tree, root, parts, fl, e) && Blocked(tree, root, parts, fl, f) ensures e == f {
      if parts != [] && Descend(tree, root, parts) == None {
        var i: nat :| StuckWith(tree, root, parts, i, e);
        var k: nat :| StuckWith(tree, root, parts, k, f);
        StuckOnce(tree, root, parts, i, k);
      }
    }
  }

  lemma CreatableIsFree(tree: Tree, root: Ino, parts: seq<string>)
    requires Creatable(tree, root, parts)
    ensures Descend(tree, root, parts) == None
  {
    DescendBlocked(tree, root, parts, |parts| - 1, |parts|);
    assert parts[..|parts|] == parts;
  }

  lemma RewriteSimple(tree: Tree, root: Ino, parts: seq<string>, q: seq<string>)
    requires AllSimple(parts) && Rewrite(tree, root, parts, q)
    ensures AllSimple(q)
  {
    var i: nat, text :| RewriteAt(tree, root, parts, i, text, q);
    ComponentsAreSimple(text);
    ComponentsAreSimple(Join(parts[..i], '/') + "/" + text);
  }

  // ---- resolve as bounded rewriting -------------------------------------------

  /** q is reached from p in fewer than n rewrites. */
  ghost predicate Within(tree: Tree, root: Ino, p: seq<string>, n: nat, q: seq<string>) {
    exists k: nat :: k < n && RewritesIn(tree, root, p, k, q)
  }

  lemma WithinUnfold(tree: Tree, root: Ino, p: seq<string>, n: nat, q: seq<string>)
    requires n > 0
    ensures Within(tree, root, p, n, q) <==>
            p == q || exists m :: Rewrite(tree, root, p, m) && Within(tree, root, m, n - 1, q)
  {
    if p == q { assert RewritesIn(tree, root, p, 0, p); }
    if m :| Rewrite(tree, root, p, m) && Within(tree, root, m, n - 1, q) {
      var k: nat :| k < n - 1 && RewritesIn(tree, root, m, k, q);
      assert RewritesIn(tree, root, p, k + 1, q);
    }
    if Within(tree, root, p, n, q) && p != q {
      var k: nat :| k < n && RewritesIn(tree, root, p, k, q);
      var m :| Rewrite(tree, root, p, m) && RewritesIn(tree, root, m, k - 1, q);
      assert Within(tree, root, m, n - 1, q);
    }
  }

  /** Fewer than n rewrites give a path that opens x. */
  ghost predicate Reaches(tree: Tree, root: Ino, p: seq<string>, n: nat, fl: Flags, x: Ino, made: Ino) {
    exists q :: Within(tree, root, p, n, q) && Lands(tree, root, q, fl, x, made)
  }

  /** Fewer than n rewrites give a path that is blocked because of e, or n rewrites are not enough. */
  ghost predicate Fails(tree: Tree, root: Ino, p: seq<string>, n: nat, fl: Flags, e: JailError) {
    || (exists q :: Within(tree, root, p, n, q) && Blocked(tree, root, q, fl, e))
    || (e == Path(Escape) && Exhausts(tree, root, p, n))
  }

  ghost predicate Exhausts(tree: Tree, root: Ino, p: seq<string>, n: nat) {
    exists q :: RewritesIn(tree, root, p, n, q)
  }

  lemma ExhaustsUnfold(tree: Tree, root: Ino, p: seq<string>, n: nat)
    requires n > 0
    ensures Exhausts(tree, root, p, n) <==> exists m :: Rewrite(tree, root, p, m) && Exhausts(tree, root, m, n - 1)
  {
    if m :| Rewrite(tree, root, p, m) && Exhausts(tree, root, m, n - 1) {
      var q :| RewritesIn(tree, root, m, n - 1, q);
      assert RewritesIn(tree, root, p, n, q);
    }
    if Exhausts(tree, root, p, n) {
      var q :| RewritesIn(tree, root, p, n, q);
      var m :| Rewrite(tree, root, p, m) && RewritesIn(tree, root, m, n - 1, q);
      assert Exhausts(tree, root, m, n - 1);
    }
  }

  /** What the first walk settles about success. */
  lemma WalkDecides(tree: Tree, root: Ino, p: seq<string>, n: nat, fl: Flags, x: Ino, made: Ino, step: Step)
    requires n > 0 && forall y :: Lands(tree, root, p, fl, y, made) <==> step == Opened(y)
    requires forall q :: Rewrite(tree, root, p, q) <==> step == Rewritten(q)
    ensures Reaches(tree, root, p, n, fl, x, made) <==>
            step == Opened(x) || (step.Rewritten? && Reaches(tree, root, step.parts, n - 1, fl, x, made))
  {
    forall q ensures Within(tree, root, p, n, q) <==>
                     p == q || (step.Rewritten? && Within(tree, root, step.parts, n - 1, q))
    {
      WithinUnfold(tree, root, p, n, q);
    }
  }

  /** And about failure. */
  lemma WalkDecidesFailure(tree: Tree, root: Ino, p: seq<string>, n: nat, fl: Flags, e: JailError, step: Step)
    requires n > 0 && forall f :: Blocked(tree, root, p, fl, f) <==> step == Failed(f)
    requires forall q :: Rewrite(tree, root, p, q) <==> step == Rewritten(q)
    ensures Fails(tree, root, p, n, fl, e) <==>
            step == Failed(e) || (step.Rewritten? && Fails(tree, root, step.parts, n - 1, fl, e))
  {
    forall q ensures Within(tree, root, p, n, q) <==>
                     p == q || (step.Rewritten? && Within(tree, root, step.parts, n - 1, q))
    {
      WithinUnfold(tree, root, p, n, q);
    }
    ExhaustsUnfold(tree, root, p, n);
    assert Within(tree, root, p, n, p);
  }

  /** The outcome is x exactly if x is reached. */
  ghost predicate OkMeans(tree: Tree, root: Ino, parts: seq<string>, n: nat, fl: Flags, x: Ino, made: Ino, out: Outcome<Ino>) {
    out == Ok(x) <==> Reaches(tree, root, parts, n, fl, x, made)
  }

  /** The outcome is the error e exactly if that is how it fails. */
  ghost predicate ErrMeans(tree: Tree, root: Ino, parts: seq<string>, n: nat, fl: Flags, e: JailError, out: Outcome<Ino>) {
    out == Err(e) <==> Fails(tree, root, parts, n, fl, e)
  }

  /** The first walk of a run: it opens, rewrites or fails as the path does. */
  ghost predicate Answers(tree: Tree, root: Ino, p: seq<string>, fl: Flags, made: Ino, step: Step) {
    && (forall x :: Lands(tree, root, p, fl, x, made) <==> step == Opened(x))
    && (forall q :: Rewrite(tree, root, p, q) <==> step == Rewritten(q))
    && (forall e :: Blocked(tree, root, p, fl, e) <==> step == Failed(e))
  }

  lemma WalkAnswers(w: World, tree: Tree, t: nat, root: Ino, parts: seq<string>, fl: Flags, made: Ino)
    requires AlwaysStill(w, tree) && AllSimple(parts)
    requires var r := WalkRun(w, t, root, parts, fl); r.0.Opened? ==> made == w.newIno(r.1 - 1)
    ensures Answers(tree, root, parts, fl, made, WalkRun(w, t, root, parts, fl).0)
  {
    WalkMeansRun(w, tree, t, root, parts, fl);
    OneAnswer(tree, root, parts, fl, made, WalkRun(w, t, root, parts, fl).0);
  }

  lemma TurnReaches(w: World, tree: Tree, t: nat, root: Ino, parts: seq<string>, n: nat, fl: Flags, x: Ino, made: Ino, step: Step, t1: nat)
    requires n > 0 && WalkRun(w, t, root, parts, fl) == (step, t1) && Answers(tree, root, parts, fl, made, step)
    requires step.Rewritten? ==>
               OkMeans(tree, root, step.parts, n - 1, fl, x, made, ResolveRun(w, t1, root, step.parts, n - 1, fl).0)
    ensures OkMeans(tree, root, parts, n, fl, x, made, ResolveRun(w, t, root, parts, n, fl).0)
  {
    ResolveTurn(w, t, root, parts, n, fl, step, t1);
    WalkDecides(tree, root, parts, n, fl, x, made, step);
  }

  /** What a run of walks returns on a still tree, for any flags; made is the inode its last call would make. */
  lemma {:induction false} RunReaches(w: World, tree: Tree, t: nat, root: Ino, parts: seq<string>, n: nat, fl: Flags, x: Ino, made: Ino)
    requires AlwaysStill(w, tree) && AllSimple(parts)
    requires var r := ResolveRun(w, t, root, parts, n, fl); r.0.Ok? ==> made == w.newIno(r.1 - 1)
    ensures OkMeans(tree, root, parts, n, fl, x, made, ResolveRun(w, t, root, parts, n, fl).0)
    decreases n
  {
    if n > 0 {
      var (step, t1) := WalkRun(w, t, root, parts, fl);
      WalkAnswers(w, tree, t, root, parts, fl, made);
      if step.Rewritten? {
        assert Rewrite(tree, root, parts, step.parts);
        RewriteSimple(tree, root, parts, step.parts);
        RunReaches(w, tree, t1, root, step.parts, n - 1, fl, x, made);
      }
      TurnReaches(w, tree, t, root, parts, n, fl, x, made, step, t1);
    }
  }

  lemma TurnFails(w: World, tree: Tree, t: nat, root: Ino, parts: seq<string>, n: nat, fl: Flags, e: JailError, made: Ino, step: Step, t1: nat)
    requires n > 0 && WalkRun(w, t, root, parts, fl) == (step, t1) && Answers(tree, root, parts, fl, made, step)
    requires step.Rewritten? ==>
               ErrMeans(tree, root, step.parts, n - 1, fl, e, ResolveRun(w, t1, root, step.parts, n - 1, fl).0)
    ensures ErrMeans(tree, root, parts, n, fl, e, ResolveRun(w, t, root, parts, n, fl).0)
  {
    ResolveTurn(w, t, root, parts, n, fl, step, t1);
    WalkDecidesFailure(tree, root, parts, n, fl, e, step);
  }

  lemma {:induction false} RunFails(w: World, tree: Tree, t: nat, root: Ino, parts: seq<string>, n: nat, fl: Flags, e: JailError)
    requires AlwaysStill(w, tree) && AllSimple(parts)
    ensures ErrMeans(tree, root, parts, n, fl, e, ResolveRun(w, t, root, parts, n, fl).0)
    decreases n
  {
    if n == 0 {
      assert RewritesIn(tree, root, parts, 0, parts);
    } else {
      var (step, t1) := WalkRun(w, t, root, parts, fl);
      var made := w.newIno(t1 - 1);
      WalkAnswers(w, tree, t, root, parts, fl, made);
      if step.Rewritten? {
        assert Rewrite(tree, root, parts, step.parts);
        RewriteSimple(tree, root, parts, step.parts);
        RunFails(w, tree, t1, root, step.parts, n - 1, fl, e);
      }
      TurnFails(w, tree, t, root, parts, n, fl, e, made, step, t1);
    }
  }

  /** On a still tree resolve returns x exactly when at most seven replacements of the first symlink by
      its text turn the normalised path into a symlink-free path to x, of a kind the flags allow (or, with
      O_CREAT, into a free name below a directory, and x is made there by the last call); and it returns
      an error exactly when the path is refused, such a path is blocked for that reason, or seven
      replacements are not enough. */
  lemma ResolveIsBoundedRewriting(w: World, tree: Tree, t: nat, root: Ino, rel: string, fl: Flags, x: Ino, e: JailError)
    requires AlwaysStill(w, tree)
    ensures var r := ResolveOutcome(w, t, root, rel, fl);
            match Components(rel)
            case Refused(err) => r.0 == Err(Path(err))
            case Parsed(parts) =>
              OkMeans(tree, root, parts, 8, fl, x, w.newIno(r.1 - 1), r.0) && ErrMeans(tree, root, parts, 8, fl, e, r.0)
  {
    if Components(rel).Parsed? {
      ComponentsAreSimple(rel);
      Walks(w, tree, t, root, Components(rel).parts, 8, fl, x, e);
    }
  }

  lemma Walks(w: World, tree: Tree, t: nat, root: Ino, parts: seq<string>, n: nat, fl: Flags, x: Ino, e: JailError)
    requires AlwaysStill(w, tree) && AllSimple(parts) && n > 0
    ensures var r := ResolveRun(w, t, root, parts, n, fl);
            OkMeans(tree, root, parts, n, fl, x, w.newIno(r.1 - 1), r.0) && ErrMeans(tree, root, parts, n, fl, e, r.0)
  {
    RunReaches(w, tree, t, root, parts, n, fl, x, w.newIno(ResolveRun(w, t, root, parts, n, fl).1 - 1));
    RunFails(w, tree, t, root, parts, n, fl, e);
  }

  /** Fewer than n rewrites give a symlink-free path to x. */
  ghost predicate LeadsTo(tree: Tree, root: Ino, p: seq<string>, n: nat, x: Ino) {
    exists q :: Within(tree, root, p, n, q) && Descend(tree, root, q) == Some(x)
  }

  /** Reading follows every such path; asking for a directory, those to a directory. */
  lemma ReachesIsLeadsTo(tree: Tree, root: Ino, p: seq<string>, n: nat, fl: Flags, x: Ino, made: Ino)
    requires !fl.creat && (fl.directory ==> IsDir(tree, root))
    ensures Reaches(tree, root, p, n, fl, x, made) <==> LeadsTo(tree, root, p, n, x) && (fl.directory ==> IsDir(tree, x))
  {
    if LeadsTo(tree, root, p, n, x) && (fl.directory ==> IsDir(tree, x)) {
      var q :| Within(tree, root, p, n, q) && Descend(tree, root, q) == Some(x);
      assert Lands(tree, root, q, fl, x, made);
    }
    if Reaches(tree, root, p, n, fl, x, made) {
      var q :| Within(tree, root, p, n, q) && Lands(tree, root, q, fl, x, made);
      assert Descend(tree, root, q) == Some(x);
    }
  }

  /** Open: what at most seven replacements lead to. */
  lemma OpenIsBoundedRewriting(w: World, tree: Tree, t: nat, root: Ino, rel: string, x: Ino)
    requires AlwaysStill(w, tree)
    ensures ResolveOutcome(w, t, root, rel, READ).0 == Ok(x) <==>
            Components(rel).Parsed? && LeadsTo(tree, root, Components(rel).parts, 8, x)
  {
    ResolveIsBoundedRewriting(w, tree, t, root, rel, READ, x, Path(Escape));
    var r := ResolveOutcome(w, t, root, rel, READ);
    if Components(rel).Parsed? {
      ReachesIsLeadsTo(tree, root, Components(rel).parts, 8, READ, x, w.newIno(r.1 - 1));
    }
  }

  /** parentOf: the parent is what at most seven replacements in the path without its last name lead to,
      if that is a directory; the name is the last one, which is never followed. */
  lemma ParentIsBoundedRewriting(w: World, tree: Tree, t: nat, root: Ino, rel: string, d: Ino, name: string)
    requires AlwaysStill(w, tree) && IsDir(tree, root)
    ensures ParentOutcome(w, t, root, rel).0 == Ok((d, name)) <==>
            Components(rel).Parsed? &&
            var parts := Components(rel).parts;
            && parts != [] && name == parts[|parts| - 1]
            && LeadsTo(tree, root, parts[..|parts| - 1], 8, d) && IsDir(tree, d)
  {
    if Components(rel).Parsed? && Components(rel).parts != [] {
      ComponentsAreSimple(rel);
      var parts := Components(rel).parts;
      var up := parts[..|parts| - 1];
      var made := w.newIno(ResolveRun(w, t, root, up, MAX_SYMLINKS, READDIR).1 - 1);
      RunReaches(w, tree, t, root, up, MAX_SYMLINKS, READDIR, d, made);
      ReachesIsLeadsTo(tree, root, up, 8, READDIR, d, made);
    }
  }

  /** parentOf's errors: those of the path, the root itself, and those of the way to the parent. */
  lemma ParentFails(w: World, tree: Tree, t: nat, root: Ino, rel: string, e: JailError)
    requires AlwaysStill(w, tree)
    ensures ParentOutcome(w, t, root, rel).0 == Err(e) <==>
            match Components(rel)
            case Refused(err) => e == Path(err)
            case Parsed(parts) =>
              if parts == [] then e == Path(Invalid) else Fails(tree, root, parts[..|parts| - 1], 8, READDIR, e)
  {
    if Components(rel).Parsed? && Components(rel).parts != [] {
      ComponentsAreSimple(rel);
      var parts := Components(rel).parts;
      var up := parts[..|parts| - 1];
      RunFails(w, tree, t, root, up, MAX_SYMLINKS, READDIR, e);
    }
  }
}
