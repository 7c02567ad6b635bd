// internal/jail/jail.go: walk, resolve and parentOf, run against a tree that may change before
// every system call.
module Jail {
  import opened Text
  import opened Paths
  import opened Tree

  const MAX_SYMLINKS: nat := 8

  datatype JailError = Path(err: PathError) | Sys(errno: Errno)
  datatype Outcome<+T> = Ok(value: T) | Err(error: JailError)
  datatype Step = Opened(fd: Ino) | Rewritten(parts: seq<string>) | Failed(error: JailError)

  function FlagsFor(parts: seq<string>, i: nat, fl: Flags): Flags {
    if i + 1 == |parts| then fl else READDIR
  }

  /** A failed openat at component i: read the link if there is one and rewrite the path. */
  function LinkStep(w: World, t: nat, dir: Ino, parts: seq<string>, i: nat, errno: Errno): (r: (Step, nat))
    requires i < |parts|
  {
    var known := errno == ELOOP || errno == EMLINK;
    var t1 := if known then t else t + 1;
    if known || IsSymlinkAt(w, t, dir, parts[i]) then
      match ReadlinkAt(w, t1, dir, parts[i])
      case Fail(_) => (Failed(Sys(errno)), t1 + 1)
      case Done(text) =>
        if |text| > 0 && text[0] == '/' then (Failed(Path(Escape)), t1 + 1)
        else
          match JoinComponents(parts[..i], text)
          case Refused(e) => (Failed(Path(e)), t1 + 1)
          case Parsed(joined) => (Rewritten(joined + parts[i + 1..]), t1 + 1)
    else (Failed(Sys(errno)), t1)
  }

  /** The rest of a walk that stands at component i with dir open, and the time it ends. */
  function WalkFrom(w: World, t: nat, dir: Ino, parts: seq<string>, i: nat, fl: Flags): (r: (Step, nat))
    requires i <= |parts|
    ensures t <= r.1 && (i < |parts| ==> t < r.1)
    decreases |parts| - i
  {
    if i == |parts| then (Opened(dir), t)
    else
      match OpenAt(w, t, dir, parts[i], FlagsFor(parts, i, fl))
      case Done(fd) => WalkFrom(w, t + 1, fd, parts, i + 1, fl)
      case Fail(errno) => LinkStep(w, t + 1, dir, parts, i, errno)
  }

  function WalkRun(w: World, t: nat, root: Ino, parts: seq<string>, fl: Flags): (r: (Step, nat))
    ensures t < r.1
  {
    if w.fault(t).Some? then (Failed(Sys(w.fault(t).value)), t + 1)
    else if |parts| == 0 && fl.creat then (Failed(Path(Invalid)), t + 1)
    else WalkFrom(w, t + 1, root, parts, 0, fl)
  }

  /** Up to n walks, each restarting from the root. */
  function ResolveRun(w: World, t: nat, root: Ino, parts: seq<string>, n: nat, fl: Flags): (r: (Outcome<Ino>, nat))
    ensures t <= r.1 && (n > 0 ==> t < r.1)
    decreases n
  {
    if n == 0 then (Err(Path(Escape)), t)
    else
      var (step, t1) := WalkRun(w, t, root, parts, fl);
      match step
      case Failed(e) => (Err(e), t1)
      case Opened(fd) => (Ok(fd), t1)
      case Rewritten(q) => ResolveRun(w, t1, root, q, n - 1, fl)
  }

  function ResolveOutcome(w: World, t: nat, root: Ino, rel: string, fl: Flags): (r: (Outcome<Ino>, nat))
    ensures t <= r.1 && (Components(rel).Parsed? ==> t < r.1)
  {
    match Components(rel)
    case Refused(e) => (Err(Path(e)), t)
    case Parsed(parts) => ResolveRun(w, t, root, parts, MAX_SYMLINKS, fl)
  }

  function ParentOutcome(w: World, t: nat, root: Ino, rel: string): (r: (Outcome<(Ino, string)>, nat))
    ensures t <= r.1
  {
    match Components(rel)
    case Refused(e) => (Err(Path(e)), t)
    case Parsed(parts) =>
      if |parts| == 0 then (Err(Path(Invalid)), t)
      else
        var (dir, t1) := ResolveRun(w, t, root, parts[..|parts| - 1], MAX_SYMLINKS, READDIR);
        (match dir case Err(e) => Err(e) case Ok(d) => Ok((d, parts[|parts| - 1])), t1)
  }

  // ---- confinement under a changing tree -------------------------------------

  /** One step down: at the moment of system call at, name was an entry of from and led to to,
      which was no symlink; or that call itself created to under name. */
  datatype Hop = Hop(at: nat, from: Ino, name: string, to: Ino)

  predicate Followed(w: World, h: Hop) {
    var tree := w.tree(h.at);
    && Simple(h.name)
    && IsDir(tree, h.from)
    && (if h.name in tree[h.from].entries
        then tree[h.from].entries[h.name] == h.to && h.to in tree && !tree[h.to].Symlink?
        else h.to == w.newIno(h.at))
  }

  /** A hop that follows an existing entry creates nothing. */
  predicate Existed(w: World, h: Hop) {
    IsDir(w.tree(h.at), h.from) && h.name in w.tree(h.at)[h.from].entries
  }

  /** hops leads from root down to fd, one entry at a time, each followed at its own moment,
      in order, between t0 and t1. */
  predicate Trail(w: World, root: Ino, hops: seq<Hop>, fd: Ino, t0: nat, t1: nat) {
    && (forall i :: 0 <= i < |hops| ==> Followed(w, hops[i]) && t0 <= hops[i].at < t1)
    && (forall i :: 0 < i < |hops| ==> hops[i].from == hops[i - 1].to && hops[i - 1].at < hops[i].at)
    && (if |hops| == 0 then fd == root else hops[0].from == root && hops[|hops| - 1].to == fd)
  }

  /** Confined: reached from the root by such a trail; only a last hop may create, and only if asked. */
  ghost predicate Confined(w: World, root: Ino, fd: Ino, t0: nat, t1: nat, creat: bool) {
    exists hops ::
      && Trail(w, root, hops, fd, t0, t1)
      && MadeOnlyLast(w, hops, |hops|, creat)
  }

  /** What one walk guarantees, with the time it ended. */
  ghost predicate SafeStep(w: World, root: Ino, r: (Step, nat), t0: nat, creat: bool) {
    && (r.0.Opened? ==> Confined(w, root, r.0.fd, t0, r.1, creat))
    && (r.0.Rewritten? ==> AllSimple(r.0.parts))
  }

  ghost predicate SafeOutcome(w: World, root: Ino, r: (Outcome<Ino>, nat), t0: nat, creat: bool) {
    r.0.Ok? ==> Confined(w, root, r.0.value, t0, r.1, creat)
  }

  /** All hops so far follow existing entries, except that the last of `total` may create. */
  predicate MadeOnlyLast(w: World, hops: seq<Hop>, total: nat, creat: bool) {
    forall k :: 0 <= k < |hops| && (k + 1 < total || !creat) ==> Existed(w, hops[k])
  }

  lemma TrailSnoc(w: World, root: Ino, hops: seq<Hop>, dir: Ino, t0: nat, t: nat, h: Hop)
    requires t0 <= t && Trail(w, root, hops, dir, t0, t)
    requires Followed(w, h) && h.from == dir && h.at == t
    ensures Trail(w, root, hops + [h], h.to, t0, t + 1)
  {
    var longer := hops + [h];
    forall i | 0 <= i < |longer| ensures Followed(w, longer[i]) && t0 <= longer[i].at < t + 1 {
      if i < |hops| { assert longer[i] == hops[i]; } else { assert longer[i] == h; }
    }
    forall i | 0 < i < |longer| ensures longer[i].from == longer[i - 1].to && longer[i - 1].at < longer[i].at {
      assert longer[i - 1] == hops[i - 1];
      if i < |hops| { assert longer[i] == hops[i]; } else { assert longer[i] == h; }
    }
    assert longer[0] == if |hops| == 0 then h else hops[0];
  }

  lemma OpenFollows(w: World, t: nat, dir: Ino, name: string, fl: Flags)
    requires Simple(name) && OpenAt(w, t, dir, name, fl).Done?
    ensures var h := Hop(t, dir, name, OpenAt(w, t, dir, name, fl).value);
            Followed(w, h) && (!fl.creat ==> Existed(w, h))
  {
  }

  /** Where a walk stands after following hops. */
  predicate Standing(w: World, root: Ino, hops: seq<Hop>, dir: Ino, t0: nat, t: nat, total: nat, creat: bool) {
    t0 <= t && Trail(w, root, hops, dir, t0, t) && MadeOnlyLast(w, hops, total, creat)
  }

  lemma StandingSnoc(w: World, root: Ino, hops: seq<Hop>, dir: Ino, t0: nat, t: nat,
                     parts: seq<string>, i: nat, fl: Flags, fd: Ino)
    requires |hops| == i < |parts| && Simple(parts[i])
    requires Standing(w, root, hops, dir, t0, t, |parts|, fl.creat)
    requires OpenAt(w, t, dir, parts[i], FlagsFor(parts, i, fl)) == Done(fd)
    ensures Standing(w, root, hops + [Hop(t, dir, parts[i], fd)], fd, t0, t + 1, |parts|, fl.creat)
  {
    var h := Hop(t, dir, parts[i], fd);
    OpenFollows(w, t, dir, parts[i], FlagsFor(parts, i, fl));
    TrailSnoc(w, root, hops, dir, t0, t, h);
  }

  /** Some trail leads to where the walk of parts stands before component i. */
  ghost predicate Here(w: World, root: Ino, dir: Ino, t0: nat, t: nat, parts: seq<string>, i: nat, creat: bool) {
    exists hops :: |hops| == i && Standing(w, root, hops, dir, t0, t, |parts|, creat)
  }

  lemma HereNext(w: World, root: Ino, dir: Ino, t0: nat, t: nat, parts: seq<string>, i: nat, fl: Flags, fd: Ino)
    requires AllSimple(parts) && i < |parts| && Here(w, root, dir, t0, t, parts, i, fl.creat)
    requires OpenAt(w, t, dir, parts[i], FlagsFor(parts, i, fl)) == Done(fd)
    ensures Here(w, root, fd, t0, t + 1, parts, i + 1, fl.creat)
  {
    var hops :| |hops| == i && Standing(w, root, hops, dir, t0, t, |parts|, fl.creat);
    StandingSnoc(w, root, hops, dir, t0, t, parts, i, fl, fd);
    assert |hops + [Hop(t, dir, parts[i], fd)]| == i + 1;
  }

  lemma HereConfined(w: World, root: Ino, fd: Ino, t0: nat, t: nat, parts: seq<string>, creat: bool)
    requires Here(w, root, fd, t0, t, parts, |parts|, creat)
    ensures Confined(w, root, fd, t0, t, creat)
  {
  }

  lemma {:induction false} WalkConfined(w: World, t0: nat, t: nat, root: Ino, dir: Ino,
                                        parts: seq<string>, i: nat, fl: Flags)
    requires AllSimple(parts) && i <= |parts| && Here(w, root, dir, t0, t, parts, i, fl.creat)
    ensures SafeStep(w, root, WalkFrom(w, t, dir, parts, i, fl), t0, fl.creat)
    decreases |parts| - i
  {
    if i == |parts| {
      HereConfined(w, root, dir, t0, t, parts, fl.creat);
    } else {
      match OpenAt(w, t, dir, parts[i], FlagsFor(parts, i, fl)) {
        case Done(fd) =>
          HereNext(w, root, dir, t0, t, parts, i, fl, fd);
          WalkConfined(w, t0, t + 1, root, fd, parts, i + 1, fl);
        case Fail(_) =>
          WalkStops(w, t0, t, root, dir, parts, i, fl);
      }
    }
  }

  lemma WalkStops(w: World, t0: nat, t: nat, root: Ino, dir: Ino, parts: seq<string>, i: nat, fl: Flags)
    requires AllSimple(parts) && i < |parts| && OpenAt(w, t, dir, parts[i], FlagsFor(parts, i, fl)).Fail?
    ensures SafeStep(w, root, WalkFrom(w, t, dir, parts, i, fl), t0, fl.creat)
  {
    var errno := OpenAt(w, t, dir, parts[i], FlagsFor(parts, i, fl)).errno;
    LinkStepSimple(w, t + 1, dir, parts, i, errno, root, t0, fl.creat);
    assert WalkFrom(w, t, dir, parts, i, fl) == LinkStep(w, t + 1, dir, parts, i, errno);
  }

  lemma LinkStepSimple(w: World, t: nat, dir: Ino, parts: seq<string>, i: nat, errno: Errno, root: Ino, t0: nat, creat: bool)
    requires AllSimple(parts) && i < |parts|
    ensures SafeStep(w, root, LinkStep(w, t, dir, parts, i, errno), t0, creat)
  {
    var step := LinkStep(w, t, dir, parts, i, errno).0;
    if step.Rewritten? {
      var known := errno == ELOOP || errno == EMLINK;
      var text := ReadlinkAt(w, if known then t else t + 1, dir, parts[i]).value;
      var prefix := Join(parts[..i], '/');
      ComponentsAreSimple(text);
      ComponentsAreSimple(prefix + "/" + text);
    }
  }

  lemma {:induction false} ResolveConfined(w: World, t0: nat, t: nat, root: Ino, parts: seq<string>, n: nat, fl: Flags)
    requires AllSimple(parts) && t0 <= t
    ensures SafeOutcome(w, root, ResolveRun(w, t, root, parts, n, fl), t0, fl.creat)
    decreases n
  {
    if n > 0 {
      assert Standing(w, root, [], root, t0, t + 1, |parts|, fl.creat);
      WalkConfined(w, t0, t + 1, root, root, parts, 0, fl);
      var r := WalkRun(w, t, root, parts, fl);
      assert SafeStep(w, root, r, t0, fl.creat);
      if r.0.Rewritten? {
        ResolveConfined(w, t0, r.1, root, r.0.parts, n - 1, fl);
      }
    }
  }

  // ---- the code --------------------------------------------------------------

  /** walk()'s error branch: after openat failed at component i. */
  method FollowLink(w: World, t: nat, dirfd: Ino, parts: seq<string>, i: nat, errno: Errno) returns (step: Step, t1: nat)
    requires i < |parts|
    ensures (step, t1) == LinkStep(w, t, dirfd, parts, i, errno)
  {
    t1 := t;
    var isLink := errno == ELOOP || errno == EMLINK;
    if !isLink {
      isLink := IsSymlinkAt(w, t1, dirfd, parts[i]);
      t1 := t1 + 1;
    }
    if !isLink { return Failed(Sys(errno)), t1; }
    var target := ReadlinkAt(w, t1, dirfd, parts[i]);
    t1 := t1 + 1;
    if target.Fail? { return Failed(Sys(errno)), t1; }
    if |target.value| > 0 && target.value[0] == '/' { return Failed(Path(Escape)), t1; }
    match JoinComponents(parts[..i], target.value) {
      case Refused(e) => return Failed(Path(e)), t1;
      case Parsed(joined) => return Rewritten(joined + parts[i + 1..]), t1;
    }
  }

  /** walk(): advance dirfd one component at a time. */
  method Walk(w: World, t: nat, root: Ino, parts: seq<string>, fl: Flags) returns (step: Step, t1: nat)
    ensures (step, t1) == WalkRun(w, t, root, parts, fl)
  {
    if w.fault(t).Some? { return Failed(Sys(w.fault(t).value)), t + 1; }
    var dirfd := root;
    t1 := t + 1;
    if |parts| == 0 {
      if fl.creat { return Failed(Path(Invalid)), t1; }
      return Opened(dirfd), t1;
    }
    for i := 0 to |parts|
      invariant WalkFrom(w, t + 1, root, parts, 0, fl) == WalkFrom(w, t1, dirfd, parts, i, fl)
    {
      var last := i == |parts| - 1;
      var openFlags := if last then fl else READDIR;
      match OpenAt(w, t1, dirfd, parts[i], openFlags) {
        case Fail(errno) =>
          step, t1 := FollowLink(w, t1 + 1, dirfd, parts, i, errno);
          return;
        case Done(fd) =>
          t1 := t1 + 1;
          dirfd := fd;
      }
    }
    step := Opened(dirfd);
  }

  /** One turn of resolve's loop. */
  lemma ResolveTurn(w: World, t: nat, root: Ino, parts: seq<string>, n: nat, fl: Flags, step: Step, t1: nat)
    requires n > 0 && (step, t1) == WalkRun(w, t, root, parts, fl)
    ensures step.Failed? ==> ResolveRun(w, t, root, parts, n, fl) == (Err(step.error), t1)
    ensures step.Opened? ==> ResolveRun(w, t, root, parts, n, fl) == (Ok(step.fd), t1)
    ensures step.Rewritten? ==> ResolveRun(w, t, root, parts, n, fl) == ResolveRun(w, t1, root, step.parts, n - 1, fl)
  {
  }

  lemma ResolveSafe(w: World, t: nat, root: Ino, rel: string, fl: Flags)
    ensures SafeOutcome(w, root, ResolveOutcome(w, t, root, rel, fl), t, fl.creat)
  {
    ComponentsAreSimple(rel);
    if Components(rel).Parsed? { ResolveConfined(w, t, t, root, Components(rel).parts, MAX_SYMLINKS, fl); }
  }

  /** resolve(): at most MAX_SYMLINKS walks. Whatever the tree does meanwhile, a descriptor it
      returns lies below the root. */
  method Resolve(w: World, t: nat, root: Ino, rel: string, fl: Flags) returns (out: Outcome<Ino>, t1: nat)
    ensures (out, t1) == ResolveOutcome(w, t, root, rel, fl)
    ensures out.Ok? ==> Confined(w, root, out.value, t, t1, fl.creat)
  {
    ghost var goal := ResolveOutcome(w, t, root, rel, fl);
    ResolveSafe(w, t, root, rel, fl);
    var parse := ComputeComponents(rel);
    t1 := t;
    if parse.Refused? { return Err(Path(parse.err)), t1; }
    var parts := parse.parts;
    var n := 0;
    while n < MAX_SYMLINKS
      invariant 0 <= n <= MAX_SYMLINKS
      invariant goal == ResolveRun(w, t1, root, parts, MAX_SYMLINKS - n, fl)
    {
      ghost var before := t1;
      var step;
      step, t1 := Walk(w, t1, root, parts, fl);
      ResolveTurn(w, before, root, parts, MAX_SYMLINKS - n, fl, step, t1);
      match step {
        case Failed(e) => return Err(e), t1;
        case Opened(fd) => return Ok(fd), t1;
        case Rewritten(q) => parts := q;
      }
      n := n + 1;
    }
    out := Err(Path(Escape));
  }

  /** parentOf(): the directory that holds the last component, and that component's name. */
  method ParentOf(w: World, t: nat, root: Ino, rel: string) returns (out: Outcome<(Ino, string)>, t1: nat)
    ensures (out, t1) == ParentOutcome(w, t, root, rel)
    ensures out.Ok? ==> Confined(w, root, out.value.0, t, t1, false) && Simple(out.value.1)
  {
    var parse := ComputeComponents(rel);
    t1 := t;
    if parse.Refused? { return Err(Path(parse.err)), t1; }
    var parts := parse.parts;
    if |parts| == 0 { return Err(Path(Invalid)), t1; }
    ComponentsAreSimple(rel);
    var parentParts, name := parts[..|parts| - 1], parts[|parts| - 1];
    ComponentsOfJoin(parentParts);
    var fd;
    fd, t1 := Resolve(w, t, root, Join(parentParts, '/'), READDIR);
    out := match fd case Err(e) => Err(e) case Ok(d) => Ok((d, name));
  }
}
