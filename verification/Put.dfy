// cmd/bootstash/put.go: the recursive copy into a cubby that holds no symlinks. A path is its list of
// components; joining and splitting them again is the identity (Paths.ComponentsOfJoin).
module Put {
  import opened Text
  import opened Paths
  import opened Wrappers

  type Path = seq<string>

  datatype Item = DirEntry | FileEntry(body: string)

  /** The cubby below its root, flat: every path that exists. */
  type Cubby = map<Path, Item>

  /** A source tree as os.Lstat and os.ReadDir show it. */
  datatype Source =
    | SFile(body: string)
    | SDir(entries: seq<(string, Source)>)
    | SLink
    | SOther

  function Look(c: Cubby, p: Path): Option<Item> {
    if p in c then Some(c[p]) else None
  }

  /** Everything that exists has its parent directory. */
  predicate Closed(c: Cubby) {
    && [] !in c
    && forall p :: p in c && |p| > 1 ==> Look(c, p[..|p| - 1]) == Some(DirEntry)
  }

  predicate IsDirAt(c: Cubby, p: Path) {
    p == [] || Look(c, p) == Some(DirEntry)
  }

  /** A file stands at p. */
  predicate FileAt(c: Cubby, p: Path) {
    p != [] && p in c && c[p].FileEntry?
  }

  // ---- specification ---------------------------------------------------------------------------

  /** Names in one directory are distinct entry names. */
  predicate SourceOk(src: Source) {
    src.SDir? ==>
      && (forall i :: 0 <= i < |src.entries| ==> Entry(src.entries[i].0) && SourceOk(src.entries[i].1))
      && (forall i, j :: 0 <= i < j < |src.entries| ==> src.entries[i].0 != src.entries[j].0)
  }

  function Named(entries: seq<(string, Source)>, name: string): Option<Source>
    ensures Named(entries, name).Some? ==>
              exists i :: 0 <= i < |entries| && entries[i].0 == name && entries[i].1 == Named(entries, name).value
  {
    if entries == [] then None
    else
      var n := |entries| - 1;
      if entries[n].0 == name then Some(entries[n].1) else Named(entries[..n], name)
  }

  /** What the source has at a relative path. */
  function SourceAt(src: Source, q: Path): Option<Item>
    decreases |q|
  {
    match src
    case SFile(body) => if q == [] then Some(FileEntry(body)) else None
    case SDir(entries) =>
      if q == [] then Some(DirEntry)
      else (match Named(entries, q[0]) case None => None case Some(child) => SourceAt(child, q[1..]))
    case _ => None
  }

  /** The entry at p once src has been put at dest over a cubby that had `was` there: the source where
      it has something, directories on the way to dest, and otherwise what was there. */
  function Overlaid(was: Option<Item>, dest: Path, src: Source, p: Path): Option<Item> {
    if dest <= p && SourceAt(src, p[|dest|..]).Some? then SourceAt(src, p[|dest|..])
    else if p < dest then Some(DirEntry)
    else was
  }

  ghost predicate IsOverlay(was: Cubby, now: Cubby, dest: Path, src: Source) {
    forall p :: p != [] ==> Look(now, p) == Overlaid(Look(was, p), dest, src, p)
  }

  /** The node of the source at a relative path. */
  function SourceNode(src: Source, q: Path): Option<Source>
    decreases |q|
  {
    if q == [] then Some(src)
    else if !src.SDir? then None
    else match Named(src.entries, q[0]) case None => None case Some(child) => SourceNode(child, q[1..])
  }

  /** Outside dest, only missing directories on the way to it may have appeared. */
  predicate KeptAt(was: Cubby, now: Cubby, dest: Path, p: Path) {
    dest <= p || Look(now, p) == Look(was, p) ||
    (p < dest && Look(was, p) == None && Look(now, p) == Some(DirEntry))
  }

  ghost predicate OutsideKept(was: Cubby, now: Cubby, dest: Path) {
    forall p :: KeptAt(was, now, dest, p)
  }

  /** From dest down every path shows its old entry, or what the source has there. */
  ghost predicate PartWay(was: Cubby, now: Cubby, dest: Path, src: Source) {
    forall p :: p != [] && dest <= p ==> PartWayAt(was, now, dest, src, p)
  }

  predicate PartWayAt(was: Cubby, now: Cubby, dest: Path, src: Source, p: Path)
    requires dest <= p
  {
    || Look(now, p) == Look(was, p)
    || (Look(now, p).Some? && Look(now, p) == SourceAt(src, p[|dest|..]))
  }

  /** Nothing in the cubby is of the wrong kind for src at dest. */
  predicate Fits(c: Cubby, dest: Path, src: Source)
    decreases src
  {
    AllSimple(dest) && WayFits(c, dest) &&
    match src
    case SFile(_) => dest != [] && Look(c, dest) != Some(DirEntry)
    case SDir(entries) =>
      && !FileAt(c, dest)
      && forall i :: 0 <= i < |entries| ==> Fits(c, dest + [entries[i].0], entries[i].1)
    case _ => false
  }

  /** No file stands where a directory on the way to dest is needed. */
  predicate WayFits(c: Cubby, dest: Path) {
    forall k :: 0 < k < |dest| ==> !FileAt(c, dest[..k])
  }

  // ---- lemmas about the specification ---------------------------------------------------------

  lemma {:induction false} NamedFresh(entries: seq<(string, Source)>, n: nat, name: string)
    requires n < |entries| && entries[n].0 == name
    requires forall i :: 0 <= i < n ==> entries[i].0 != name
    ensures Named(entries[..n], name) == None
    ensures Named(entries[..n + 1], name) == Some(entries[n].1)
    ensures forall other :: other != name ==> Named(entries[..n + 1], other) == Named(entries[..n], other)
  {
    assert entries[..n + 1][..n] == entries[..n];
  }

  /** Putting one more entry of a directory extends the overlay by that entry. */
  lemma OverlayOneMore(was: Cubby, mid: Cubby, now: Cubby, dest: Path, entries: seq<(string, Source)>, n: nat)
    requires n < |entries| && forall i :: 0 <= i < n ==> entries[i].0 != entries[n].0
    requires IsOverlay(was, mid, dest, SDir(entries[..n]))
    requires IsOverlay(mid, now, dest + [entries[n].0], entries[n].1)
    ensures IsOverlay(was, now, dest, SDir(entries[..n + 1]))
  {
    var (name, child) := entries[n];
    NamedFresh(entries, n, name);
    forall p | p != [] ensures Look(now, p) == Overlaid(Look(was, p), dest, SDir(entries[..n + 1]), p) {
      assert Look(mid, p) == Overlaid(Look(was, p), dest, SDir(entries[..n]), p);
      assert Look(now, p) == Overlaid(Look(mid, p), dest + [name], child, p);
      if dest <= p && |p| > |dest| {
        var q := p[|dest|..];
        assert q[1..] == p[|dest| + 1..];
        assert p[..|dest| + 1] == dest + [q[0]];
        if q[0] == name {
          assert dest + [name] <= p;
        } else {
          assert !(dest + [name] <= p);
        }
      } else if dest <= p {
        assert p == dest && dest < dest + [name];
      } else if p < dest {
        assert p < dest + [name];
      } else {
        assert !(dest + [name] <= p);
      }
    }
  }

  /** Whether a source fits depends only on the way to dest and on what is below dest. */
  lemma {:induction false} FitsFrame(c: Cubby, d: Cubby, dest: Path, src: Source)
    requires forall p :: dest <= p && p != [] ==> Look(c, p) == Look(d, p)
    requires WayFits(c, dest) <==> WayFits(d, dest)
    ensures Fits(c, dest, src) <==> Fits(d, dest, src)
    decreases src
  {
    if dest != [] { assert Look(c, dest) == Look(d, dest); }
    if src.SDir? && !FileAt(c, dest) {
      forall i | 0 <= i < |src.entries|
        ensures Fits(c, dest + [src.entries[i].0], src.entries[i].1) <==> Fits(d, dest + [src.entries[i].0], src.entries[i].1)
      {
        var at := dest + [src.entries[i].0];
        WayOneMore(c, dest, src.entries[i].0);
        WayOneMore(d, dest, src.entries[i].0);
        FitsFrame(c, d, at, src.entries[i].1);
      }
    }
  }

  /** The node at q does not stop a put at dest: it is a file or a directory, its place has a plain name,
      and no directory stands there for a file or file for a directory. */
  predicate FitsAt(c: Cubby, dest: Path, src: Source, q: Path) {
    match SourceNode(src, q)
    case None => true
    case Some(SFile(_)) => AllSimple(dest + q) && dest + q != [] && Look(c, dest + q) != Some(DirEntry)
    case Some(SDir(_)) => AllSimple(dest + q) && !FileAt(c, dest + q)
    case _ => false
  }

  /** A put fits exactly if no file stands on the way to dest and every node of the source fits at its place. */
  lemma {:induction false} FitsIff(c: Cubby, dest: Path, src: Source)
    requires SourceOk(src)
    ensures Fits(c, dest, src) <==> WayFits(c, dest) && forall q :: FitsAt(c, dest, src, q)
    decreases src
  {
    assert dest + [] == dest;
    if Fits(c, dest, src) {
      forall q ensures FitsAt(c, dest, src, q) { FitsBelow(c, dest, src, q); }
    }
    if WayFits(c, dest) && forall q :: FitsAt(c, dest, src, q) {
      assert FitsAt(c, dest, src, []);
      if src.SDir? {
        forall i | 0 <= i < |src.entries| ensures Fits(c, dest + [src.entries[i].0], src.entries[i].1) {
          var (name, child) := src.entries[i];
          WayOneMore(c, dest, name);
          forall q ensures FitsAt(c, dest + [name], child, q) {
            assert FitsAt(c, dest, src, [name] + q);
            NodeBelow(src, i, q);
            assert dest + ([name] + q) == dest + [name] + q;
          }
          FitsIff(c, dest + [name], child);
        }
      }
    }
  }

  lemma {:induction false} FitsBelow(c: Cubby, dest: Path, src: Source, q: Path)
    requires SourceOk(src) && Fits(c, dest, src)
    ensures FitsAt(c, dest, src, q)
    decreases src
  {
    if q == [] {
      assert dest + [] == dest;
    } else if src.SDir? && Named(src.entries, q[0]).Some? {
      var i :| 0 <= i < |src.entries| && src.entries[i].0 == q[0] && src.entries[i].1 == Named(src.entries, q[0]).value;
      var (name, child) := src.entries[i];
      FitsBelow(c, dest + [name], child, q[1..]);
      assert dest + q == dest + [name] + q[1..];
    }
  }

  lemma NodeBelow(src: Source, i: nat, q: Path)
    requires SourceOk(src) && src.SDir? && i < |src.entries|
    ensures SourceNode(src, [src.entries[i].0] + q) == SourceNode(src.entries[i].1, q)
  {
    var name := src.entries[i].0;
    NamedIs(src.entries, i);
    assert ([name] + q)[0] == name && ([name] + q)[1..] == q;
  }

  lemma {:induction false} NamedIs(entries: seq<(string, Source)>, i: nat)
    requires i < |entries| && forall j, k :: 0 <= j < k < |entries| ==> entries[j].0 != entries[k].0
    ensures Named(entries, entries[i].0) == Some(entries[i].1)
    decreases |entries|
  {
    var n := |entries| - 1;
    if i < n {
      assert entries[i].0 != entries[n].0 && entries[..n][i] == entries[i];
      NamedIs(entries[..n], i);
    }
  }

  /** What the source shows at a path is the kind of its node there. */
  lemma {:induction false} SourceAtIs(src: Source, q: Path)
    ensures SourceAt(src, q) ==
            match SourceNode(src, q)
            case Some(SFile(body)) => Some(FileEntry(body))
            case Some(SDir(_)) => Some(DirEntry)
            case _ => None
    decreases |q|
  {
    if q != [] && src.SDir? && Named(src.entries, q[0]).Some? { SourceAtIs(Named(src.entries, q[0]).value, q[1..]); }
  }

  lemma WayOneMore(c: Cubby, dest: Path, name: string)
    ensures WayFits(c, dest + [name]) <==> WayFits(c, dest) && !FileAt(c, dest)
  {
    var at := dest + [name];
    assert forall k :: 0 < k < |dest| ==> at[..k] == dest[..k];
    assert at[..|dest|] == dest;
  }

  /** The way to dest has been made: dest and all that leads to it are directories. */
  ghost predicate WayMade(was: Cubby, now: Cubby, dest: Path) {
    forall p :: p != [] ==> Look(now, p) == if p <= dest then Some(DirEntry) else Look(was, p)
  }

  lemma WayMadeOneMore(was: Cubby, mid: Cubby, now: Cubby, dest: Path, k: nat)
    requires k < |dest| && WayMade(was, mid, dest[..k])
    requires forall p :: p != [] ==> Look(now, p) == if p == dest[..k + 1] then Some(DirEntry) else Look(mid, p)
    ensures WayMade(was, now, dest[..k + 1])
  {
    forall p | p != [] ensures Look(now, p) == if p <= dest[..k + 1] then Some(DirEntry) else Look(was, p) {
      assert Look(mid, p) == if p <= dest[..k] then Some(DirEntry) else Look(was, p);
      if p <= dest[..k + 1] && p != dest[..k + 1] { assert p <= dest[..k]; }
    }
  }

  /** Once the way is made, nothing on it is in the way of an entry below dest. */
  lemma WayMadeFits(was: Cubby, now: Cubby, dest: Path, name: string)
    requires forall p :: p != [] && p <= dest ==> Look(now, p) == Some(DirEntry)
    ensures WayFits(now, dest + [name])
  {
    var at := dest + [name];
    forall k | 0 < k < |at| ensures !FileAt(now, at[..k]) {
      assert at[..k] == dest[..k] && dest[..k] <= dest;
      assert Look(now, at[..k]) == Some(DirEntry);
    }
  }

  lemma MadeOneMore(was: Cubby, mid: Cubby, now: Cubby, dest: Path, k: nat)
    requires k < |dest| && MadeUpTo(was, mid, dest, k) && !FileAt(mid, dest[..k + 1])
    requires now == mid[dest[..k + 1] := DirEntry]
    ensures MadeUpTo(was, now, dest, k + 1)
  {
    WayMadeOneMore(was, mid, now, dest, k);
    assert !(dest[..k + 1] <= dest[..k]);
    assert Look(mid, dest[..k + 1]) == Look(was, dest[..k + 1]);
  }

  /** The next mkdirat of mkdirAll is refused exactly if dest cannot be made at all because of it. */
  lemma MkdirNext(was: Cubby, mid: Cubby, dest: Path, k: nat)
    requires k < |dest| && MadeUpTo(was, mid, dest, k)
    ensures IsDirAt(mid, dest[..k + 1][..k])
    ensures FileAt(mid, dest[..k + 1]) || !AllSimple(dest[..k + 1])
            ==> !(AllSimple(dest) && WayFits(was, dest) && !FileAt(was, dest))
  {
    assert dest[..k + 1][..k] == dest[..k] && dest[..k] <= dest[..k];
    assert !(dest[..k + 1] <= dest[..k]);
    assert Look(mid, dest[..k + 1]) == Look(was, dest[..k + 1]);
    if k + 1 == |dest| { assert dest[..k + 1] == dest; }
  }

  datatype Made = Created | Exists | Denied

  class CubbyRoot {
    var tree: Cubby

    /** jail.Root.Mkdir. */
    method Mkdir(p: Path) returns (r: Made)
      requires Closed(tree)
      modifies this
      ensures Closed(tree)
      ensures r.Created? <==> AllSimple(p) && p != [] && IsDirAt(old(tree), p[..|p| - 1]) && p !in old(tree)
      ensures r.Exists? <==> AllSimple(p) && p != [] && IsDirAt(old(tree), p[..|p| - 1]) && p in old(tree)
      ensures tree == if r.Created? then old(tree)[p := DirEntry] else old(tree)
    {
      if !AllSimple(p) || p == [] || !IsDirAt(tree, p[..|p| - 1]) { return Denied; }
      if p in tree { return Exists; }
      tree := tree[p := DirEntry];
      return Created;
    }

    /** mkdirExistOK: a directory that is already there will do. */
    method MkdirExistOK(p: Path) returns (ok: bool)
      requires Closed(tree)
      modifies this
      ensures Closed(tree)
      ensures ok <==> AllSimple(p) && p != [] && IsDirAt(old(tree), p[..|p| - 1]) && !FileAt(old(tree), p)
      ensures tree == if ok then old(tree)[p := DirEntry] else old(tree)
    {
      var r := Mkdir(p);
      match r {
        case Created => return true;
        case Denied => return false;
        case Exists => return tree[p].DirEntry?;
      }
    }

    /** mkdirAll: every prefix of dest in turn. */
    method MkdirAll(dest: Path) returns (ok: bool)
      requires Closed(tree)
      modifies this
      ensures Closed(tree)
      ensures ok <==> AllSimple(dest) && WayFits(old(tree), dest) && !FileAt(old(tree), dest)
      ensures ok ==> MadeUpTo(old(tree), tree, dest, |dest|)
      ensures exists k: nat :: MadeUpTo(old(tree), tree, dest, k)
    {
      ghost var was := tree;
      for k := 0 to |dest|
        invariant Closed(tree) && MadeUpTo(was, tree, dest, k)
        invariant AllSimple(dest[..k])
      {
        ghost var mid := tree;
        MkdirNext(was, mid, dest, k);
        var made := MkdirExistOK(dest[..k + 1]);
        if !made { return false; }
        MadeOneMore(was, mid, tree, dest, k);
      }
      assert dest[..|dest|] == dest;
      return true;
    }

    /** jail.Root.Replace, as an atomic effect (Replace.dfy has its steps). */
    method ReplaceFile(p: Path, body: string) returns (ok: bool)
      requires Closed(tree)
      modifies this
      ensures Closed(tree)
      ensures ok <==> AllSimple(p) && p != [] && IsDirAt(old(tree), p[..|p| - 1]) && Look(old(tree), p) != Some(DirEntry)
      ensures tree == if ok then old(tree)[p := FileEntry(body)] else old(tree)
    {
      if !AllSimple(p) || p == [] || !IsDirAt(tree, p[..|p| - 1]) || Look(tree, p) == Some(DirEntry) { return false; }
      tree := tree[p := FileEntry(body)];
      return true;
    }

    /** copyFile: the way to the file, then the file. */
    method CopyFile(dest: Path, body: string) returns (ok: bool)
      requires Closed(tree)
      modifies this
      ensures Closed(tree)
      ensures ok <==> Fits(old(tree), dest, SFile(body))
      ensures ok ==> IsOverlay(old(tree), tree, dest, SFile(body))
      ensures OutsideKept(old(tree), tree, dest) && PartWay(old(tree), tree, dest, SFile(body))
    {
      ghost var was := tree;
      if dest == [] { return false; }
      var up, name := dest[..|dest| - 1], dest[|dest| - 1];
      assert dest == up + [name];
      WayOneMore(was, up, name);
      if up != [] {
        var made := MkdirAll(up);
        if !made {
          if AllSimple(dest) { assert AllSimple(up); }
          MadePartly(was, tree, up, dest);
          return false;
        }
      }
      ghost var mid := tree;
      assert MadeUpTo(was, mid, up, |up|) && up[..|up|] == up;
      assert Look(mid, dest) == Look(was, dest);
      assert AllSimple(dest) ==> AllSimple(up);
      assert IsDirAt(mid, up);
      ok := ReplaceFile(dest, body);
      FileOverlay(was, mid, tree, dest, body, ok);
    }

    /** copyInto: a tree is put at dest exactly if nothing in the cubby is of the wrong kind; then the
        cubby is the source laid over what was there, and outside dest only the way to it is new. */
    method CopyInto(src: Source, dest: Path) returns (ok: bool)
      requires Closed(tree) && SourceOk(src)
      modifies this
      ensures Closed(tree)
      ensures ok <==> Fits(old(tree), dest, src)
      ensures ok ==> IsOverlay(old(tree), tree, dest, src)
      ensures OutsideKept(old(tree), tree, dest) && PartWay(old(tree), tree, dest, src)
      decreases src, 1
    {
      match src {
        case SFile(body) => ok := CopyFile(dest, body);
        case SDir(entries) => ok := CopyDir(src, dest);
        case _ => return false;
      }
    }

    method CopyDir(src: Source, dest: Path) returns (ok: bool)
      requires Closed(tree) && SourceOk(src) && src.SDir?
      modifies this
      ensures Closed(tree)
      ensures ok <==> Fits(old(tree), dest, src)
      ensures ok ==> IsOverlay(old(tree), tree, dest, src)
      ensures OutsideKept(old(tree), tree, dest) && PartWay(old(tree), tree, dest, src)
      decreases src, 0
    {
      ghost var was := tree;
      var entries := src.entries;
      if dest != [] {
        var made := MkdirAll(dest);
        if !made {
          MadePartly(was, tree, dest, dest);
          return false;
        }
      }
      EmptyOverlay(was, tree, dest);
      for i := 0 to |entries|
        invariant Closed(tree) && PutSoFar(was, tree, dest, entries, i)
      {
        var (name, child) := entries[i];
        ghost var mid := tree;
        FitsUnchanged(was, mid, dest, entries, i);
        var put := CopyInto(child, dest + [name]);
        OutsideKeptOneMore(was, mid, tree, dest, entries, i);
        if !put {
          PartWayOneMore(was, mid, tree, dest, entries, i);
          return false;
        }
        OverlayOneMore(was, mid, tree, dest, entries, i);
        PutOneMore(was, mid, tree, dest, entries, i);
      }
      PutAll(was, tree, dest, entries);
      return true;
    }
  }

  /** The first n entries of a directory are in place. */
  ghost predicate PutSoFar(was: Cubby, now: Cubby, dest: Path, entries: seq<(string, Source)>, n: nat) {
    && n <= |entries| && IsOverlay(was, now, dest, SDir(entries[..n])) && OutsideKept(was, now, dest)
    && forall j :: 0 <= j < n ==> Fits(was, dest + [entries[j].0], entries[j].1)
  }

  lemma PutOneMore(was: Cubby, mid: Cubby, now: Cubby, dest: Path, entries: seq<(string, Source)>, n: nat)
    requires n < |entries| && PutSoFar(was, mid, dest, entries, n) && Fits(was, dest + [entries[n].0], entries[n].1)
    requires IsOverlay(was, now, dest, SDir(entries[..n + 1])) && OutsideKept(was, now, dest)
    ensures PutSoFar(was, now, dest, entries, n + 1)
  {
  }

  lemma PutAll(was: Cubby, now: Cubby, dest: Path, entries: seq<(string, Source)>)
    requires PutSoFar(was, now, dest, entries, |entries|)
    requires AllSimple(dest) && WayFits(was, dest) && !FileAt(was, dest)
    ensures IsOverlay(was, now, dest, SDir(entries)) && Fits(was, dest, SDir(entries))
  {
    assert entries[..|entries|] == entries;
  }

  lemma MadePartly(was: Cubby, now: Cubby, way: Path, dest: Path)
    requires way <= dest && [] !in was && [] !in now
    requires exists k: nat :: MadeUpTo(was, now, way, k)
    ensures OutsideKept(was, now, dest)
    ensures forall p :: p != [] && dest <= p && p != way ==> Look(now, p) == Look(was, p)
    ensures way == dest && dest != [] ==> Look(now, dest) in {Look(was, dest), Some(DirEntry)}
  {
    var k: nat :| MadeUpTo(was, now, way, k);
    forall p ensures KeptAt(was, now, dest, p) {
      if p != [] {
        assert Look(now, p) == if p <= way[..k] then Some(DirEntry) else Look(was, p);
        if p <= way[..k] { assert p == way[..|p|] && !FileAt(was, way[..|p|]); }
      }
    }
  }

  lemma FileOverlay(was: Cubby, mid: Cubby, now: Cubby, dest: Path, body: string, ok: bool)
    requires dest != [] && [] !in was && [] !in mid
    requires MadeUpTo(was, mid, dest[..|dest| - 1], |dest| - 1)
    requires now == if ok then mid[dest := FileEntry(body)] else mid
    ensures ok ==> IsOverlay(was, now, dest, SFile(body))
    ensures OutsideKept(was, now, dest) && PartWay(was, now, dest, SFile(body))
  {
    var up := dest[..|dest| - 1];
    assert up[..|up|] == up;
    forall p | p != []
      ensures ok ==> Look(now, p) == Overlaid(Look(was, p), dest, SFile(body), p)
      ensures KeptAt(was, now, dest, p) && (dest <= p ==> PartWayAt(was, now, dest, SFile(body), p))
    {
      assert Look(mid, p) == if p <= up then Some(DirEntry) else Look(was, p);
      if p <= up {
        assert p < dest && p == up[..|p|] && !FileAt(was, up[..|p|]);
      }
      if dest <= p && p[|dest|..] == [] { assert p == dest; }
    }
  }

  lemma EmptyOverlay(was: Cubby, now: Cubby, dest: Path)
    requires [] !in was && [] !in now && MadeUpTo(was, now, dest, |dest|)
    ensures IsOverlay(was, now, dest, SDir([])) && OutsideKept(was, now, dest)
  {
    assert dest[..|dest|] == dest;
    forall p | p != []
      ensures Look(now, p) == Overlaid(Look(was, p), dest, SDir([]), p)
      ensures KeptAt(was, now, dest, p)
    {
      assert Look(now, p) == if p <= dest then Some(DirEntry) else Look(was, p);
      if p <= dest { assert p == dest[..|p|] && !FileAt(was, dest[..|p|]); }
      if dest <= p && p[|dest|..] == [] { assert p == dest; }
    }
  }

  /** The entries already put do not matter to whether the next one fits. */
  lemma FitsUnchanged(was: Cubby, mid: Cubby, dest: Path, entries: seq<(string, Source)>, n: nat)
    requires n < |entries| && forall i :: 0 <= i < n ==> entries[i].0 != entries[n].0
    requires WayFits(was, dest) && !FileAt(was, dest) && IsOverlay(was, mid, dest, SDir(entries[..n]))
    ensures Fits(mid, dest + [entries[n].0], entries[n].1) <==> Fits(was, dest + [entries[n].0], entries[n].1)
  {
    var (name, child) := entries[n];
    var at := dest + [name];
    NamedFresh(entries, n, name);
    forall p | at <= p && p != [] ensures Look(mid, p) == Look(was, p) {
      assert Look(mid, p) == Overlaid(Look(was, p), dest, SDir(entries[..n]), p);
      assert p[|dest|..][0] == name;
    }
    WayOneMore(was, dest, name);
    forall p | p != [] && p <= dest ensures Look(mid, p) == Some(DirEntry) {
      assert Look(mid, p) == Overlaid(Look(was, p), dest, SDir(entries[..n]), p);
      if p == dest { assert p[|dest|..] == []; }
    }
    WayMadeFits(was, mid, dest, name);
    FitsFrame(mid, was, at, child);
  }

  lemma OutsideKeptOneMore(was: Cubby, mid: Cubby, now: Cubby, dest: Path, entries: seq<(string, Source)>, n: nat)
    requires n < |entries| && [] !in was && [] !in mid && [] !in now
    requires IsOverlay(was, mid, dest, SDir(entries[..n]))
    requires OutsideKept(was, mid, dest) && OutsideKept(mid, now, dest + [entries[n].0])
    ensures OutsideKept(was, now, dest)
  {
    var at := dest + [entries[n].0];
    forall p ensures KeptAt(was, now, dest, p) {
      assert KeptAt(was, mid, dest, p) && KeptAt(mid, now, at, p);
      if p != [] && !(dest <= p) {
        assert Look(mid, p) == Overlaid(Look(was, p), dest, SDir(entries[..n]), p);
      }
    }
  }

  /** Whatever names an entry of a part of the directory names it in the whole. */
  lemma {:induction false} NamedInWhole(entries: seq<(string, Source)>, n: nat, name: string)
    requires n <= |entries| && Named(entries[..n], name).Some?
    requires forall i, j :: 0 <= i < j < |entries| ==> entries[i].0 != entries[j].0
    ensures Named(entries, name) == Named(entries[..n], name)
    decreases |entries|
  {
    if n == |entries| {
      assert entries[..n] == entries;
    } else {
      var last := |entries| - 1;
      var i :| 0 <= i < n && entries[..n][i].0 == name;
      assert entries[i].0 == name && entries[..last][..n] == entries[..n];
      NamedInWhole(entries[..last], n, name);
    }
  }

  /** A put that stops inside entry n. */
  lemma PartWayOneMore(was: Cubby, mid: Cubby, now: Cubby, dest: Path, entries: seq<(string, Source)>, n: nat)
    requires n < |entries| && forall i, j :: 0 <= i < j < |entries| ==> entries[i].0 != entries[j].0
    requires IsOverlay(was, mid, dest, SDir(entries[..n]))
    requires OutsideKept(mid, now, dest + [entries[n].0]) && PartWay(mid, now, dest + [entries[n].0], entries[n].1)
    ensures PartWay(was, now, dest, SDir(entries))
  {
    forall p | p != [] && dest <= p ensures PartWayAt(was, now, dest, SDir(entries), p) {
      PartWayStep(was, mid, now, dest, entries, n, p);
    }
  }

  lemma PartWayStep(was: Cubby, mid: Cubby, now: Cubby, dest: Path, entries: seq<(string, Source)>, n: nat, p: Path)
    requires n < |entries| && forall i, j :: 0 <= i < j < |entries| ==> entries[i].0 != entries[j].0
    requires p != [] && dest <= p && Look(mid, p) == Overlaid(Look(was, p), dest, SDir(entries[..n]), p)
    requires KeptAt(mid, now, dest + [entries[n].0], p)
    requires dest + [entries[n].0] <= p ==> PartWayAt(mid, now, dest + [entries[n].0], entries[n].1, p)
    ensures PartWayAt(was, now, dest, SDir(entries), p)
  {
    var (name, child) := entries[n];
    var q := p[|dest|..];
    if q == [] {
      assert p == dest;
    } else if q[0] == name {
      assert dest + [name] <= p && q[1..] == p[|dest| + 1..];
      NamedFresh(entries, n, name);
      NamedInWhole(entries, n + 1, name);
    } else {
      assert !(dest + [name] <= p) by { assert p[|dest|] == q[0]; }
      assert !(p < dest + [name]);
      if Named(entries[..n], q[0]).Some? { NamedInWhole(entries, n, q[0]); }
    }
  }

  /** The first k steps of mkdirAll have been made, over no file. */
  ghost predicate MadeUpTo(was: Cubby, now: Cubby, dest: Path, k: nat) {
    k <= |dest| && WayMade(was, now, dest[..k]) && forall i :: 0 < i <= k ==> !FileAt(was, dest[..i])
  }

  // ---- refuseSelfCopy ---------------------------------------------------------------------------

  /** srcAbs and destAbs are absolute and cleaned. */
  predicate RefusesSelfCopy(srcAbs: string, destAbs: string) {
    srcAbs == destAbs || srcAbs + "/" <= destAbs
  }

  predicate AllEntries(parts: Path) {
    forall i :: 0 <= i < |parts| ==> Entry(parts[i])
  }

  /** A cleaned absolute path. */
  function Abs(parts: Path): string {
    "/" + Join(parts, '/')
  }

  lemma {:induction false} JoinConcat(a: Path, b: Path)
    requires a != [] && b != []
    ensures Join(a + b, '/') == Join(a, '/') + "/" + Join(b, '/')
  {
    if |a| == 1 {
      assert (a + b)[1..] == b;
    } else {
      assert (a + b)[0] == a[0] && (a + b)[1..] == a[1..] + b;
      JoinConcat(a[1..], b);
    }
  }

  /** The pieces of a cleaned absolute path between its slashes. */
  function Pieces(parts: Path): seq<string> {
    [""] + (if parts == [] then [""] else parts)
  }

  lemma AbsPieces(parts: Path)
    requires AllEntries(parts)
    ensures Split(Abs(parts), '/') == Pieces(parts)
  {
    SplitConcat("", Join(parts, '/'), '/');
    assert "" + "/" + Join(parts, '/') == Abs(parts);
    if parts != [] { SplitOfJoin(parts, '/'); }
  }

  lemma PiecesInside(src: Path, dest: Path, tail: seq<string>)
    requires AllEntries(src) && AllEntries(dest) && Pieces(dest) == Pieces(src) + tail
    ensures src <= dest && (tail != [] ==> src != [])
    ensures tail == [] ==> src == dest
  {
    assert Pieces(dest)[1] == (Pieces(src) + tail)[1];
    if dest != [] { assert Entry(dest[0]); }
    if src != [] {
      assert Entry(src[0]);
      assert dest == Pieces(dest)[1..] == (Pieces(src) + tail)[1..] == src + tail;
    }
  }

  lemma RefusedIsInside(src: Path, dest: Path)
    requires AllEntries(src) && AllEntries(dest) && RefusesSelfCopy(Abs(src), Abs(dest))
    ensures src <= dest && (src == [] ==> dest == [])
  {
    AbsPieces(src);
    AbsPieces(dest);
    if Abs(src) == Abs(dest) {
      assert Pieces(dest) == Pieces(src) + [];
      PiecesInside(src, dest, []);
    } else {
      var rest := Abs(dest)[|Abs(src)| + 1..];
      assert Abs(dest) == Abs(src) + "/" + rest;
      SplitConcat(Abs(src), rest, '/');
      PiecesInside(src, dest, Split(rest, '/'));
    }
  }

  /** A put is refused exactly when the destination is the source or lies lexically inside it, except
      that a source of "/" is only recognised when the destination is "/" itself. */
  lemma RefusesSelfCopyIff(src: Path, dest: Path)
    requires AllEntries(src) && AllEntries(dest)
    ensures RefusesSelfCopy(Abs(src), Abs(dest)) <==> src <= dest && (src == [] ==> dest == [])
  {
    if RefusesSelfCopy(Abs(src), Abs(dest)) { RefusedIsInside(src, dest); }
    if src <= dest && src != [] && src != dest {
      var below := dest[|src|..];
      assert dest == src + below;
      JoinConcat(src, below);
      assert Abs(dest) == Abs(src) + "/" + Join(below, '/');
    }
  }
}
