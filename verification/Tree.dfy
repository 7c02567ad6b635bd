// Inodes and directory entries, and what one system call may answer.
module Tree {
  import opened Paths
  import opened Wrappers

  type Ino = nat

  datatype Node =
    | Dir(entries: map<string, Ino>, parent: Ino)
    | File(body: string)
    | Symlink(text: string)

  type Tree = map<Ino, Node>

  datatype Errno = ELOOP | EMLINK | ENOENT | ENOTDIR | EISDIR | EEXIST | EINVAL | EOTHER

  datatype Answer<+T> = Done(value: T) | Fail(errno: Errno)

  predicate IsDir(tree: Tree, d: Ino) {
    d in tree && tree[d].Dir?
  }

  predicate HasEntry(tree: Tree, d: Ino, name: string) {
    IsDir(tree, d) && name in tree[d].entries && tree[d].entries[name] in tree
  }

  function Child(tree: Tree, d: Ino, name: string): Ino
    requires HasEntry(tree, d, name)
  {
    tree[d].entries[name]
  }

  /** The flags that matter to a walk: O_CREAT (always with O_WRONLY) and O_DIRECTORY. */
  datatype Flags = Flags(creat: bool, directory: bool)

  const READ := Flags(false, false)
  const READDIR := Flags(false, true)

  /** Everything outside the program: the tree at the moment of system call number t, an error
      the call may be made to return, the inode number a creation would get, and the answer to a
      name that is not a plain entry name ("..", "a/b", ...), about which nothing is assumed. */
  datatype World = World(
    tree: nat -> Tree,
    fault: nat -> Option<Errno>,
    newIno: nat -> Ino,
    wild: nat -> Answer<Ino>)

  /** openat(dir, name, flags|O_NOFOLLOW). */
  function OpenAt(w: World, t: nat, dir: Ino, name: string, fl: Flags): Answer<Ino> {
    var tree := w.tree(t);
    if w.fault(t).Some? then Fail(w.fault(t).value)
    else if !Entry(name) then w.wild(t)
    else if !IsDir(tree, dir) then Fail(ENOTDIR)
    else if name !in tree[dir].entries then
      if fl.creat then Done(w.newIno(t)) else Fail(ENOENT)
    else if tree[dir].entries[name] !in tree then Fail(ENOENT)
    else
      var c := tree[dir].entries[name];
      match tree[c]
      case Symlink(_) => Fail(if fl.directory then ENOTDIR else ELOOP)
      case File(_) => if fl.directory then Fail(ENOTDIR) else Done(c)
      case Dir(_, _) => if fl.creat then Fail(EISDIR) else Done(c)
  }

  /** fstatat(dir, name, AT_SYMLINK_NOFOLLOW) reports a symlink. */
  function IsSymlinkAt(w: World, t: nat, dir: Ino, name: string): bool {
    if w.fault(t).Some? then false
    else if !Entry(name) then w.wild(t).Done?
    else HasEntry(w.tree(t), dir, name) && w.tree(t)[Child(w.tree(t), dir, name)].Symlink?
  }

  function ReadlinkAt(w: World, t: nat, dir: Ino, name: string): Answer<string> {
    if w.fault(t).Some? then Fail(w.fault(t).value)
    else if !Entry(name) || !HasEntry(w.tree(t), dir, name) then Fail(ENOENT)
    else
      match w.tree(t)[Child(w.tree(t), dir, name)]
      case Symlink(text) => Done(text)
      case _ => Fail(EINVAL)
  }

  /** A world in which nothing changes and no call is made to fail. */
  predicate Still(w: World, tree: Tree, t: nat) {
    w.tree(t) == tree && w.fault(t) == None
  }

  ghost predicate AlwaysStill(w: World, tree: Tree) {
    forall t: nat :: Still(w, tree, t)
  }
}
