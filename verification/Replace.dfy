// internal/jail/jail.go: Replace, inside the directory that parentOf returned.
module Replace {
  import opened Wrappers
  import opened Tree

  /** One turn of io.Copy: a chunk written, or a read or write error after part of one. */
  datatype Turn = Write(data: string) | Break(partial: string)

  /** Which of the remaining system calls are made to fail. */
  datatype Faults = Faults(open: bool, chmod: bool, close: bool, rename: bool, cleanup: bool)

  /** The whole body, when no turn breaks. */
  function Whole(turns: seq<Turn>): string {
    if turns == [] then ""
    else Whole(turns[..|turns| - 1]) + (match turns[|turns| - 1] case Write(d) => d case Break(p) => p)
  }

  predicate Unbroken(turns: seq<Turn>) {
    forall i :: 0 <= i < |turns| ==> turns[i].Write?
  }

  /** before, with the new inode also standing under the temporary name. */
  function Staged(before: Tree, dir: Ino, tmp: string, ino: Ino, body: string): Tree
    requires IsDir(before, dir)
  {
    before[ino := File(body)][dir := before[dir].(entries := before[dir].entries[tmp := ino])]
  }

  // ---- what an observer is promised -----------------------------------------------

  function NodeAt(tree: Tree, d: Ino, name: string): Option<Node> {
    if HasEntry(tree, d, name) then Some(tree[Child(tree, d, name)]) else None
  }

  /** The destination shows the old node, or a file with exactly the new body. */
  predicate OldOrNew(before: Tree, now: Tree, dir: Ino, name: string, body: string) {
    NodeAt(now, dir, name) == NodeAt(before, dir, name) || NodeAt(now, dir, name) == Some(File(body))
  }

  /** Every other name keeps its inode, and every old inode (so every other hard link) its node. */
  ghost predicate OthersKept(before: Tree, now: Tree, dir: Ino, name: string, tmp: string) {
    && (forall i :: i in before && i != dir ==> i in now && now[i] == before[i])
    && (forall d, n :: IsDir(before, d) && (d, n) != (dir, name) && (d, n) != (dir, tmp) ==>
          && IsDir(now, d)
          && (n in now[d].entries <==> n in before[d].entries)
          && (n in before[d].entries ==> now[d].entries[n] == before[d].entries[n]))
  }

  ghost predicate Promised(before: Tree, now: Tree, dir: Ino, name: string, tmp: string, body: string) {
    OldOrNew(before, now, dir, name, body) && OthersKept(before, now, dir, name, tmp)
  }

  lemma StagedIsPromised(before: Tree, dir: Ino, name: string, tmp: string, ino: Ino, part: string, body: string)
    requires IsDir(before, dir) && ino !in before && tmp !in before[dir].entries && name != tmp
    requires Sound(before)
    ensures Promised(before, Staged(before, dir, tmp, ino, part), dir, name, tmp, body)
  {
    var now := Staged(before, dir, tmp, ino, part);
    if HasEntry(before, dir, name) && Child(before, dir, name) == dir {
      assert false;
    }
  }

  lemma SwappedIsPromised(before: Tree, dir: Ino, name: string, tmp: string, ino: Ino, body: string)
    requires IsDir(before, dir) && ino !in before && name != tmp
    ensures Promised(before, Staged(before, dir, name, ino, body), dir, name, tmp, body)
  {
  }

  /** No directory lists itself, and entries lead to inodes that exist. */
  predicate Sound(tree: Tree) {
    forall d, n :: d in tree && tree[d].Dir? && n in tree[d].entries ==>
      tree[d].entries[n] != d && tree[d].entries[n] in tree
  }

  class Disk {
    var tree: Tree
    /** Every tree another process could have seen, oldest first. */
    ghost var history: seq<Tree>

    constructor (t: Tree)
      ensures tree == t && history == [t]
    {
      tree := t;
      history := [t];
    }

    /** One system call that changes the tree. */
    method Commit(t: Tree)
      modifies this
      ensures tree == t && history == old(history) + [t]
    {
      tree := t;
      history := history + [t];
    }

    /** All that was seen since `past` is promised. */
    ghost predicate SeenSince(past: seq<Tree>, before: Tree, dir: Ino, name: string, tmp: string, body: string)
      reads this
    {
      && |past| <= |history| && history[..|past|] == past
      && forall i :: |past| <= i < |history| ==> Promised(before, history[i], dir, name, tmp, body)
    }

    /** renameat of the temporary name over the destination. */
    method Rename(ghost before: Tree, dir: Ino, name: string, tmp: string, ino: Ino, ghost past: seq<Tree>, ghost body: string)
      requires IsDir(before, dir) && ino !in before && tmp !in before[dir].entries && name != tmp
      requires tree == Staged(before, dir, tmp, ino, body) && SeenSince(past, before, dir, name, tmp, body)
      modifies this
      ensures tree == Staged(before, dir, name, ino, body) && SeenSince(past, before, dir, name, tmp, body)
      ensures Promised(before, tree, dir, name, tmp, body)
    {
      var entries := tree[dir].entries[name := ino] - {tmp};
      assert entries == before[dir].entries[name := ino];
      SwappedIsPromised(before, dir, name, tmp, ino, body);
      Commit(tree[dir := tree[dir].(entries := entries)]);
      assert tree == Staged(before, dir, name, ino, body);
    }

    /** The deferred unlinkat: the last link to the temporary inode goes, and the inode with it. */
    method Discard(ghost before: Tree, dir: Ino, name: string, tmp: string, ino: Ino, ghost past: seq<Tree>,
                   ghost part: string, ghost body: string)
      requires IsDir(before, dir) && ino !in before && tmp !in before[dir].entries
      requires tree == Staged(before, dir, tmp, ino, part) && SeenSince(past, before, dir, name, tmp, body)
      modifies this
      ensures tree == before && SeenSince(past, before, dir, name, tmp, body)
      ensures Promised(before, tree, dir, name, tmp, body)
    {
      var entries := tree[dir].entries - {tmp};
      assert entries == before[dir].entries;
      Commit(tree[dir := tree[dir].(entries := entries)] - {ino});
      assert tree == before;
    }

    /** One write to the temporary file. */
    method Append(ghost before: Tree, dir: Ino, name: string, tmp: string, ino: Ino, data: string,
                  ghost past: seq<Tree>, ghost part: string, ghost body: string)
      requires Sound(before) && IsDir(before, dir) && ino !in before && tmp !in before[dir].entries && name != tmp
      requires tree == Staged(before, dir, tmp, ino, part) && SeenSince(past, before, dir, name, tmp, body)
      modifies this
      ensures tree == Staged(before, dir, tmp, ino, part + data) && SeenSince(past, before, dir, name, tmp, body)
      ensures Promised(before, tree, dir, name, tmp, body)
    {
      var sofar := tree[ino].body + data;
      StagedIsPromised(before, dir, name, tmp, ino, sofar, body);
      assert tree[ino := File(sofar)] == Staged(before, dir, tmp, ino, sofar);
      Commit(tree[ino := File(sofar)]);
    }

    /** io.Copy into the temporary file, turn by turn; false is an error. */
    method Copy(ghost before: Tree, dir: Ino, name: string, tmp: string, ino: Ino, turns: seq<Turn>,
                ghost past: seq<Tree>, ghost body: string)
      returns (ok: bool, ghost part: string)
      requires Sound(before) && IsDir(before, dir) && ino !in before && tmp !in before[dir].entries && name != tmp
      requires tree == Staged(before, dir, tmp, ino, "") && SeenSince(past, before, dir, name, tmp, body)
      modifies this
      ensures tree == Staged(before, dir, tmp, ino, part) && SeenSince(past, before, dir, name, tmp, body)
      ensures Promised(before, tree, dir, name, tmp, body)
      ensures ok <==> Unbroken(turns)
      ensures ok ==> part == Whole(turns)
    {
      part := "";
      StagedIsPromised(before, dir, name, tmp, ino, part, body);
      for k := 0 to |turns|
        invariant part == Whole(turns[..k]) && tree == Staged(before, dir, tmp, ino, part)
        invariant Unbroken(turns[..k])
        invariant SeenSince(past, before, dir, name, tmp, body) && Promised(before, tree, dir, name, tmp, body)
      {
        assert turns[..k + 1][..k] == turns[..k];
        var data := match turns[k] case Write(d) => d case Break(p) => p;
        Append(before, dir, name, tmp, ino, data, past, part, body);
        part := part + data;
        if turns[k].Break? { return false, part; }
      }
      assert turns[..|turns|] == turns;
      return true, part;
    }

    /** Replace(): on success the name holds the whole body and nothing else changed; on an error
        the tree is as before once the cleanup unlink succeeds; and at every moment in between the
        name shows the old node or the whole new body, and no other name or inode is affected. */
    method Replace(dir: Ino, name: string, tmp: string, ino: Ino, turns: seq<Turn>, f: Faults) returns (ok: bool)
      requires Sound(tree) && IsDir(tree, dir) && ino !in tree && name != tmp
      modifies this
      ensures ok ==> tree == Staged(old(tree), dir, name, ino, Whole(turns))
      ensures !ok && !f.cleanup ==> tree == old(tree)
      ensures ok <==>
              && !f.open && tmp !in old(tree)[dir].entries
              && Unbroken(turns) && !f.chmod && !f.close && !f.rename
              && !IsDirEntry(old(tree), dir, name)
      ensures SeenSince(old(history), old(tree), dir, name, tmp, Whole(turns))
      ensures Promised(old(tree), tree, dir, name, tmp, Whole(turns))
    {
      ghost var before, past, body := tree, history, Whole(turns);
      if f.open || tmp in tree[dir].entries { return false; }
      StagedIsPromised(before, dir, name, tmp, ino, "", body);
      Commit(Staged(tree, dir, tmp, ino, ""));
      var copied;
      ghost var part;
      copied, part := Copy(before, dir, name, tmp, ino, turns, past, body);
      StagedDirEntry(before, dir, name, tmp, ino, part);
      if copied && !f.chmod && !f.close && !f.rename && !IsDirEntry(tree, dir, name) {
        Rename(before, dir, name, tmp, ino, past, body);
        return true;
      }
      if !f.cleanup { Discard(before, dir, name, tmp, ino, past, part, body); }
      return false;
    }
  }

  predicate IsDirEntry(tree: Tree, dir: Ino, name: string) {
    HasEntry(tree, dir, name) && tree[Child(tree, dir, name)].Dir?
  }

  lemma StagedDirEntry(before: Tree, dir: Ino, name: string, tmp: string, ino: Ino, part: string)
    requires IsDir(before, dir) && ino !in before && name != tmp && Sound(before)
    ensures IsDirEntry(Staged(before, dir, tmp, ino, part), dir, name) <==> IsDirEntry(before, dir, name)
  {
  }
}
