// internal/web/auth.go and internal/osutil/chmod.go: the recursive repair of a cubby's modes.
module Repair {
  type Ino = nat
  type Mode = bv12

  const DIR_MODE: Mode := 0x5F8      // 02770
  const PERM: Mode := 0x1FF          // 0777
  const OWNER_EXEC: Mode := 0x40     // 0100
  const GROUP_READ: Mode := 0x20     // 0040
  const GROUP_EXEC: Mode := 0x8      // 0010
  const OTHERS: Mode := 0x7          // 0007

  /** What a walk of the cubby finds; an inode may turn up under several names. */
  datatype Shape = Dir(ino: Ino, kids: seq<Shape>) | Reg(ino: Ino) | Symlink(ino: Ino) | Special(ino: Ino)

  /** fixCubbyFD's mode for a regular file. */
  function FileMode(m: Mode): Mode {
    var perm := m & PERM;
    var want := (perm | GROUP_READ) & !OTHERS;
    if perm & OWNER_EXEC != 0 then want | GROUP_EXEC else want
  }

  /** Group may read, and execute if the owner may; nothing for others, no special bits; the owner's
      bits and group write are as they were. In octal: 0040, 0010 with 0100, 0007, 07000, 0700, 0020. */
  lemma FileModeBits(m: Mode)
    ensures FileMode(m) & 0x20 == 0x20
    ensures FileMode(m) & 0x7 == 0 && FileMode(m) & 0xE00 == 0
    ensures FileMode(m) & 0x1C0 == m & 0x1C0
    ensures FileMode(m) & 0x10 == m & 0x10
    ensures FileMode(m) & 0x8 == if m & 0x40 != 0 then 0x8 else m & 0x8
  {
  }

  lemma FileModeIdempotent(m: Mode)
    ensures FileMode(FileMode(m)) == FileMode(m)
  {
  }

  function Dirs(s: Shape): set<Ino> {
    match s case Dir(i, kids) => {i} + DirsOf(kids) case _ => {}
  }

  function DirsOf(kids: seq<Shape>): set<Ino> {
    if kids == [] then {} else DirsOf(kids[..|kids| - 1]) + Dirs(kids[|kids| - 1])
  }

  function Regs(s: Shape): set<Ino> {
    match s case Dir(_, kids) => RegsOf(kids) case Reg(i) => {i} case _ => {}
  }

  function RegsOf(kids: seq<Shape>): set<Ino> {
    if kids == [] then {} else RegsOf(kids[..|kids| - 1]) + Regs(kids[|kids| - 1])
  }

  /** Every directory in dirs at 02770, every file in regs at its file mode, the rest untouched. */
  function Fixed(mode: map<Ino, Mode>, dirs: set<Ino>, regs: set<Ino>): map<Ino, Mode> {
    map i | i in mode :: if i in dirs then DIR_MODE else if i in regs then FileMode(mode[i]) else mode[i]
  }

  /** n is s or stands somewhere below it. */
  ghost predicate Found(s: Shape, n: Shape)
    decreases s
  {
    n == s || (s.Dir? && exists k :: 0 <= k < |s.kids| && Found(s.kids[k], n))
  }

  /** Dirs and Regs are the inodes of all directories and all regular files that a walk finds. */
  lemma {:induction false} DirsAndRegsIff(s: Shape, i: Ino)
    ensures i in Dirs(s) <==> exists n :: Found(s, n) && n.Dir? && n.ino == i
    ensures i in Regs(s) <==> exists n :: Found(s, n) && n.Reg? && n.ino == i
    decreases s
  {
    if s.Dir? {
      forall k | 0 <= k < |s.kids|
        ensures i in Dirs(s.kids[k]) <==> exists n :: Found(s.kids[k], n) && n.Dir? && n.ino == i
        ensures i in Regs(s.kids[k]) <==> exists n :: Found(s.kids[k], n) && n.Reg? && n.ino == i
      {
        DirsAndRegsIff(s.kids[k], i);
      }
      OfKids(s.kids, i);
      if k :| 0 <= k < |s.kids| && i in Dirs(s.kids[k]) {
        var n :| Found(s.kids[k], n) && n.Dir? && n.ino == i;
        assert Found(s, n);
      }
      if k :| 0 <= k < |s.kids| && i in Regs(s.kids[k]) {
        var n :| Found(s.kids[k], n) && n.Reg? && n.ino == i;
        assert Found(s, n);
      }
    }
    assert Found(s, s);
  }

  lemma {:induction false} OfKids(kids: seq<Shape>, i: Ino)
    ensures i in DirsOf(kids) <==> exists k :: 0 <= k < |kids| && i in Dirs(kids[k])
    ensures i in RegsOf(kids) <==> exists k :: 0 <= k < |kids| && i in Regs(kids[k])
  {
    if kids != [] {
      var n := |kids| - 1;
      var most := kids[..n];
      OfKids(most, i);
      assert forall k :: 0 <= k < n ==> most[k] == kids[k];
      if k :| 0 <= k < |most| && i in Dirs(most[k]) { assert i in Dirs(kids[k]); }
      if k :| 0 <= k < |most| && i in Regs(most[k]) { assert i in Regs(kids[k]); }
      if k :| 0 <= k < |kids| && i in Dirs(kids[k]) { assert k < n ==> i in Dirs(most[k]); }
      if k :| 0 <= k < |kids| && i in Regs(kids[k]) { assert k < n ==> i in Regs(most[k]); }
    }
  }

  /** After a repair of s: 02770 on every directory found, on every regular file found its own bits for the
      owner, read for the group and nothing for others, and the rest as it was. */
  lemma RepairMeans(mode: map<Ino, Mode>, s: Shape, n: Shape)
    requires Dirs(s) !! Regs(s) && Found(s, n) && n.ino in mode
    ensures var now := Fixed(mode, Dirs(s), Regs(s));
            && now.Keys == mode.Keys
            && (n.Dir? ==> now[n.ino] == 0x5F8)
            && (n.Reg? ==> now[n.ino] & 0x1E7 == (mode[n.ino] & 0x1C0) | 0x20)
            && forall i :: i in mode && i !in Dirs(s) && i !in Regs(s) ==> now[i] == mode[i]
  {
    DirsAndRegsIff(s, n.ino);
    if n.Reg? { FileModeBits(mode[n.ino]); OwnerAndGroup(mode[n.ino]); }
  }

  lemma OwnerAndGroup(m: Mode)
    ensures FileMode(m) & 0x1E7 == (m & 0x1C0) | 0x20
  {
  }

  lemma FixedCompose(mode: map<Ino, Mode>, dirs: set<Ino>, regs: set<Ino>, dirs2: set<Ino>, regs2: set<Ino>)
    requires (dirs + dirs2) !! (regs + regs2)
    ensures Fixed(Fixed(mode, dirs, regs), dirs2, regs2) == Fixed(mode, dirs + dirs2, regs + regs2)
  {
    forall i | i in mode { FileModeIdempotent(mode[i]); }
  }

  /** A repaired cubby is a fixed point. */
  lemma FixedTwice(mode: map<Ino, Mode>, dirs: set<Ino>, regs: set<Ino>)
    requires dirs !! regs
    ensures Fixed(Fixed(mode, dirs, regs), dirs, regs) == Fixed(mode, dirs, regs)
  {
    FixedCompose(mode, dirs, regs, dirs, regs);
    assert dirs + dirs == dirs && regs + regs == regs;
  }

  class Inodes {
    var mode: map<Ino, Mode>
    var chmods: nat   // fchmod calls that reached the kernel

    /** osutil.Fchmod: no call when the bits are right already. */
    method Fchmod(i: Ino, want: Mode)
      requires i in mode
      modifies this
      ensures mode == old(mode)[i := want]
      ensures chmods == old(chmods) + if old(mode)[i] == want then 0 else 1
    {
      if mode[i] == want { return; }
      mode := mode[i := want];
      chmods := chmods + 1;
    }

    /** fixCubbyFD on an open node; symlinks are never opened, other kinds are left alone. */
    method FixNode(s: Shape)
      requires s.ino in mode
      modifies this
      ensures mode == match s
                      case Dir(i, _) => Fixed(old(mode), {i}, {})
                      case Reg(i) => Fixed(old(mode), {}, {i})
                      case _ => old(mode)
      ensures mode == old(mode) ==> chmods == old(chmods)
    {
      match s {
        case Dir(i, _) => Fchmod(i, DIR_MODE);
        case Reg(i) => Fchmod(i, FileMode(mode[i]));
        case _ =>
      }
    }

    /** fixCubbyDirChildren: every child, and below every child directory. */
    method FixChildren(d: Shape)
      requires d.Dir? && DirsOf(d.kids) !! RegsOf(d.kids) && DirsOf(d.kids) + RegsOf(d.kids) <= mode.Keys
      modifies this
      ensures mode == Fixed(old(mode), DirsOf(d.kids), RegsOf(d.kids))
      ensures Fixed(old(mode), DirsOf(d.kids), RegsOf(d.kids)) == old(mode) ==> chmods == old(chmods)
      decreases d, 0
    {
      ghost var was := mode;
      var kids := d.kids;
      assert Fixed(was, {}, {}) == was;
      for n := 0 to |kids|
        invariant mode == Fixed(was, DirsOf(kids[..n]), RegsOf(kids[..n])) && mode.Keys == was.Keys
        invariant DirsOf(kids[..n]) <= DirsOf(kids) && RegsOf(kids[..n]) <= RegsOf(kids)
        invariant Fixed(was, DirsOf(kids), RegsOf(kids)) == was ==> chmods == old(chmods)
      {
        var e := kids[n];
        assert kids[..n + 1][..n] == kids[..n];
        KidsWithin(kids, n);
        Unmoved(was, DirsOf(kids), RegsOf(kids), DirsOf(kids[..n]), RegsOf(kids[..n]));
        Unmoved(was, DirsOf(kids), RegsOf(kids), DirsOf(kids[..n + 1]), RegsOf(kids[..n + 1]));
        FixedCompose(was, DirsOf(kids[..n]), RegsOf(kids[..n]), Dirs(e), Regs(e));
        if e.Dir? || e.Reg? { FixBelow(e); } else { assert mode == Fixed(mode, {}, {}); }
      }
      assert kids[..|kids|] == kids;
    }

    /** A node and, if it is a directory, everything below it. */
    method FixBelow(s: Shape)
      requires (s.Dir? || s.Reg?) && Dirs(s) !! Regs(s) && Dirs(s) + Regs(s) <= mode.Keys
      modifies this
      ensures mode == Fixed(old(mode), Dirs(s), Regs(s))
      ensures Fixed(old(mode), Dirs(s), Regs(s)) == old(mode) ==> chmods == old(chmods)
      decreases s, 1
    {
      ghost var was := mode;
      if s.Dir? {
        Unmoved(was, Dirs(s), Regs(s), {s.ino}, {});
        Unmoved(was, Dirs(s), Regs(s), DirsOf(s.kids), RegsOf(s.kids));
        FixedCompose(was, {s.ino}, {}, DirsOf(s.kids), RegsOf(s.kids));
        assert {} + RegsOf(s.kids) == RegsOf(s.kids);
      }
      FixNode(s);
      if s.Dir? { FixChildren(s); }
    }
  }

  /** What a larger repair would leave alone, a smaller one leaves alone. */
  lemma Unmoved(mode: map<Ino, Mode>, dirs: set<Ino>, regs: set<Ino>, fewer: set<Ino>, less: set<Ino>)
    requires dirs !! regs && fewer <= dirs && less <= regs
    ensures Fixed(mode, dirs, regs) == mode ==> Fixed(mode, fewer, less) == mode
  {
    if Fixed(mode, dirs, regs) == mode {
      forall i | i in mode ensures Fixed(mode, fewer, less)[i] == mode[i] {
        assert Fixed(mode, dirs, regs)[i] == mode[i];
      }
    }
  }

  lemma {:induction false} KidsWithin(kids: seq<Shape>, n: nat)
    requires n < |kids|
    ensures DirsOf(kids[..n + 1]) == DirsOf(kids[..n]) + Dirs(kids[n])
    ensures RegsOf(kids[..n + 1]) == RegsOf(kids[..n]) + Regs(kids[n])
    ensures DirsOf(kids[..n + 1]) <= DirsOf(kids) && RegsOf(kids[..n + 1]) <= RegsOf(kids)
    decreases |kids|
  {
    assert kids[..n + 1][..n] == kids[..n];
    if n + 1 == |kids| {
      assert kids[..n + 1] == kids;
    } else {
      var shorter := kids[..|kids| - 1];
      assert shorter[..n + 1] == kids[..n + 1] && shorter[..n] == kids[..n];
      KidsWithin(shorter, n);
    }
  }
}
