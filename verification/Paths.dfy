// The lexical path normaliser of the jail (internal/jail/jail.go).
module Paths {
  import opened Text

  datatype PathError = Invalid | Escape
  datatype Parse = Parsed(parts: seq<string>) | Refused(err: PathError)

  const NUL: char := '\0'

  /** A byte that makes a whole path or link text malformed. */
  predicate Malformed(s: string) {
    NUL in s || '\\' in s
  }

  /** A name that one openat call resolves to an entry of the directory and to nothing else. */
  predicate Entry(p: string) {
    p != "" && p != "." && p != ".." && '/' !in p && NUL !in p
  }

  /** What the normaliser may hand to openat. */
  predicate Simple(p: string) {
    Entry(p) && '\\' !in p
  }

  predicate AllSimple(parts: seq<string>) {
    forall i :: 0 <= i < |parts| ==> Simple(parts[i])
  }

  /** The effect of one path part on the stack of components. */
  function Push(stack: seq<string>, p: string): Parse {
    if p == "" || p == "." then Parsed(stack)
    else if p == ".." then
      if |stack| == 0 then Refused(Escape) else Parsed(stack[..|stack| - 1])
    else Parsed(stack + [p])
  }

  function FoldParts(stack: seq<string>, ps: seq<string>): Parse
    decreases |ps|
  {
    if ps == [] then Parsed(stack)
    else
      match Push(stack, ps[0])
      case Refused(e) => Refused(e)
      case Parsed(s) => FoldParts(s, ps[1..])
  }

  function Components(rel: string): Parse {
    if Malformed(rel) then Refused(Invalid) else FoldParts([], Split(rel, '/'))
  }

  /** The loop of components(): push and pop on out, part by part. */
  method ComputeComponents(rel: string) returns (r: Parse)
    ensures r == Components(rel)
  {
    if NUL in rel { return Refused(Invalid); }
    if '\\' in rel { return Refused(Invalid); }
    var out: seq<string> := [];
    var ps := Split(rel, '/');
    for i := 0 to |ps|
      invariant FoldParts([], ps) == FoldParts(out, ps[i..])
    {
      var p := ps[i];
      assert ps[i..][0] == p && ps[i..][1..] == ps[i + 1..];
      if p == "" || p == "." {
        continue;
      } else if p == ".." {
        if |out| == 0 { return Refused(Escape); }
        out := out[..|out| - 1];
      } else {
        out := out + [p];
      }
    }
    return Parsed(out);
  }

  function JoinComponents(base: seq<string>, target: string): Parse {
    var prefix := Join(base, '/');
    if prefix == "" then Components(target) else Components(prefix + "/" + target)
  }

  // ---- algebra -------------------------------------------------------------

  lemma {:induction false} FoldConcat(stack: seq<string>, a: seq<string>, b: seq<string>)
    ensures FoldParts(stack, a + b) ==
            match FoldParts(stack, a) case Refused(e) => Refused(e) case Parsed(s) => FoldParts(s, b)
    decreases |a|
  {
    if a == [] {
      assert a + b == b;
    } else {
      assert (a + b)[0] == a[0] && (a + b)[1..] == a[1..] + b;
      match Push(stack, a[0]) {
        case Refused(_) =>
        case Parsed(s) => FoldConcat(s, a[1..], b);
      }
    }
  }

  /** Parts that are already simple are only pushed. */
  lemma {:induction false} FoldSimple(stack: seq<string>, parts: seq<string>)
    requires AllSimple(parts)
    ensures FoldParts(stack, parts) == Parsed(stack + parts)
    decreases |parts|
  {
    if parts == [] {
      assert stack + parts == stack;
    } else {
      assert Simple(parts[0]);
      FoldSimple(stack + [parts[0]], parts[1..]);
      assert stack + [parts[0]] + parts[1..] == stack + parts;
    }
  }

  lemma {:induction false} FoldKeepsSimple(stack: seq<string>, ps: seq<string>)
    requires AllSimple(stack)
    requires forall i :: 0 <= i < |ps| ==> '/' !in ps[i] && !Malformed(ps[i])
    ensures FoldParts(stack, ps).Parsed? ==> AllSimple(FoldParts(stack, ps).parts)
    decreases |ps|
  {
    if ps != [] {
      match Push(stack, ps[0]) {
        case Refused(_) =>
        case Parsed(s) =>
          assert '/' !in ps[0] && !Malformed(ps[0]);
          FoldKeepsSimple(s, ps[1..]);
      }
    }
  }

  lemma {:induction false} PiecesWellFormed(s: string)
    requires !Malformed(s)
    ensures forall i :: 0 <= i < |Split(s, '/')| ==> !Malformed(Split(s, '/')[i])
  {
    if s != [] {
      assert !Malformed(s[1..]);
      PiecesWellFormed(s[1..]);
    }
  }

  /** Everything components() yields is a plain name: no "", ".", "..", "/", "\" or NUL. */
  lemma ComponentsAreSimple(rel: string)
    ensures Components(rel).Parsed? ==> AllSimple(Components(rel).parts)
  {
    if !Malformed(rel) {
      PiecesWellFormed(rel);
      FoldKeepsSimple([], Split(rel, '/'));
    }
  }

  lemma {:induction false} JoinWellFormed(parts: seq<string>)
    requires AllSimple(parts)
    ensures !Malformed(Join(parts, '/'))
    ensures Join(parts, '/') == "" <==> parts == []
  {
    if |parts| > 0 {
      assert Simple(parts[0]);
      if |parts| > 1 { JoinWellFormed(parts[1..]); }
    }
  }

  /** Splitting the joined output of components() returns it unchanged. */
  lemma ComponentsOfJoin(parts: seq<string>)
    requires AllSimple(parts)
    ensures Components(Join(parts, '/')) == Parsed(parts)
  {
    JoinWellFormed(parts);
    if |parts| > 0 {
      SplitOfJoin(parts, '/');
      FoldSimple([], parts);
      assert [] + parts == parts;
    }
  }

  /** Normalising twice is normalising once. */
  lemma ComponentsIdempotent(rel: string)
    requires Components(rel).Parsed?
    ensures Components(Join(Components(rel).parts, '/')) == Components(rel)
  {
    ComponentsAreSimple(rel);
    ComponentsOfJoin(Components(rel).parts);
  }

  /** joinComponents folds the target's parts onto the base as a stack. */
  lemma JoinComponentsIsFold(base: seq<string>, target: string)
    requires AllSimple(base)
    ensures JoinComponents(base, target) ==
            if Malformed(target) then Refused(Invalid) else FoldParts(base, Split(target, '/'))
  {
    JoinWellFormed(base);
    if base != [] && !Malformed(target) {
      var prefix := Join(base, '/');
      SplitConcat(prefix, target, '/');
      SplitOfJoin(base, '/');
      FoldConcat([], base, Split(target, '/'));
      FoldSimple([], base);
      assert [] + base == base;
    }
  }

  /** Net number of pushes: the depth a sequence of parts adds to the stack. */
  function Height(ps: seq<string>): int {
    if ps == [] then 0
    else Height(ps[..|ps| - 1]) +
         (var p := ps[|ps| - 1]; if p == "" || p == "." then 0 else if p == ".." then -1 else 1)
  }

  lemma {:induction false} HeightCons(p: string, ps: seq<string>)
    ensures Height([p] + ps) == Height([p]) + Height(ps)
  {
    if ps != [] {
      assert ([p] + ps)[..|ps|] == [p] + ps[..|ps| - 1];
      HeightCons(p, ps[..|ps| - 1]);
    } else {
      assert [p] + ps == [p];
    }
  }

  /** The stack underflows exactly when some prefix of the parts pops more than is there. */
  ghost predicate Underflows(depth: nat, ps: seq<string>) {
    exists k :: 0 <= k <= |ps| && depth + Height(ps[..k]) < 0
  }

  lemma {:induction false} FoldFailsOnUnderflow(stack: seq<string>, ps: seq<string>)
    ensures FoldParts(stack, ps) == Refused(Escape) <==> Underflows(|stack|, ps)
    ensures FoldParts(stack, ps).Parsed? <==> !Underflows(|stack|, ps)
    decreases |ps|
  {
    if ps == [] {
      assert ps[..0] == [];
    } else {
      var p, rest := ps[0], ps[1..];
      assert Height([p]) == (if p == "" || p == "." then 0 else if p == ".." then -1 else 1) by {
        assert [p][..0] == [];
      }
      forall k | 0 <= k <= |rest|
        ensures Height(ps[..k + 1]) == Height([p]) + Height(rest[..k])
      {
        assert ps[..k + 1] == [p] + rest[..k];
        HeightCons(p, rest[..k]);
      }
      match Push(stack, p) {
        case Refused(_) =>
          assert rest[..0] == [];
          assert |stack| + Height(ps[..1]) < 0;
        case Parsed(s) =>
          FoldFailsOnUnderflow(s, rest);
          assert |s| == |stack| + Height([p]);
          if Underflows(|s|, rest) {
            var k :| 0 <= k <= |rest| && |s| + Height(rest[..k]) < 0;
            assert |stack| + Height(ps[..k + 1]) < 0;
          }
          if Underflows(|stack|, ps) {
            var k :| 0 <= k <= |ps| && |stack| + Height(ps[..k]) < 0;
            if k > 0 { assert |s| + Height(rest[..k - 1]) < 0; }
          }
      }
    }
  }

  /** joinComponents fails exactly on a malformed target or a stack underflow. */
  lemma JoinComponentsFailsExactly(base: seq<string>, target: string)
    requires AllSimple(base)
    ensures JoinComponents(base, target) == Refused(Invalid) <==> Malformed(target)
    ensures JoinComponents(base, target) == Refused(Escape)
            <==> !Malformed(target) && Underflows(|base|, Split(target, '/'))
  {
    JoinComponentsIsFold(base, target);
    FoldFailsOnUnderflow(base, Split(target, '/'));
  }
}
