// Splitting and joining of strings, as Go's strings.Split and strings.Join do it.
module Text {

  /** The pieces of s between occurrences of sep; always at least one piece. */
  function Split(s: string, sep: char): (pieces: seq<string>)
    ensures |pieces| > 0
    ensures forall i :: 0 <= i < |pieces| ==> sep !in pieces[i]
  {
    if s == [] then [""]
    else if s[0] == sep then [""] + Split(s[1..], sep)
    else
      var rest := Split(s[1..], sep);
      [[s[0]] + rest[0]] + rest[1..]
  }

  function Join(pieces: seq<string>, sep: char): (s: string)
  {
    if |pieces| == 0 then ""
    else if |pieces| == 1 then pieces[0]
    else pieces[0] + [sep] + Join(pieces[1..], sep)
  }

  /** Splitting is a homomorphism: a separator between two texts keeps their pieces apart. */
  lemma {:induction false} SplitConcat(a: string, b: string, sep: char)
    ensures Split(a + [sep] + b, sep) == Split(a, sep) + Split(b, sep)
  {
    if a == [] {
      assert a + [sep] + b == [sep] + b;
      assert ([sep] + b)[1..] == b;
    } else {
      assert (a + [sep] + b)[1..] == a[1..] + [sep] + b;
      SplitConcat(a[1..], b, sep);
    }
  }

  lemma {:induction false} SplitWhole(s: string, sep: char)
    requires sep !in s
    ensures Split(s, sep) == [s]
  {
    if s != [] {
      assert s == [s[0]] + s[1..];
      SplitWhole(s[1..], sep);
    }
  }

  /** Splitting undoes joining. */
  lemma {:induction false} SplitOfJoin(pieces: seq<string>, sep: char)
    requires |pieces| > 0
    requires forall i :: 0 <= i < |pieces| ==> sep !in pieces[i]
    ensures Split(Join(pieces, sep), sep) == pieces
  {
    SplitWhole(pieces[0], sep);
    if |pieces| > 1 {
      SplitOfJoin(pieces[1..], sep);
      SplitConcat(pieces[0], Join(pieces[1..], sep), sep);
      assert pieces == [pieces[0]] + pieces[1..];
    } else {
      assert pieces == [pieces[0]];
    }
  }

  /** Joining undoes splitting. */
  lemma {:induction false} JoinOfSplit(s: string, sep: char)
    ensures Join(Split(s, sep), sep) == s
  {
    if s != [] {
      JoinOfSplit(s[1..], sep);
      var rest := Split(s[1..], sep);
      if s[0] == sep {
        assert ([""] + rest)[1..] == rest;
      } else {
        assert ([[s[0]] + rest[0]] + rest[1..])[1..] == rest[1..];
      }
    }
  }

  const LOWER := "abcdefghijklmnopqrstuvwxyz"
  const UPPER := "ABCDEFGHIJKLMNOPQRSTUVWXYZ"

  lemma LowerIff(ch: char)
    ensures 'a' <= ch <= 'z' <==> ch in LOWER
  {
    if 'a' <= ch <= 'z' { assert LOWER[(ch - 'a') as int] == ch; }
  }

  lemma UpperIff(ch: char)
    ensures 'A' <= ch <= 'Z' <==> ch in UPPER
  {
    if 'A' <= ch <= 'Z' { assert UPPER[(ch - 'A') as int] == ch; }
  }
}
