// internal/web/files.go and home.go: which directory a session's files live in.
module Cubbies {
  import opened Wrappers
  import opened Store
  import opened Text
  import opened Paths

  /** The configuration and the outside functions a cubby path depends on. root is DATA, cleaned, with
      one trailing slash; normalize is NormalizeEmail; cubbyID is the hex SHA-256 of an address; isDir
      says whether home/<id> is a real directory. */
  datatype Config = Config(
    root: string,
    pamRequired: bool,
    allowed: set<string>,
    normalize: string -> Option<string>,
    cubbyID: string -> string,
    isDir: string -> bool)

  ghost predicate HashInjective(c: Config) {
    forall a, b :: c.cubbyID(a) == c.cubbyID(b) ==> a == b
  }

  predicate TokenChar(ch: char) {
    'a' <= ch <= 'z' || 'A' <= ch <= 'Z' || '0' <= ch <= '9' || ch == '_' || ch == '-' || ch == '.'
  }

  predicate ValidUsername(name: string) {
    name != "" && name != "." && name != ".." && forall i :: 0 <= i < |name| ==> TokenChar(name[i])
  }

  predicate ValidCubbyID(id: string) {
    |id| == 64 && forall i :: 0 <= i < |id| ==> '0' <= id[i] <= '9' || 'a' <= id[i] <= 'f'
  }

  predicate AllowsEmail(c: Config, email: string) {
    c.allowed == {} || (c.normalize(email).Some? && c.normalize(email).value in c.allowed)
  }

  function EmailHomeID(c: Config, sess: Session): Option<string> {
    if sess.pam != "" || c.pamRequired then None
    else
      match c.normalize(sess.email)
      case None => None
      case Some(n) => if AllowsEmail(c, sess.email) then Some(c.cubbyID(n)) else None
  }

  function JailPath(c: Config, sess: Session): Option<string> {
    if sess.pam != "" then
      if ValidUsername(sess.pam) then Some(c.root + ("users/" + sess.pam)) else None
    else
      match EmailHomeID(c, sess)
      case None => None
      case Some(id) => if ValidCubbyID(id) && c.isDir(id) then Some(c.root + ("home/" + id)) else None
  }

  lemma SamePrefix(p: string, a: string, b: string)
    requires p + a == p + b
    ensures a == b
  {
    assert a == (p + a)[|p|..] && b == (p + b)[|p|..];
  }

  /** users/ and home/ hold different cubbies, whatever the names. */
  lemma UsersAndHomeDisjoint(root: string, name: string, id: string)
    ensures root + ("users/" + name) != root + ("home/" + id)
  {
    assert (root + ("users/" + name))[|root|] == 'u';
    assert (root + ("home/" + id))[|root|] == 'h';
  }

  /** Two sessions that have a cubby share it exactly if they have the same Unix user or, neither
      having one, the same normalised address. */
  lemma CubbiesAreSeparate(c: Config, a: Session, b: Session)
    requires HashInjective(c) && JailPath(c, a).Some? && JailPath(c, b).Some?
    ensures JailPath(c, a) == JailPath(c, b) <==>
            a.pam == b.pam && (a.pam == "" ==> c.normalize(a.email) == c.normalize(b.email))
  {
    if JailPath(c, a) == JailPath(c, b) {
      if a.pam != "" && b.pam != "" {
        SamePrefix(c.root, "users/" + a.pam, "users/" + b.pam);
        SamePrefix("users/", a.pam, b.pam);
      } else if a.pam == "" && b.pam == "" {
        var i, j := EmailHomeID(c, a).value, EmailHomeID(c, b).value;
        SamePrefix(c.root, "home/" + i, "home/" + j);
        SamePrefix("home/", i, j);
      } else if a.pam != "" {
        UsersAndHomeDisjoint(c.root, a.pam, EmailHomeID(c, b).value);
      } else {
        UsersAndHomeDisjoint(c.root, b.pam, EmailHomeID(c, a).value);
      }
    }
  }

  /** The characters of a user name, one by one. */
  const ALPHABET := LOWER + UPPER + "0123456789_-."
  const HEX := "0123456789abcdef"

  lemma RestIff(ch: char)
    ensures '0' <= ch <= '9' || ch == '_' || ch == '-' || ch == '.' <==> ch in "0123456789_-."
  {
    if '0' <= ch <= '9' { assert "0123456789_-."[(ch - '0') as int] == ch; }
    assert "0123456789_-."[10] == '_' && "0123456789_-."[11] == '-' && "0123456789_-."[12] == '.';
  }

  lemma TokenCharIff(ch: char)
    ensures TokenChar(ch) <==> ch in ALPHABET
  {
    LowerIff(ch);
    UpperIff(ch);
    RestIff(ch);
    assert ch in ALPHABET <==> ch in LOWER || ch in UPPER || ch in "0123456789_-.";
  }

  lemma ValidUsernameIff(name: string)
    ensures ValidUsername(name) <==> name !in {"", ".", ".."} && forall i :: 0 <= i < |name| ==> name[i] in ALPHABET
    ensures ValidUsername(name) ==> Simple(name)
  {
    forall i | 0 <= i < |name| ensures TokenChar(name[i]) <==> name[i] in ALPHABET { TokenCharIff(name[i]); }
    if ValidUsername(name) {
      forall i | 0 <= i < |name| ensures name[i] !in {'/', '\\', NUL} { assert TokenChar(name[i]); }
    }
  }

  lemma ValidCubbyIDIff(id: string)
    ensures ValidCubbyID(id) <==> |id| == 64 && forall i :: 0 <= i < |id| ==> id[i] in HEX
    ensures ValidCubbyID(id) ==> Simple(id)
  {
    forall i | 0 <= i < |id| ensures '0' <= id[i] <= '9' || 'a' <= id[i] <= 'f' <==> id[i] in HEX { HexIff(id[i]); }
  }

  lemma HexIff(ch: char)
    ensures '0' <= ch <= '9' || 'a' <= ch <= 'f' <==> ch in HEX
  {
    if '0' <= ch <= '9' { assert HEX[(ch - '0') as int] == ch; }
    if 'a' <= ch <= 'f' { assert HEX[10 + (ch - 'a') as int] == ch; }
  }

  /** A session with a Unix user has the cubby users/<user> if the name is a plain token. One without has
      home/<hash of its address> exactly if no Unix password is required, the address is well formed and,
      where there is an allowlist, on it, and the directory is there. There is no other cubby. */
  lemma CubbyIff(c: Config, sess: Session, path: string)
    ensures JailPath(c, sess) == Some(path) <==>
            if sess.pam != "" then
              && sess.pam !in {".", ".."} && (forall i :: 0 <= i < |sess.pam| ==> sess.pam[i] in ALPHABET)
              && path == c.root + ("users/" + sess.pam)
            else
              && !c.pamRequired && c.normalize(sess.email).Some?
              && var n := c.normalize(sess.email).value;
              && (c.allowed == {} || n in c.allowed) && c.isDir(c.cubbyID(n))
              && |c.cubbyID(n)| == 64 && (forall i :: 0 <= i < 64 ==> c.cubbyID(n)[i] in HEX)
              && path == c.root + ("home/" + c.cubbyID(n))
  {
    ValidUsernameIff(sess.pam);
    if c.normalize(sess.email).Some? { ValidCubbyIDIff(c.cubbyID(c.normalize(sess.email).value)); }
  }

  /** Every cubby is one plain name below users/ or home/. */
  lemma CubbyIsOneName(c: Config, sess: Session)
    requires JailPath(c, sess).Some?
    ensures exists name :: Simple(name) && JailPath(c, sess).value in {c.root + ("users/" + name), c.root + ("home/" + name)}
  {
    if sess.pam != "" {
      ValidUsernameIff(sess.pam);
      assert Simple(sess.pam);
    } else {
      var id := EmailHomeID(c, sess).value;
      ValidCubbyIDIff(id);
      assert Simple(id);
    }
  }
}
