// internal/store/store.go: the link table, the session files and the subject pins, and the
// operations the program runs on them while it holds the lock.
module Store {
  import opened Wrappers

  datatype Key = Key(iss: string, sub: string)

  /** The key of a session that came from a password alone. */
  const NOBODY := Key("", "")

  datatype Session = Session(id: string, key: Key, pam: string, email: string, expires: int)
  datatype Link = Link(key: Key, pam: string)
  datatype Subject = Subject(email: string, key: Key)

  type Sessions = map<string, Session>

  // ---- the link table -------------------------------------------------------------

  /** The first row for key. */
  function LinkOf(links: seq<Link>, key: Key): Option<string> {
    if links == [] then None
    else if links[0].key == key then Some(links[0].pam)
    else LinkOf(links[1..], key)
  }

  /** Overwrite the first row for key, or append one. */
  function WithLink(links: seq<Link>, key: Key, pam: string): seq<Link> {
    if links == [] then [Link(key, pam)]
    else if links[0].key == key then [Link(key, pam)] + links[1..]
    else [links[0]] + WithLink(links[1..], key, pam)
  }

  /** The rows that do not name pam, in order. */
  function Without(links: seq<Link>, pam: string): seq<Link> {
    if links == [] then []
    else if links[0].pam == pam then Without(links[1..], pam)
    else [links[0]] + Without(links[1..], pam)
  }

  /** The rows that name pam, in order. */
  function Naming(links: seq<Link>, pam: string): seq<Link> {
    if links == [] then []
    else if links[0].pam == pam then [links[0]] + Naming(links[1..], pam)
    else Naming(links[1..], pam)
  }

  function KeysNaming(links: seq<Link>, pam: string): set<Key> {
    set l | l in links && l.pam == pam :: l.key
  }

  /** At most one row per (issuer, sub). */
  predicate OneRowEach(links: seq<Link>) {
    forall i, j :: 0 <= i < j < |links| ==> links[i].key != links[j].key
  }

  lemma {:induction false} LinkOfMember(links: seq<Link>, key: Key)
    ensures LinkOf(links, key).Some? ==> Link(key, LinkOf(links, key).value) in links
    ensures LinkOf(links, key) == None <==> forall l :: l in links ==> l.key != key
  {
    if links != [] { LinkOfMember(links[1..], key); }
  }

  lemma {:induction false} LinkOfUnique(links: seq<Link>, l: Link)
    requires OneRowEach(links) && l in links
    ensures LinkOf(links, l.key) == Some(l.pam)
  {
    if links[0] != l {
      var i :| 0 <= i < |links| && links[i] == l;
      assert links[0].key != l.key;
      assert links[1..][i - 1] == l;
      LinkOfUnique(links[1..], l);
    }
  }

  lemma {:induction false} LinkOfWithLink(links: seq<Link>, key: Key, pam: string, k: Key)
    ensures LinkOf(WithLink(links, key, pam), k) == if k == key then Some(pam) else LinkOf(links, k)
  {
    if links != [] {
      if links[0].key == key {
        assert ([Link(key, pam)] + links[1..])[1..] == links[1..];
      } else {
        LinkOfWithLink(links[1..], key, pam, k);
        assert ([links[0]] + WithLink(links[1..], key, pam))[1..] == WithLink(links[1..], key, pam);
      }
    }
  }

  /** A row in front whose subject has no other row. */
  lemma OneRowFirst(l: Link, rest: seq<Link>)
    requires OneRowEach(rest) && forall r :: r in rest ==> r.key != l.key
    ensures OneRowEach([l] + rest)
  {
    forall j | 0 < j < |[l] + rest| ensures ([l] + rest)[j].key != l.key { assert ([l] + rest)[j] in rest; }
  }

  lemma {:induction false} WithLinkRows(links: seq<Link>, key: Key, pam: string)
    requires OneRowEach(links)
    ensures OneRowEach(WithLink(links, key, pam))
    ensures forall l :: l in WithLink(links, key, pam) <==> l == Link(key, pam) || (l in links && l.key != key)
  {
    if links != [] {
      var first, rest := links[0], links[1..];
      assert links == [first] + rest;
      assert forall r :: r in rest ==> r.key != first.key;
      if first.key == key {
        OneRowFirst(Link(key, pam), rest);
      } else {
        WithLinkRows(rest, key, pam);
        OneRowFirst(first, WithLink(rest, key, pam));
      }
    }
  }

  lemma WithLinkMembers(links: seq<Link>, key: Key, pam: string)
    requires OneRowEach(links)
    ensures OneRowEach(WithLink(links, key, pam))
    ensures forall l :: l in WithLink(links, key, pam) <==> l == Link(key, pam) || (l in links && l.key != key)
    ensures forall k :: LinkOf(WithLink(links, key, pam), k) == if k == key then Some(pam) else LinkOf(links, k)
  {
    WithLinkRows(links, key, pam);
    forall k ensures LinkOf(WithLink(links, key, pam), k) == if k == key then Some(pam) else LinkOf(links, k) {
      LinkOfWithLink(links, key, pam, k);
    }
  }

  lemma {:induction false} WithoutMembers(links: seq<Link>, pam: string)
    ensures forall l :: l in Without(links, pam) <==> l in links && l.pam != pam
    ensures forall l :: l in Naming(links, pam) <==> l in links && l.pam == pam
    ensures OneRowEach(links) ==> OneRowEach(Without(links, pam))
  {
    if links != [] {
      var rest := links[1..];
      assert links == [links[0]] + rest;
      WithoutMembers(rest, pam);
      if OneRowEach(links) && links[0].pam != pam { OneRowFirst(links[0], Without(rest, pam)); }
    }
  }

  /** Removing the rows of pam forgets exactly the keys that were linked to pam. */
  lemma LinkOfWithout(links: seq<Link>, pam: string, key: Key)
    requires OneRowEach(links)
    ensures LinkOf(Without(links, pam), key) ==
            if LinkOf(links, key) == Some(pam) then None else LinkOf(links, key)
    ensures key in KeysNaming(links, pam) <==> LinkOf(links, key) == Some(pam)
  {
    var kept := Without(links, pam);
    WithoutMembers(links, pam);
    LinkOfMember(links, key);
    LinkOfMember(kept, key);
    if LinkOf(links, key).Some? {
      var l := Link(key, LinkOf(links, key).value);
      if l.pam != pam { LinkOfUnique(kept, l); }
    }
    if LinkOf(kept, key).Some? {
      LinkOfUnique(links, Link(key, LinkOf(kept, key).value));
    }
    forall l | l in links && l.key == key && l.pam == pam ensures LinkOf(links, key) == Some(pam) {
      LinkOfUnique(links, l);
    }
    if LinkOf(links, key) == Some(pam) {
      assert Link(key, pam) in links && Link(key, pam).key == key;
    }
  }

  // ---- clearing sessions ------------------------------------------------------------

  datatype Match =
    | ForUser(pam: string, want: set<Key>)
    | ForSubject(key: Key, except: string)

  /** Which sessions a scan clears. */
  predicate Hits(m: Match, s: Session) {
    match m
    case ForUser(pam, want) => (s.pam == pam || s.key in want) && s.pam != ""
    case ForSubject(key, except) => s.id != except && s.key == key && s.pam != ""
  }

  function Cleared(s: Session): Session {
    s.(pam := "")
  }

  /** The sessions after a scan that has got through the files in `done`. */
  function ClearSome(sessions: Sessions, m: Match, done: set<string>): Sessions {
    map id | id in sessions :: if id in done && Hits(m, sessions[id]) then Cleared(sessions[id]) else sessions[id]
  }

  function ClearAll(sessions: Sessions, m: Match): Sessions {
    ClearSome(sessions, m, sessions.Keys)
  }

  function HitIds(sessions: Sessions, m: Match, done: set<string>): set<string> {
    set id | id in sessions && id in done && Hits(m, sessions[id])
  }

  /** A file holds the session its name says. */
  predicate Keyed(sessions: Sessions) {
    forall id :: id in sessions ==> sessions[id].id == id
  }

  // ---- the agreement of the two files --------------------------------------------------

  predicate Agrees(links: seq<Link>, s: Session) {
    s.key != NOBODY && s.pam != "" ==> LinkOf(links, s.key) == Some(s.pam)
  }

  predicate Agree(links: seq<Link>, sessions: Sessions) {
    forall id :: id in sessions ==> Agrees(links, sessions[id])
  }

  /** Dropping the rows of pam makes exactly the matched sessions disagree. */
  lemma UnlinkBreaksExactlyHits(links: seq<Link>, s: Session, pam: string)
    requires OneRowEach(links) && Agrees(links, s) && pam != "" && s.key != NOBODY
    ensures Agrees(Without(links, pam), s) <==> !Hits(ForUser(pam, KeysNaming(links, pam)), s)
    ensures Hits(ForUser(pam, KeysNaming(links, pam)), s) <==> s.pam == pam
  {
    LinkOfWithout(links, pam, s.key);
  }

  /** Moving a subject to another user makes exactly its other sessions disagree. */
  lemma RelinkBreaksExactlyHits(links: seq<Link>, s: Session, key: Key, pam: string, except: string)
    requires OneRowEach(links) && Agrees(links, s) && s.key != NOBODY && s.id != except
    ensures LinkOf(links, key) == Some(pam) || LinkOf(links, key) == None
            ==> Agrees(WithLink(links, key, pam), s)
    ensures LinkOf(links, key) != Some(pam)
            ==> (Agrees(WithLink(links, key, pam), s) <==> !Hits(ForSubject(key, except), s))
  {
    WithLinkMembers(links, key, pam);
  }

  // ---- UnlinkPAM as a whole ---------------------------------------------------------

  function UnlinkMatch(links: seq<Link>, pam: string): Match {
    ForUser(pam, KeysNaming(links, pam))
  }

  function Unlinked(links: seq<Link>, sessions: Sessions, pam: string): (seq<Link>, Sessions) {
    (Without(links, pam), ClearAll(sessions, UnlinkMatch(links, pam)))
  }

  lemma {:induction false} WithoutConcat(a: seq<Link>, b: seq<Link>, pam: string)
    ensures Without(a + b, pam) == Without(a, pam) + Without(b, pam)
    ensures Naming(a + b, pam) == Naming(a, pam) + Naming(b, pam)
  {
    if a == [] {
      assert a + b == b;
    } else {
      assert (a + b)[0] == a[0] && (a + b)[1..] == a[1..] + b;
      WithoutConcat(a[1..], b, pam);
    }
  }

  /** UnlinkPAM in plain terms: a session loses its user exactly if that is pam or if its subject had a row
      that names pam; nothing else changes. */
  lemma UnlinkedMeans(links: seq<Link>, sessions: Sessions, pam: string, id: string)
    requires pam != "" && id in sessions
    ensures var after, x := Unlinked(links, sessions, pam).1, sessions[id];
            && after.Keys == sessions.Keys
            && after[id] == if x.pam == pam || Link(x.key, pam) in links then x.(pam := "") else x
  {
    var x := sessions[id];
    if Link(x.key, pam) in links { assert Link(x.key, pam).key == x.key; }
  }

  /** What a scan counts is the sessions it changes. */
  lemma CountIsChanged(sessions: Sessions, m: Match)
    ensures HitIds(sessions, m, sessions.Keys) == set id | id in sessions && ClearAll(sessions, m)[id] != sessions[id]
  {
  }

  /** The state when UnlinkPAM stops after the links write and the files in done. */
  function Interrupted(links: seq<Link>, sessions: Sessions, pam: string, done: set<string>): (seq<Link>, Sessions) {
    (Without(links, pam), ClearSome(sessions, UnlinkMatch(links, pam), done))
  }

  /** The one thing a retry can miss: with a row ("", "") -> pam, a password-only session of some
      other user that the first attempt had not reached. */
  predicate Stranded(links: seq<Link>, sessions: Sessions, pam: string, done: set<string>) {
    exists id :: id in sessions && StrandedOne(links, sessions[id], pam, id in done)
  }

  lemma {:induction false} WithoutTwice(links: seq<Link>, pam: string)
    ensures Without(Without(links, pam), pam) == Without(links, pam)
  {
    if links != [] {
      WithoutTwice(links[1..], pam);
      if links[0].pam != pam {
        assert ([links[0]] + Without(links[1..], pam))[1..] == Without(links[1..], pam);
      }
    }
  }

  lemma RetryMatch(links: seq<Link>, pam: string)
    ensures UnlinkMatch(Without(links, pam), pam) == ForUser(pam, {})
  {
    WithoutMembers(links, pam);
  }

  /** Retrying an interrupted UnlinkPAM reaches the uninterrupted result exactly when no
      session is stranded. */
  lemma RetryConverges(links: seq<Link>, sessions: Sessions, pam: string, done: set<string>)
    requires pam != "" && OneRowEach(links) && Agree(links, sessions)
    ensures var (l, s) := Interrupted(links, sessions, pam, done);
            Unlinked(l, s, pam) == Unlinked(links, sessions, pam) <==> !Stranded(links, sessions, pam, done)
  {
    var (l, s) := Interrupted(links, sessions, pam, done);
    WithoutTwice(links, pam);
    RetryMatch(links, pam);
    forall id | id in sessions
      ensures ClearAll(s, ForUser(pam, {}))[id] == ClearAll(sessions, UnlinkMatch(links, pam))[id] <==>
              !StrandedOne(links, sessions[id], pam, id in done)
    {
      RetryOfOne(links, sessions[id], pam);
    }
    if !Stranded(links, sessions, pam, done) {
      assert ClearAll(s, ForUser(pam, {})) == ClearAll(sessions, UnlinkMatch(links, pam));
    }
  }

  predicate StrandedOne(links: seq<Link>, s: Session, pam: string, done: bool) {
    !done && Link(NOBODY, pam) in links && s.key == NOBODY && s.pam !in {"", pam}
  }

  lemma RetryOfOne(links: seq<Link>, s: Session, pam: string)
    requires pam != "" && OneRowEach(links) && Agrees(links, s)
    ensures Hits(UnlinkMatch(links, pam), s) && s.pam != pam <==> StrandedOne(links, s, pam, false)
  {
    if s.key != NOBODY { UnlinkBreaksExactlyHits(links, s, pam); }
    if Link(NOBODY, pam) in links { assert Link(NOBODY, pam).key == NOBODY; }
  }

  // ---- pins ---------------------------------------------------------------------------

  datatype Bound = Refused | Mismatch | Pinned(subjects: seq<Subject>)

  function PinOf(subjects: seq<Subject>, email: string): Option<Key> {
    if subjects == [] then None
    else if subjects[0].email == email then Some(subjects[0].key)
    else PinOf(subjects[1..], email)
  }

  function Bind(subjects: seq<Subject>, email: string, key: Key): Bound {
    if email == "" || key.iss == "" || key.sub == "" then Refused
    else
      match PinOf(subjects, email)
      case None => Pinned(subjects + [Subject(email, key)])
      case Some(k) => if k == key then Pinned(subjects) else Mismatch
  }

  lemma {:induction false} PinOfAppend(subjects: seq<Subject>, s: Subject, email: string)
    ensures PinOf(subjects + [s], email) ==
            if PinOf(subjects, email).Some? then PinOf(subjects, email)
            else if s.email == email then Some(s.key) else None
  {
    if subjects == [] {
      assert subjects + [s] == [s];
    } else {
      assert (subjects + [s])[0] == subjects[0] && (subjects + [s])[1..] == subjects[1..] + [s];
      PinOfAppend(subjects[1..], s, email);
    }
  }

  /** A pin is written once: a bind that succeeds leaves email at key, and no pin ever moves. */
  lemma BindWritesOnce(subjects: seq<Subject>, email: string, key: Key, other: string)
    requires Bind(subjects, email, key).Pinned?
    ensures var after := Bind(subjects, email, key).subjects;
            && PinOf(after, email) == Some(key)
            && (PinOf(subjects, other).Some? ==> PinOf(after, other) == PinOf(subjects, other))
            && (other != email ==> PinOf(after, other) == PinOf(subjects, other))
  {
    PinOfAppend(subjects, Subject(email, key), email);
    PinOfAppend(subjects, Subject(email, key), other);
  }
}
