// The store's operations as the program runs them, one at a time under the lock. What happens when
// unlocked deletes fall between their file accesses is in Protocol.dfy.
module StateDir {
  import opened Wrappers
  import opened Store

  /** UnlinkPAM's filter: `out` grows inside the very array that is being read. */
  method FilterInPlace(rows: array<Link>, pam: string) returns (kept: nat, removed: seq<Link>)
    modifies rows
    ensures kept <= rows.Length
    ensures rows[..kept] == Without(old(rows[..]), pam)
    ensures removed == Naming(old(rows[..]), pam)
  {
    kept, removed := 0, [];
    ghost var was := rows[..];
    var r := 0;
    while r < rows.Length
      invariant kept <= r <= rows.Length
      invariant rows[r..] == was[r..]
      invariant Without(was, pam) == rows[..kept] + Without(was[r..], pam)
      invariant Naming(was, pam) == removed + Naming(was[r..], pam)
    {
      var l := rows[r];
      assert l == was[r] by { assert rows[r..][0] == was[r..][0]; }
      FilterOne(was, r, pam);
      if l.pam == pam {
        removed := removed + [l];
      } else {
        rows[kept] := l;
        kept := kept + 1;
      }
      r := r + 1;
      assert rows[r..] == was[r..];
    }
  }

  lemma FilterOne(rows: seq<Link>, r: nat, pam: string)
    requires r < |rows|
    ensures Without(rows[r..], pam) == (if rows[r].pam == pam then [] else [rows[r]]) + Without(rows[r + 1..], pam)
    ensures Naming(rows[r..], pam) == (if rows[r].pam == pam then [rows[r]] else []) + Naming(rows[r + 1..], pam)
  {
    assert rows[r..][0] == rows[r] && rows[r..][1..] == rows[r + 1..];
  }

  lemma {:induction false} WithLinkAt(links: seq<Link>, key: Key, pam: string, i: nat)
    requires i <= |links| && forall j :: 0 <= j < i ==> links[j].key != key
    ensures i == |links| ==> WithLink(links, key, pam) == links + [Link(key, pam)]
    ensures i < |links| && links[i].key == key ==> WithLink(links, key, pam) == links[i := Link(key, pam)]
  {
    if i > 0 {
      WithLinkAt(links[1..], key, pam, i - 1);
      assert links == [links[0]] + links[1..];
    }
  }

  lemma {:induction false} LinkOfAt(links: seq<Link>, key: Key, i: nat)
    requires i <= |links| && forall j :: 0 <= j < i ==> links[j].key != key
    ensures LinkOf(links, key) == LinkOf(links[i..], key)
  {
    if i > 0 {
      LinkOfAt(links[1..], key, i - 1);
      assert links[1..][i - 1..] == links[i..];
    }
  }

  lemma {:induction false} PinOfAt(subjects: seq<Subject>, email: string, i: nat)
    requires i <= |subjects| && forall j :: 0 <= j < i ==> subjects[j].email != email
    ensures PinOf(subjects, email) == PinOf(subjects[i..], email)
  {
    if i > 0 {
      PinOfAt(subjects[1..], email, i - 1);
      assert subjects[1..][i - 1..] == subjects[i..];
    }
  }

  /** A file the scan has not reached is as it was. */
  lemma ClearUnread(sessions: Sessions, m: Match, done: set<string>, id: string)
    requires id in sessions && id !in done
    ensures id in ClearSome(sessions, m, done) && ClearSome(sessions, m, done)[id] == sessions[id]
  {
  }

  /** One file further. */
  lemma ClearOneMore(sessions: Sessions, m: Match, done: set<string>, id: string)
    requires id in sessions && id !in done
    ensures ClearSome(sessions, m, done + {id}) ==
            if Hits(m, sessions[id]) then ClearSome(sessions, m, done)[id := Cleared(sessions[id])]
            else ClearSome(sessions, m, done)
  {
    ClearUnread(sessions, m, done, id);
  }

  /** The count goes with it. */
  lemma CountOneMore(sessions: Sessions, m: Match, done: set<string>, id: string)
    requires id in sessions && id !in done
    ensures |HitIds(sessions, m, done + {id})| == |HitIds(sessions, m, done)| + (if Hits(m, sessions[id]) then 1 else 0)
  {
    var before, after := HitIds(sessions, m, done), HitIds(sessions, m, done + {id});
    assert after == if Hits(m, sessions[id]) then before + {id} else before;
  }

  lemma ClearKeyed(sessions: Sessions, m: Match, done: set<string>)
    requires Keyed(sessions)
    ensures Keyed(ClearSome(sessions, m, done))
  {
  }

  lemma RelinkBreaks(links: seq<Link>, files: Sessions, key: Key, pam: string, id: string)
    requires OneRowEach(links) && Keyed(files) && Agree(links, files) && id !in files
    ensures forall k :: k in files && files[k].key != NOBODY && LinkOf(links, key) in {None, Some(pam)} ==>
                          Agrees(WithLink(links, key, pam), files[k])
    ensures forall k :: k in files && files[k].key != NOBODY && LinkOf(links, key) != Some(pam) ==>
                          (Agrees(WithLink(links, key, pam), files[k]) <==> !Hits(ForSubject(key, id), files[k]))
  {
    forall k | k in files && files[k].key != NOBODY
      ensures LinkOf(links, key) in {None, Some(pam)} ==> Agrees(WithLink(links, key, pam), files[k])
      ensures LinkOf(links, key) != Some(pam) ==>
                (Agrees(WithLink(links, key, pam), files[k]) <==> !Hits(ForSubject(key, id), files[k]))
    {
      RelinkBreaksExactlyHits(links, files[k], key, pam, id);
    }
  }

  /** The sessions SaveLinkedSession leaves behind. */
  function Relinked(links: seq<Link>, sessions: Sessions, sess: Session, pam: string, id: string): Sessions {
    var saved := sessions[id := sess.(id := id, pam := pam)] - {sess.id};
    match LinkOf(links, sess.key)
    case Some(prev) => if prev != "" && prev != pam then ClearAll(saved, ForSubject(sess.key, id)) else saved
    case None => saved
  }

  /** SaveLinkedSession in plain terms: the rotated session under its new id, the old file gone, and any
      other file as it was, except that a subject moved from one user to another leaves its others without. */
  lemma RelinkedMeans(links: seq<Link>, sessions: Sessions, sess: Session, pam: string, id: string, k: string)
    requires Keyed(sessions) && id != sess.id && id !in sessions
    ensures var after := Relinked(links, sessions, sess, pam, id);
            var moved := exists prev :: LinkOf(links, sess.key) == Some(prev) && prev != "" && prev != pam;
            && after.Keys == sessions.Keys + {id} - {sess.id}
            && after[id] == sess.(id := id, pam := pam)
            && (k in sessions && k != sess.id ==>
                  after[k] == if moved && sessions[k].key == sess.key then sessions[k].(pam := "") else sessions[k])
  {
  }

  class StateDir {
    var links: seq<Link>
    var sessions: Sessions
    var subjects: seq<Subject>

    /** The invariant of a quiet store: one row per subject, and sessions that agree with it. */
    ghost predicate Valid()
      reads this
    {
      Keyed(sessions) && OneRowEach(links) && Agree(links, sessions)
    }

    constructor ()
      ensures Valid() && links == [] && sessions == map[] && subjects == []
    {
      links, sessions, subjects := [], map[], [];
    }

    method LookupLink(key: Key) returns (pam: Option<string>)
      ensures pam == LinkOf(links, key)
    {
      for i := 0 to |links|
        invariant forall j :: 0 <= j < i ==> links[j].key != key
      {
        LinkOfAt(links, key, i);
        if links[i].key == key { return Some(links[i].pam); }
      }
      LinkOfAt(links, key, |links|);
      return None;
    }

    method SetLink(key: Key, pam: string)
      modifies this`links
      ensures links == WithLink(old(links), key, pam)
    {
      for i := 0 to |links|
        invariant links == old(links)
        invariant forall j :: 0 <= j < i ==> links[j].key != key
      {
        if links[i].key == key {
          WithLinkAt(links, key, pam, i);
          links := links[i := Link(key, pam)];
          return;
        }
      }
      WithLinkAt(links, key, pam, |links|);
      links := links + [Link(key, pam)];
    }

    /** clearMatchingSessionsLocked with no delete in between: every file of the listing, in any order. */
    method ClearMatching(m: Match) returns (n: nat)
      requires Keyed(sessions)
      modifies this`sessions
      ensures sessions == ClearAll(old(sessions), m) && Keyed(sessions)
      ensures n == |HitIds(old(sessions), m, old(sessions).Keys)|
    {
      ghost var was := sessions;
      var todo := sessions.Keys;
      n := 0;
      assert HitIds(was, m, was.Keys - todo) == {};
      while todo != {}
        invariant todo <= was.Keys
        invariant sessions == ClearSome(was, m, was.Keys - todo)
        invariant n == |HitIds(was, m, was.Keys - todo)|
        decreases todo
      {
        var id :| id in todo;
        ClearUnread(was, m, was.Keys - todo, id);
        ClearOneMore(was, m, was.Keys - todo, id);
        CountOneMore(was, m, was.Keys - todo, id);
        assert was.Keys - (todo - {id}) == (was.Keys - todo) + {id};
        var sess := sessions[id];
        todo := todo - {id};
        if Hits(m, sess) {
          sessions := sessions[sess.id := sess.(pam := "")];
          n := n + 1;
        }
      }
      assert was.Keys - todo == was.Keys;
      ClearKeyed(was, m, was.Keys);
    }

    method CreateSession(id: string, key: Key, email: string, expires: int) returns (sess: Session)
      requires Valid() && id !in sessions
      modifies this`sessions
      ensures Valid() && sessions == old(sessions)[id := sess]
      ensures sess.id == id && sess.key == key && sess.email == email && sess.expires == expires
      ensures sess.pam == match LinkOf(links, key) case Some(p) => p case None => ""
    {
      var pam := LookupLink(key);
      sess := Session(id, key, match pam case Some(p) => p case None => "", email, expires);
      sessions := sessions[id := sess];
    }

    method CreatePAMSession(id: string, pam: string, expires: int) returns (ok: bool)
      requires Valid() && id !in sessions
      modifies this`sessions
      ensures Valid() && (ok <==> pam != "")
      ensures sessions == if ok then old(sessions)[id := Session(id, NOBODY, pam, "", expires)] else old(sessions)
    {
      if pam == "" { return false; }
      sessions := sessions[id := Session(id, NOBODY, pam, "", expires)];
      return true;
    }

    /** The session of a password that was accepted for sess: the link, a rotated id, and no other
        session of this subject left with another user. */
    method SaveLinkedSession(sess: Session, pam: string, id: string)
      requires Valid() && id !in sessions && id != sess.id
      modifies this`links, this`sessions
      ensures Valid()
      ensures links == WithLink(old(links), sess.key, pam)
      ensures sessions == Relinked(old(links), old(sessions), sess, pam, id)
      ensures sess.id !in sessions && id in sessions && sessions[id] == sess.(id := id, pam := pam)
      ensures sess.key != NOBODY ==>
                forall k :: k in sessions && sessions[k].key == sess.key ==> sessions[k].pam in {"", pam}
    {
      var prev := LookupLink(sess.key);
      ghost var rows, files := links, sessions;
      SetLink(sess.key, pam);
      WithLinkMembers(rows, sess.key, pam);
      RelinkBreaks(rows, files, sess.key, pam, id);
      sessions := sessions[id := sess.(id := id, pam := pam)];
      sessions := sessions - {sess.id};
      if prev.Some? && prev.value != "" && prev.value != pam {
        var _ := ClearMatching(ForSubject(sess.key, id));
      }
    }

    /** UnlinkPAM: exactly the rows of pam go, exactly the matched sessions lose their user. */
    method UnlinkPAM(pam: string) returns (ok: bool, removed: seq<Link>, n: nat)
      requires Valid()
      modifies this`links, this`sessions
      ensures Valid() && (ok <==> pam != "")
      ensures ok ==> (links, sessions) == Unlinked(old(links), old(sessions), pam)
      ensures ok ==> removed == Naming(old(links), pam)
      ensures ok ==> n == |HitIds(old(sessions), UnlinkMatch(old(links), pam), old(sessions).Keys)|
      ensures ok ==> forall k :: k in sessions ==> sessions[k].pam != pam
      ensures !ok ==> links == old(links) && sessions == old(sessions) && removed == [] && n == 0
    {
      if pam == "" { return false, [], 0; }
      ghost var files := sessions;
      var rows := new Link[|links|](i requires 0 <= i < |links| reads this => links[i]);
      assert rows[..] == links;
      var kept;
      kept, removed := FilterInPlace(rows, pam);
      var m := ForUser(pam, set l | l in removed :: l.key);
      WithoutMembers(links, pam);
      assert (set l | l in removed :: l.key) == KeysNaming(links, pam);
      forall k | k in files && files[k].key != NOBODY
        ensures Agrees(Without(links, pam), files[k]) <==> !Hits(m, files[k])
      {
        UnlinkBreaksExactlyHits(links, files[k], pam);
      }
      links := rows[..kept];
      n := ClearMatching(m);
      ok := true;
    }

    method BindSubject(email: string, key: Key) returns (r: Bound)
      modifies this`subjects
      ensures r == Bind(old(subjects), email, key)
      ensures subjects == if r.Pinned? then r.subjects else old(subjects)
    {
      if email == "" || key.iss == "" || key.sub == "" { return Refused; }
      for i := 0 to |subjects|
        invariant subjects == old(subjects)
        invariant forall j :: 0 <= j < i ==> subjects[j].email != email
      {
        PinOfAt(subjects, email, i);
        if subjects[i].email != email { continue; }
        if subjects[i].key == key { return Pinned(subjects); }
        return Mismatch;
      }
      PinOfAt(subjects, email, |subjects|);
      subjects := subjects + [Subject(email, key)];
      return Pinned(subjects);
    }
  }
}
