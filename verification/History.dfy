// What the store holds at any moment of a run, told from the steps that led there; and the protocol's
// locked operations, undisturbed, against the operations of StateDir.dfy.
module History {
  import opened Wrappers
  import opened Store
  import opened StateDir
  import opened Protocol

  // ---- the link table ---------------------------------------------------------------------------

  /** Step k linked key to p, and since then key was not linked again nor p unlinked. */
  predicate LastLink(steps: seq<Step>, k: int, i: nat, key: Key, p: string)
    requires i <= |steps|
  {
    && 0 <= k < i && steps[k].BeginSave? && steps[k].sess.key == key && steps[k].user == p
    && forall l :: k < l < i ==> !Relinks(steps[l], key) && steps[l] != BeginUnlink(p)
  }

  predicate Relinks(step: Step, key: Key) {
    step.BeginSave? && step.sess.key == key
  }

  /** One step of the table, for one subject. */
  lemma LinkStep(s: State, step: Step, key: Key)
    requires Inv(s) && Enabled(s, step)
    ensures Links(LinkOf(s.links, key), step, LinkOf(After(s, step).links, key), key)
  {
    match step
    case BeginSave(sess, user, id) => LinkOfWithLink(s.links, sess.key, user, key);
    case BeginUnlink(pam) => LinkOfWithout(s.links, pam, key);
    case _ =>
  }

  /** What a step made of the user a subject is linked to. */
  predicate Links(was: Option<string>, step: Step, now: Option<string>, key: Key) {
    now == if Relinks(step, key) then Some(step.user)
           else if step.BeginUnlink? && was == Some(step.pam) then None
           else was
  }

  lemma {:induction false} LinkFrom(users: seq<Option<string>>, steps: seq<Step>, i: nat, key: Key, p: string)
    requires |users| == |steps| + 1 && i < |users| && users[0] == None
    requires forall j :: 0 <= j < |steps| ==> Links(users[j], steps[j], users[j + 1], key)
    ensures users[i] == Some(p) <==> exists k :: LastLink(steps, k, i, key, p)
  {
    if i > 0 {
      var step, before := steps[i - 1], i - 1;
      assert Links(users[before], step, users[i], key);
      LinkFrom(users, steps, before, key, p);
      if Relinks(step, key) {
        assert step.user == p ==> LastLink(steps, before, i, key, p);
      } else {
        if step != BeginUnlink(p) && users[before] == Some(p) {
          var k :| LastLink(steps, k, before, key, p);
          assert LastLink(steps, k, i, key, p);
        }
        if k :| LastLink(steps, k, i, key, p) { assert k < before && LastLink(steps, k, before, key, p); }
      }
    }
  }

  /** In every run a subject is linked to p exactly if the last password typed on one of its sessions was
      p's, and p was not unlinked since. */
  lemma LinkIff(states: seq<State>, steps: seq<Step>, i: nat, key: Key, p: string)
    requires Behaviour(states, steps) && i < |states|
    ensures LinkOf(states[i].links, key) == Some(p) <==> exists k :: LastLink(steps, k, i, key, p)
  {
    var users := seq(|states|, j requires 0 <= j < |states| => LinkOf(states[j].links, key));
    forall j | 0 <= j < |steps| ensures Links(users[j], steps[j], users[j + 1], key) {
      InvAlways(states, steps, j);
      LinkStep(states[j], steps[j], key);
    }
    LinkFrom(users, steps, i, key, p);
  }

  /** A new session of a subject names exactly that user, or nobody; one made for a password, its user. */
  lemma NewSession(states: seq<State>, steps: seq<Step>, i: nat, p: string)
    requires Behaviour(states, steps) && i < |steps| && (steps[i].Create? || steps[i].CreatePam?) && p != ""
    ensures var id := steps[i].id;
            && id !in states[i].sessions && id in states[i + 1].sessions
            && (steps[i].Create? ==>
                  (states[i + 1].sessions[id].pam == p <==> exists k :: LastLink(steps, k, i, steps[i].key, p)))
            && (steps[i].CreatePam? ==> states[i + 1].sessions[id].pam == steps[i].user)
  {
    InvAlways(states, steps, i);
    if steps[i].Create? { LinkIff(states, steps, i, steps[i].key, p); }
  }

  // ---- where a session comes from -----------------------------------------------------------------

  /** Step made a session for this subject and address, with this expiry. */
  predicate SignsIn(s: State, step: Step, x: Session) {
    || (step.Create? && x.key == step.key && x.email == step.email && x.expires == s.now + step.ttl)
    || (step.CreatePam? && x.key == NOBODY && x.email == "" && x.expires == s.now + step.ttl)
  }

  datatype Origin = Origin(key: Key, email: string, expires: int)

  function OriginOf(x: Session): Origin {
    Origin(x.key, x.email, x.expires)
  }

  /** Every session that is stored, was read or is being written has one of these origins. */
  predicate AllFrom(s: State, origins: set<Origin>) {
    && (forall id :: id in s.sessions ==> OriginOf(s.sessions[id]) in origins)
    && (forall x :: x in s.seen ==> OriginOf(x) in origins)
    && (s.phase.Save? ==> OriginOf(s.phase.row) in origins)
    && (s.phase.Write? ==> OriginOf(s.phase.copy) in origins)
  }

  function NewOrigins(s: State, step: Step): set<Origin> {
    match step
    case Create(_, key, email, ttl) => {Origin(key, email, s.now + ttl)}
    case CreatePam(_, _, ttl) => {Origin(NOBODY, "", s.now + ttl)}
    case _ => {}
  }

  lemma AllFromStep(s: State, step: Step, origins: set<Origin>)
    requires Enabled(s, step) && AllFrom(s, origins)
    ensures AllFrom(After(s, step), origins + NewOrigins(s, step))
  {
  }

  function OriginsUpTo(states: seq<State>, steps: seq<Step>, i: nat): set<Origin>
    requires |states| == |steps| + 1 && i < |states|
  {
    if i == 0 then {} else OriginsUpTo(states, steps, i - 1) + NewOrigins(states[i - 1], steps[i - 1])
  }

  lemma {:induction false} AllFromAlways(states: seq<State>, steps: seq<Step>, i: nat)
    requires Behaviour(states, steps) && i < |states|
    ensures AllFrom(states[i], OriginsUpTo(states, steps, i))
  {
    if i > 0 {
      AllFromAlways(states, steps, i - 1);
      AllFromStep(states[i - 1], steps[i - 1], OriginsUpTo(states, steps, i - 1));
    }
  }

  lemma {:induction false} OriginIsASignIn(states: seq<State>, steps: seq<Step>, i: nat, x: Session)
    requires |states| == |steps| + 1 && i < |states| && OriginOf(x) in OriginsUpTo(states, steps, i)
    ensures exists k :: 0 <= k < i && SignsIn(states[k], steps[k], x)
  {
    if OriginOf(x) in NewOrigins(states[i - 1], steps[i - 1]) {
      assert SignsIn(states[i - 1], steps[i - 1], x);
    } else {
      OriginIsASignIn(states, steps, i - 1, x);
    }
  }

  /** In every run a stored session has the subject, the address and the expiry of a sign-in: rotating an
      id or clearing a user extends no session. */
  lemma SessionOrigin(states: seq<State>, steps: seq<Step>, i: nat, id: string)
    requires Behaviour(states, steps) && i < |states| && id in states[i].sessions
    ensures exists k :: 0 <= k < i && SignsIn(states[k], steps[k], states[i].sessions[id])
  {
    AllFromAlways(states, steps, i);
    OriginIsASignIn(states, steps, i, states[i].sessions[id]);
  }

  // ---- reading ------------------------------------------------------------------------------------

  /** GetSession read x at step k: the file held it and it had not expired. */
  predicate ReadAt(s: State, step: Step, x: Session) {
    step == Get(x.id) && x.id in s.sessions && s.sessions[x.id] == x && s.now <= x.expires
  }

  lemma SeenStep(s: State, step: Step, x: Session)
    requires Inv(s) && Enabled(s, step)
    ensures x in After(s, step).seen <==> x in s.seen || ReadAt(s, step, x)
  {
  }

  /** In every run a handler holds exactly the sessions that GetSession read from a file before they expired. */
  lemma {:induction false} SeenIff(states: seq<State>, steps: seq<Step>, i: nat, x: Session)
    requires Behaviour(states, steps) && i < |states|
    ensures x in states[i].seen <==> exists k :: 0 <= k < i && ReadAt(states[k], steps[k], x)
  {
    if i > 0 {
      var before := i - 1;
      InvAlways(states, steps, before);
      SeenStep(states[before], steps[before], x);
      SeenIff(states, steps, before, x);
      if x in states[i].seen && !ReadAt(states[before], steps[before], x) {
        var k :| 0 <= k < before && ReadAt(states[k], steps[k], x);
        assert 0 <= k < i;
      }
    }
  }

  // ---- undisturbed, the protocol is the store's operations -------------------------------------------

  /** UnlinkPAM with nothing in between. */
  lemma UnlinkCompletes(s: State, p: string, listing: seq<string>) returns (n: nat)
    requires Inv(s) && Enabled(s, BeginUnlink(p)) && (set id | id in listing) == s.sessions.Keys
    ensures var t := Undisturbed(Advanced(After(s, BeginUnlink(p)), listing), n);
            t.phase.Free? && (t.links, t.sessions) == Unlinked(s.links, s.sessions, p)
  {
    var begun := After(s, BeginUnlink(p));
    n := WholeScan(begun, listing);
  }

  lemma WholeScan(s: State, listing: seq<string>) returns (n: nat)
    requires s.phase.List? && Keyed(s.sessions) && (set id | id in listing) == s.sessions.Keys
    ensures Undisturbed(Advanced(s, listing), n) == s.(sessions := ClearAll(s.sessions, s.phase.m), phase := Free)
  {
    var read := Advanced(s, listing);
    forall id ensures id in listing <==> id in s.sessions { assert id in (set x | x in listing) <==> id in listing; }
    assert ClearSome(s.sessions, s.phase.m, {}) == s.sessions;
    n := UndisturbedScan(read, s.phase.m, listing, s.sessions, {});
  }

  /** SaveLinkedSession with nothing in between: the link, the rotated file, the old file gone, and the
      other sessions of a subject that moved cleared. */
  lemma SaveCompletes(s: State, sess: Session, user: string, id: string, listing: seq<string>) returns (n: nat)
    requires Inv(s) && Enabled(s, BeginSave(sess, user, id)) && id != sess.id
    requires (set x | x in listing) == s.sessions.Keys + {id} - {sess.id}
    ensures var dropped := Advanced(Advanced(After(s, BeginSave(sess, user, id)), []), []);
            var t := if dropped.phase.Free? then dropped else Undisturbed(Advanced(dropped, listing), n);
            && t.phase.Free? && t.links == WithLink(s.links, sess.key, user)
            && t.sessions == Relinked(s.links, s.sessions, sess, user, id)
  {
    var begun := After(s, BeginSave(sess, user, id));
    var stored := Advanced(begun, []);
    var dropped := Advanced(stored, []);
    assert dropped.sessions == s.sessions[id := sess.(id := id, pam := user)] - {sess.id};
    n := 0;
    if dropped.phase.List? {
      assert dropped.sessions.Keys == s.sessions.Keys + {id} - {sess.id};
      n := WholeScan(dropped, listing);
    }
  }
}
