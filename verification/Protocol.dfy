// The store as a protocol. Operations that hold the lock exclude each other but make one file access
// at a time; GetSession and DeleteSession run outside the lock and fall between any two accesses.
// Steps that touch only links.json are one step: nothing outside the lock reads or writes that file.
module Protocol {
  import opened Wrappers
  import opened Store

  /** What the lock holder does next. */
  datatype Phase =
    | Free
    | Save(row: Session, prior: string, clear: Option<Match>)  // link written, session file not yet
    | Drop(prior: string, clear: Option<Match>)                // session written, old file not yet removed
    | List(m: Match)                                         // about to read the directory
    | Read(m: Match, todo: seq<string>)                      // about to read the next file
    | Write(m: Match, copy: Session, todo: seq<string>)      // about to write the cleared copy back

  datatype State = State(
    links: seq<Link>,
    sessions: Sessions,
    phase: Phase,
    now: int,
    used: set<string>,       // ids that have ever been written
    seen: set<Session>,      // sessions that GetSession has ever returned
    accepted: set<string>,   // accounts for which a password was accepted
    victim: string,          // the user the lock holder takes sessions away from, if it does
    dirty: set<string>)      // users such a scan stopped for, and who were not unlinked since

  datatype Step =
    | Tick(delta: nat)
    | Password(typed: string, ok: bool, user: string, uid: int)  // user: the account the name stands for
    | Get(id: string)
    | Remove(id: string)
    | Create(id: string, key: Key, email: string, ttl: int)
    | CreatePam(id: string, user: string, ttl: int)
    | BeginSave(sess: Session, user: string, id: string)
    | BeginUnlink(pam: string)
    | Advance(listing: seq<string>)

  const INIT := State([], map[], Free, 0, {}, {}, {}, "", {})

  /** acceptLocalUser: PAM said yes to the typed name, it has an account, and that is not root. */
  predicate AcceptsLocalUser(ok: bool, user: string, uid: int) {
    ok && user != "" && uid != 0
  }

  function PamOf(links: seq<Link>, key: Key): string {
    match LinkOf(links, key) case Some(p) => p case None => ""
  }

  /** The scan SaveLinkedSession ends with, if the subject moved to another user. */
  function ClearAfterSave(links: seq<Link>, key: Key, user: string, id: string): Option<Match> {
    var prev := PamOf(links, key);
    if prev != "" && prev != user then Some(ForSubject(key, id)) else None
  }

  predicate Enabled(s: State, step: Step) {
    match step
    case Tick(_) => true
    case Password(_, _, _, _) => true
    case Get(_) => true
    case Remove(_) => true
    case Create(id, _, _, _) => s.phase.Free? && id !in s.used
    case CreatePam(id, user, _) => s.phase.Free? && id !in s.used && user in s.accepted
    case BeginSave(sess, user, id) =>
      s.phase.Free? && id !in s.used && user in s.accepted && sess in s.seen && sess.pam == ""
    case BeginUnlink(pam) => s.phase.Free? && pam != ""
    case Advance(listing) =>
      !s.phase.Free? && (s.phase.List? ==> (set id | id in listing) == s.sessions.Keys)
  }

  function After(s: State, step: Step): State {
    match step
    case Tick(delta) => s.(now := s.now + delta)
    case Password(_, ok, user, uid) =>
      if AcceptsLocalUser(ok, user, uid) then s.(accepted := s.accepted + {user}) else s
    case Get(id) =>
      if id in s.sessions && s.now <= s.sessions[id].expires then s.(seen := s.seen + {s.sessions[id]}) else s
    case Remove(id) => s.(sessions := s.sessions - {id})
    case Create(id, key, email, ttl) =>
      Stored(s, Session(id, key, PamOf(s.links, key), email, s.now + ttl))
    case CreatePam(id, user, ttl) => Stored(s, Session(id, NOBODY, user, "", s.now + ttl))
    case BeginSave(sess, user, id) =>
      s.(links := WithLink(s.links, sess.key, user),
         phase := Save(sess.(id := id, pam := user), sess.id, ClearAfterSave(s.links, sess.key, user, id)),
         victim := PamOf(s.links, sess.key))
    case BeginUnlink(pam) =>
      s.(links := Without(s.links, pam), phase := List(UnlinkMatch(s.links, pam)),
         victim := pam, dirty := s.dirty - {pam})
    case Advance(listing) => Advanced(s, listing)
  }

  function Stored(s: State, sess: Session): State {
    s.(sessions := s.sessions[sess.id := sess], used := s.used + {sess.id})
  }

  function Advanced(s: State, listing: seq<string>): State {
    match s.phase
    case Free => s
    case Save(row, prior, clear) => Stored(s, row).(phase := Drop(prior, clear))
    case Drop(prior, clear) =>
      s.(sessions := s.sessions - {prior}, phase := match clear case None => Free case Some(m) => List(m))
    case List(m) => s.(phase := Read(m, listing))
    case Read(m, todo) =>
      if todo == [] then s.(phase := Free)
      else if todo[0] !in s.sessions then s.(phase := Free, dirty := s.dirty + {s.victim})
      else if Hits(m, s.sessions[todo[0]]) then s.(phase := Write(m, Cleared(s.sessions[todo[0]]), todo[1..]))
      else s.(phase := Read(m, todo[1..]))
    case Write(m, copy, todo) =>
      s.(sessions := s.sessions[copy.id := copy], phase := Read(m, todo))
  }

  /** states[0], steps[0], states[1], ... is a run. */
  predicate Run(states: seq<State>, steps: seq<Step>) {
    && |states| == |steps| + 1
    && forall i :: 0 <= i < |steps| ==> Enabled(states[i], steps[i]) && states[i + 1] == After(states[i], steps[i])
  }

  predicate Behaviour(states: seq<State>, steps: seq<Step>) {
    Run(states, steps) && states[0] == INIT
  }

  // ---- what every step keeps, whatever is deleted when ------------------------------------

  /** A session read with no user stays without one, and no scan holds a copy of it. */
  predicate Settled(s: State, x: Session) {
    && (x.id in s.sessions ==> s.sessions[x.id] == x)
    && (s.phase.Write? ==> s.phase.copy.id != x.id)
  }

  predicate Inv(s: State) {
    && Keyed(s.sessions) && s.sessions.Keys <= s.used
    && OneRowEach(s.links)
    && (forall x :: x in s.seen ==> x.id in s.used && (x.pam == "" ==> Settled(s, x)))
    && (s.phase.Save? ==> s.phase.row.id !in s.used && s.phase.prior in s.used)
    && (s.phase.Write? ==> CopyOfFile(s, s.phase.copy))
  }

  /** The copy a scan is about to write: the file it read, if that is still there, without its user. */
  predicate CopyOfFile(s: State, copy: Session) {
    && copy.pam == "" && copy.id in s.used
    && (copy.id in s.sessions ==> Cleared(s.sessions[copy.id]) == copy && s.sessions[copy.id].pam != "")
  }

  lemma InvStep(s: State, step: Step)
    requires Inv(s) && Enabled(s, step)
    ensures Inv(After(s, step))
  {
    match step
    case BeginSave(sess, user, id) => WithLinkMembers(s.links, sess.key, user);
    case BeginUnlink(pam) => WithoutMembers(s.links, pam);
    case Advance(listing) => InvAdvance(s, listing);
    case _ =>
  }

  lemma InvAdvance(s: State, listing: seq<string>)
    requires Inv(s) && Enabled(s, Advance(listing))
    ensures Inv(Advanced(s, listing))
  {
    var t := Advanced(s, listing);
    forall x | x in s.seen && x.pam == "" ensures Settled(t, x) {
      assert Settled(s, x);
    }
  }

  lemma {:induction false} InvAlways(states: seq<State>, steps: seq<Step>, i: nat)
    requires Behaviour(states, steps) && i < |states|
    ensures Inv(states[i])
  {
    if i > 0 {
      InvAlways(states, steps, i - 1);
      InvStep(states[i - 1], steps[i - 1]);
    }
  }

  /** A file keeps its subject, address and expiry; its user can only be taken away. */
  lemma FileChange(s: State, step: Step, id: string)
    requires Inv(s) && Enabled(s, step) && id in s.used
    ensures var t := After(s, step);
            && id in t.used
            && (id in s.sessions && id in t.sessions ==>
                  t.sessions[id] == s.sessions[id] || t.sessions[id] == Cleared(s.sessions[id]))
            && (id !in s.sessions && id in t.sessions ==> t.sessions[id].pam == "" && s.phase.Write? && s.phase.copy.id == id)
  {
  }

  /** id names a file that has a user. */
  predicate HasUser(s: State, id: string) {
    id in s.sessions && s.sessions[id].pam != ""
  }

  /** For an id that has been written, the user never goes from empty or absent back to a name. */
  lemma {:induction false} UserNeverRegained(states: seq<State>, steps: seq<Step>, id: string, i: nat, j: nat)
    requires Behaviour(states, steps) && i <= j < |states|
    requires id in states[i].used && !HasUser(states[i], id)
    ensures id in states[j].used && !HasUser(states[j], id)
    decreases j - i
  {
    if i < j {
      InvAlways(states, steps, i);
      FileChange(states[i], steps[i], id);
      UserNeverRegained(states, steps, id, i + 1, j);
    }
  }

  // ---- agreement of links and sessions ----------------------------------------------------

  /** A session of a real subject disagrees exactly if the scan m will clear it. */
  predicate Pending(links: seq<Link>, m: Match, x: Session) {
    x.key != NOBODY ==> (Agrees(links, x) <==> !Hits(m, x))
  }

  predicate PendingOrAgrees(links: seq<Link>, clear: Option<Match>, x: Session) {
    match clear case None => Agrees(links, x) case Some(m) => Pending(links, m, x)
  }

  /** What the file id, holding x, owes at this moment: agreement, or to be cleared by the scan under way. */
  predicate ConsistentAt(s: State, id: string, x: Session) {
    match s.phase
    case Free => Agrees(s.links, x)
    case Save(_, _, clear) => PendingOrAgrees(s.links, clear, x)
    case Drop(_, clear) => PendingOrAgrees(s.links, clear, x)
    case List(m) => Pending(s.links, m, x)
    case Read(m, todo) => if id in todo then Pending(s.links, m, x) else Agrees(s.links, x)
    case Write(m, copy, todo) =>
      id != copy.id ==> if id in todo then Pending(s.links, m, x) else Agrees(s.links, x)
  }

  /** Agreement as far as the lock holder has got, for every session whose user is not dirty. */
  predicate Consistent(s: State) {
    && (forall id :: id in s.sessions && s.sessions[id].pam !in s.dirty ==> ConsistentAt(s, id, s.sessions[id]))
    && (s.phase.Save? && s.phase.row.pam !in s.dirty ==> PendingOrAgrees(s.links, s.phase.clear, s.phase.row))
  }

  /** The scan the lock holder is in or on its way to. */
  function Scan(phase: Phase): Option<Match> {
    match phase
    case Free => None
    case Save(_, _, clear) => clear
    case Drop(_, clear) => clear
    case List(m) => Some(m)
    case Read(m, _) => Some(m)
    case Write(m, _, _) => Some(m)
  }

  /** A scan takes sessions away from one user; an unlink from its own. */
  predicate OneVictim(s: State) {
    && (Scan(s.phase).Some? ==>
          forall id :: id in s.sessions && s.sessions[id].key != NOBODY && s.sessions[id].pam !in s.dirty ==>
            Hits(Scan(s.phase).value, s.sessions[id]) ==> s.sessions[id].pam == s.victim)
    && (Scan(s.phase).Some? && Scan(s.phase).value.ForUser? ==>
          !s.phase.Save? && !s.phase.Drop? && s.victim == Scan(s.phase).value.pam)
    && (s.phase.Save? && s.phase.clear.Some? ==> s.phase.clear.value.except == s.phase.row.id)
  }

  lemma UnlinkAt(s: State, p: string, x: Session)
    requires Inv(s) && p != "" && x.key != NOBODY && (x.pam !in s.dirty ==> Agrees(s.links, x))
    requires x.pam !in s.dirty - {p}
    ensures Pending(Without(s.links, p), UnlinkMatch(s.links, p), x)
    ensures Hits(UnlinkMatch(s.links, p), x) ==> x.pam == p
  {
    if x.pam == p {
      LinkOfWithout(s.links, p, x.key);
    } else {
      UnlinkBreaksExactlyHits(s.links, x, p);
    }
  }

  lemma RelinkAt(s: State, sess: Session, user: string, id: string, x: Session)
    requires Inv(s) && Agrees(s.links, x) && x.id != id
    ensures PendingOrAgrees(WithLink(s.links, sess.key, user), ClearAfterSave(s.links, sess.key, user, id), x)
    ensures x.key != NOBODY && Hits(ForSubject(sess.key, id), x) ==> x.pam == PamOf(s.links, sess.key)
  {
    WithLinkMembers(s.links, sess.key, user);
    if x.key != NOBODY { RelinkBreaksExactlyHits(s.links, x, sess.key, user, id); }
  }

  lemma ConsistentBegin(s: State, step: Step)
    requires Inv(s) && Consistent(s) && Enabled(s, step) && (step.BeginSave? || step.BeginUnlink?)
    ensures Consistent(After(s, step)) && OneVictim(After(s, step))
  {
    forall k | k in s.sessions && s.sessions[k].pam !in s.dirty ensures Agrees(s.links, s.sessions[k]) {
      assert ConsistentAt(s, k, s.sessions[k]);
    }
    if step.BeginUnlink? {
      forall k | k in s.sessions && s.sessions[k].key != NOBODY && s.sessions[k].pam !in s.dirty - {step.pam}
        ensures Pending(Without(s.links, step.pam), UnlinkMatch(s.links, step.pam), s.sessions[k])
        ensures Hits(UnlinkMatch(s.links, step.pam), s.sessions[k]) ==> s.sessions[k].pam == step.pam
      {
        UnlinkAt(s, step.pam, s.sessions[k]);
      }
    } else {
      WithLinkMembers(s.links, step.sess.key, step.user);
      forall k | k in s.sessions && s.sessions[k].pam !in s.dirty
        ensures PendingOrAgrees(WithLink(s.links, step.sess.key, step.user),
                                ClearAfterSave(s.links, step.sess.key, step.user, step.id), s.sessions[k])
        ensures s.sessions[k].key != NOBODY && Hits(ForSubject(step.sess.key, step.id), s.sessions[k])
                ==> s.sessions[k].pam == PamOf(s.links, step.sess.key)
      {
        RelinkAt(s, step.sess, step.user, step.id, s.sessions[k]);
      }
    }
  }

  lemma ConsistentRead(s: State)
    requires Inv(s) && Consistent(s) && OneVictim(s) && s.phase.Read?
    ensures Consistent(Advanced(s, [])) && OneVictim(Advanced(s, []))
  {
    var t, todo := Advanced(s, []), s.phase.todo;
    forall id | id in t.sessions && t.sessions[id].pam !in t.dirty ensures ConsistentAt(t, id, t.sessions[id]) {
      assert ConsistentAt(s, id, s.sessions[id]);
      if todo != [] { assert id in todo <==> id == todo[0] || id in todo[1..]; }
    }
  }

  lemma ConsistentAdvance(s: State, listing: seq<string>)
    requires Inv(s) && Consistent(s) && OneVictim(s) && Enabled(s, Advance(listing))
    ensures Consistent(Advanced(s, listing)) && OneVictim(Advanced(s, listing))
  {
    if s.phase.Read? {
      ConsistentRead(s);
    } else {
      var t := Advanced(s, listing);
      forall id | id in t.sessions && t.sessions[id].pam !in t.dirty ensures ConsistentAt(t, id, t.sessions[id]) {
        if id in s.sessions { assert s.sessions[id].pam !in s.dirty ==> ConsistentAt(s, id, s.sessions[id]); }
        if s.phase.List? { assert id in (set x | x in listing); }
      }
    }
  }

  lemma ConsistentStep(s: State, step: Step)
    requires Inv(s) && Consistent(s) && OneVictim(s) && Enabled(s, step)
    ensures Consistent(After(s, step)) && OneVictim(After(s, step))
  {
    match step
    case BeginSave(_, _, _) => ConsistentBegin(s, step);
    case BeginUnlink(_) => ConsistentBegin(s, step);
    case Advance(listing) => ConsistentAdvance(s, listing);
    case _ => ConsistentOther(s, step);
  }

  lemma ConsistentOther(s: State, step: Step)
    requires Inv(s) && Consistent(s) && OneVictim(s) && Enabled(s, step)
    requires !step.BeginSave? && !step.BeginUnlink? && !step.Advance?
    ensures Consistent(After(s, step)) && OneVictim(After(s, step))
  {
    var t := After(s, step);
    forall id | id in t.sessions && t.sessions[id].pam !in t.dirty ensures ConsistentAt(t, id, t.sessions[id]) {
      if id in s.sessions && t.sessions[id] == s.sessions[id] { assert ConsistentAt(s, id, s.sessions[id]); }
    }
  }

  /** In every run, at every moment the lock is free: one row per subject, and every session names its
      subject's user unless a scan stopped for that very user since the last UnlinkPAM of that user. */
  lemma {:induction false} AgreementAlways(states: seq<State>, steps: seq<Step>, i: nat)
    requires Behaviour(states, steps) && i < |states|
    ensures Inv(states[i]) && Consistent(states[i]) && OneVictim(states[i]) && OneRowEach(states[i].links)
    ensures states[i].phase.Free? ==>
              forall id :: id in states[i].sessions && states[i].sessions[id].pam !in states[i].dirty
                           ==> Agrees(states[i].links, states[i].sessions[id])
  {
    InvAlways(states, steps, i);
    if i > 0 {
      AgreementAlways(states, steps, i - 1);
      ConsistentStep(states[i - 1], steps[i - 1]);
    }
    if states[i].phase.Free? {
      forall id | id in states[i].sessions && states[i].sessions[id].pam !in states[i].dirty
        ensures Agrees(states[i].links, states[i].sessions[id])
      {
        assert ConsistentAt(states[i], id, states[i].sessions[id]);
      }
    }
  }

  // ---- scans that stop --------------------------------------------------------------------------

  /** The next file of the scan has vanished: the scan gives up here. */
  predicate Stops(s: State, step: Step) {
    step.Advance? && s.phase.Read? && s.phase.todo != [] && s.phase.todo[0] !in s.sessions
  }

  /** The files then agree, as far as they did before, exactly if none of the files the scan had still
      to read would have been cleared. */
  lemma AbortedScanAgreesIff(s: State, step: Step)
    requires Inv(s) && Consistent(s) && Stops(s, step)
    ensures var t := After(s, step);
            && t.phase.Free?
            && ((forall id :: id in t.sessions && t.sessions[id].pam !in s.dirty ==> Agrees(t.links, t.sessions[id])) <==>
                (forall id :: id in s.phase.todo && id in s.sessions && s.sessions[id].pam !in s.dirty ==>
                   s.sessions[id].key == NOBODY || !Hits(s.phase.m, s.sessions[id])))
  {
    forall id | id in s.sessions && s.sessions[id].pam !in s.dirty ensures ConsistentAt(s, id, s.sessions[id]) { }
  }

  /** Step k began the scan that runs at i, and no other locked operation with a scan began since. */
  predicate BegunBy(states: seq<State>, steps: seq<Step>, k: nat, i: nat)
    requires |states| == |steps| + 1 && k < i < |states|
  {
    && (forall l :: k < l < i ==> !steps[l].BeginSave? && !steps[l].BeginUnlink?)
    && match Scan(states[i].phase)
       case None => false
       case Some(ForUser(p, _)) => steps[k] == BeginUnlink(p) && states[i].victim == p
       case Some(ForSubject(key, id)) =>
         && steps[k].BeginSave? && steps[k].sess.key == key && steps[k].id == id
         && states[i].victim == PamOf(states[k].links, key) && states[i].victim !in {"", steps[k].user}
  }

  /** Every scan was begun by an UnlinkPAM of its user, or by a SaveLinkedSession of its subject, whose
      previous user is then the one it takes sessions from. */
  lemma {:induction false} ScanBegun(states: seq<State>, steps: seq<Step>, i: nat)
    requires Behaviour(states, steps) && i < |states| && Scan(states[i].phase).Some?
    ensures exists k: nat :: k < i && BegunBy(states, steps, k, i)
  {
    var s, step := states[i - 1], steps[i - 1];
    if step.BeginSave? || step.BeginUnlink? {
      assert BegunBy(states, steps, i - 1, i);
    } else {
      assert Scan(s.phase) == Scan(states[i].phase) && s.victim == states[i].victim;
      ScanBegun(states, steps, i - 1);
      var k: nat :| k < i - 1 && BegunBy(states, steps, k, i - 1);
      assert BegunBy(states, steps, k, i);
    }
  }

  /** What a stopped scan leaves behind, besides what was dirty before: an UnlinkPAM(p) no link to p and
      stale sessions of p alone; a SaveLinkedSession stale sessions of its subject alone, all naming the
      one user the subject was linked to when it began. */
  lemma StoppedScanLeaves(states: seq<State>, steps: seq<Step>, i: nat, id: string)
    requires Behaviour(states, steps) && i < |steps| && Stops(states[i], steps[i])
    ensures states[i + 1].dirty == states[i].dirty + {states[i].victim}
    ensures exists k: nat :: k < i && BegunBy(states, steps, k, i)
    ensures states[i].phase.m.ForUser? ==>
              && states[i].victim == states[i].phase.m.pam
              && forall l :: l in states[i + 1].links ==> l.pam != states[i].victim
    ensures id in states[i + 1].sessions && states[i + 1].sessions[id].pam !in states[i].dirty
            && !Agrees(states[i + 1].links, states[i + 1].sessions[id]) ==>
              && states[i + 1].sessions[id].pam == states[i].victim
              && (states[i].phase.m.ForSubject? ==> states[i + 1].sessions[id].key == states[i].phase.m.key)
  {
    AgreementAlways(states, steps, i);
    PurgingAlways(states, steps, i);
    ScanBegun(states, steps, i);
    if id in states[i].sessions && states[i].sessions[id].pam !in states[i].dirty {
      assert ConsistentAt(states[i], id, states[i].sessions[id]);
    }
  }

  /** A user is dirty only because a scan stopped for that user and no UnlinkPAM of that user began since. */
  lemma {:induction false} DirtyCause(states: seq<State>, steps: seq<Step>, j: nat, u: string)
    requires Behaviour(states, steps) && j < |states| && u in states[j].dirty
    ensures exists k :: 0 <= k < j && Stops(states[k], steps[k]) && states[k].victim == u
                        && forall l :: k < l < j ==> steps[l] != BeginUnlink(u)
  {
    var s, step := states[j - 1], steps[j - 1];
    if u in s.dirty {
      DirtyCause(states, steps, j - 1, u);
      var k :| 0 <= k < j - 1 && Stops(states[k], steps[k]) && states[k].victim == u
               && forall l :: k < l < j - 1 ==> steps[l] != BeginUnlink(u);
      assert step != BeginUnlink(u);
      assert forall l :: k < l < j ==> steps[l] != BeginUnlink(u);
    } else {
      assert Stops(s, step) && s.victim == u;
    }
  }

  /** Unlinking again repairs: whenever every stopped scan was followed by an UnlinkPAM of its user, a
      free lock means full agreement, and a held one agreement but for what its scan will clear, whatever
      else ran or was deleted in between and however many attempts were stopped. */
  lemma RetryRepairs(states: seq<State>, steps: seq<Step>, j: nat)
    requires Behaviour(states, steps) && j < |states|
    requires forall k :: 0 <= k < j && Stops(states[k], steps[k]) ==>
               exists l :: k < l < j && steps[l] == BeginUnlink(states[k].victim)
    ensures states[j].dirty == {} && Consistent(states[j])
    ensures states[j].phase.Free? ==> Agree(states[j].links, states[j].sessions)
  {
    AgreementAlways(states, steps, j);
    forall u | u in states[j].dirty ensures false { DirtyCause(states, steps, j, u); }
  }

  /** In particular, after any number of stopped attempts to unlink p, one that is not stopped. */
  lemma UnlinkAgain(states: seq<State>, steps: seq<Step>, p: string, i: nat, j: nat)
    requires Behaviour(states, steps) && i < j < |states| && steps[i] == BeginUnlink(p)
    requires forall k :: 0 <= k < i && Stops(states[k], steps[k]) ==> states[k].phase.m.ForUser? && states[k].phase.m.pam == p
    requires forall k :: i <= k < j ==> !Stops(states[k], steps[k])
    ensures states[j].dirty == {} && Consistent(states[j])
    ensures states[j].phase.Free? ==> Agree(states[j].links, states[j].sessions)
  {
    forall k | 0 <= k < j && Stops(states[k], steps[k])
      ensures exists l :: k < l < j && steps[l] == BeginUnlink(states[k].victim)
    {
      AgreementAlways(states, steps, k);
      assert k < i && steps[i] == BeginUnlink(states[k].victim);
    }
    RetryRepairs(states, steps, j);
  }

  // ---- an undisturbed scan ------------------------------------------------------------------

  /** n further accesses by the lock holder, with nothing in between. */
  function Undisturbed(s: State, n: nat): State
    decreases n
  {
    if n == 0 then s else Undisturbed(Advanced(s, []), n - 1)
  }

  lemma ScanOne(start: Sessions, m: Match, done: set<string>, id: string)
    requires Keyed(start) && id in start
    ensures var now := ClearSome(start, m, done);
            && now[id].id == id
            && ClearSome(start, m, done + {id}) == if Hits(m, now[id]) then now[id := Cleared(now[id])] else now
  {
  }

  /** The state once the first file of todo has been dealt with. */
  function PastFirst(s: State, m: Match, todo: seq<string>, start: Sessions, done: set<string>): State
    requires todo != []
  {
    s.(sessions := ClearSome(start, m, done + {todo[0]}), phase := Read(m, todo[1..]))
  }

  lemma ScanAccess(s: State, m: Match, todo: seq<string>, start: Sessions, done: set<string>, n: nat) returns (k: nat)
    requires s.phase == Read(m, todo) && todo != [] && todo[0] in start
    requires Keyed(start) && s.sessions == ClearSome(start, m, done)
    ensures Undisturbed(s, k) == Undisturbed(PastFirst(s, m, todo, start, done), n)
  {
    ScanOne(start, m, done, todo[0]);
    var t := Advanced(s, []);
    if Hits(m, s.sessions[todo[0]]) {
      k := n + 2;
      assert Undisturbed(s, n + 2) == Undisturbed(t, n + 1) == Undisturbed(Advanced(t, []), n);
    } else {
      k := n + 1;
    }
  }

  lemma ScanEnds(s: State, m: Match, start: Sessions, done: set<string>)
    requires s.phase == Read(m, []) && s.sessions == ClearSome(start, m, done) && start.Keys <= done
    ensures Undisturbed(s, 1) == s.(sessions := ClearAll(start, m), phase := Free)
  {
    assert ClearSome(start, m, done) == ClearAll(start, m);
    assert Undisturbed(Advanced(s, []), 0) == Advanced(s, []);
  }

  /** Undisturbed, a scan clears exactly what ClearAll clears, and releases the lock. */
  lemma {:induction false} UndisturbedScan(s: State, m: Match, todo: seq<string>, start: Sessions, done: set<string>)
    returns (n: nat)
    requires s.phase == Read(m, todo) && Keyed(start) && s.sessions == ClearSome(start, m, done)
    requires forall id :: id in todo ==> id in start
    requires forall id :: id in start ==> id in done || id in todo
    ensures Undisturbed(s, n) == s.(sessions := ClearAll(start, m), phase := Free)
    decreases |todo|
  {
    if todo == [] {
      ScanEnds(s, m, start, done);
      n := 1;
    } else {
      assert todo == [todo[0]] + todo[1..];
      var rest := UndisturbedScan(PastFirst(s, m, todo, start, done), m, todo[1..], start, done + {todo[0]});
      n := ScanAccess(s, m, todo, start, done, rest);
    }
  }

  // ---- provenance ----------------------------------------------------------------------------

  /** Someone's files or tables name p. */
  predicate Names(s: State, p: string) {
    || (exists l :: l in s.links && l.pam == p)
    || (exists id :: id in s.sessions && s.sessions[id].pam == p)
    || (s.phase.Save? && s.phase.row.pam == p)
  }

  /** A password was accepted for a name whose account is p, and p is not root. */
  predicate PasswordFor(step: Step, p: string) {
    step.Password? && step.ok && step.user == p && step.uid != 0
  }

  predicate AllAccepted(s: State) {
    && (forall l :: l in s.links ==> l.pam in s.accepted)
    && (forall id :: id in s.sessions ==> s.sessions[id].pam == "" || s.sessions[id].pam in s.accepted)
    && (s.phase.Save? ==> s.phase.row.pam in s.accepted)
    && "" !in s.accepted
  }

  lemma AcceptedStep(s: State, step: Step)
    requires Inv(s) && AllAccepted(s) && Enabled(s, step)
    ensures AllAccepted(After(s, step))
  {
    match step
    case Create(id, key, email, ttl) => LinkOfMember(s.links, key);
    case BeginSave(sess, user, id) => WithLinkMembers(s.links, sess.key, user);
    case BeginUnlink(pam) => WithoutMembers(s.links, pam);
    case Advance(listing) =>
    case _ =>
  }

  lemma {:induction false} AcceptedCause(states: seq<State>, steps: seq<Step>, i: nat, p: string)
    requires Behaviour(states, steps) && i < |states|
    ensures AllAccepted(states[i])
    ensures p in states[i].accepted ==>
            exists k :: 0 <= k < i && PasswordFor(steps[k], p)
  {
    if i > 0 {
      AcceptedCause(states, steps, i - 1, p);
      InvAlways(states, steps, i - 1);
      AcceptedStep(states[i - 1], steps[i - 1]);
      if p in states[i].accepted && p !in states[i - 1].accepted {
        assert PasswordFor(steps[i - 1], p);
      }
    }
  }

  /** Whatever names Unix user p was preceded by an accepted password for p with a non-zero UID. */
  lemma NamedOnlyAfterPassword(states: seq<State>, steps: seq<Step>, i: nat, p: string)
    requires Behaviour(states, steps) && i < |states| && p != "" && Names(states[i], p)
    ensures exists k :: 0 <= k < i && PasswordFor(steps[k], p)
  {
    AcceptedCause(states, steps, i, p);
  }

  /** The one kind of step that brings a user's name in: a write made for an accepted password. */
  predicate Brings(step: Step, p: string) {
    (step.BeginSave? || step.CreatePam?) && step.user == p
  }

  /** While UnlinkPAM(p) scans, only files it has still to read can name p. */
  predicate Purging(s: State) {
    (s.phase.List? || s.phase.Read? || s.phase.Write?) && s.phase.m.ForUser? ==>
      var p := s.phase.m.pam;
      && p != ""
      && (forall l :: l in s.links ==> l.pam != p)
      && (forall id :: id in s.sessions && s.sessions[id].pam == p ==>
            && (s.phase.Read? ==> id in s.phase.todo)
            && (s.phase.Write? ==> id in s.phase.todo || id == s.phase.copy.id))
  }

  /** The scan SaveLinkedSession ends with is not an unlink. */
  predicate SaveScans(s: State) {
    s.phase.Save? || s.phase.Drop? ==> s.phase.clear.Some? ==> s.phase.clear.value.ForSubject?
  }

  lemma PurgingStep(s: State, step: Step)
    requires Inv(s) && Purging(s) && SaveScans(s) && Enabled(s, step)
    ensures Purging(After(s, step)) && SaveScans(After(s, step))
  {
    match step
    case BeginUnlink(pam) => WithoutMembers(s.links, pam);
    case Advance(listing) =>
      if s.phase.List? {
        forall id | id in s.sessions ensures id in listing { assert id in (set x | x in listing); }
      } else if s.phase.Read? && s.phase.todo != [] {
        var todo := s.phase.todo;
        assert todo == [todo[0]] + todo[1..];
      }
    case _ =>
  }

  lemma {:induction false} PurgingAlways(states: seq<State>, steps: seq<Step>, i: nat)
    requires Behaviour(states, steps) && i < |states|
    ensures Purging(states[i]) && SaveScans(states[i])
  {
    if i > 0 {
      PurgingAlways(states, steps, i - 1);
      InvAlways(states, steps, i - 1);
      PurgingStep(states[i - 1], steps[i - 1]);
    }
  }

  lemma NamelessStep(s: State, step: Step, p: string)
    requires Inv(s) && Enabled(s, step) && p != "" && !Names(s, p) && !Brings(step, p)
    ensures !Names(After(s, step), p)
  {
    match step
    case Create(id, key, email, ttl) => LinkOfMember(s.links, key);
    case BeginSave(sess, user, id) => WithLinkMembers(s.links, sess.key, user);
    case BeginUnlink(pam) => WithoutMembers(s.links, pam);
    case _ =>
  }

  lemma {:induction false} NamelessUntil(states: seq<State>, steps: seq<Step>, p: string, i: nat, j: nat)
    requires Behaviour(states, steps) && i <= j < |states| && p != "" && !Names(states[i], p)
    requires forall k :: i <= k < j ==> !Brings(steps[k], p)
    ensures !Names(states[j], p)
    decreases j - i
  {
    if i < j {
      InvAlways(states, steps, i);
      NamelessStep(states[i], steps[i], p);
      NamelessUntil(states, steps, p, i + 1, j);
    }
  }

  /** After UnlinkPAM(p) has gone through its scan and released the lock, nothing names p again
      until a write made for an accepted password of p. */
  lemma UnlinkHolds(states: seq<State>, steps: seq<Step>, p: string, i: nat, j: nat)
    requires Behaviour(states, steps) && i < j < |states|
    requires states[i].phase.Read? && states[i].phase.todo == []
    requires states[i].phase.m.ForUser? && states[i].phase.m.pam == p && steps[i].Advance?
    requires forall k :: i < k < j ==> !Brings(steps[k], p)
    ensures !Names(states[j], p)
  {
    PurgingAlways(states, steps, i);
    assert !Names(states[i + 1], p);
    NamelessUntil(states, steps, p, i + 1, j);
  }
}
