// Tickets in use: minting, peeking, checking the minting session and taking, interleaved with every
// step of the store protocol (internal/web/files.go, internal/web/server.go).
module Redemption {
  import opened Wrappers
  import opened Store
  import Protocol
  import opened Tickets
  import opened Clock

  /** A request that redeems ticket k, as far as it has got. */
  datatype Request =
    | Started(k: string, head: bool)
    | Peeked(k: string, head: bool, t: Ticket)
    | Checked(k: string, head: bool, t: Ticket)
    | Served(k: string, head: bool, t: Ticket)
    | Gone

  /** The session as it was read, emailHomeID's answer for it, the time, and the ticket. */
  datatype Minted = Minted(sess: Session, home: string, at: int, ticket: Ticket)
  datatype Take = Take(k: string, at: int)

  datatype State = State(
    store: Protocol.State,
    table: Table,
    minted: map<string, Minted>,   // every ticket ever minted, as it was then
    reqs: map<nat, Request>,
    takes: map<nat, Take>)         // requests that consumed a use

  datatype Step =
    | StoreStep(step: Protocol.Step)
    | Mint(k: string, sess: Session, home: string, rel: string)
    | Start(r: nat, k: string, head: bool)
    | Go(r: nat)

  const INIT := State(Protocol.INIT, map[], map[], map[], map[])

  /** tryOvpnImport: home is emailHomeID's answer for a session without a Unix user. */
  function TicketFor(sess: Session, home: string, rel: string, now: int): Ticket {
    Ticket(sess.pam, if sess.pam == "" then home else "", sess.key, rel, sess.id, now + TICKET_TTL, TICKET_USES)
  }

  /** ovpnTicketSessionOK. */
  predicate Live(s: Protocol.State, t: Ticket) {
    && t.sid in s.sessions
    && s.now <= s.sessions[t.sid].expires
    && if t.pam != "" then s.sessions[t.sid].pam != "" && s.sessions[t.sid].pam == t.pam
       else t.key.iss != "" && s.sessions[t.sid].key == t.key
  }

  predicate Enabled(s: State, step: Step) {
    match step
    case StoreStep(p) => Protocol.Enabled(s.store, p)
    case Mint(k, sess, _, _) => k !in s.minted && sess in s.store.seen
    case Start(r, _, _) => r !in s.reqs
    case Go(r) => r in s.reqs && !s.reqs[r].Served? && !s.reqs[r].Gone?
  }

  function After(s: State, step: Step): State {
    match step
    case StoreStep(p) => s.(store := Protocol.After(s.store, p))
    case Mint(k, sess, home, rel) =>
      var t := TicketFor(sess, home, rel, s.store.now);
      (match MintIn(s.table, k, t, s.store.now)
       case None => s.(table := LiveTickets(s.table, s.store.now))
       case Some(table) => s.(table := table, minted := s.minted[k := Minted(sess, home, s.store.now, t)]))
    case Start(r, k, head) => s.(reqs := s.reqs[r := Started(k, head)])
    case Go(r) => if r in s.reqs then Progress(s, r) else s
  }

  /** The next access of request r: peek, then the session check, then (GET) the take. */
  function Progress(s: State, r: nat): State
    requires r in s.reqs
  {
    match s.reqs[r]
    case Started(k, head) =>
      var (table, found) := LookupIn(s.table, k, false, s.store.now);
      s.(table := table, reqs := s.reqs[r := match found case Some(t) => Peeked(k, head, t) case None => Gone])
    case Peeked(k, head, t) =>
      if Live(s.store, t) then s.(reqs := s.reqs[r := Checked(k, head, t)])
      else s.(table := s.table - {k}, reqs := s.reqs[r := Gone])
    case Checked(k, head, t) =>
      if head then s.(reqs := s.reqs[r := Served(k, head, t)])
      else
        var (table, found) := LookupIn(s.table, k, true, s.store.now);
        (match found
         case None => s.(table := table, reqs := s.reqs[r := Gone])
         case Some(t2) => s.(table := table, reqs := s.reqs[r := Served(k, head, t2)],
                             takes := s.takes[r := Take(k, s.store.now)]))
    case Served(_, _, _) => s
    case Gone => s
  }

  predicate Behaviour(states: seq<State>, steps: seq<Step>) {
    && |states| == |steps| + 1 && states[0] == INIT
    && forall i :: 0 <= i < |steps| ==> Enabled(states[i], steps[i]) && states[i + 1] == After(states[i], steps[i])
  }

  // ---- the invariant --------------------------------------------------------------------------

  predicate SameBut(t: Ticket, m: Ticket) {
    t == m.(left := t.left)
  }

  /** The request speaks of a ticket that was minted, and of nothing else in it. */
  predicate Honest(s: State, q: Request) {
    q.Peeked? || q.Checked? || q.Served? ==> q.k in s.minted && SameBut(q.t, s.minted[q.k].ticket)
  }

  predicate FromSession(s: State, m: Minted) {
    && m.sess in s.store.seen
    && m.ticket.pam == m.sess.pam && m.ticket.key == m.sess.key && m.ticket.sid == m.sess.id
    && (m.sess.pam == "" ==> m.ticket.home == m.home)
    && m.ticket.exp == m.at + TICKET_TTL
  }

  predicate Traced(s: State) {
    && (forall k :: k in s.minted ==> FromSession(s, s.minted[k]))
    && (forall k :: k in s.table ==> k in s.minted && SameBut(s.table[k], s.minted[k].ticket))
    && (forall r :: r in s.reqs ==> Honest(s, s.reqs[r]))
  }

  predicate Core(s: State) {
    Protocol.Inv(s.store) && Traced(s)
  }

  lemma SeenGrows(s: Protocol.State, p: Protocol.Step)
    ensures s.seen <= Protocol.After(s, p).seen && s.now <= Protocol.After(s, p).now
  {
  }

  lemma CoreStep(s: State, step: Step)
    requires Core(s) && Enabled(s, step)
    ensures Core(After(s, step))
  {
    match step
    case StoreStep(p) =>
      Protocol.InvStep(s.store, p);
      SeenGrows(s.store, p);
    case Mint(k, sess, home, rel) => TracedMint(s, k, sess, home, rel);
    case Start(r, k, head) => TracedStart(s, r, k, head);
    case Go(r) => TracedGo(s, r);
  }

  /** A mint purges the table and adds at most the one ticket. */
  lemma MintShape(s: State, k: string, sess: Session, home: string, rel: string)
    ensures var s2, t, live := After(s, Mint(k, sess, home, rel)), TicketFor(sess, home, rel, s.store.now), LiveTickets(s.table, s.store.now);
            || s2 == s.(table := live)
            || (s2 == s.(table := live[k := t], minted := s.minted[k := Minted(sess, home, s.store.now, t)])
                && (Bounded(s.table) ==> Bounded(s2.table)))
  {
    var t := TicketFor(sess, home, rel, s.store.now);
    if Bounded(s.table) && MintIn(s.table, k, t, s.store.now).Some? { MintBounded(s.table, k, t, s.store.now); }
  }

  /** Adding one ticket for a session that was read keeps every trace. */
  lemma TracedAdd(s: State, s2: State, k: string, m: Minted)
    requires Traced(s) && k !in s.minted && FromSession(s, m)
    requires s2.store == s.store && s2.reqs == s.reqs && s2.minted == s.minted[k := m]
    requires forall q :: q in s2.table && q != k ==> q in s.table && s2.table[q] == s.table[q]
    requires k in s2.table ==> s2.table[k] == m.ticket
    ensures Traced(s2)
  {
    forall r | r in s2.reqs ensures Honest(s2, s2.reqs[r]) {
      assert Honest(s, s.reqs[r]);
    }
  }

  /** A mint: either only expired tickets went, or one was added as well. */
  lemma TracedTicket(s: State, s2: State, k: string, m: Minted)
    requires Traced(s) && k !in s.minted && FromSession(s, m)
    requires var live := LiveTickets(s.table, s.store.now);
             s2 == s.(table := live) || s2 == s.(table := live[k := m.ticket], minted := s.minted[k := m])
    ensures Traced(s2) && s2.store == s.store
  {
    if s2.minted != s.minted { TracedAdd(s, s2, k, m); }
  }

  lemma TracedMint(s: State, k: string, sess: Session, home: string, rel: string)
    requires Traced(s) && k !in s.minted && sess in s.store.seen
    ensures Traced(After(s, Mint(k, sess, home, rel))) && After(s, Mint(k, sess, home, rel)).store == s.store
  {
    MintShape(s, k, sess, home, rel);
    TracedTicket(s, After(s, Mint(k, sess, home, rel)), k, Minted(sess, home, s.store.now, TicketFor(sess, home, rel, s.store.now)));
  }

  lemma TracedStart(s: State, r: nat, k: string, head: bool)
    requires Traced(s) && Enabled(s, Start(r, k, head))
    ensures Traced(After(s, Start(r, k, head))) && After(s, Start(r, k, head)).store == s.store
  {
  }

  /** Progress of r moves r, may use or drop tickets, and touches nothing else. */
  lemma ProgressShape(s: State, r: nat)
    requires r in s.reqs
    ensures var s2 := Progress(s, r);
            && s2.store == s.store && s2.minted == s.minted
            && r in s2.reqs && s2.reqs == s.reqs[r := s2.reqs[r]]
            && forall k :: k in s2.table ==> k in s.table && SameBut(s2.table[k], s.table[k])
  {
    if !s.reqs[r].Gone? {
      LookupKeeps(s.table, s.reqs[r].k, false, s.store.now);
      LookupKeeps(s.table, s.reqs[r].k, true, s.store.now);
    }
  }

  /** A lookup answers with the ticket under that id, and leaves every ticket the same but for its uses. */
  lemma LookupKeeps(table: Table, k: string, consume: bool, now: int)
    ensures var (after, found) := LookupIn(table, k, consume, now);
            && (found.Some? ==> k in table && SameBut(found.value, table[k]))
            && forall q :: q in after ==> q in table && SameBut(after[q], table[q])
  {
  }

  lemma ProgressHonest(s: State, r: nat)
    requires r in s.reqs && !s.reqs[r].Gone? && Honest(s, s.reqs[r])
    requires s.reqs[r].k in s.table ==>
               s.reqs[r].k in s.minted && SameBut(s.table[s.reqs[r].k], s.minted[s.reqs[r].k].ticket)
    ensures Honest(s, Progress(s, r).reqs[r])
  {
    var k := s.reqs[r].k;
    LookupKeeps(s.table, k, false, s.store.now);
    LookupKeeps(s.table, k, true, s.store.now);
  }

  lemma TracedGo(s: State, r: nat)
    requires Traced(s) && r in s.reqs
    ensures Traced(Progress(s, r)) && Progress(s, r).store == s.store
  {
    assert Honest(s, s.reqs[r]);
    ProgressShape(s, r);
    if !s.reqs[r].Gone? { ProgressHonest(s, r); }
    TracedKept(s, Progress(s, r));
  }

  lemma TracedKept(s: State, s2: State)
    requires Traced(s) && s2.store == s.store && s2.minted == s.minted
    requires forall r :: r in s2.reqs ==> Honest(s, s2.reqs[r])
    requires forall k :: k in s2.table ==> k in s.table && SameBut(s2.table[k], s.table[k])
    ensures Traced(s2)
  {
  }

  lemma {:induction false} CoreAlways(states: seq<State>, steps: seq<Step>, i: nat)
    requires Behaviour(states, steps) && i < |states|
    ensures Core(states[i])
  {
    if i > 0 {
      CoreAlways(states, steps, i - 1);
      CoreStep(states[i - 1], steps[i - 1]);
    }
  }

  // ---- revocation is permanent ------------------------------------------------------------------

  lemma DeadStaysInStore(s: Protocol.State, p: Protocol.Step, m: Minted)
    requires Protocol.Inv(s) && Protocol.Enabled(s, p) && m.sess in s.seen
    requires m.ticket.pam == m.sess.pam && m.ticket.key == m.sess.key && m.ticket.sid == m.sess.id
    requires !Live(s, m.ticket)
    ensures !Live(Protocol.After(s, p), m.ticket)
  {
    var t := m.ticket;
    Protocol.FileChange(s, p, t.sid);
    SeenGrows(s, p);
    if t.pam == "" { assert Protocol.Settled(s, m.sess); }
  }

  /** The minting session still reaches its cubby: its file is there, unexpired, with its user; a session
      without a user must come from an identity provider. */
  predicate Reaches(s: Protocol.State, sess: Session) {
    && sess.id in s.sessions && s.now <= s.sessions[sess.id].expires
    && (if sess.pam != "" then s.sessions[sess.id].pam == sess.pam else sess.key.iss != "")
  }

  /** No store step lets a session that was read once reach its cubby again. */
  lemma GoneStaysGone(s: Protocol.State, p: Protocol.Step, sess: Session)
    requires Protocol.Inv(s) && Protocol.Enabled(s, p) && sess in s.seen && !Reaches(s, sess)
    ensures !Reaches(Protocol.After(s, p), sess)
  {
    Protocol.FileChange(s, p, sess.id);
    SeenGrows(s, p);
  }

  /** Ticket k is dead, and no request that is not in `early` has passed its check of k. */
  predicate Shut(s: State, k: string, early: set<nat>) {
    && k in s.minted && !Live(s.store, s.minted[k].ticket)
    && forall r :: r in s.reqs && r !in early && (s.reqs[r].Checked? || s.reqs[r].Served?) ==> s.reqs[r].k != k
  }

  lemma LiveIgnoresUses(s: Protocol.State, t: Ticket, m: Ticket)
    requires SameBut(t, m)
    ensures Live(s, t) <==> Live(s, m)
  {
  }

  lemma ShutStep(s: State, step: Step, k: string, early: set<nat>)
    requires Core(s) && Enabled(s, step) && Shut(s, k, early)
    ensures Shut(After(s, step), k, early)
  {
    match step
    case StoreStep(p) => DeadStaysInStore(s.store, p, s.minted[k]);
    case Mint(k2, sess, home, rel) => MintShape(s, k2, sess, home, rel);
    case Start(r, k2, head) =>
    case Go(r) =>
      assert Honest(s, s.reqs[r]);
      ProgressShape(s, r);
      ProgressPastCheck(s, r);
      if s.reqs[r].Peeked? && s.reqs[r].k == k {
        LiveIgnoresUses(s.store, s.reqs[r].t, s.minted[k].ticket);
      }
  }

  /** A request gets past its check only by passing it. */
  lemma ProgressPastCheck(s: State, r: nat)
    requires r in s.reqs
    ensures var q, q2 := s.reqs[r], Progress(s, r).reqs[r];
            q2.Checked? || q2.Served? ==>
              && (q.Peeked? || q.Checked? || q.Served?) && q2.k == q.k
              && (q.Peeked? ==> Live(s.store, q.t))
  {
  }

  /** The minting session's file is gone (logout, or its id was rotated), has expired, or no longer
      names the ticket's user. */
  predicate Revoked(s: Protocol.State, t: Ticket) {
    || t.sid !in s.sessions
    || s.now > s.sessions[t.sid].expires
    || (t.pam != "" && s.sessions[t.sid].pam != t.pam)
  }

  /** Once the session behind ticket k is deleted, expired, rotated or (for a PAM ticket) has lost
      its user, no request that starts later is served by k, in any interleaving. */
  lemma {:induction false} RevocationIsPermanent(states: seq<State>, steps: seq<Step>, k: string, i: nat, j: nat, r: nat)
    requires Behaviour(states, steps) && i <= j < |states|
    requires k in states[i].minted && Revoked(states[i].store, states[i].minted[k].ticket)
    requires r !in states[i].reqs
    ensures r in states[j].reqs && states[j].reqs[r].Served? ==> states[j].reqs[r].k != k
  {
    assert Shut(states[i], k, states[i].reqs.Keys);
    ShutUntil(states, steps, k, i, j, states[i].reqs.Keys);
  }

  lemma {:induction false} ShutUntil(states: seq<State>, steps: seq<Step>, k: string, i: nat, j: nat, early: set<nat>)
    requires Behaviour(states, steps) && i <= j < |states| && Shut(states[i], k, early)
    ensures Shut(states[j], k, early)
    decreases j - i
  {
    if i < j {
      CoreAlways(states, steps, i);
      ShutStep(states[i], steps[i], k, early);
      ShutUntil(states, steps, k, i + 1, j, early);
    }
  }

  // ---- accounting ----------------------------------------------------------------------------------

  function TakersOf(s: State, k: string): set<nat> {
    set r | r in s.takes && s.takes[r].k == k
  }

  function ServedGets(s: State, k: string): set<nat> {
    set r | r in s.reqs && s.reqs[r].Served? && !s.reqs[r].head && s.reqs[r].k == k
  }

  predicate Counted(s: State, k: string) {
    && |TakersOf(s, k)| <= TICKET_USES
    && (k in s.table ==> s.table[k].left + |TakersOf(s, k)| == TICKET_USES)
  }

  predicate AllCounted(s: State) {
    Bounded(s.table) && forall k :: k in s.minted ==> Counted(s, k)
  }

  /** A take belongs to a served GET, in time; and every served GET took. */
  predicate TakesServed(s: State) {
    && (forall r :: r in s.takes ==>
          && r in s.reqs && s.reqs[r].Served? && !s.reqs[r].head && s.reqs[r].k == s.takes[r].k
          && s.takes[r].k in s.minted && s.takes[r].at <= s.minted[s.takes[r].k].ticket.exp)
    && (forall r :: r in s.reqs && s.reqs[r].Served? && !s.reqs[r].head ==> r in s.takes)
  }

  predicate Accounts(s: State) {
    AllCounted(s) && TakesServed(s)
  }

  /** Counting depends only on the uses left and on the takes. */
  lemma CountedSame(s: State, s2: State, k: string)
    requires Counted(s, k) && s2.takes == s.takes
    requires k in s2.table ==> k in s.table && s2.table[k].left == s.table[k].left
    ensures Counted(s2, k)
  {
    assert TakersOf(s2, k) == TakersOf(s, k);
  }

  /** A new ticket has no takers and all its uses. */
  lemma AccountsAdd(s: State, s2: State, k: string, m: Minted)
    requires Accounts(s) && k !in s.minted && s2.minted == s.minted[k := m] && s2.reqs == s.reqs && s2.takes == s.takes
    requires Bounded(s2.table) && (k in s2.table ==> s2.table[k].left == TICKET_USES)
    requires forall q :: q in s2.table && q != k ==> q in s.table && s2.table[q] == s.table[q]
    ensures Accounts(s2)
  {
    forall q | q in s2.minted ensures Counted(s2, q) {
      if q != k { CountedSame(s, s2, q); } else { assert TakersOf(s2, k) == {}; }
    }
  }

  lemma AccountsMint(s: State, k: string, sess: Session, home: string, rel: string)
    requires Accounts(s) && k !in s.minted
    ensures Accounts(After(s, Mint(k, sess, home, rel)))
  {
    var t, now := TicketFor(sess, home, rel, s.store.now), s.store.now;
    var s2, live := After(s, Mint(k, sess, home, rel)), LiveTickets(s.table, now);
    MintShape(s, k, sess, home, rel);
    LiveTicketsFewer(s.table, now);
    if s2 == s.(table := live) {
      AccountsPurged(s, s2);
    } else {
      AccountsAdd(s, s2, k, Minted(sess, home, now, t));
    }
  }

  lemma AccountsPurged(s: State, s2: State)
    requires Accounts(s) && s2 == s.(table := s2.table) && |s2.table| <= |s.table|
    requires forall q :: q in s2.table ==> q in s.table && s2.table[q] == s.table[q]
    ensures Accounts(s2)
  {
    forall q | q in s2.minted ensures Counted(s2, q) { CountedSame(s, s2, q); }
  }

  /** What a consuming lookup does to the table. */
  lemma TakeEffect(table: Table, k: string, now: int)
    ensures var (after, found) := LookupIn(table, k, true, now);
            && (forall q :: q != k ==> (q in after <==> q in table) && (q in after ==> after[q] == table[q]))
            && (k in after ==> k in table && found.Some? && after[k].left == table[k].left - 1)
            && (found.Some? ==> k in table && now <= table[k].exp && (k in after <==> table[k].left > 1))
            && (found == None ==> k !in after && (k in table ==> now > table[k].exp))
  {
  }

  lemma CountedTake(s: State, s2: State, r: nat, k: string)
    requires Counted(s, k) && r !in s.takes && s2.takes == s.takes[r := Take(k, s.store.now)]
    requires k in s.table && s.table[k].left >= 1
    requires k in s2.table ==> s2.table[k].left == s.table[k].left - 1
    ensures Counted(s2, k)
  {
    assert TakersOf(s2, k) == TakersOf(s, k) + {r};
  }

  lemma CountedOther(s: State, s2: State, r: nat, k: string, q: string)
    requires Counted(s, q) && q != k && r !in s.takes && s2.takes == s.takes[r := Take(k, s.store.now)]
    requires q in s2.table ==> q in s.table && s2.table[q] == s.table[q]
    ensures Counted(s2, q)
  {
    assert TakersOf(s2, q) == TakersOf(s, q);
  }

  /** A GET that passed its check: the lookup decides. */
  lemma TakeShape(s: State, r: nat)
    requires r in s.reqs && s.reqs[r].Checked? && !s.reqs[r].head
    ensures var s2, k := Progress(s, r), s.reqs[r].k;
            var (after, found) := LookupIn(s.table, k, true, s.store.now);
            && s2.table == after && s2.minted == s.minted
            && (found == None ==> s2.takes == s.takes && s2.reqs == s.reqs[r := Gone])
            && (found.Some? ==> s2.takes == s.takes[r := Take(k, s.store.now)]
                                && s2.reqs == s.reqs[r := Served(k, false, found.value)])
  {
  }

  lemma TookServed(s: State, s2: State, r: nat, k: string, t: Ticket)
    requires TakesServed(s) && r in s.reqs && !s.reqs[r].Served? && s2.minted == s.minted
    requires s2.takes == s.takes[r := Take(k, s.store.now)] && s2.reqs == s.reqs[r := Served(k, false, t)]
    requires k in s.minted && s.store.now <= s.minted[k].ticket.exp
    ensures TakesServed(s2)
  {
  }

  lemma MissedServed(s: State, s2: State, r: nat)
    requires TakesServed(s) && r in s.reqs && !s.reqs[r].Served? && s2.minted == s.minted
    requires s2.takes == s.takes && s2.reqs == s.reqs[r := Gone]
    ensures TakesServed(s2)
  {
  }

  lemma AccountsTake(s: State, r: nat)
    requires Traced(s) && Accounts(s) && r in s.reqs && s.reqs[r].Checked? && !s.reqs[r].head
    ensures Accounts(Progress(s, r))
  {
    var k, now := s.reqs[r].k, s.store.now;
    var s2 := Progress(s, r);
    var found := LookupIn(s.table, k, true, now).1;
    TakeShape(s, r);
    LookupBounded(s.table, k, true, now);
    TakeEffect(s.table, k, now);
    if found == None {
      forall q | q in s2.minted ensures Counted(s2, q) { CountedSame(s, s2, q); }
      MissedServed(s, s2, r);
    } else {
      forall q | q in s2.minted ensures Counted(s2, q) {
        if q == k { CountedTake(s, s2, r, k); } else { CountedOther(s, s2, r, k, q); }
      }
      TookServed(s, s2, r, k, found.value);
    }
  }

  /** Any other progress leaves the takes alone and no ticket with other uses than before. */
  lemma OtherProgress(s: State, r: nat)
    requires r in s.reqs && !(s.reqs[r].Checked? && !s.reqs[r].head)
    ensures var s2 := Progress(s, r);
            && s2.takes == s.takes && s2.minted == s.minted
            && (forall k :: k in s2.table ==> k in s.table && s2.table[k] == s.table[k])
            && s2.reqs.Keys == s.reqs.Keys
            && (forall q :: q in s.reqs && q != r ==> s2.reqs[q] == s.reqs[q])
            && (s2.reqs[r].Served? && !s2.reqs[r].head ==> s.reqs[r] == s2.reqs[r])
  {
  }

  lemma AccountsGo(s: State, r: nat)
    requires Traced(s) && Accounts(s) && Enabled(s, Go(r))
    ensures Accounts(Progress(s, r))
  {
    if s.reqs[r].Checked? && !s.reqs[r].head {
      AccountsTake(s, r);
    } else {
      OtherProgress(s, r);
      AccountsKept(s, Progress(s, r), r);
    }
  }

  lemma AccountsKept(s: State, s2: State, r: nat)
    requires Accounts(s) && r in s.reqs && !s.reqs[r].Served?
    requires s2.takes == s.takes && s2.minted == s.minted && s2.reqs.Keys == s.reqs.Keys
    requires forall k :: k in s2.table ==> k in s.table && s2.table[k] == s.table[k]
    requires forall q :: q in s.reqs && q != r ==> s2.reqs[q] == s.reqs[q]
    requires !(s2.reqs[r].Served? && !s2.reqs[r].head)
    ensures Accounts(s2)
  {
    SubsetSize(s2.table.Keys, s.table.Keys);
    forall q | q in s2.minted ensures Counted(s2, q) { CountedSame(s, s2, q); }
  }

  lemma AccountsStep(s: State, step: Step)
    requires Core(s) && Accounts(s) && Enabled(s, step)
    ensures Accounts(After(s, step))
  {
    match step
    case StoreStep(p) => AccountsSame(s, After(s, step));
    case Mint(k, sess, home, rel) => AccountsMint(s, k, sess, home, rel);
    case Start(r, k, head) => AccountsSame(s, After(s, step));
    case Go(r) => AccountsGo(s, r);
  }

  /** Nothing that is counted changed. */
  lemma AccountsSame(s: State, s2: State)
    requires Accounts(s) && s2.table == s.table && s2.minted == s.minted && s2.takes == s.takes
    requires forall r :: r in s.reqs ==> r in s2.reqs && s2.reqs[r] == s.reqs[r]
    requires forall r :: r in s2.reqs && r !in s.reqs ==> s2.reqs[r].Started?
    ensures Accounts(s2)
  {
    forall k | k in s2.minted ensures Counted(s2, k) { CountedSame(s, s2, k); }
  }

  lemma {:induction false} AccountsAlways(states: seq<State>, steps: seq<Step>, i: nat)
    requires Behaviour(states, steps) && i < |states|
    ensures Core(states[i]) && Accounts(states[i])
  {
    CoreAlways(states, steps, i);
    if i > 0 {
      AccountsAlways(states, steps, i - 1);
      AccountsStep(states[i - 1], steps[i - 1]);
    }
  }

  datatype Root = UserRoot(pam: string) | HomeRoot(id: string)

  /** writeOvpnAttachment's choice of cubby. */
  function RootOf(pam: string, home: string): Root {
    if pam != "" then UserRoot(pam) else HomeRoot(home)
  }

  /** In every run: the table holds at most 1024 tickets with one or two uses left; a ticket serves at
      most two GETs, none taken after it expired; and what is served comes from the minting session's cubby. */
  lemma TicketAccounting(states: seq<State>, steps: seq<Step>, i: nat, k: string, r: nat)
    requires Behaviour(states, steps) && i < |states|
    ensures |states[i].table| <= 1024
    ensures k in states[i].table ==> 1 <= states[i].table[k].left <= 2
    ensures |ServedGets(states[i], k)| <= 2
    ensures r in states[i].reqs && states[i].reqs[r].Served? ==>
              var q := states[i].reqs[r];
              q.k in states[i].minted &&
              var m := states[i].minted[q.k];
              && (!q.head ==> r in states[i].takes && states[i].takes[r].at <= m.at + 60 * SECOND)
              && q.t.rel == m.ticket.rel
              && RootOf(q.t.pam, q.t.home) == if m.sess.pam != "" then UserRoot(m.sess.pam) else HomeRoot(m.home)
  {
    var s := states[i];
    AccountsAlways(states, steps, i);
    if r in s.reqs && s.reqs[r].Served? {
      assert Honest(s, s.reqs[r]) && FromSession(s, s.minted[s.reqs[r].k]);
    }
    assert ServedGets(s, k) == TakersOf(s, k);
    if k !in s.minted { assert TakersOf(s, k) == {}; }
  }

  /** In every run, for every ticket: the session check says yes exactly while that is so. */
  lemma LiveIff(states: seq<State>, steps: seq<Step>, i: nat, k: string)
    requires Behaviour(states, steps) && i < |states| && k in states[i].minted
    ensures var m := states[i].minted[k];
            && (Live(states[i].store, m.ticket) <==> Reaches(states[i].store, m.sess))
            && (Reaches(states[i].store, m.sess) <==>
                !Revoked(states[i].store, m.ticket) && (m.sess.pam != "" || m.sess.key.iss != ""))
  {
    CoreAlways(states, steps, i);
    LiveInCore(states[i], k);
  }

  lemma LiveInCore(s: State, k: string)
    requires Core(s) && k in s.minted
    ensures Live(s.store, s.minted[k].ticket) <==> Reaches(s.store, s.minted[k].sess)
    ensures Reaches(s.store, s.minted[k].sess) <==>
            !Revoked(s.store, s.minted[k].ticket) && (s.minted[k].sess.pam != "" || s.minted[k].sess.key.iss != "")
  {
    var m := s.minted[k];
    assert FromSession(s, m);
    if m.sess.pam == "" { assert Protocol.Settled(s.store, m.sess); }
  }

  // ---- a ticket that should work, works ----------------------------------------------------------

  /** No ticket goes missing: it is in the table until it expires, is used up, or its session is gone. */
  predicate NoneLost(s: State) {
    forall k :: k in s.minted ==> Accounted(s, k)
  }

  predicate Accounted(s: State, k: string)
    requires k in s.minted
  {
    || k in s.table || s.store.now > s.minted[k].ticket.exp
    || |TakersOf(s, k)| == TICKET_USES || !Live(s.store, s.minted[k].ticket)
  }

  lemma NoneLostGo(s: State, r: nat)
    requires Core(s) && Accounts(s) && NoneLost(s) && Enabled(s, Go(r))
    ensures NoneLost(Progress(s, r))
  {
    ProgressShape(s, r);
    forall k | k in s.minted ensures Accounted(Progress(s, r), k) { AccountedGo(s, r, k); }
  }

  lemma AccountedGo(s: State, r: nat, k: string)
    requires Core(s) && Accounts(s) && Enabled(s, Go(r)) && k in s.minted && Accounted(s, k)
    ensures k in Progress(s, r).minted && Accounted(Progress(s, r), k)
  {
    if s.reqs[r].Checked? && !s.reqs[r].head {
      AccountedGet(s, r, k);
    } else {
      ProgressShape(s, r);
      OtherProgress(s, r);
      if k in s.table { OtherDrops(s, r, k); }
      AccountedOther(s, Progress(s, r), k);
    }
  }

  lemma AccountedGet(s: State, r: nat, k: string)
    requires Traced(s) && Accounts(s) && r in s.reqs && s.reqs[r].Checked? && !s.reqs[r].head
    requires k in s.minted && Accounted(s, k)
    ensures k in Progress(s, r).minted && Accounted(Progress(s, r), k)
  {
    var id := s.reqs[r].k;
    ProgressShape(s, r);
    TakeShape(s, r);
    TakeEffect(s.table, id, s.store.now);
    assert Counted(s, k) && (k in s.table ==> SameBut(s.table[k], s.minted[k].ticket));
    AccountedTake(s, Progress(s, r), r, id, k, LookupIn(s.table, id, true, s.store.now).1.Some?);
  }

  /** What a peek or a check drops has expired or lost its session. */
  lemma OtherDrops(s: State, r: nat, k: string)
    requires Core(s) && Enabled(s, Go(r)) && !(s.reqs[r].Checked? && !s.reqs[r].head) && k in s.table
    ensures k in Progress(s, r).table || s.store.now > s.minted[k].ticket.exp || !Live(s.store, s.minted[k].ticket)
  {
    var q := s.reqs[r];
    assert Honest(s, q) && SameBut(s.table[k], s.minted[k].ticket);
    if q.Peeked? && q.k == k { LiveIgnoresUses(s.store, q.t, s.minted[k].ticket); }
  }

  lemma AccountedOther(s: State, s2: State, k: string)
    requires k in s.minted && Accounted(s, k) && s2.minted == s.minted && s2.store == s.store && s2.takes == s.takes
    requires k in s.table ==> k in s2.table || s.store.now > s.minted[k].ticket.exp || !Live(s.store, s.minted[k].ticket)
    ensures Accounted(s2, k)
  {
    assert TakersOf(s2, k) == TakersOf(s, k);
  }

  lemma AccountedTake(s: State, s2: State, r: nat, id: string, k: string, found: bool)
    requires k in s.minted && Accounted(s, k) && Counted(s, k) && s2.minted == s.minted && s2.store == s.store
    requires r !in s.takes && s2.takes == if found then s.takes[r := Take(id, s.store.now)] else s.takes
    requires k != id && k in s.table ==> k in s2.table
    requires k == id && found ==> k in s.table && s.table[k].left >= 1 && (k in s2.table <==> s.table[k].left > 1)
    requires k == id && !found && k in s.table ==> s.store.now > s.minted[k].ticket.exp
    ensures Accounted(s2, k)
  {
    if found && k == id {
      AccountedUsed(s, s2, r, k);
    } else {
      assert TakersOf(s2, k) == TakersOf(s, k);
    }
  }

  lemma AccountedUsed(s: State, s2: State, r: nat, k: string)
    requires k in s.minted && s2.minted == s.minted && k in s.table && Counted(s, k) && s.table[k].left >= 1
    requires r !in s.takes && s2.takes == s.takes[r := Take(k, s.store.now)]
    requires k !in s2.table ==> s.table[k].left <= 1
    ensures Accounted(s2, k)
  {
    assert TakersOf(s2, k) == TakersOf(s, k) + {r};
  }

  lemma NoneLostStep(s: State, step: Step)
    requires Core(s) && Accounts(s) && NoneLost(s) && Enabled(s, step)
    ensures NoneLost(After(s, step))
  {
    match step
    case StoreStep(p) => NoneLostStore(s, p);
    case Mint(k, sess, home, rel) =>
      MintShape(s, k, sess, home, rel);
      NoneLostMint(s, After(s, step), k, Minted(sess, home, s.store.now, TicketFor(sess, home, rel, s.store.now)));
    case Start(r, k, head) =>
      forall k | k in s.minted ensures Accounted(After(s, step), k) {
        assert Accounted(s, k) && TakersOf(After(s, step), k) == TakersOf(s, k);
      }
    case Go(r) => NoneLostGo(s, r);
  }

  lemma NoneLostStore(s: State, p: Protocol.Step)
    requires Core(s) && NoneLost(s) && Protocol.Enabled(s.store, p)
    ensures NoneLost(After(s, StoreStep(p)))
  {
    var s2 := After(s, StoreStep(p));
    SeenGrows(s.store, p);
    forall k | k in s2.minted ensures Accounted(s2, k) {
      assert Accounted(s, k) && TakersOf(s2, k) == TakersOf(s, k) && FromSession(s, s.minted[k]);
      if !Live(s.store, s.minted[k].ticket) { DeadStaysInStore(s.store, p, s.minted[k]); }
    }
  }

  lemma NoneLostMint(s: State, s2: State, id: string, m: Minted)
    requires Traced(s) && NoneLost(s)
    requires var live := LiveTickets(s.table, s.store.now);
             s2 == s.(table := live) || s2 == s.(table := live[id := m.ticket], minted := s.minted[id := m])
    ensures NoneLost(s2)
  {
    forall k | k in s2.minted ensures Accounted(s2, k) {
      assert TakersOf(s2, k) == TakersOf(s, k);
      if k in s.minted { assert Accounted(s, k); }
    }
  }

  lemma {:induction false} NoneLostAlways(states: seq<State>, steps: seq<Step>, i: nat)
    requires Behaviour(states, steps) && i < |states|
    ensures NoneLost(states[i])
  {
    if i > 0 {
      NoneLostAlways(states, steps, i - 1);
      AccountsAlways(states, steps, i - 1);
      NoneLostStep(states[i - 1], steps[i - 1]);
    }
  }

  /** Ticket k should work: it was minted at most sixty seconds ago, served fewer than two GETs, and its
      session still reaches the cubby. */
  predicate Usable(s: State, k: string) {
    && k in s.minted && s.store.now <= s.minted[k].at + 60 * SECOND
    && |ServedGets(s, k)| < 2 && Reaches(s.store, s.minted[k].sess)
  }

  /** In every run such a ticket is in the table, with exactly the uses it has not served. */
  lemma UsableIsKept(states: seq<State>, steps: seq<Step>, i: nat, k: string)
    requires Behaviour(states, steps) && i < |states| && Usable(states[i], k)
    ensures k in states[i].table && states[i].table[k].left == 2 - |ServedGets(states[i], k)|
    ensures SameBut(states[i].table[k], states[i].minted[k].ticket) && Live(states[i].store, states[i].minted[k].ticket)
  {
    var s := states[i];
    AccountsAlways(states, steps, i);
    NoneLostAlways(states, steps, i);
    LiveInCore(s, k);
    assert ServedGets(s, k) == TakersOf(s, k);
    assert FromSession(s, s.minted[k]) && Accounted(s, k) && Counted(s, k);
  }

  /** Every access of a request moves it on while its ticket should work: the peek, the check, the take. */
  lemma UsableMovesOn(states: seq<State>, steps: seq<Step>, i: nat, r: nat)
    requires Behaviour(states, steps) && i < |steps| && steps[i] == Go(r) && Usable(states[i], states[i].reqs[r].k)
    ensures match states[i].reqs[r]
            case Started(k, head) => states[i + 1].reqs[r].Peeked?
            case Peeked(k, head, t) => states[i + 1].reqs[r].Checked?
            case Checked(k, head, t) => states[i + 1].reqs[r].Served?
            case _ => true
    ensures !states[i + 1].reqs[r].Gone? && states[i + 1].reqs[r].k == states[i].reqs[r].k && states[i + 1].reqs[r].head == states[i].reqs[r].head
  {
    var s, q := states[i], states[i].reqs[r];
    CoreAlways(states, steps, i);
    UsableIsKept(states, steps, i, q.k);
    assert Honest(s, q) && FromSession(s, s.minted[q.k]);
    if q.Peeked? { LiveIgnoresUses(s.store, q.t, s.minted[q.k].ticket); }
  }

  /** Each access of a request, in every run. The peek finds the ticket exactly while it is in the table and
      at most sixty seconds old. The check passes exactly while the session reaches its cubby, and drops the
      ticket otherwise. A HEAD is then served; a GET exactly if the ticket is still there and in time, and
      uses it once. A ticket found to be too old is dropped. */
  lemma GoIff(states: seq<State>, steps: seq<Step>, i: nat, r: nat)
    requires Behaviour(states, steps) && i < |steps| && steps[i] == Go(r)
    ensures GoesExactly(states[i], states[i + 1], r)
  {
    CoreAlways(states, steps, i);
    GoInCore(states[i], r);
  }

  ghost predicate GoesExactly(s: State, s2: State, r: nat)
    requires r in s.reqs && !s.reqs[r].Gone?
  {
    var k, q := s.reqs[r].k, s.reqs[r];
    var inTime := k in s.table && k in s.minted && s.store.now <= s.minted[k].at + 60 * SECOND;
    && s2.store == s.store && s2.minted == s.minted && r in s2.reqs && s2.reqs == s.reqs[r := s2.reqs[r]]
    && match q
       case Started(_, head) =>
         && s2.reqs[r] == (if inTime then Peeked(k, head, s.table[k]) else Gone)
         && s2.table == (if inTime then s.table else s.table - {k}) && s2.takes == s.takes
       case Peeked(_, head, t) =>
         && k in s.minted && s2.takes == s.takes
         && (Reaches(s.store, s.minted[k].sess) ==> s2.reqs[r] == Checked(k, head, t) && s2.table == s.table)
         && (!Reaches(s.store, s.minted[k].sess) ==> s2.reqs[r] == Gone && s2.table == s.table - {k})
       case Checked(_, head, t) =>
         if head then s2.reqs[r] == Served(k, head, t) && s2.table == s.table && s2.takes == s.takes
         else if inTime then
           && s2.reqs[r].Served? && s2.reqs[r].k == k && s2.takes == s.takes[r := Take(k, s.store.now)]
           && s2.table == if s.table[k].left > 1 then s.table[k := s.table[k].(left := s.table[k].left - 1)] else s.table - {k}
         else s2.reqs[r] == Gone && s2.table == s.table - {k} && s2.takes == s.takes
       case _ => true
  }

  lemma GoInCore(s: State, r: nat)
    requires Core(s) && Enabled(s, Go(r))
    ensures GoesExactly(s, Progress(s, r), r)
  {
    var q := s.reqs[r];
    ProgressShape(s, r);
    assert Honest(s, q);
    if q.k in s.table { assert FromSession(s, s.minted[q.k]); }
    match q
    case Started(_, _) => GoStarted(s, r);
    case Peeked(_, _, t) =>
      LiveInCore(s, q.k);
      LiveIgnoresUses(s.store, t, s.minted[q.k].ticket);
    case Checked(_, head, _) => if !head { GoTakes(s, r); }
    case _ =>
  }

  lemma GoStarted(s: State, r: nat)
    requires r in s.reqs && s.reqs[r].Started?
    ensures var k, s2 := s.reqs[r].k, Progress(s, r);
            var inTime := k in s.table && s.store.now <= s.table[k].exp;
            && s2.reqs[r] == (if inTime then Peeked(k, s.reqs[r].head, s.table[k]) else Gone)
            && s2.table == (if inTime then s.table else s.table - {k}) && s2.takes == s.takes
  {
    if s.reqs[r].k !in s.table { assert s.table - {s.reqs[r].k} == s.table; }
  }

  lemma GoTakes(s: State, r: nat)
    requires r in s.reqs && s.reqs[r].Checked? && !s.reqs[r].head
    ensures var k, s2 := s.reqs[r].k, Progress(s, r);
            if k in s.table && s.store.now <= s.table[k].exp then
              && s2.reqs[r].Served? && s2.reqs[r].k == k && s2.takes == s.takes[r := Take(k, s.store.now)]
              && s2.table == if s.table[k].left > 1 then s.table[k := s.table[k].(left := s.table[k].left - 1)] else s.table - {k}
            else s2.reqs[r] == Gone && s2.table == s.table - {k} && s2.takes == s.takes
  {
    if s.reqs[r].k !in s.table { assert s.table - {s.reqs[r].k} == s.table; }
  }

  /** Nobody else moves a request. */
  lemma {:induction false} RequestWaits(states: seq<State>, steps: seq<Step>, i: nat, j: nat, r: nat)
    requires Behaviour(states, steps) && i <= j < |states| && r in states[i].reqs
    requires forall l :: i <= l < j ==> steps[l] != Go(r)
    ensures r in states[j].reqs && states[j].reqs[r] == states[i].reqs[r]
    decreases j - i
  {
    if i < j {
      OthersWait(states[i], steps[i], r);
      RequestWaits(states, steps, i + 1, j, r);
    }
  }

  lemma OthersWait(s: State, step: Step, r: nat)
    requires Enabled(s, step) && step != Go(r) && r in s.reqs
    ensures r in After(s, step).reqs && After(s, step).reqs[r] == s.reqs[r]
  {
    match step
    case Mint(k, sess, home, rel) => MintShape(s, k, sess, home, rel);
    case Go(q) => ProgressShape(s, q);
    case _ =>
  }

  /** In every run: a request whose three accesses fall into moments at which its ticket should work is
      served, whatever happens in between. */
  lemma UsableIsServed(states: seq<State>, steps: seq<Step>, r: nat, a: nat, b: nat, c: nat)
    requires Behaviour(states, steps) && a < b < c < |steps| && steps[a] == steps[b] == steps[c] == Go(r)
    requires forall l :: a < l < c && l != b ==> steps[l] != Go(r)
    requires states[a].reqs[r].Started?
    requires var k := states[a].reqs[r].k; Usable(states[a], k) && Usable(states[b], k) && Usable(states[c], k)
    ensures states[c + 1].reqs[r].Served? && states[c + 1].reqs[r].k == states[a].reqs[r].k
    ensures states[c + 1].reqs[r].head == states[a].reqs[r].head
  {
    UsableMovesOn(states, steps, a, r);
    RequestWaits(states, steps, a + 1, b, r);
    UsableMovesOn(states, steps, b, r);
    RequestWaits(states, steps, b + 1, c, r);
    UsableMovesOn(states, steps, c, r);
  }

  /** The tickets in the table that are at most sixty seconds old. */
  function Young(s: State): set<string> {
    set q | q in s.table && q in s.minted && s.store.now <= s.minted[q].at + 60 * SECOND
  }

  /** A mint drops the older tickets, succeeds exactly if fewer than 1024 are left, and then stores a
      ticket for the session's cubby with two uses and sixty seconds to live. */
  lemma MintIff(states: seq<State>, steps: seq<Step>, i: nat, k: string, sess: Session, home: string, rel: string)
    requires Behaviour(states, steps) && i < |steps| && steps[i] == Mint(k, sess, home, rel)
    ensures MintsExactly(states[i], states[i + 1], k, sess, home, rel)
  {
    CoreAlways(states, steps, i);
    MintInCore(states[i], k, sess, home, rel);
  }

  ghost predicate MintsExactly(s: State, s2: State, k: string, sess: Session, home: string, rel: string) {
    && (k in s2.minted <==> |Young(s)| < 1024)
    && s2.table.Keys == (if k in s2.minted then Young(s) + {k} else Young(s))
    && (forall q :: q in Young(s) ==> s2.table[q] == s.table[q])
    && (k in s2.minted ==>
          && s2.minted[k].sess == sess && s2.minted[k].home == home && s2.minted[k].at == s.store.now
          && s2.table[k] == Ticket(sess.pam, if sess.pam == "" then home else "", sess.key, rel, sess.id,
                                   s.store.now + 60 * SECOND, 2))
  }

  lemma MintInCore(s: State, k: string, sess: Session, home: string, rel: string)
    requires Traced(s) && k !in s.minted
    ensures MintsExactly(s, After(s, Mint(k, sess, home, rel)), k, sess, home, rel)
  {
    var t := TicketFor(sess, home, rel, s.store.now);
    YoungIsUnexpired(s);
    MintInIff(s.table, k, t, s.store.now);
    MintsFrom(s, After(s, Mint(k, sess, home, rel)), k, sess, home, rel, LiveTickets(s.table, s.store.now), t);
  }

  lemma YoungIsUnexpired(s: State)
    requires Traced(s)
    ensures Young(s) == Unexpired(s.table, s.store.now)
  {
    forall q | q in s.table ensures s.table[q].exp == s.minted[q].at + 60 * SECOND {
      assert FromSession(s, s.minted[q]);
    }
  }

  lemma MintsFrom(s: State, s2: State, k: string, sess: Session, home: string, rel: string, live: Table, t: Ticket)
    requires k !in s.minted && k !in live && live.Keys == Young(s) && forall q :: q in live ==> live[q] == s.table[q]
    requires t == Ticket(sess.pam, if sess.pam == "" then home else "", sess.key, rel, sess.id, s.store.now + 60 * SECOND, 2)
    requires |Young(s)| < 1024 ==> s2 == s.(table := live[k := t], minted := s.minted[k := Minted(sess, home, s.store.now, t)])
    requires |Young(s)| >= 1024 ==> s2 == s.(table := live)
    ensures MintsExactly(s, s2, k, sess, home, rel)
  {
  }

  /** A HEAD request never uses a ticket up: it takes nothing, a ticket it leaves keeps its uses, and a
      ticket it drops is older than sixty seconds or has lost its session. */
  lemma HeadNeverConsumes(s: State, r: nat, k: string)
    requires Core(s) && Enabled(s, Go(r)) && s.reqs[r].head
    ensures var t := After(s, Go(r));
            && t.takes == s.takes
            && (k in t.table ==> k in s.table && t.table[k] == s.table[k])
            && (k in s.table && k !in t.table ==>
                  s.store.now > s.minted[k].at + 60 * SECOND || !Reaches(s.store, s.minted[k].sess))
  {
    assert Honest(s, s.reqs[r]);
    if k in s.table {
      assert FromSession(s, s.minted[k]);
      LiveInCore(s, k);
      if s.reqs[r].Peeked? && k == s.reqs[r].k { LiveIgnoresUses(s.store, s.reqs[r].t, s.minted[k].ticket); }
    }
  }
}
