// internal/web/server.go and auth.go: the table of OAuth transactions, and the callbacks that turn a
// transaction into a session, interleaved with each other, with new sign-ins and with reloads.
module Login {
  import opened Wrappers
  import opened Store
  import Token
  import opened Clock

  const MAX_TX: nat := 1024
  const OAUTH_TTL: int := 15 * MINUTE

  datatype Tx = Tx(nonce: string, verifier: string, provider: string, exp: int)
  type Table = map<string, Tx>

  function OpenTxs(table: Table, now: int): Table {
    map k | k in table && now <= table[k].exp :: table[k]
  }

  /** The table after putOauthTx, or None when it is full. */
  function PutIn(table: Table, id: string, tx: Tx, now: int): Option<Table> {
    var live := OpenTxs(table, now);
    if id !in live && |live| >= MAX_TX then None else Some(live[id := tx])
  }

  /** What takeOauthTx returns; the entry is gone either way. */
  function TakeFrom(table: Table, id: string, now: int): Option<Tx> {
    if id in table && now <= table[id].exp then Some(table[id]) else None
  }

  lemma PutBounded(table: Table, id: string, tx: Tx, now: int)
    requires |table| <= MAX_TX
    ensures |OpenTxs(table, now)| <= MAX_TX
    ensures PutIn(table, id, tx, now).Some? ==> |PutIn(table, id, tx, now).value| <= MAX_TX
  {
    var live := OpenTxs(table, now);
    SubsetSize(live.Keys, table.Keys);
    assert live[id := tx].Keys == live.Keys + {id};
  }

  class OauthTable {
    var table: Table

    ghost predicate Valid()
      reads this
    {
      |table| <= MAX_TX
    }

    constructor ()
      ensures Valid() && table == map[]
    {
      table := map[];
    }

    method Put(id: string, tx: Tx, now: int) returns (ok: bool)
      requires Valid()
      modifies this
      ensures Valid()
      ensures ok <==> PutIn(old(table), id, tx, now).Some?
      ensures table == if ok then PutIn(old(table), id, tx, now).value else OpenTxs(old(table), now)
    {
      ghost var was := table;
      PutBounded(was, id, tx, now);
      var todo := table.Keys;
      while todo != {}
        invariant todo <= was.Keys
        invariant forall k :: k in table <==> k in was && (k in todo || now <= was[k].exp)
        invariant forall k :: k in table ==> table[k] == was[k]
        decreases todo
      {
        var k :| k in todo;
        if now > table[k].exp { table := table - {k}; }
        todo := todo - {k};
      }
      assert table == OpenTxs(was, now);
      if id !in table && |table| >= MAX_TX { return false; }
      table := table[id := tx];
      return true;
    }

    method Take(id: string, now: int) returns (r: Option<Tx>)
      requires Valid()
      modifies this
      ensures Valid() && table == old(table) - {id} && r == TakeFrom(old(table), id, now)
    {
      if id !in table { return None; }
      var tx := table[id];
      SubsetSize(table.Keys - {id}, table.Keys);
      table := table - {id};
      assert table.Keys == old(table).Keys - {id};
      if now > tx.exp { return None; }
      return Some(tx);
    }
  }

  // ---- callbacks as a protocol -----------------------------------------------------------------

  /** What the provider asserts; email is the normalised address, if it has one. */
  datatype Identity = Identity(key: Key, email: Option<string>, verified: bool)

  datatype Callback =
    | Arrived(cookie: string, state: string)
    | Verified(cookie: string, nonce: string)
    | Took(tx: string, nonce: string)
    | Exchanged(tx: string, nonce: string, who: Identity)
    | Gated(tx: string, nonce: string, who: Identity, pinned: bool)
    | Born(tx: string, nonce: string, who: Identity, pinned: bool)
    | Failed

  datatype Issued = Issued(tx: Tx, at: int)

  /** How a transaction was consumed. */
  datatype Taken = Taken(tx: Tx, at: int, owner: nat)

  datatype State = State(
    now: int,
    table: Table,
    issued: map<string, Issued>,      // every transaction ever put, and when
    taken: map<string, Taken>,
    subjects: seq<Subject>,
    allowlist: Option<set<string>>,   // None: no ALLOWED_EMAILS
    pamMode: bool,                    // a Unix password follows
    callbacks: map<nat, Callback>)

  datatype Step =
    | Tick(delta: nat)
    | Reload(allowlist: Option<set<string>>, pamMode: bool)
    | SignIn(id: string, provider: string, nonce: string, verifier: string)
    | Arrive(c: nat, cookie: string, state: string)
    | Check(c: nat)                        // verifyState
    | Claim(c: nat)                        // takeOauthTx and the nonce comparison
    | Exchange(c: nat, who: Option<Identity>)
    | Gate(c: nat, linked: bool)           // gateIdentity; linked: what LookupLink says of the subject
    | Birth(c: nat)                        // CreateSession

  const INIT := State(0, map[], map[], map[], [], None, false, map[])

  function With(s: State, c: nat, cb: Callback): State {
    s.(callbacks := s.callbacks[c := cb])
  }

  predicate At(s: State, c: nat, step: Step) {
    c in s.callbacks &&
    match step
    case Check(_) => s.callbacks[c].Arrived?
    case Claim(_) => s.callbacks[c].Verified?
    case Exchange(_, _) => s.callbacks[c].Took?
    case Gate(_, _) => s.callbacks[c].Exchanged?
    case Birth(_) => s.callbacks[c].Gated?
    case _ => false
  }

  predicate Enabled(s: State, step: Step) {
    match step
    case Tick(_) => true
    case Reload(_, _) => true
    case SignIn(id, _, _, _) => id !in s.issued
    case Arrive(c, _, _) => c !in s.callbacks
    case Check(c) => At(s, c, step)
    case Claim(c) => At(s, c, step)
    case Exchange(c, _) => At(s, c, step)
    case Gate(c, _) => At(s, c, step)
    case Birth(c) => At(s, c, step)
  }

  /** gateIdentity with a non-empty allowlist. */
  function GateListed(s: State, c: nat, allowed: set<string>): State
    requires c in s.callbacks && s.callbacks[c].Exchanged?
  {
    var Exchanged(tx, nonce, who) := s.callbacks[c];
    if !who.verified || who.email == None || who.email.value !in allowed then With(s, c, Failed)
    else
      match Bind(s.subjects, who.email.value, who.key)
      case Pinned(subjects) => With(s, c, Gated(tx, nonce, who, true)).(subjects := subjects)
      case _ => With(s, c, Failed)
  }

  function Claimed(s: State, c: nat): State
    requires c in s.callbacks && s.callbacks[c].Verified?
  {
    var Verified(cookie, nonce) := s.callbacks[c];
    var found := TakeFrom(s.table, cookie, s.now);
    var gone := s.(table := s.table - {cookie});
    match found
    case None => With(gone, c, Failed)
    case Some(tx) =>
      var took := gone.(taken := s.taken[cookie := Taken(tx, s.now, c)]);
      With(took, c, if tx.nonce == nonce then Took(cookie, nonce) else Failed)
  }

  function SignedIn(s: State, id: string, tx: Tx): State {
    match PutIn(s.table, id, tx, s.now)
    case None => s.(table := OpenTxs(s.table, s.now))
    case Some(table) => s.(table := table, issued := s.issued[id := Issued(tx, s.now)])
  }

  function After(mac: Token.Mac, s: State, step: Step): State
    requires Enabled(s, step)
  {
    match step
    case Tick(delta) => s.(now := s.now + delta)
    case Reload(allowlist, pamMode) => s.(allowlist := allowlist, pamMode := pamMode)
    case SignIn(id, provider, nonce, verifier) =>
      SignedIn(s, id, Tx(nonce, verifier, provider, s.now + OAUTH_TTL))
    case Arrive(c, cookie, state) => With(s, c, Arrived(cookie, state))
    case Check(c) =>
      (match Token.Verify(mac, s.callbacks[c].state, s.now)
       case None => With(s, c, Failed)
       case Some(nonce) => With(s, c, Verified(s.callbacks[c].cookie, nonce)))
    case Claim(c) => Claimed(s, c)
    case Exchange(c, who) =>
      (match who
       case None => With(s, c, Failed)
       case Some(id) => With(s, c, Exchanged(s.callbacks[c].tx, s.callbacks[c].nonce, id)))
    case Gate(c, linked) =>
      (match s.allowlist
       case Some(allowed) => GateListed(s, c, allowed)
       case None =>
         var Exchanged(tx, nonce, who) := s.callbacks[c];
         var ok := s.pamMode || linked || (who.verified && who.email.Some?);
         With(s, c, if ok then Gated(tx, nonce, who, false) else Failed))
    case Birth(c) =>
      var Gated(tx, nonce, who, pinned) := s.callbacks[c];
      With(s, c, Born(tx, nonce, who, pinned))
  }

  predicate HasTx(cb: Callback) {
    cb.Took? || cb.Exchanged? || cb.Gated? || cb.Born?
  }

  /** The callback owns the transaction it claims, consumed in time, under the nonce it verified. */
  predicate Owns(s: State, c: nat) {
    c in s.callbacks && HasTx(s.callbacks[c]) ==>
      var cb := s.callbacks[c];
      && cb.tx in s.taken && s.taken[cb.tx].owner == c
      && s.taken[cb.tx].tx.nonce == cb.nonce && s.taken[cb.tx].at <= s.taken[cb.tx].tx.exp
  }

  /** A pinned callback's address is pinned to its subject. */
  predicate PinHolds(s: State, c: nat) {
    c in s.callbacks && (s.callbacks[c].Gated? || s.callbacks[c].Born?) && s.callbacks[c].pinned ==>
      s.callbacks[c].who.email.Some? && PinOf(s.subjects, s.callbacks[c].who.email.value) == Some(s.callbacks[c].who.key)
  }

  predicate Inv(s: State) {
    && |s.table| <= MAX_TX
    && s.table.Keys !! s.taken.Keys
    && (forall id :: id in s.table ==> id in s.issued && s.table[id] == s.issued[id].tx)
    && (forall id :: id in s.taken ==> id in s.issued && s.taken[id].tx == s.issued[id].tx)
    && (forall id :: id in s.issued ==> s.issued[id].tx.exp == s.issued[id].at + OAUTH_TTL)
    && (forall c :: c in s.callbacks ==> Owns(s, c) && PinHolds(s, c))
  }

  /** Only callback c moved; it keeps its transaction, its nonce and its pin. */
  predicate Moved(s: State, s2: State, c: nat) {
    && c in s2.callbacks && s2 == With(s, c, s2.callbacks[c])
    && var cb2 := s2.callbacks[c];
    && (HasTx(cb2) ==> c in s.callbacks && HasTx(s.callbacks[c]) && s.callbacks[c].tx == cb2.tx && s.callbacks[c].nonce == cb2.nonce)
    && ((cb2.Gated? || cb2.Born?) && cb2.pinned ==>
          c in s.callbacks && s.callbacks[c].Gated? && s.callbacks[c].who == cb2.who && s.callbacks[c].pinned)
  }

  predicate SameBooks(s: State, s2: State) {
    && s2.callbacks == s.callbacks && s2.taken == s.taken && s2.subjects == s.subjects
    && s2.table == s.table && s2.issued == s.issued && s2.now >= s.now
  }

  lemma InvMoved(s: State, s2: State, c: nat)
    requires Inv(s) && Moved(s, s2, c)
    ensures Inv(s2)
  {
    if c in s.callbacks { assert Owns(s, c) && PinHolds(s, c); }
    forall d | d in s2.callbacks ensures Owns(s2, d) && PinHolds(s2, d) {
      if d != c { assert Owns(s, d) && PinHolds(s, d); }
    }
  }

  lemma InvClaim(s: State, c: nat)
    requires Inv(s) && c in s.callbacks && s.callbacks[c].Verified?
    ensures Inv(Claimed(s, c))
  {
    var Verified(cookie, nonce) := s.callbacks[c];
    var gone := s.(table := s.table - {cookie});
    InvGone(s, gone);
    match TakeFrom(s.table, cookie, s.now) {
      case None => InvMoved(gone, Claimed(s, c), c);
      case Some(tx) => InvTake(s, gone, cookie, Taken(tx, s.now, c), Claimed(s, c).callbacks[c], Claimed(s, c));
    }
  }

  lemma InvGone(s: State, gone: State)
    requires Inv(s) && gone == s.(table := gone.table)
    requires gone.table.Keys <= s.table.Keys && forall id :: id in gone.table ==> gone.table[id] == s.table[id]
    ensures Inv(gone)
  {
    SubsetSize(gone.table.Keys, s.table.Keys);
    forall d | d in gone.callbacks ensures Owns(gone, d) && PinHolds(gone, d) { assert Owns(s, d) && PinHolds(s, d); }
  }

  /** An entry that is no longer in the table is taken, in time, by the callback it goes to. */
  lemma InvTake(s: State, gone: State, id: string, take: Taken, cb: Callback, s2: State)
    requires Inv(s) && Inv(gone) && id in s.table && take.tx == s.table[id] && take.at <= take.tx.exp
    requires gone == s.(table := s.table - {id})
    requires cb in {Took(id, take.tx.nonce), Failed} && s2 == With(gone.(taken := s.taken[id := take]), take.owner, cb)
    ensures Inv(s2)
  {
    forall d | d in s2.callbacks ensures Owns(s2, d) && PinHolds(s2, d) {
      if d != take.owner { assert Owns(s, d) && PinHolds(s, d); }
    }
  }

  lemma InvGate(s: State, c: nat, allowed: set<string>)
    requires Inv(s) && c in s.callbacks && s.callbacks[c].Exchanged?
    ensures Inv(GateListed(s, c, allowed))
  {
    var s2 := GateListed(s, c, allowed);
    var who := s.callbacks[c].who;
    assert Owns(s, c);
    forall d | d in s2.callbacks ensures Owns(s2, d) && PinHolds(s2, d) {
      if d != c { assert Owns(s, d) && PinHolds(s, d); }
      if s2.callbacks[c].Gated? {
        var mail := if d == c || !(s.callbacks[d].Gated? || s.callbacks[d].Born?) || s.callbacks[d].who.email == None
                    then who.email.value else s.callbacks[d].who.email.value;
        BindWritesOnce(s.subjects, who.email.value, who.key, mail);
      }
    }
  }

  /** What kind of change a step is. */
  predicate Shape(s: State, step: Step, s2: State)
    requires Enabled(s, step)
  {
    match step
    case Tick(_) => SameBooks(s, s2)
    case Reload(_, _) => SameBooks(s, s2)
    case SignIn(id, provider, nonce, verifier) => s2 == SignedIn(s, id, Tx(nonce, verifier, provider, s.now + OAUTH_TTL))
    case Claim(c) => s2 == Claimed(s, c)
    case Gate(c, _) => if s.allowlist.Some? then s2 == GateListed(s, c, s.allowlist.value) else Moved(s, s2, c)
    case _ => Moved(s, s2, step.c)
  }

  lemma AfterShape(mac: Token.Mac, s: State, step: Step)
    requires Enabled(s, step)
    ensures Shape(s, step, After(mac, s, step))
  {
  }

  lemma InvStep(mac: Token.Mac, s: State, step: Step)
    requires Inv(s) && Enabled(s, step)
    ensures Inv(After(mac, s, step))
  {
    AfterShape(mac, s, step);
    InvShape(s, step, After(mac, s, step));
  }

  lemma InvShape(s: State, step: Step, s2: State)
    requires Inv(s) && Enabled(s, step) && Shape(s, step, s2)
    ensures Inv(s2)
  {
    match step
    case Tick(_) => InvSame(s, s2);
    case Reload(_, _) => InvSame(s, s2);
    case SignIn(id, provider, nonce, verifier) => InvSignIn(s, id, Tx(nonce, verifier, provider, s.now + OAUTH_TTL));
    case Claim(c) => InvClaim(s, c);
    case Gate(c, _) =>
      if s.allowlist.Some? { InvGate(s, c, s.allowlist.value); } else { InvMoved(s, s2, c); }
    case _ => InvMoved(s, s2, step.c);
  }

  lemma InvSame(s: State, s2: State)
    requires Inv(s) && SameBooks(s, s2)
    ensures Inv(s2)
  {
    forall d | d in s2.callbacks ensures Owns(s2, d) && PinHolds(s2, d) { assert Owns(s, d) && PinHolds(s, d); }
  }

  lemma InvSignIn(s: State, id: string, tx: Tx)
    requires Inv(s) && id !in s.issued && tx.exp == s.now + OAUTH_TTL
    ensures Inv(SignedIn(s, id, tx))
  {
    PutBounded(s.table, id, tx, s.now);
    InvIssue(s, SignedIn(s, id, tx), id);
  }

  lemma InvIssue(s: State, s2: State, id: string)
    requires Inv(s) && id !in s.issued && s2.callbacks == s.callbacks && s2.taken == s.taken && s2.subjects == s.subjects
    requires |s2.table| <= MAX_TX
    requires forall k :: k in s2.table && k != id ==> k in s.table && s2.table[k] == s.table[k]
    requires s2.issued == s.issued || (id in s2.issued && s2.issued == s.issued[id := s2.issued[id]])
    requires id in s2.issued ==> s2.issued[id].tx.exp == s2.issued[id].at + OAUTH_TTL
    requires id in s2.table ==> id in s2.issued && s2.table[id] == s2.issued[id].tx
    ensures Inv(s2)
  {
    forall d | d in s2.callbacks ensures Owns(s2, d) && PinHolds(s2, d) { assert Owns(s, d) && PinHolds(s, d); }
  }

  predicate Behaviour(mac: Token.Mac, states: seq<State>, steps: seq<Step>) {
    && |states| == |steps| + 1 && states[0] == INIT
    && forall i :: 0 <= i < |steps| ==> Enabled(states[i], steps[i]) && states[i + 1] == After(mac, states[i], steps[i])
  }

  lemma {:induction false} InvAlways(mac: Token.Mac, states: seq<State>, steps: seq<Step>, i: nat)
    requires Behaviour(mac, states, steps) && i < |states|
    ensures Inv(states[i])
  {
    if i > 0 {
      InvAlways(mac, states, steps, i - 1);
      InvStep(mac, states[i - 1], steps[i - 1]);
    }
  }

  /** A transaction leaves the table only by being taken or by running out. */
  predicate NothingLost(s: State) {
    forall id :: id in s.issued ==> id in s.table || id in s.taken || s.now > s.issued[id].tx.exp
  }

  lemma SignInLosesNothing(s: State, id: string, tx: Tx)
    requires Inv(s) && NothingLost(s) && id !in s.issued
    ensures NothingLost(SignedIn(s, id, tx))
  {
  }

  lemma ClaimLosesNothing(s: State, c: nat)
    requires Inv(s) && NothingLost(s) && c in s.callbacks && s.callbacks[c].Verified?
    ensures NothingLost(Claimed(s, c))
  {
  }

  lemma NothingLostStep(mac: Token.Mac, s: State, step: Step)
    requires Inv(s) && NothingLost(s) && Enabled(s, step)
    ensures NothingLost(After(mac, s, step))
  {
    match step
    case SignIn(id, provider, nonce, verifier) => SignInLosesNothing(s, id, Tx(nonce, verifier, provider, s.now + OAUTH_TTL));
    case Claim(c) => ClaimLosesNothing(s, c);
    case _ => TableStays(mac, s, step);
  }

  lemma TableStays(mac: Token.Mac, s: State, step: Step)
    requires Enabled(s, step) && !step.SignIn? && !step.Claim?
    ensures var s2 := After(mac, s, step);
            s2.table == s.table && s2.taken == s.taken && s2.issued == s.issued && s2.now >= s.now
  {
    AfterShape(mac, s, step);
    TableStaysShape(s, step, After(mac, s, step));
  }

  lemma TableStaysShape(s: State, step: Step, s2: State)
    requires Enabled(s, step) && !step.SignIn? && !step.Claim? && Shape(s, step, s2)
    ensures s2.table == s.table && s2.taken == s.taken && s2.issued == s.issued && s2.now >= s.now
  {
  }

  lemma {:induction false} NothingLostAlways(mac: Token.Mac, states: seq<State>, steps: seq<Step>, i: nat)
    requires Behaviour(mac, states, steps) && i < |states|
    ensures NothingLost(states[i])
  {
    if i > 0 {
      NothingLostAlways(mac, states, steps, i - 1);
      InvAlways(mac, states, steps, i - 1);
      NothingLostStep(mac, states[i - 1], steps[i - 1]);
    }
  }

  /** In every run a callback gets past takeOauthTx exactly with the cookie of a sign-in that was stored
      at most fifteen minutes ago, was not taken yet, and signed the same nonce. */
  lemma ClaimIff(mac: Token.Mac, states: seq<State>, steps: seq<Step>, i: nat, c: nat)
    requires Behaviour(mac, states, steps) && i < |steps| && steps[i] == Claim(c)
    ensures var Verified(cookie, nonce) := states[i].callbacks[c];
            && (states[i + 1].callbacks[c] == Took(cookie, nonce) <==>
                && cookie in states[i].issued && cookie !in states[i].taken
                && states[i].now <= states[i].issued[cookie].at + 15 * MINUTE
                && states[i].issued[cookie].tx.nonce == nonce)
            && (states[i + 1].callbacks[c] == Took(cookie, nonce) || states[i + 1].callbacks[c] == Failed)
            && cookie !in states[i + 1].table
  {
    InvAlways(mac, states, steps, i);
    NothingLostAlways(mac, states, steps, i);
  }

  /** A sign-in is stored exactly if fewer than 1024 transactions are open, and open means put at most
      fifteen minutes ago and not taken. */
  lemma SignInIff(mac: Token.Mac, states: seq<State>, steps: seq<Step>, i: nat, id: string)
    requires Behaviour(mac, states, steps) && i < |steps| && steps[i].SignIn? && steps[i].id == id
    ensures var s, s2 := states[i], states[i + 1];
            var open := set k | k in s.issued && k !in s.taken && s.now <= s.issued[k].at + 15 * MINUTE;
            && (id in s2.issued <==> |open| < 1024)
            && (id in s2.issued ==> s2.issued[id] == Issued(Tx(steps[i].nonce, steps[i].verifier, steps[i].provider, s.now + 15 * MINUTE), s.now))
            && s2.table.Keys == (if id in s2.issued then open + {id} else open)
  {
    InvAlways(mac, states, steps, i);
    NothingLostAlways(mac, states, steps, i);
    var s := states[i];
    var open := set k | k in s.issued && k !in s.taken && s.now <= s.issued[k].at + 15 * MINUTE;
    assert OpenTxs(s.table, s.now).Keys == open;
  }

  // ---- the gate ---------------------------------------------------------------------------------

  predicate PastGate(s: State, c: nat) {
    c in s.callbacks && (s.callbacks[c].Gated? || s.callbacks[c].Born?)
  }

  /** Who may get past gateIdentity: with an allowlist, a verified address on it whose pin, if there is
      one, is this subject; without one, anybody if a Unix password follows or the subject is linked, and
      otherwise a verified address. */
  predicate Admitted(s: State, who: Identity, linked: bool) {
    match s.allowlist
    case Some(allowed) =>
      && who.verified && who.email.Some? && who.email.value in allowed
      && who.email.value != "" && who.key.iss != "" && who.key.sub != ""
      && PinOf(s.subjects, who.email.value) in {None, Some(who.key)}
    case None => s.pamMode || linked || (who.verified && who.email.Some?)
  }

  lemma GateListedIff(s: State, c: nat, allowed: set<string>, linked: bool)
    requires c in s.callbacks && s.callbacks[c].Exchanged? && s.allowlist == Some(allowed)
    ensures Gates(s, c, linked, GateListed(s, c, allowed))
  {
    var who := s.callbacks[c].who;
    if who.email.Some? && Bind(s.subjects, who.email.value, who.key).Pinned? {
      BindWritesOnce(s.subjects, who.email.value, who.key, who.email.value);
    }
  }

  /** The callback gets past exactly if it is admitted, and is pinned exactly if there is an allowlist. */
  predicate Gates(s: State, c: nat, linked: bool, s2: State)
    requires c in s.callbacks && s.callbacks[c].Exchanged?
  {
    var who := s.callbacks[c].who;
    && (PastGate(s2, c) <==> Admitted(s, who, linked))
    && (PastGate(s2, c) ==> s2.callbacks[c].who == who && s2.callbacks[c].pinned == s.allowlist.Some?)
    && (PastGate(s2, c) && s.allowlist.Some? ==> who.email.Some? && PinOf(s2.subjects, who.email.value) == Some(who.key))
    && (!PastGate(s2, c) || s.allowlist == None ==> s2.subjects == s.subjects)
  }

  lemma GateIff(mac: Token.Mac, s: State, c: nat, linked: bool)
    requires Enabled(s, Gate(c, linked))
    ensures Gates(s, c, linked, After(mac, s, Gate(c, linked)))
  {
    if s.allowlist.Some? { GateListedIff(s, c, s.allowlist.value, linked); }
  }

  /** At most callback c differs. */
  ghost predicate SameBut(s: State, s2: State, c: nat) {
    forall d :: d != c ==> (d in s2.callbacks <==> d in s.callbacks) && (d in s.callbacks ==> s2.callbacks[d] == s.callbacks[d])
  }

  lemma ClaimMoves(s: State, c: nat)
    requires c in s.callbacks && s.callbacks[c].Verified?
    ensures SameBut(s, Claimed(s, c), c)
  {
  }

  lemma GateMoves(s: State, c: nat, allowed: set<string>)
    requires c in s.callbacks && s.callbacks[c].Exchanged?
    ensures SameBut(s, GateListed(s, c, allowed), c)
  {
  }

  /** A step moves at most its own callback. */
  lemma OthersStay(s: State, step: Step, s2: State, c: nat)
    requires Enabled(s, step) && Shape(s, step, s2) && (step.Tick? || step.Reload? || step.SignIn? || step.c != c)
    ensures c in s2.callbacks <==> c in s.callbacks
    ensures c in s.callbacks ==> s2.callbacks[c] == s.callbacks[c]
  {
    match step
    case Tick(_) =>
    case Reload(_, _) =>
    case SignIn(_, _, _, _) =>
    case Claim(d) => ClaimMoves(s, d);
    case Gate(d, _) => if s.allowlist.Some? { GateMoves(s, d, s.allowlist.value); }
    case _ => assert SameBut(s, s2, step.c);
  }

  /** Of the steps of a callback, only the gate lets it past, and only the gate or its birth keep it there. */
  lemma OwnStep(mac: Token.Mac, s: State, step: Step)
    requires Enabled(s, step) && (step.Arrive? || step.Check? || step.Claim? || step.Exchange? || step.Birth?)
    ensures PastGate(After(mac, s, step), step.c) ==>
              && PastGate(s, step.c) && s.callbacks[step.c].who == After(mac, s, step).callbacks[step.c].who
              && s.callbacks[step.c].pinned == After(mac, s, step).callbacks[step.c].pinned
  {
  }

  /** c got past the gate before, or now by being admitted. */
  predicate GotPast(s: State, step: Step, s2: State, c: nat) {
    PastGate(s2, c) ==>
      || (PastGate(s, c) && s.callbacks[c].who == s2.callbacks[c].who && s.callbacks[c].pinned == s2.callbacks[c].pinned)
      || AdmittedBy(s, step, c, s2.callbacks[c].who, s2.callbacks[c].pinned)
  }

  /** The step is c's gate, it admits who, and it pins exactly if there is an allowlist. */
  predicate AdmittedBy(s: State, step: Step, c: nat, who: Identity, pinned: bool) {
    step.Gate? && step.c == c && Admitted(s, who, step.linked) && pinned == s.allowlist.Some?
  }

  lemma GotPastStep(mac: Token.Mac, s: State, step: Step, c: nat)
    requires Enabled(s, step)
    ensures GotPast(s, step, After(mac, s, step), c)
  {
    if step.Tick? || step.Reload? || step.SignIn? || step.c != c {
      AfterShape(mac, s, step);
      OthersStay(s, step, After(mac, s, step), c);
    } else if step.Gate? {
      GateIff(mac, s, c, step.linked);
    } else {
      OwnStep(mac, s, step);
    }
  }

  lemma {:induction false} AdmittedEarlier(states: seq<State>, steps: seq<Step>, i: nat, c: nat)
    requires |states| == |steps| + 1 && i < |states| && !PastGate(states[0], c) && PastGate(states[i], c)
    requires forall j :: 0 <= j < |steps| ==> GotPast(states[j], steps[j], states[j + 1], c)
    ensures exists k :: 0 <= k < i && AdmittedBy(states[k], steps[k], c, states[i].callbacks[c].who, states[i].callbacks[c].pinned)
  {
    assert GotPast(states[i - 1], steps[i - 1], states[i], c);
    if !AdmittedBy(states[i - 1], steps[i - 1], c, states[i].callbacks[c].who, states[i].callbacks[c].pinned) {
      AdmittedEarlier(states, steps, i - 1, c);
    }
  }

  /** In every run, whoever got a session got past the gate at some step: under an allowlist, with a
      verified address that was on it then. */
  lemma OnlyTheAdmitted(mac: Token.Mac, states: seq<State>, steps: seq<Step>, i: nat, c: nat)
    requires Behaviour(mac, states, steps) && i < |states| && PastGate(states[i], c)
    ensures exists k :: 0 <= k < i && AdmittedBy(states[k], steps[k], c, states[i].callbacks[c].who, states[i].callbacks[c].pinned)
  {
    forall j | 0 <= j < |steps| ensures GotPast(states[j], steps[j], states[j + 1], c) {
      GotPastStep(mac, states[j], steps[j], c);
    }
    AdmittedEarlier(states, steps, i, c);
  }

  /** In every run: at most 1024 transactions are open; a callback that made a session consumed,
      before it expired, a transaction whose nonce is the one in its signed state; two such
      callbacks consumed two transactions. */
  lemma TransactionsAreUsedOnce(mac: Token.Mac, states: seq<State>, steps: seq<Step>, i: nat, c: nat, d: nat)
    requires Behaviour(mac, states, steps) && i < |states|
    ensures |states[i].table| <= 1024
    ensures c in states[i].callbacks && states[i].callbacks[c].Born? ==>
              var b := states[i].callbacks[c];
              && b.tx in states[i].taken && b.tx !in states[i].table && b.tx in states[i].issued
              && states[i].issued[b.tx].tx.nonce == b.nonce
              && states[i].taken[b.tx].at <= states[i].issued[b.tx].at + 15 * MINUTE
    ensures c in states[i].callbacks && d in states[i].callbacks && c != d
            && states[i].callbacks[c].Born? && states[i].callbacks[d].Born?
            ==> states[i].callbacks[c].tx != states[i].callbacks[d].tx
  {
    InvAlways(mac, states, steps, i);
    if c in states[i].callbacks { assert Owns(states[i], c); }
    if d in states[i].callbacks { assert Owns(states[i], d); }
  }

  /** The nonce a callback carries stood in its state, under the MAC and at most fifteen minutes old
      when the callback checked it. */
  lemma {:induction false} NonceWasVerified(mac: Token.Mac, states: seq<State>, steps: seq<Step>, i: nat, c: nat)
    requires Behaviour(mac, states, steps) && i < |states|
    ensures HasNonce(states[i], c) ==>
              exists k :: 0 <= k < i && c in states[k].callbacks && states[k].callbacks[c].Arrived?
                          && Token.Genuine(mac, states[k].callbacks[c].state, states[i].callbacks[c].nonce, states[k].now)
  {
    if i > 0 {
      NonceWasVerified(mac, states, steps, i - 1, c);
      if HasNonce(states[i], c) {
        NonceStep(mac, states[i - 1], steps[i - 1], c);
      }
    }
  }

  predicate HasNonce(s: State, c: nat) {
    c in s.callbacks && (s.callbacks[c].Verified? || HasTx(s.callbacks[c]))
  }

  /** c had its nonce already, or gets it now from a genuine state. */
  ghost predicate GotNonce(mac: Token.Mac, s: State, s2: State, c: nat) {
    HasNonce(s2, c) ==>
      || (HasNonce(s, c) && s.callbacks[c].nonce == s2.callbacks[c].nonce)
      || (c in s.callbacks && s.callbacks[c].Arrived? && Token.Genuine(mac, s.callbacks[c].state, s2.callbacks[c].nonce, s.now))
  }

  /** A callback gets its nonce from verifyState and keeps it. */
  lemma NonceStep(mac: Token.Mac, s: State, step: Step, c: nat)
    requires Enabled(s, step)
    ensures GotNonce(mac, s, After(mac, s, step), c)
  {
    if step.Tick? || step.Reload? || step.SignIn? || step.c != c {
      AfterShape(mac, s, step);
      OthersStay(s, step, After(mac, s, step), c);
    } else {
      OwnNonce(mac, s, step);
    }
  }

  lemma OwnNonce(mac: Token.Mac, s: State, step: Step)
    requires Enabled(s, step) && !step.Tick? && !step.Reload? && !step.SignIn?
    ensures GotNonce(mac, s, After(mac, s, step), step.c)
  {
    if step.Check? && Token.Verify(mac, s.callbacks[step.c].state, s.now).Some? {
      Token.VerifyIff(mac, s.callbacks[step.c].state, Token.Verify(mac, s.callbacks[step.c].state, s.now).value, s.now);
    }
  }

  /** All sessions made for one address while there was an allowlist belong to one subject. */
  lemma OneSubjectPerAddress(mac: Token.Mac, states: seq<State>, steps: seq<Step>, i: nat, c: nat, d: nat)
    requires Behaviour(mac, states, steps) && i < |states|
    requires c in states[i].callbacks && states[i].callbacks[c].Born? && states[i].callbacks[c].pinned
    requires d in states[i].callbacks && states[i].callbacks[d].Born? && states[i].callbacks[d].pinned
    requires states[i].callbacks[c].who.email == states[i].callbacks[d].who.email
    ensures states[i].callbacks[c].who.key == states[i].callbacks[d].who.key
  {
    InvAlways(mac, states, steps, i);
    assert PinHolds(states[i], c) && PinHolds(states[i], d);
  }

  // ---- a sign-in that should work, works --------------------------------------------------------

  /** verifyState's step: past it exactly with a genuine state. */
  lemma CheckIff(mac: Token.Mac, s: State, c: nat, nonce: string)
    requires Enabled(s, Check(c))
    ensures var Arrived(cookie, state) := s.callbacks[c];
            var s2 := After(mac, s, Check(c));
            && (s2 == With(s, c, Verified(cookie, nonce)) <==> Token.Genuine(mac, state, nonce, s.now))
            && (s2 == With(s, c, Failed) || s2.callbacks[c].Verified?)
  {
    var Arrived(cookie, state) := s.callbacks[c];
    Token.VerifyIff(mac, state, nonce, s.now);
    assert After(mac, s, Check(c)).callbacks[c] == s.callbacks[c := Verified(cookie, nonce)][c] <==>
           Token.Verify(mac, state, s.now) == Some(nonce);
  }

  lemma ClaimWorks(s: State, c: nat, cookie: string, nonce: string)
    requires Inv(s) && NothingLost(s) && c in s.callbacks && s.callbacks[c] == Verified(cookie, nonce)
    requires cookie in s.issued && cookie !in s.taken
    requires s.now <= s.issued[cookie].at + 15 * MINUTE && s.issued[cookie].tx.nonce == nonce
    ensures var s2 := Claimed(s, c);
            && s2.callbacks == s.callbacks[c := Took(cookie, nonce)] && s2.subjects == s.subjects
            && s2.allowlist == s.allowlist && s2.pamMode == s.pamMode
  {
  }

  lemma GateListedWorks(s: State, c: nat, allowed: set<string>)
    requires c in s.callbacks && s.callbacks[c].Exchanged? && s.allowlist == Some(allowed) && Admitted(s, s.callbacks[c].who, false)
    ensures var Exchanged(tx, nonce, who) := s.callbacks[c];
            GateListed(s, c, allowed).callbacks == s.callbacks[c := Gated(tx, nonce, who, true)]
  {
  }

  lemma GateWorks(mac: Token.Mac, s: State, c: nat, linked: bool)
    requires Enabled(s, Gate(c, linked)) && Admitted(s, s.callbacks[c].who, linked)
    ensures var s2, Exchanged(tx, nonce, who) := After(mac, s, Gate(c, linked)), s.callbacks[c];
            s2.callbacks == s.callbacks[c := Gated(tx, nonce, who, s.allowlist.Some?)]
  {
    if s.allowlist.Some? { GateListedWorks(s, c, s.allowlist.value); }
  }

  /** From the transaction on: the exchange, the gate, the session. */
  ghost predicate EndsBorn(mac: Token.Mac, s: State, c: nat, who: Identity, linked: bool, born: Callback) {
    Enabled(s, Exchange(c, Some(who))) &&
    var s2 := After(mac, s, Exchange(c, Some(who)));
    Enabled(s2, Gate(c, linked)) &&
    var s3 := After(mac, s2, Gate(c, linked));
    Enabled(s3, Birth(c)) && After(mac, s3, Birth(c)).callbacks[c] == born
  }

  lemma TookSucceeds(mac: Token.Mac, s: State, c: nat, cookie: string, nonce: string, who: Identity, linked: bool)
    requires c in s.callbacks && s.callbacks[c] == Took(cookie, nonce) && Admitted(s, who, linked)
    ensures EndsBorn(mac, s, c, who, linked, Born(cookie, nonce, who, s.allowlist.Some?))
  {
    var s2 := With(s, c, Exchanged(cookie, nonce, who));
    assert After(mac, s, Exchange(c, Some(who))) == s2;
    GateWorks(mac, s2, c, linked);
  }

  /** A callback with a genuine state, the cookie of a sign-in of at most fifteen minutes ago that was not
      taken and has the same nonce, and an identity the gate admits, ends in a session for that identity. */
  lemma LoginSucceeds(mac: Token.Mac, s: State, c: nat, nonce: string, who: Identity, linked: bool)
    requires Inv(s) && NothingLost(s) && c in s.callbacks && s.callbacks[c].Arrived?
    requires Token.Genuine(mac, s.callbacks[c].state, nonce, s.now)
    requires var cookie := s.callbacks[c].cookie;
             && cookie in s.issued && cookie !in s.taken
             && s.now <= s.issued[cookie].at + 15 * MINUTE && s.issued[cookie].tx.nonce == nonce
    requires Admitted(s, who, linked)
    ensures var s2 := After(mac, s, Check(c));
            Enabled(s2, Claim(c)) &&
            EndsBorn(mac, After(mac, s2, Claim(c)), c, who, linked, Born(s.callbacks[c].cookie, nonce, who, s.allowlist.Some?))
  {
    var cookie := s.callbacks[c].cookie;
    CheckIff(mac, s, c, nonce);
    InvStep(mac, s, Check(c));
    ClaimWorks(With(s, c, Verified(cookie, nonce)), c, cookie, nonce);
    TookSucceeds(mac, Claimed(With(s, c, Verified(cookie, nonce)), c), c, cookie, nonce, who, linked);
  }

  /** The states that a list of steps leads through, from INIT. */
  lemma Extend(mac: Token.Mac, states: seq<State>, steps: seq<Step>, step: Step)
    requires Behaviour(mac, states, steps) && Enabled(states[|steps|], step)
    ensures Behaviour(mac, states + [After(mac, states[|steps|], step)], steps + [step])
  {
    var more, then_ := states + [After(mac, states[|steps|], step)], steps + [step];
    forall i | 0 <= i < |then_| ensures Enabled(more[i], then_[i]) && more[i + 1] == After(mac, more[i], then_[i]) {
      if i < |steps| { assert more[i] == states[i] && more[i + 1] == states[i + 1] && then_[i] == steps[i]; }
    }
  }

  /** A run from the empty table to a session: sign in, come back with the state that was signed. */
  lemma FirstLogin(mac: Token.Mac, id: string, nonce: string, who: Identity) returns (states: seq<State>, steps: seq<Step>)
    requires ':' !in nonce && who.verified && who.email.Some?
    ensures Behaviour(mac, states, steps) && 0 in states[|steps|].callbacks
    ensures states[|steps|].callbacks[0] == Born(id, nonce, who, false)
  {
    var state := Token.Sign(mac, nonce, 0);
    var tx := Tx(nonce, "", "", OAUTH_TTL);
    var signed := State(0, map[id := tx], map[id := Issued(tx, 0)], map[], [], None, false, map[]);
    var back := With(signed, 0, Arrived(id, state));
    states, steps := [INIT], [];
    Extend(mac, states, steps, SignIn(id, "", nonce, ""));
    states, steps := states + [After(mac, INIT, SignIn(id, "", nonce, ""))], [SignIn(id, "", nonce, "")];
    FirstSignIn(mac, id, nonce);
    Extend(mac, states, steps, Arrive(0, id, state));
    states, steps := states + [back], steps + [Arrive(0, id, state)];
    InvAlways(mac, states, steps, 2);
    NothingLostAlways(mac, states, steps, 2);
    Token.VerifyOfSign(mac, nonce, 0, 0);
    Token.VerifyIff(mac, state, nonce, 0);
    LoginSucceeds(mac, back, 0, nonce, who, false);
    states, steps := FollowThrough(mac, states, steps, back, who);
  }

  lemma FirstSignIn(mac: Token.Mac, id: string, nonce: string)
    ensures var tx := Tx(nonce, "", "", OAUTH_TTL);
            After(mac, INIT, SignIn(id, "", nonce, "")) ==
            State(0, map[id := tx], map[id := Issued(tx, 0)], map[], [], None, false, map[])
  {
    assert OpenTxs(map[], 0) == map[];
  }

  /** The five steps of a callback that succeeds. */
  lemma FollowThrough(mac: Token.Mac, states: seq<State>, steps: seq<Step>, s: State, who: Identity)
    returns (states': seq<State>, steps': seq<Step>)
    requires Behaviour(mac, states, steps) && states[|steps|] == s && Enabled(s, Check(0))
    requires Enabled(After(mac, s, Check(0)), Claim(0))
    requires exists born :: EndsBorn(mac, After(mac, After(mac, s, Check(0)), Claim(0)), 0, who, false, born)
    ensures Behaviour(mac, states', steps') && 0 in states'[|steps'|].callbacks
    ensures EndsBorn(mac, After(mac, After(mac, s, Check(0)), Claim(0)), 0, who, false, states'[|steps'|].callbacks[0])
  {
    var s1 := After(mac, s, Check(0));
    var s2 := After(mac, s1, Claim(0));
    Extend(mac, states, steps, Check(0));
    var a, b := states + [s1], steps + [Check(0)];
    Extend(mac, a, b, Claim(0));
    a, b := a + [s2], b + [Claim(0)];
    var s3 := After(mac, s2, Exchange(0, Some(who)));
    Extend(mac, a, b, Exchange(0, Some(who)));
    a, b := a + [s3], b + [Exchange(0, Some(who))];
    var s4 := After(mac, s3, Gate(0, false));
    Extend(mac, a, b, Gate(0, false));
    a, b := a + [s4], b + [Gate(0, false)];
    Extend(mac, a, b, Birth(0));
    states', steps' := a + [After(mac, s4, Birth(0))], b + [Birth(0)];
  }
}
