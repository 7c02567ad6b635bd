// internal/web/server.go: the bounded, expiring table of OpenVPN import tickets.
module Tickets {
  import opened Wrappers
  import opened Store
  import opened Clock

  const TICKET_TTL: int := 60 * SECOND
  const MAX_TICKETS: nat := 1024
  const TICKET_USES: nat := 2

  datatype Ticket = Ticket(pam: string, home: string, key: Key, rel: string, sid: string, exp: int, left: int)

  type Table = map<string, Ticket>

  function LiveTickets(table: Table, now: int): Table {
    map k | k in table && now <= table[k].exp :: table[k]
  }

  /** The table after a mint, or None when it is full. */
  function MintIn(table: Table, id: string, t: Ticket, now: int): Option<Table> {
    var live := LiveTickets(table, now);
    if id !in live && |live| >= MAX_TICKETS then None
    else Some(live[id := t.(exp := now + TICKET_TTL, left := TICKET_USES)])
  }

  /** The table and the answer after a lookup. */
  function LookupIn(table: Table, id: string, consume: bool, now: int): (Table, Option<Ticket>) {
    if id !in table then (table, None)
    else if now > table[id].exp then (table - {id}, None)
    else if !consume then (table, Some(table[id]))
    else
      var t := table[id].(left := table[id].left - 1);
      (if t.left <= 0 then table - {id} else table[id := t], Some(t))
  }

  predicate Bounded(table: Table) {
    |table| <= MAX_TICKETS && forall k :: k in table ==> 1 <= table[k].left <= TICKET_USES
  }

  lemma LiveTicketsFewer(table: Table, now: int)
    ensures |LiveTickets(table, now)| <= |table|
  {
    SubsetSize(LiveTickets(table, now).Keys, table.Keys);
  }

  lemma OneMoreFits(table: Table, id: string, t: Ticket)
    requires Bounded(table) && 1 <= t.left <= TICKET_USES && (id in table || |table| < MAX_TICKETS)
    ensures Bounded(table[id := t])
  {
    assert table[id := t].Keys == table.Keys + {id};
  }

  lemma MintBounded(table: Table, id: string, t: Ticket, now: int)
    requires Bounded(table) && MintIn(table, id, t, now).Some?
    ensures Bounded(MintIn(table, id, t, now).value)
  {
    LiveTicketsFewer(table, now);
    OneMoreFits(LiveTickets(table, now), id, t.(exp := now + TICKET_TTL, left := TICKET_USES));
  }

  function Unexpired(table: Table, now: int): set<string> {
    set k | k in table && now <= table[k].exp
  }

  /** A mint drops what has expired and fails exactly if 1024 others are left. */
  lemma MintInIff(table: Table, id: string, t: Ticket, now: int)
    requires id !in table
    ensures LiveTickets(table, now).Keys == Unexpired(table, now)
    ensures forall k :: k in Unexpired(table, now) ==> LiveTickets(table, now)[k] == table[k]
    ensures MintIn(table, id, t, now).Some? <==> |Unexpired(table, now)| < 1024
    ensures MintIn(table, id, t, now).Some? ==>
              MintIn(table, id, t, now).value == LiveTickets(table, now)[id := t.(exp := now + 60 * SECOND, left := 2)]
  {
    assert LiveTickets(table, now).Keys == Unexpired(table, now);
    assert |LiveTickets(table, now)| == |Unexpired(table, now)|;
  }

  lemma LookupBounded(table: Table, id: string, consume: bool, now: int)
    requires Bounded(table)
    ensures Bounded(LookupIn(table, id, consume, now).0)
  {
    var out := LookupIn(table, id, consume, now).0;
    SubsetSize(out.Keys, table.Keys);
  }

  /** The server's ovpnTickets field and the three methods that change it. */
  class TicketTable {
    var table: Table

    ghost predicate Valid()
      reads this
    {
      Bounded(table)
    }

    constructor ()
      ensures Valid() && table == map[]
    {
      table := map[];
    }

    method Mint(id: string, t: Ticket, now: int) returns (ok: bool)
      requires Valid()
      modifies this
      ensures Valid()
      ensures ok <==> MintIn(old(table), id, t, now).Some?
      ensures table == if ok then MintIn(old(table), id, t, now).value else LiveTickets(old(table), now)
    {
      ghost var was := table;
      var todo := table.Keys;
      while todo != {}
        invariant todo <= was.Keys
        invariant forall k :: k in table <==> k in was && (k in todo || now <= was[k].exp)
        invariant forall k :: k in table ==> table[k] == was[k]
        decreases todo
      {
        var k :| k in todo;
        if now > table[k].exp { table := table - {k}; }
        todo := todo - {k};
      }
      assert table == LiveTickets(was, now);
      LiveTicketsFewer(was, now);
      if id !in table && |table| >= MAX_TICKETS { return false; }
      MintBounded(was, id, t, now);
      table := table[id := t.(exp := now + TICKET_TTL, left := TICKET_USES)];
      return true;
    }

    method Lookup(id: string, consume: bool, now: int) returns (r: Option<Ticket>)
      requires Valid()
      modifies this
      ensures Valid() && (table, r) == LookupIn(old(table), id, consume, now)
    {
      LookupBounded(table, id, consume, now);
      if id !in table { return None; }
      var t := table[id];
      if now > t.exp {
        table := table - {id};
        return None;
      }
      if !consume { return Some(t); }
      t := t.(left := t.left - 1);
      if t.left <= 0 {
        table := table - {id};
      } else {
        table := table[id := t];
      }
      return Some(t);
    }

    method DropTicket(id: string)
      requires Valid()
      modifies this
      ensures Valid() && table == old(table) - {id}
    {
      SubsetSize(table.Keys - {id}, table.Keys);
      table := table - {id};
      assert table.Keys == old(table).Keys - {id};
    }
  }
}
