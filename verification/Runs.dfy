// Runs from the empty store. In one the link table and the sessions stop agreeing: a logout removes a
// session file between UnlinkPAM's listing and its read of that file, the scan gives up, and a later
// session keeps the user whose link is gone. In the other a row for the empty subject comes about,
// with which unlinking one user signs another out, and a retried unlink does not.
module Runs {
  import opened Store
  import opened Protocol

  predicate Distinct(a: string, b: string, c: string) {
    a != b && b != c && a != c
  }

  lemma {:induction false} Extend(states: seq<State>, steps: seq<Step>, step: Step)
    requires Behaviour(states, steps) && Enabled(states[|steps|], step)
    ensures Behaviour(states + [After(states[|steps|], step)], steps + [step])
  {
    var more, then_ := states + [After(states[|steps|], step)], steps + [step];
    forall i | 0 <= i < |then_|
      ensures Enabled(more[i], then_[i]) && more[i + 1] == After(more[i], then_[i])
    {
      if i < |steps| { assert more[i] == states[i] && more[i + 1] == states[i + 1] && then_[i] == steps[i]; }
    }
  }

  /** A subject signs in, links to p by password, and signs in once more: sessions b and c, both p's. */
  lemma TwoSessions(a: string, b: string, c: string, key: Key, p: string) returns (states: seq<State>, steps: seq<Step>)
    requires Distinct(a, b, c) && key != NOBODY && p != ""
    ensures Behaviour(states, steps)
    ensures var s := states[|steps|];
            && s.links == [Link(key, p)] && s.phase.Free? && s.dirty == {}
            && s.sessions == map[b := Session(b, key, p, "", 9), c := Session(c, key, p, "", 9)]
  {
    var plain := Session(a, key, "", "", 9);
    states, steps := [INIT], [];
    var s := INIT;
    states, steps, s := Then(states, steps, s, Password(p, true, p, 1000));
    states, steps, s := Then(states, steps, s, Create(a, key, "", 9));
    states, steps, s := LinkedAlone(states, steps, s, plain, p, b);
    states, steps, s := Then(states, steps, s, Create(c, key, "", 9));
  }

  lemma Then(states: seq<State>, steps: seq<Step>, s: State, step: Step)
    returns (states': seq<State>, steps': seq<Step>, s': State)
    requires Behaviour(states, steps) && s == states[|steps|] && Enabled(s, step)
    ensures Behaviour(states', steps') && s' == states'[|steps'|] == After(s, step)
    ensures steps' == steps + [step]
  {
    Extend(states, steps, step);
    states', steps', s' := states + [After(s, step)], steps + [step], After(s, step);
  }

  lemma AgreementFails(a: string, b: string, c: string, key: Key, p: string) returns (states: seq<State>, steps: seq<Step>)
    requires Distinct(a, b, c) && key != NOBODY && p != ""
    ensures Behaviour(states, steps)
    ensures var s := states[|steps|];
            && s.phase.Free? && s.dirty == {p}
            && s.links == [] && s.sessions == map[c := Session(c, key, p, "", 9)]
            && !Agree(s.links, s.sessions)
  {
    states, steps := TwoSessions(a, b, c, key, p);
    var s;
    states, steps, s := StoppedByLogout(states, steps, states[|steps|], b, c, key, p);
    assert !Agrees(s.links, s.sessions[c]);
  }

  /** UnlinkPAM(p) up to its listing of the sessions. */
  lemma UnlinkLists(states: seq<State>, steps: seq<Step>, s: State, p: string, listing: seq<string>)
    returns (states': seq<State>, steps': seq<Step>, s': State)
    requires Behaviour(states, steps) && s == states[|steps|] && s.phase.Free? && p != ""
    requires forall id :: id in listing <==> id in s.sessions
    ensures Behaviour(states', steps') && s' == states'[|steps'|]
    ensures s' == s.(links := Without(s.links, p), phase := Read(UnlinkMatch(s.links, p), listing), victim := p, dirty := s.dirty - {p})
  {
    states', steps', s' := Then(states, steps, s, BeginUnlink(p));
    assert (set id | id in listing) == s'.sessions.Keys;
    states', steps', s' := Then(states', steps', s', Advance(listing));
  }

  /** UnlinkPAM(p) lists b and c, a logout removes b, and the scan stops at b. */
  lemma StoppedByLogout(states: seq<State>, steps: seq<Step>, s: State, b: string, c: string, key: Key, p: string)
    returns (states': seq<State>, steps': seq<Step>, s': State)
    requires Behaviour(states, steps) && s == states[|steps|] && s.phase.Free? && s.dirty == {}
    requires b != c && p != "" && s.links == [Link(key, p)]
    requires s.sessions == map[b := Session(b, key, p, "", 9), c := Session(c, key, p, "", 9)]
    ensures Behaviour(states', steps') && s' == states'[|steps'|]
    ensures s'.phase.Free? && s'.dirty == {p} && s'.links == [] && s'.sessions == map[c := Session(c, key, p, "", 9)]
  {
    assert [Link(key, p)][1..] == [] && Without([Link(key, p)], p) == [];
    states', steps', s' := UnlinkLists(states, steps, s, p, [b, c]);
    states', steps', s' := Then(states', steps', s', Remove(b));
    states', steps', s' := Then(states', steps', s', Advance([]));
  }

  /** p signs in by password alone, is unlinked, and signs in again on the session that is left: that
      writes the row ("", "") -> p. Then q signs in by password alone. */
  lemma EmptySubjectRow(a: string, b: string, c: string, p: string, q: string) returns (states: seq<State>, steps: seq<Step>)
    requires Distinct(a, b, c) && p != "" && q != "" && p != q
    ensures Behaviour(states, steps)
    ensures var s := states[|steps|];
            && s.phase.Free? && s.dirty == {} && s.links == [Link(NOBODY, p)]
            && s.sessions == map[b := Session(b, NOBODY, p, "", 9), c := Session(c, NOBODY, q, "", 9)]
  {
    states, steps := [INIT], [];
    var s := INIT;
    states, steps, s := Then(states, steps, s, Password(p, true, p, 1000));
    states, steps, s := Then(states, steps, s, Password(q, true, q, 1001));
    states, steps, s := Then(states, steps, s, CreatePam(a, p, 9));
    assert s.sessions == map[a := Session(a, NOBODY, p, "", 9)];
    states, steps, s := ClearedAlone(states, steps, s, a, p);
    states, steps, s := LinkedAlone(states, steps, s, Session(a, NOBODY, "", "", 9), p, b);
    states, steps, s := Then(states, steps, s, CreatePam(c, q, 9));
  }

  /** SaveLinkedSession for the one session of a store without links. */
  lemma LinkedAlone(states: seq<State>, steps: seq<Step>, s: State, plain: Session, p: string, b: string)
    returns (states': seq<State>, steps': seq<Step>, s': State)
    requires Behaviour(states, steps) && s == states[|steps|] && s.phase.Free? && s.links == [] && s.dirty == {}
    requires s.sessions == map[plain.id := plain] && plain.pam == "" && s.now < plain.expires
    requires plain.id != b && b !in s.used && p in s.accepted && p != ""
    ensures Behaviour(states', steps') && s' == states'[|steps'|]
    ensures s'.phase.Free? && s'.dirty == {} && s'.links == [Link(plain.key, p)]
    ensures s'.now == s.now && s'.accepted == s.accepted
    ensures s'.sessions == map[b := plain.(id := b, pam := p)] && s'.used == s.used + {b}
  {
    states', steps', s' := Then(states, steps, s, Get(plain.id));
    states', steps', s' := Then(states', steps', s', BeginSave(plain, p, b));
    states', steps', s' := Then(states', steps', s', Advance([]));
    states', steps', s' := Then(states', steps', s', Advance([]));
    assert s'.sessions == map[b := plain.(id := b, pam := p)];
  }

  /** UnlinkPAM(p) on a store with the one session a. */
  lemma ClearedAlone(states: seq<State>, steps: seq<Step>, s: State, a: string, p: string)
    returns (states': seq<State>, steps': seq<Step>, s': State)
    requires Behaviour(states, steps) && s == states[|steps|] && s.phase.Free? && s.links == [] && p != ""
    requires s.sessions == map[a := Session(a, NOBODY, p, "", 9)]
    ensures Behaviour(states', steps') && s' == states'[|steps'|]
    ensures s' == s.(sessions := map[a := Session(a, NOBODY, "", "", 9)], victim := p, dirty := s.dirty - {p})
  {
    states', steps', s' := UnlinkLists(states, steps, s, p, [a]);
    states', steps', s' := Then(states', steps', s', Advance([]));
    assert [a][1..] == [];
    states', steps', s' := Then(states', steps', s', Advance([]));
    states', steps', s' := Then(states', steps', s', Advance([]));
    assert s'.sessions == map[a := Session(a, NOBODY, "", "", 9)];
  }

  /** In that state UnlinkPAM(p), uninterrupted, signs q out as well; stopped before its first session
      and run again, it does not. So the retry does not reach the uninterrupted result. */
  lemma RetryFails(a: string, b: string, c: string, p: string, q: string) returns (states: seq<State>, steps: seq<Step>)
    requires Distinct(a, b, c) && p != "" && q != "" && p != q
    ensures Behaviour(states, steps)
    ensures var s := states[|steps|];
            var (l, x) := Interrupted(s.links, s.sessions, p, {});
            && s.phase.Free? && s.dirty == {} && Stranded(s.links, s.sessions, p, {})
            && c in s.sessions && s.sessions[c].pam == q
            && Unlinked(s.links, s.sessions, p).1[c].pam == ""
            && Unlinked(l, x, p).1[c].pam == q
  {
    states, steps := EmptySubjectRow(a, b, c, p, q);
    var s := states[|steps|];
    assert Link(NOBODY, p) in s.links && Link(NOBODY, p).key == NOBODY;
    assert StrandedOne(s.links, s.sessions[c], p, false);
    RetryMatch(s.links, p);
  }
}
