/// The registry of terminal sessions (crates/phantom-pty/src/multiplexer.rs):
/// a map from session id to session and the next id to hand out.
module Multiplexer {
  import opened Wrappers
  import opened Text
  import opened Vt
  import opened Pty
  import opened Session

  /** `SessionId` arithmetic wraps at 2^64. */
  const ID_MODULUS: nat := 0x1_0000_0000_0000_0000

  /** The least element of a non-empty set of ids. */
  ghost function MinId(s: set<SessionId>): (m: SessionId)
    requires s != {}
    ensures m in s && forall x :: x in s ==> m <= x
  {
    var x :| x in s;
    if s == {x} then x
    else
      var y := MinId(s - {x});
      assert forall z :: z in s ==> z == x || z in s - {x};
      if x < y then x else y
  }

  /** Strictly ascending, hence without duplicates. */
  predicate StrictlyAscending(ids: seq<SessionId>) {
    forall i, j :: 0 <= i < j < |ids| ==> ids[i] < ids[j]
  }

  predicate Distinct<T(==)>(xs: seq<T>) {
    forall i, j :: 0 <= i < j < |xs| ==> xs[i] != xs[j]
  }

  /** Selection sort in progress: `ids` holds, ascending, the ids of `all`
      not `remaining`, each below every remaining one. */
  ghost predicate Sorting(ids: seq<SessionId>, remaining: set<SessionId>, all: set<SessionId>) {
    && remaining <= all
    && StrictlyAscending(ids)
    && (forall id :: id in ids <==> id in all && id !in remaining)
    && (forall i, x :: 0 <= i < |ids| && x in remaining ==> ids[i] < x)
    && |ids| + |remaining| == |all|
  }

  /** Moving the least remaining id to the end keeps the sort in progress. */
  lemma SortingStep(ids: seq<SessionId>, remaining: set<SessionId>, all: set<SessionId>, m: SessionId)
    requires Sorting(ids, remaining, all) && m in remaining && forall x :: x in remaining ==> m <= x
    ensures Sorting(ids + [m], remaining - {m}, all)
  {
  }

  /** `active` lists, once each, exactly the ids of `done` whose outcome is true. */
  ghost predicate Tally(active: seq<SessionId>, done: seq<SessionId>, outcome: map<SessionId, bool>) {
    && (forall id :: id in done ==> id in outcome)
    && Distinct(active)
    && forall id :: id in active <==> id in done && outcome[id]
  }

  /** Visiting the next of a list of distinct ids keeps the tally. */
  lemma TallyStep(active: seq<SessionId>, ids: seq<SessionId>, i: nat, outcome: map<SessionId, bool>)
    requires i < |ids| && Distinct(ids) && Tally(active, ids[..i], outcome) && ids[i] in outcome
    ensures Tally(if outcome[ids[i]] then active + [ids[i]] else active, ids[..i + 1], outcome)
  {
    assert ids[..i + 1] == ids[..i] + [ids[i]];
    assert ids[i] !in ids[..i];
  }

  /** The states of the sessions while `process_all` runs: those of `done`
      have their state in `after`, the others their state in `before`. */
  function Mix(before: map<SessionId, SessionView>, after: map<SessionId, SessionView>,
               done: seq<SessionId>): (m: map<SessionId, SessionView>)
    ensures m.Keys == before.Keys
  {
    map id | id in before :: if id in done && id in after then after[id] else before[id]
  }

  /** The state each session of `ss` gets from processing its output once, from its state in `views`. */
  function Stepped(ss: map<SessionId, TerminalSession>, views: map<SessionId, SessionView>): (m: map<SessionId, SessionView>)
    ensures m.Keys == ss.Keys * views.Keys
  {
    map id | id in ss && id in views :: ss[id].Step(views[id]).view
  }

  /** Which sessions of `ss`, processing their output once from their state in
      `views`, return a positive byte count. */
  function Outcomes(ss: map<SessionId, TerminalSession>, views: map<SessionId, SessionView>): (m: map<SessionId, bool>)
    ensures m.Keys == ss.Keys * views.Keys
  {
    map id | id in ss && id in views :: Progressed(ss[id].Step(views[id]))
  }

  /** A map that agrees with `b` except at `k`, where it holds `v`, is `b` updated at `k`. */
  lemma UpdatedAt(a: map<SessionId, SessionView>, b: map<SessionId, SessionView>, k: SessionId, v: SessionView)
    requires a.Keys == b.Keys && k in a && a[k] == v
    requires forall j :: j in a && j != k ==> a[j] == b[j]
    ensures a == b[k := v]
  {
  }

  /** Before any visit, every session has its old state. */
  lemma MixNone(before: map<SessionId, SessionView>, after: map<SessionId, SessionView>, ids: seq<SessionId>)
    ensures Mix(before, after, ids[..0]) == before
  {
  }

  /** A session not yet visited still has its old state, and visiting it
      gives it its new state. */
  lemma MixStep(before: map<SessionId, SessionView>, after: map<SessionId, SessionView>,
                ids: seq<SessionId>, i: nat)
    requires i < |ids| && Distinct(ids) && ids[i] in before && ids[i] in after
    ensures Mix(before, after, ids[..i])[ids[i]] == before[ids[i]]
    ensures Mix(before, after, ids[..i])[ids[i] := after[ids[i]]] == Mix(before, after, ids[..i + 1])
  {
    assert ids[..i + 1] == ids[..i] + [ids[i]];
    assert ids[i] !in ids[..i];
  }

  /** Once every session is visited, every session has its new state. */
  lemma MixAll(before: map<SessionId, SessionView>, after: map<SessionId, SessionView>, ids: seq<SessionId>)
    requires after.Keys == before.Keys && forall id :: id in before ==> id in ids
    ensures Mix(before, after, ids[..|ids|]) == after
  {
    assert ids[..|ids|] == ids;
  }

  class SessionMultiplexer {
    var sessions: map<SessionId, TerminalSession>
    var nextId: SessionId
    ghost var Repr: set<object>

    /** Every session is valid, is registered under its own id, and owns
        objects no other session owns. */
    ghost predicate Valid()
      reads this, Repr
    {
      && this in Repr
      && (forall id :: id in sessions ==>
            && sessions[id].Repr() <= Repr && this !in sessions[id].Repr()
            && sessions[id].Valid() && sessions[id].id == id)
      && (forall i, j :: i in sessions && j in sessions && i != j ==> sessions[i].Repr() !! sessions[j].Repr())
    }

    /** Every registered id was handed out before `nextId`, so a new id is not in use. */
    predicate IdsBelowNext()
      reads this
    {
      0 < nextId && forall id :: id in sessions ==> 0 < id < nextId
    }

    /** `Multiplexer::new`: no sessions, and the first id is 1. */
    constructor()
      ensures Valid() && fresh(Repr)
      ensures sessions == map[] && nextId == 1 && IdsBelowNext()
    {
      sessions := map[];
      nextId := 1;
      Repr := {this};
    }

    /** `create_session`: the session gets the current next id, which then
        advances by one; a failed spawn registers nothing and keeps the id. */
    method CreateSession(shell: Option<string>, cols: u16, rows: u16, os: Os, engine: Engine)
      returns (r: Result<SessionId, PtyError>)
      requires Valid()
      modifies this
      ensures Valid() && fresh(Repr - old(Repr))
      ensures match os.spawnFailure(ShellCommand(os, shell), cols, rows)
              case Some(msg) =>
                r == Err(SpawnFailed(msg)) && sessions == old(sessions) && nextId == old(nextId)
              case None =>
                && r == Ok(old(nextId)) && nextId == (old(nextId) + 1) % ID_MODULUS
                && sessions.Keys == old(sessions.Keys) + {r.value}
                && (forall id :: id in old(sessions) && id != r.value ==> sessions[id] == old(sessions[id]))
                && fresh(sessions[r.value].Repr()) && sessions[r.value].alive
                && sessions[r.value].exitCode == None && sessions[r.value].title == None
      ensures old(IdsBelowNext()) && old(nextId) + 1 < ID_MODULUS ==>
                IdsBelowNext() && (r.Ok? ==> r.value !in old(sessions))
    {
      var id := nextId;
      var created := TerminalSession.New(id, shell, cols, rows, os, engine);
      if created.Err? {
        return Err(created.error);
      }
      Register(created.value);
      r := Ok(id);
    }

    /** Register a new valid session under the next id, which then advances. */
    method Register(s: TerminalSession)
      requires Valid() && s.Valid() && s.id == nextId && s.Repr() !! Repr
      modifies this
      ensures Valid() && Repr == old(Repr) + s.Repr()
      ensures sessions == old(sessions)[old(nextId) := s] && nextId == (old(nextId) + 1) % ID_MODULUS
    {
      sessions := sessions[nextId := s];
      Repr := Repr + s.Repr();
      nextId := (nextId + 1) % ID_MODULUS;
    }

    /** `get_session`: the session registered under `id`, if any. */
    function GetSession(id: SessionId): (r: Option<TerminalSession>)
      reads this
      ensures r.Some? <==> id in sessions
      ensures r.Some? ==> r.value == sessions[id]
    {
      if id in sessions then Some(sessions[id]) else None
    }

    /** `close_session`: drop `id` and nothing else; closing an absent id changes nothing. */
    method CloseSession(id: SessionId)
      requires Valid()
      modifies this
      ensures Valid() && Repr == old(Repr)
      ensures sessions == old(sessions) - {id} && nextId == old(nextId)
      ensures id !in old(sessions) ==> sessions == old(sessions)
      ensures old(IdsBelowNext()) ==> IdsBelowNext()
    {
      sessions := sessions - {id};
    }

    /** `list_sessions`: every registered id once, in ascending order. */
    method ListSessions() returns (ids: seq<SessionId>)
      ensures StrictlyAscending(ids)
      ensures forall id :: id in ids <==> id in sessions
      ensures |ids| == |sessions.Keys|
    {
      var remaining := sessions.Keys;
      ids := [];
      while remaining != {}
        invariant Sorting(ids, remaining, sessions.Keys)
        decreases |remaining|
      {
        ghost var least := MinId(remaining);
        var m :| m in remaining && forall x :: x in remaining ==> m <= x;
        SortingStep(ids, remaining, sessions.Keys, m);
        ids := ids + [m];
        remaining := remaining - {m};
      }
    }

    /** The state of every session, by id. */
    ghost function Views(): (views: map<SessionId, SessionView>)
      requires Valid()
      reads this, Repr
      ensures views.Keys == sessions.Keys
    {
      map id | id in sessions :: sessions[id].View()
    }

    /** The registered ids, each once, in the map's own unspecified order
        (`keys().copied().collect()`). */
    method SessionIds() returns (ids: seq<SessionId>)
      ensures Distinct(ids)
      ensures forall id :: id in ids <==> id in sessions
    {
      var remaining := sessions.Keys;
      ids := [];
      while remaining != {}
        invariant remaining <= sessions.Keys
        invariant Distinct(ids)
        invariant forall id :: id in ids <==> id in sessions && id !in remaining
        decreases |remaining|
      {
        var id :| id in remaining;
        ids := ids + [id];
        remaining := remaining - {id};
      }
    }

    /** `process_all`: every session processes its output exactly once, and
        its new state is the one `process_pty_output` gives for its state
        before the call; the result holds, once each, exactly the ids whose
        processing returned a positive byte count. A session whose processing
        failed stays registered. */
    method ProcessAll() returns (active: seq<SessionId>)
      requires Valid()
      modifies Repr
      ensures Valid() && Repr == old(Repr) && sessions == old(sessions) && nextId == old(nextId)
      ensures Views() == Stepped(sessions, old(Views()))
      ensures Distinct(active)
      ensures forall id :: id in active <==> id in sessions && Outcomes(sessions, old(Views()))[id]
    {
      ghost var before := Views();
      var ids := SessionIds();
      active := Visit(ids, before, Stepped(sessions, before), Outcomes(sessions, before));
    }

    /** The loop of `process_all`: visit every id of `ids` once, in order. */
    method Visit(ids: seq<SessionId>, ghost before: map<SessionId, SessionView>,
                 ghost after: map<SessionId, SessionView>, ghost outcome: map<SessionId, bool>)
      returns (active: seq<SessionId>)
      requires Valid() && Views() == before && Distinct(ids) && forall id :: id in ids <==> id in sessions
      requires after.Keys == outcome.Keys == sessions.Keys
      requires forall id :: id in sessions ==> after[id] == sessions[id].Step(before[id]).view
      requires forall id :: id in sessions ==> outcome[id] == Progressed(sessions[id].Step(before[id]))
      modifies Repr
      ensures Valid() && Repr == old(Repr) && sessions == old(sessions) && nextId == old(nextId)
      ensures Views() == after && Tally(active, ids, outcome)
    {
      var i := 0;
      active := [];
      MixNone(before, after, ids);
      while i < |ids|
        invariant i <= |ids| && Valid()
        invariant sessions == old(sessions) && nextId == old(nextId) && Repr == old(Repr)
        invariant Views() == Mix(before, after, ids[..i])
        invariant Tally(active, ids[..i], outcome)
      {
        var id := ids[i];
        MixStep(before, after, ids, i);
        var progressed := ProcessOne(id);
        TallyStep(active, ids, i, outcome);
        if progressed {
          active := active + [id];
        }
        i := i + 1;
      }
      MixAll(before, after, ids);
      assert ids[..i] == ids;
    }

    /** One session processes its output; every other session keeps its state. */
    method ProcessOne(id: SessionId) returns (progressed: bool)
      requires Valid() && id in sessions
      modifies sessions[id].Repr()
      ensures Valid()
      ensures Views() == old(Views())[id := sessions[id].Step(old(sessions[id].View())).view]
      ensures progressed == Progressed(sessions[id].Step(old(sessions[id].View())))
    {
      var s := sessions[id];
      var out := s.ProcessPtyOutput();
      forall j | j in sessions && j != id
        ensures sessions[j].View() == old(sessions[j].View()) && sessions[j].Valid()
      {
        assert sessions[j].Repr() !! s.Repr();
      }
      UpdatedAt(Views(), old(Views()), id, s.View());
      progressed := out.Ok? && out.value > 0;
    }
  }
}
