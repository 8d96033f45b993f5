/// The application state shared by the terminal commands and the render pump
/// (crates/phantom-app/src/state.rs): the registry of open sessions, the stop
/// channels of their I/O threads and render pumps, and the session id counter.
module State {
  import opened Wrappers
  import opened Text
  import opened Session

  /** `DEFAULT_MAX_CONCURRENCY` (crates/phantom-analysis/src/runner.rs): the
      number of analysis jobs that may run at once. */
  const DEFAULT_MAX_CONCURRENCY: nat := 2

  /** `AtomicU64` arithmetic wraps at 2^64. */
  const ID_MODULUS: nat := 0x1_0000_0000_0000_0000

  /** The counter after `n`: one more, wrapping from 2^64 - 1 back to 0. */
  function WrappingSucc(n: u64): (m: u64)
    ensures n + 1 < ID_MODULUS ==> m == n + 1
    ensures n + 1 == ID_MODULUS ==> m == 0
  {
    (n + 1) % ID_MODULUS
  }

  /** The background worker a stop channel signals. */
  datatype Worker = IoThread | RenderPump

  /** The sending half of a stop channel: which session's task it stops. */
  datatype StopSender = StopSender(session: SessionId, worker: Worker)

  /** Every session state in `sessions` is valid, is registered under its
      session's id, and owns objects of `repr` that neither `owner` nor any
      other session state owns. */
  ghost predicate SessionsValid(sessions: map<SessionId, SessionState>, repr: set<object>, owner: object)
    reads repr - {owner}
  {
    && (forall id :: id in sessions ==>
          && sessions[id].Repr() <= repr && owner !in sessions[id].Repr()
          && sessions[id].session.Valid() && sessions[id].session.id == id)
    && (forall i, j :: i in sessions && j in sessions && i != j ==> sessions[i].Repr() !! sessions[j].Repr())
  }

  /** Dropping session states keeps the rest valid. */
  lemma SessionsValidRemove(sessions: map<SessionId, SessionState>, repr: set<object>, owner: object, id: SessionId)
    requires SessionsValid(sessions, repr, owner)
    ensures SessionsValid(sessions - {id}, repr, owner)
  {
  }

  /** Adding a valid session state that owns only new objects keeps the registry valid. */
  lemma SessionsValidAdd(sessions: map<SessionId, SessionState>, repr: set<object>, owner: object,
                         id: SessionId, ss: SessionState)
    requires SessionsValid(sessions, repr, owner) && owner in repr
    requires ss.session.Valid() && ss.session.id == id && ss.Repr() !! repr
    ensures SessionsValid(sessions[id := ss], repr + ss.Repr(), owner)
  {
  }

  /** The three registry maps have the same keys, the stop channels
      registered under an id lead to that session's tasks, and every
      registered id was handed out. */
  ghost predicate Consistent(ids: set<SessionId>, ioStops: map<SessionId, StopSender>,
                             renderStops: map<SessionId, StopSender>, issued: seq<SessionId>)
  {
    && ioStops.Keys == ids && renderStops.Keys == ids
    && (forall id :: id in ioStops ==> ioStops[id] == StopSender(id, IoThread))
    && (forall id :: id in renderStops ==> renderStops[id] == StopSender(id, RenderPump))
    && (forall id :: id in ids ==> id in issued)
  }

  /** Registering a session state and its stop channels under a handed-out
      id keeps the maps consistent. */
  lemma ConsistentInsert(sessions: map<SessionId, SessionState>, ioStops: map<SessionId, StopSender>,
                         renderStops: map<SessionId, StopSender>, issued: seq<SessionId>,
                         id: SessionId, ss: SessionState)
    ensures Consistent(sessions.Keys, ioStops, renderStops, issued) && id in issued ==>
              Consistent(sessions[id := ss].Keys, ioStops[id := StopSender(id, IoThread)],
                         renderStops[id := StopSender(id, RenderPump)], issued)
  {
    assert sessions[id := ss].Keys == sessions.Keys + {id};
  }

  /** An id above every id handed out is not registered. */
  lemma ConsistentUnused(sessions: map<SessionId, SessionState>, ioStops: map<SessionId, StopSender>,
                         renderStops: map<SessionId, StopSender>, issued: seq<SessionId>, next: SessionId)
    ensures Consistent(sessions.Keys, ioStops, renderStops, issued) && (forall i :: 0 <= i < |issued| ==> issued[i] < next) ==>
              next !in sessions
  {
  }

  /** Removing an id from all three maps keeps them consistent. */
  lemma ConsistentRemove(sessions: map<SessionId, SessionState>, ioStops: map<SessionId, StopSender>,
                         renderStops: map<SessionId, StopSender>, issued: seq<SessionId>, id: SessionId)
    ensures Consistent(sessions.Keys, ioStops, renderStops, issued) ==>
              Consistent((sessions - {id}).Keys, ioStops - {id}, renderStops - {id}, issued)
  {
    assert (sessions - {id}).Keys == sessions.Keys - {id};
  }

  /** `SessionState`: a session and the render pump's bookkeeping for it. */
  class SessionState {
    const session: TerminalSession
    /** Set on creation and after a resize: the next tick sends a full frame. */
    var needsFullFrame: bool
    /** The title the render pump last reported. */
    var lastTitle: Option<string>
    /** Set by the I/O thread after it wrote PTY data. No code reads it. */
    var hasPtyData: bool

    /** The objects this session state owns. */
    function Repr(): set<object> {
      {this} + session.Repr()
    }

    /** A new session state: a full frame is due, no title was reported and no PTY data seen. */
    constructor(session: TerminalSession)
      ensures this.session == session
      ensures needsFullFrame && lastTitle == None && !hasPtyData
    {
      this.session := session;
      needsFullFrame, lastTitle, hasPtyData := true, None, false;
    }
  }

  /** `AppState`. The database connection it also holds is not part of this model. */
  class AppState {
    /** All open sessions, and the stop channels of their I/O threads and render pumps. */
    var sessions: map<SessionId, SessionState>
    var ioStops: map<SessionId, StopSender>
    var renderStops: map<SessionId, StopSender>
    /** The next session id to hand out. */
    var nextId: u64
    /** The stop signals sent so far, in order. */
    var signalsSent: seq<StopSender>
    /** The path of the repository being managed. */
    const repoPath: string
    /** The permits of the analysis semaphore. */
    const analysisPermits: nat
    /** The ids handed out so far, in order. */
    ghost var issued: seq<SessionId>
    ghost var Repr: set<object>

    /** Every session state is valid, is registered under its session's id,
        and owns objects no other session state owns. */
    ghost predicate Valid()
      reads this`sessions, this`Repr, Repr - {this}
    {
      this in Repr && SessionsValid(sessions, Repr, this)
    }

    /** Until the counter wraps, the ids handed out strictly ascend and all lie
        below the next one, so none is handed out twice. */
    ghost predicate IdsFresh()
      reads this`issued, this`nextId
    {
      && (forall i, j :: 0 <= i < j < |issued| ==> issued[i] < issued[j])
      && (forall i :: 0 <= i < |issued| ==> 0 < issued[i] < nextId)
      && 0 < nextId
    }

    /** The three maps have the same keys, the stop channels registered under
        an id lead to that session's tasks, and every registered id was handed out. */
    ghost predicate Registered()
      reads this`sessions, this`ioStops, this`renderStops, this`issued
    {
      Consistent(sessions.Keys, ioStops, renderStops, issued)
    }

    /** `AppState::new`: no sessions and no stop channels, the counter at 1,
        and DEFAULT_MAX_CONCURRENCY analysis permits. */
    constructor(repoPath: string)
      ensures Valid() && fresh(Repr) && IdsFresh() && Registered()
      ensures sessions == map[] && ioStops == map[] && renderStops == map[]
      ensures nextId == 1 && issued == [] && signalsSent == []
      ensures this.repoPath == repoPath && analysisPermits == DEFAULT_MAX_CONCURRENCY
    {
      sessions, ioStops, renderStops := map[], map[], map[];
      nextId := 1;
      signalsSent := [];
      this.repoPath := repoPath;
      analysisPermits := DEFAULT_MAX_CONCURRENCY;
      issued := [];
      Repr := {this};
    }

    /** `next_session_id`: hand out the counter, which then advances by one
        (wrapping at 2^64). Until it wraps, the id is new. */
    method NextSessionId() returns (id: SessionId)
      modifies this`nextId, this`issued
      ensures id == old(nextId) && nextId == WrappingSucc(old(nextId))
      ensures issued == old(issued) + [id]
      ensures sessions == old(sessions) && ioStops == old(ioStops) && renderStops == old(renderStops)
      ensures signalsSent == old(signalsSent) && Repr == old(Repr)
      ensures old(IdsFresh()) && old(nextId) + 1 < ID_MODULUS ==> IdsFresh() && id !in old(issued)
      ensures old(Registered()) ==> Registered()
    {
      id := nextId;
      nextId := WrappingSucc(nextId);
      issued := issued + [id];
    }
  }
}
