/// The frontend's terminal commands (crates/phantom-app/src/commands/terminal.rs):
/// create, write to, resize and close the sessions held in the application state.
module TerminalCommands {
  import opened Wrappers
  import opened Text
  import opened Screen
  import opened Vt
  import opened Pty
  import opened Session
  import opened State

  /** The error of a command on an id absent from the registry. */
  function NotFound(id: SessionId): string {
    "Session " + NatToString(id) + " not found"
  }

  /** A session state as `create_terminal` leaves it: a full frame due, no
      title reported, no PTY data seen; the session valid, alive, without exit
      code or title, its reader taken, and PTY and emulator of the requested
      size. */
  ghost predicate JustCreated(ss: SessionState, id: SessionId, cols: u16, rows: u16)
    reads ss, ss.session, ss.session.pty, ss.session.vt
  {
    && ss.needsFullFrame && ss.lastTitle == None && !ss.hasPtyData
    && ss.session.Valid() && ss.session.id == id
    && ss.session.alive && ss.session.exitCode == None && ss.session.title == None
    && ss.session.pty.readerTaken
    && ss.session.pty.cols == cols && ss.session.pty.rows == rows
    && ss.session.vt.emu == FreshEmu(SizeFor(cols, rows))
  }

  /** `create_terminal`: take a new id first, spawn the session, take its
      reader for the I/O thread, and register the session and the stop
      channels of its two tasks under the id. A failed spawn consumes the id
      and registers nothing. The working directory is passed through
      unused. */
  method CreateTerminal(state: AppState, shell: Option<string>, cols: u16, rows: u16,
                        workingDir: Option<string>, os: Os, engine: Engine)
    returns (r: Result<SessionId, string>)
    requires state.Valid()
    modifies state`nextId, state`issued, state`sessions, state`ioStops, state`renderStops, state`Repr
    ensures state.Valid() && fresh(state.Repr - old(state.Repr))
    ensures state.nextId == WrappingSucc(old(state.nextId))
    ensures state.issued == old(state.issued) + [old(state.nextId)]
    ensures state.signalsSent == old(state.signalsSent)
    ensures match os.spawnFailure(ShellCommand(os, shell), cols, rows)
            case Some(msg) =>
              && r == Err("Failed to create terminal session: " + Message(SpawnFailed(msg)))
              && state.sessions == old(state.sessions)
              && state.ioStops == old(state.ioStops) && state.renderStops == old(state.renderStops)
            case None =>
              && r == Ok(old(state.nextId))
              && r.value in state.sessions
              && state.sessions == old(state.sessions)[r.value := state.sessions[r.value]]
              && state.ioStops == old(state.ioStops)[r.value := StopSender(r.value, IoThread)]
              && state.renderStops == old(state.renderStops)[r.value := StopSender(r.value, RenderPump)]
              && fresh(state.sessions[r.value].Repr())
              && JustCreated(state.sessions[r.value], r.value, cols, rows)
    ensures old(state.Registered()) ==> state.Registered()
    ensures old(state.IdsFresh() && state.Registered()) && old(state.nextId) + 1 < ID_MODULUS ==>
              state.IdsFresh() && (r.Ok? ==> r.value !in old(state.sessions))
  {
    ConsistentUnused(state.sessions, state.ioStops, state.renderStops, state.issued, state.nextId);
    var id := state.NextSessionId();
    r := SpawnSession(state, id, shell, cols, rows, os, engine);
  }

  /** Spawn a session under `id` and register it with its stop channels; a
      failed spawn registers nothing. */
  method SpawnSession(state: AppState, id: SessionId, shell: Option<string>, cols: u16, rows: u16, os: Os, engine: Engine)
    returns (r: Result<SessionId, string>)
    requires state.Valid()
    modifies state`sessions, state`ioStops, state`renderStops, state`Repr
    ensures state.Valid() && fresh(state.Repr - old(state.Repr))
    ensures state.nextId == old(state.nextId) && state.issued == old(state.issued)
    ensures state.signalsSent == old(state.signalsSent)
    ensures match os.spawnFailure(ShellCommand(os, shell), cols, rows)
            case Some(msg) =>
              && r == Err("Failed to create terminal session: " + Message(SpawnFailed(msg)))
              && state.sessions == old(state.sessions)
              && state.ioStops == old(state.ioStops) && state.renderStops == old(state.renderStops)
            case None =>
              && r == Ok(id)
              && id in state.sessions
              && state.sessions == old(state.sessions)[id := state.sessions[id]]
              && state.ioStops == old(state.ioStops)[id := StopSender(id, IoThread)]
              && state.renderStops == old(state.renderStops)[id := StopSender(id, RenderPump)]
              && fresh(state.sessions[id].Repr())
              && JustCreated(state.sessions[id], id, cols, rows)
    ensures old(state.Registered()) && id in state.issued ==> state.Registered()
  {
    var created := NewSessionState(id, shell, cols, rows, os, engine);
    if created.Err? {
      return Err("Failed to create terminal session: " + Message(created.error));
    }
    Register(state, id, created.value);
    r := Ok(id);
  }

  /** Spawn the session, take its reader for the I/O thread and wrap it in a
      new session state. */
  method NewSessionState(id: SessionId, shell: Option<string>, cols: u16, rows: u16, os: Os, engine: Engine)
    returns (r: Result<SessionState, PtyError>)
    ensures match os.spawnFailure(ShellCommand(os, shell), cols, rows)
            case Some(msg) => r == Err(SpawnFailed(msg))
            case None =>
              r.Ok? && fresh(r.value.Repr()) && JustCreated(r.value, id, cols, rows)
  {
    var created := TerminalSession.New(id, shell, cols, rows, os, engine);
    if created.Err? {
      return Err(created.error);
    }
    var session := created.value;
    session.TakePtyReader();
    var ss := new SessionState(session);
    r := Ok(ss);
  }

  /** Insert a new session state and the stop channels of its tasks under `id`. */
  method Register(state: AppState, id: SessionId, ss: SessionState)
    requires state.Valid() && ss.session.Valid() && ss.session.id == id && ss.Repr() !! state.Repr
    modifies state`sessions, state`ioStops, state`renderStops, state`Repr
    ensures state.Valid() && state.Repr == old(state.Repr) + ss.Repr()
    ensures state.sessions == old(state.sessions)[id := ss]
    ensures state.ioStops == old(state.ioStops)[id := StopSender(id, IoThread)]
    ensures state.renderStops == old(state.renderStops)[id := StopSender(id, RenderPump)]
    ensures state.nextId == old(state.nextId) && state.issued == old(state.issued)
    ensures state.signalsSent == old(state.signalsSent)
    ensures old(state.Registered()) && id in state.issued ==> state.Registered()
  {
    ConsistentInsert(state.sessions, state.ioStops, state.renderStops, state.issued, id, ss);
    SessionsValidAdd(state.sessions, state.Repr, state, id, ss);
    state.sessions := state.sessions[id := ss];
    state.ioStops := state.ioStops[id := StopSender(id, IoThread)];
    state.renderStops := state.renderStops[id := StopSender(id, RenderPump)];
    state.Repr := state.Repr + ss.Repr();
  }

  /** `write_input`: an unknown id is an error and changes nothing; otherwise
      the bytes go to the session's PTY, a PTY error becoming "Write error",
      after which the shell may have received a prefix of them. */
  method WriteInput(state: AppState, id: SessionId, data: seq<u8>) returns (r: Result<Unit, string>)
    requires state.Valid()
    modifies if id in state.sessions then {state.sessions[id].session.pty} else {}
    ensures state.Valid()
    ensures id !in state.sessions ==> r == Err(NotFound(id))
    ensures id in state.sessions ==>
              var pty := state.sessions[id].session.pty;
              match pty.behaviour.write(old(pty.writeCount))
              case None => r == Ok(Unit) && pty.written == old(pty.written) + [data]
              case Some(msg) => r == Err("Write error: " + Message(IoError(msg)))
                                && pty.written == old(pty.written) + [Clip(data, pty.behaviour.delivered(old(pty.writeCount)))]
    ensures id in state.sessions ==>
              var pty := state.sessions[id].session.pty;
              pty.cols == old(pty.cols) && pty.rows == old(pty.rows) && pty.pollCount == old(pty.pollCount)
  {
    if id !in state.sessions {
      return Err(NotFound(id));
    }
    var w := state.sessions[id].session.WriteInput(data);
    if w.Err? {
      return Err("Write error: " + Message(w.error));
    }
    r := Ok(Unit);
  }

  /** `resize_terminal`: an unknown id is an error and changes nothing;
      otherwise the session is resized and, only when that succeeded, the next
      render tick is told to send a full frame. */
  method ResizeTerminal(state: AppState, id: SessionId, cols: u16, rows: u16) returns (r: Result<Unit, string>)
    requires state.Valid()
    modifies if id in state.sessions
             then {state.sessions[id], state.sessions[id].session.vt, state.sessions[id].session.pty}
             else {}
    ensures state.Valid()
    ensures id !in state.sessions ==> r == Err(NotFound(id))
    ensures id in state.sessions ==>
              var ss := state.sessions[id];
              var s := ss.session;
              && ss.lastTitle == old(ss.lastTitle) && ss.hasPtyData == old(ss.hasPtyData)
              && match s.pty.behaviour.resize(old(s.pty.resizeCount))
                 case Some(msg) =>
                   && r == Err("Resize error: " + Message(ResizeFailed(msg)))
                   && ss.needsFullFrame == old(ss.needsFullFrame) && s.vt.emu == old(s.vt.emu)
                   && s.pty.cols == old(s.pty.cols) && s.pty.rows == old(s.pty.rows)
                 case None =>
                   && r == Ok(Unit) && ss.needsFullFrame
                   && s.pty.cols == cols && s.pty.rows == rows
                   && Cols(s.vt.Screen()) == cols && Rows(s.vt.Screen()) == rows
  {
    if id !in state.sessions {
      return Err(NotFound(id));
    }
    r := ResizeSession(state.sessions[id], cols, rows);
  }

  /** Resize one session; only when that succeeded is a full frame due. */
  method ResizeSession(ss: SessionState, cols: u16, rows: u16) returns (r: Result<Unit, string>)
    requires ss.session.Valid()
    modifies ss, ss.session.vt, ss.session.pty
    ensures ss.session.Valid()
    ensures ss.lastTitle == old(ss.lastTitle) && ss.hasPtyData == old(ss.hasPtyData)
    ensures var s := ss.session;
            match s.pty.behaviour.resize(old(s.pty.resizeCount))
            case Some(msg) =>
              && r == Err("Resize error: " + Message(ResizeFailed(msg)))
              && ss.needsFullFrame == old(ss.needsFullFrame) && s.vt.emu == old(s.vt.emu)
              && s.pty.cols == old(s.pty.cols) && s.pty.rows == old(s.pty.rows)
            case None =>
              && r == Ok(Unit) && ss.needsFullFrame
              && s.pty.cols == cols && s.pty.rows == rows
              && Cols(s.vt.Screen()) == cols && Rows(s.vt.Screen()) == rows
  {
    var resized := ss.session.Resize(cols, rows);
    if resized.Err? {
      return Err("Resize error: " + Message(resized.error));
    }
    ss.needsFullFrame := true;
    r := Ok(Unit);
  }

  /** The stop signal registered under `id` in `stops`, if any. */
  function StopsOf(stops: map<SessionId, StopSender>, id: SessionId): (signals: seq<StopSender>)
    ensures |signals| <= 1
    ensures signals != [] <==> id in stops
    ensures signals != [] ==> signals[0] == stops[id]
  {
    if id in stops then [stops[id]] else []
  }

  /** `close_terminal`: take the I/O thread's and then the render pump's stop
      channel out of their maps, signal both (in that order), and drop the
      session. It always succeeds; by CloseAbsent, closing an unknown or
      already closed id changes nothing. */
  method CloseTerminal(state: AppState, id: SessionId) returns (r: Result<Unit, string>)
    requires state.Valid()
    modifies state`ioStops, state`renderStops, state`signalsSent, state`sessions
    ensures state.Valid() && state.Repr == old(state.Repr)
    ensures r == Ok(Unit)
    ensures state.sessions == old(state.sessions) - {id}
    ensures state.ioStops == old(state.ioStops) - {id} && state.renderStops == old(state.renderStops) - {id}
    ensures state.signalsSent == old(state.signalsSent) + StopsOf(old(state.ioStops), id) + StopsOf(old(state.renderStops), id)
    ensures state.nextId == old(state.nextId) && state.issued == old(state.issued)
    ensures old(state.Registered()) ==> state.Registered()
  {
    ConsistentRemove(state.sessions, state.ioStops, state.renderStops, state.issued, id);
    var ioStop, renderStop := TakeStops(state, id);
    SendStops(state, ioStop, renderStop);
    DropSession(state, id);
    r := Ok(Unit);
  }

  /** Closing an id registered in none of the maps changes nothing and
      signals nothing; as closing removes the id from all three, closing
      twice is closing once. */
  lemma CloseAbsent(sessions: map<SessionId, SessionState>, ioStops: map<SessionId, StopSender>,
                    renderStops: map<SessionId, StopSender>, id: SessionId)
    requires id !in sessions && id !in ioStops && id !in renderStops
    ensures sessions - {id} == sessions && ioStops - {id} == ioStops && renderStops - {id} == renderStops
    ensures StopsOf(ioStops, id) + StopsOf(renderStops, id) == []
  {
    RemoveAbsent(sessions, id);
    RemoveAbsent(ioStops, id);
    RemoveAbsent(renderStops, id);
  }

  /** Removing an absent key leaves a map as it is. */
  lemma RemoveAbsent<V>(m: map<SessionId, V>, id: SessionId)
    requires id !in m
    ensures m - {id} == m
  {
  }

  /** Take the stop channels registered under `id` out of their maps. */
  method TakeStops(state: AppState, id: SessionId) returns (ioStop: Option<StopSender>, renderStop: Option<StopSender>)
    modifies state`ioStops, state`renderStops
    ensures state.ioStops == old(state.ioStops) - {id} && state.renderStops == old(state.renderStops) - {id}
    ensures ioStop == (if id in old(state.ioStops) then Some(old(state.ioStops[id])) else None)
    ensures renderStop == (if id in old(state.renderStops) then Some(old(state.renderStops[id])) else None)
  {
    ioStop := if id in state.ioStops then Some(state.ioStops[id]) else None;
    state.ioStops := state.ioStops - {id};
    renderStop := if id in state.renderStops then Some(state.renderStops[id]) else None;
    state.renderStops := state.renderStops - {id};
  }

  /** Signal the I/O thread's stop channel, then the render pump's, when taken. */
  method SendStops(state: AppState, ioStop: Option<StopSender>, renderStop: Option<StopSender>)
    modifies state`signalsSent
    ensures state.signalsSent == old(state.signalsSent)
              + (if ioStop.Some? then [ioStop.value] else [])
              + (if renderStop.Some? then [renderStop.value] else [])
  {
    if ioStop.Some? {
      state.signalsSent := state.signalsSent + [ioStop.value];
    }
    if renderStop.Some? {
      state.signalsSent := state.signalsSent + [renderStop.value];
    }
  }

  /** Drop the session state registered under `id`, if any. */
  method DropSession(state: AppState, id: SessionId)
    requires state.Valid()
    modifies state`sessions
    ensures state.Valid() && state.sessions == old(state.sessions) - {id}
  {
    SessionsValidRemove(state.sessions, state.Repr, state, id);
    state.sessions := state.sessions - {id};
  }
}
