/// One terminal tab: a shell in a PTY paired with a terminal emulator
/// (crates/phantom-pty/src/session.rs). The session caches whether the
/// child is alive and its exit code, and keeps the last title it synced.
module Session {
  import opened Wrappers
  import opened Text
  import opened Screen
  import opened Vt
  import opened Pty

  type SessionId = u64

  /** The size of the buffer `process_pty_output` reads into. */
  const READ_BUFFER_SIZE: nat := 4096

  /** The bytes of each write-back string, in order (`as_bytes`). */
  function EncodeAll(writes: seq<string>): (r: seq<seq<u8>>)
    ensures |r| == |writes| && forall i :: 0 <= i < |writes| ==> r[i] == Utf8(writes[i])
  {
    seq(|writes|, i requires 0 <= i < |writes| => Utf8(writes[i]))
  }

  /** What writing `writes` in order, from the PTY's `start`-th write on,
      delivers to the shell: each write-back up to the first failure whole,
      then the prefix of the failing one that got through. */
  function Delivered(b: PtyBehaviour, start: nat, writes: seq<string>): (d: seq<seq<u8>>)
    ensures var k := WritesBeforeFailure(b, start, |writes|);
            && |d| == k + (if k < |writes| then 1 else 0)
            && d[..k] == EncodeAll(writes[..k])
            && (k < |writes| ==> d[k] == Clip(Utf8(writes[k]), b.delivered(start + k)))
  {
    var k := WritesBeforeFailure(b, start, |writes|);
    EncodeAll(writes[..k]) + (if k < |writes| then [Clip(Utf8(writes[k]), b.delivered(start + k))] else [])
  }

  /** The whole state of one session as a value: its emulator, event state
      and cached title; its PTY's size, counters, received input, exit status
      and reader flag; and the session's own title, alive flag and exit code. */
  datatype SessionView = SessionView(
    emu: Emu, events: EventSnapshot, cachedTitle: Option<string>,
    cols: u16, rows: u16, readCount: nat, writeCount: nat, resizeCount: nat,
    written: seq<seq<u8>>, exitStatus: Option<u32>, pollCount: nat, readerTaken: bool,
    title: Option<string>, alive: bool, exitCode: Option<u32>)

  /** The session invariant on its state: alive exactly while no exit code is
      known, and a known exit code is the child's. */
  predicate ViewValid(v: SessionView) {
    (v.alive <==> v.exitCode.None?) && (v.exitCode.Some? ==> v.exitStatus == v.exitCode)
  }

  /** The new state after one `process_pty_output` and what the call returned. */
  datatype Processed = Processed(view: SessionView, out: Result<nat, PtyError>)

  /** Whether the call returned a positive byte count (`Ok(n) if n > 0`). */
  predicate Progressed(p: Processed) {
    p.out.Ok? && p.out.value > 0
  }

  /** `try_wait` after a read: the poll is counted, and a known exit status
      ends the session with that code. */
  function Polled(v: SessionView): (r: SessionView)
    ensures r == v.(pollCount := r.pollCount, alive := r.alive, exitCode := r.exitCode)
    ensures r.pollCount == v.pollCount + 1
  {
    if v.exitStatus.Some? then v.(pollCount := v.pollCount + 1, alive := false, exitCode := v.exitStatus)
    else v.(pollCount := v.pollCount + 1)
  }

  /** Feeding a non-empty chunk: the emulator parses exactly the bytes, its
      write-backs are written in order up to the first failure, which may
      still deliver a prefix of its bytes, and, when all succeed, the title
      is synced from the event state and the byte count is the result. */
  function FeedStep(engine: Engine, behaviour: PtyBehaviour, v: SessionView, data: seq<u8>): (p: Processed)
    ensures p.out.Ok? ==> p.out.value == |data|
    ensures p.view == v.(emu := p.view.emu, events := p.view.events, written := p.view.written,
                         writeCount := p.view.writeCount, title := p.view.title)
  {
    var after := ApplyEvents(v.events, engine.advance(v.emu, data).events);
    var writes := after.ptyWrites;
    var k := WritesBeforeFailure(behaviour, v.writeCount, |writes|);
    var fed := v.(emu := AfterWrite(engine, v.emu, data), events := after.(ptyWrites := []),
                  written := v.written + Delivered(behaviour, v.writeCount, writes));
    if k < |writes| then
      Processed(fed.(writeCount := v.writeCount + k + 1), Err(IoError(behaviour.write(v.writeCount + k).value)))
    else
      Processed(fed.(writeCount := v.writeCount + k, title := after.title), Ok(|data|))
  }

  /** What `process_pty_output` does with a chunk it read: an empty chunk
      skips the emulator, a non-empty one is fed; when the write-backs
      succeed the child is polled and the result is the chunk's length. */
  function ConsumeStep(engine: Engine, behaviour: PtyBehaviour, v: SessionView, data: seq<u8>): (p: Processed)
    ensures p.out.Ok? ==> p.out.value == |data|
  {
    if |data| == 0 then Processed(Polled(v), Ok(0))
    else
      var f := FeedStep(engine, behaviour, v, data);
      if f.out.Ok? then Processed(Polled(f.view), f.out) else f
  }

  /** `process_pty_output` on a session's state: read up to a buffer and
      consume what was read. A read failure ends the call with its error. */
  function ProcessStep(engine: Engine, behaviour: PtyBehaviour, v: SessionView): (p: Processed)
    ensures p.out.Ok? ==> p.out.value <= READ_BUFFER_SIZE
  {
    var read := v.(readCount := v.readCount + 1);
    match ReadOutcome(behaviour, v.readCount, READ_BUFFER_SIZE)
    case Err(e) => Processed(read, Err(e))
    case Ok(data) => ConsumeStep(engine, behaviour, read, data)
  }

  /** After a successful read, a call consumes what was read. */
  lemma ProcessStepRead(engine: Engine, behaviour: PtyBehaviour, v: SessionView, data: seq<u8>)
    requires ReadOutcome(behaviour, v.readCount, READ_BUFFER_SIZE) == Ok(data)
    ensures ProcessStep(engine, behaviour, v) == ConsumeStep(engine, behaviour, v.(readCount := v.readCount + 1), data)
  {
  }

  /** A call keeps the session invariant. */
  lemma ProcessStepValid(engine: Engine, behaviour: PtyBehaviour, v: SessionView)
    requires ViewValid(v)
    ensures ViewValid(ProcessStep(engine, behaviour, v).view)
  {
  }

  /** Every call makes exactly one read, and never changes the PTY's size, its
      resize count, its exit status, its reader, or the emulator's cached title. */
  lemma ProcessStepFrame(engine: Engine, behaviour: PtyBehaviour, v: SessionView)
    ensures var a := ProcessStep(engine, behaviour, v).view;
            && a.readCount == v.readCount + 1
            && a.cols == v.cols && a.rows == v.rows && a.resizeCount == v.resizeCount
            && a.exitStatus == v.exitStatus && a.readerTaken == v.readerTaken && a.cachedTitle == v.cachedTitle
  {
    match ReadOutcome(behaviour, v.readCount, READ_BUFFER_SIZE)
    case Err(_) =>
    case Ok(data) =>
  }

  /** The paths of a call. A failing or empty read leaves the terminal, the
      input and the title alone; a non-empty read feeds exactly those bytes,
      writes the write-backs in order up to the first failure and returns the
      byte count only when all succeed, with the event state's title. */
  lemma ProcessStepCases(engine: Engine, behaviour: PtyBehaviour, v: SessionView)
    ensures var p := ProcessStep(engine, behaviour, v);
            var d := ReadOutcome(behaviour, v.readCount, READ_BUFFER_SIZE);
            && (d.Err? ==> p.out == Err(d.error))
            && (d.Err? || d.value == [] ==>
                  && p.view.written == v.written && p.view.writeCount == v.writeCount && p.view.title == v.title
                  && p.view.emu == v.emu && p.view.events == v.events)
            && (d.Ok? && d.value == [] ==> p.out == Ok(0))
            && (d.Ok? && d.value != [] ==>
                  var after := ApplyEvents(v.events, engine.advance(v.emu, d.value).events);
                  var k := WritesBeforeFailure(behaviour, v.writeCount, |after.ptyWrites|);
                  && p.view.emu == AfterWrite(engine, v.emu, d.value)
                  && p.view.events == after.(ptyWrites := [])
                  && p.view.written == v.written + Delivered(behaviour, v.writeCount, after.ptyWrites)
                  && (p.out.Ok? <==> k == |after.ptyWrites|)
                  && (p.out.Err? ==> p.out.error == IoError(behaviour.write(v.writeCount + k).value))
                  && (p.out.Ok? ==> p.out.value == |d.value| && p.view.title == after.title))
  {
  }

  /** The child is polled exactly when the call succeeds; a known exit status
      then ends the session. A failed call keeps the title and the liveness. */
  lemma ProcessStepPoll(engine: Engine, behaviour: PtyBehaviour, v: SessionView)
    ensures var p := ProcessStep(engine, behaviour, v);
            && (p.out.Ok? ==> p.view.pollCount == v.pollCount + 1)
            && (p.out.Ok? && v.exitStatus.Some? ==> !p.view.alive && p.view.exitCode == v.exitStatus)
            && (p.out.Ok? && v.exitStatus.None? ==> p.view.alive == v.alive && p.view.exitCode == v.exitCode)
            && (p.out.Err? ==> p.view.pollCount == v.pollCount && p.view.title == v.title
                               && p.view.alive == v.alive && p.view.exitCode == v.exitCode)
  {
  }

  class TerminalSession {
    const id: SessionId
    const vt: VtTerminal
    const pty: PtyHandle
    var title: Option<string>
    var alive: bool
    var exitCode: Option<u32>

    /** The objects this session owns. */
    function Repr(): set<object> {
      {this, vt, vt.proxy, pty}
    }

    /** The session is alive exactly while it knows no exit code, and a known
        exit code is the child's. */
    ghost predicate Valid()
      reads this, pty
    {
      (alive <==> exitCode.None?) && (exitCode.Some? ==> pty.exitStatus == exitCode)
    }

    constructor Assemble(id: SessionId, vt: VtTerminal, pty: PtyHandle)
      requires pty.exitStatus.None?
      ensures this.id == id && this.vt == vt && this.pty == pty
      ensures title == None && alive && exitCode == None
      ensures Valid()
    {
      this.id, this.vt, this.pty := id, vt, pty;
      title, alive, exitCode := None, true, None;
    }

    /** `TerminalSession::new`: spawn the shell, then create an emulator of the
        same size. A new session is alive, with no exit code and no title. */
    static method New(id: SessionId, shell: Option<string>, cols: u16, rows: u16, os: Os, engine: Engine)
      returns (r: Result<TerminalSession, PtyError>)
      ensures var cmd := ShellCommand(os, shell);
              match os.spawnFailure(cmd, cols, rows)
              case Some(msg) => r == Err(SpawnFailed(msg))
              case None =>
                && r.Ok? && fresh(r.value.Repr()) && r.value.Valid()
                && r.value.id == id && r.value.title == None && r.value.alive && r.value.exitCode == None
                && r.value.pty.command == cmd && r.value.pty.IsFresh()
                && r.value.pty.cols == cols && r.value.pty.rows == rows
                && r.value.vt.engine == engine && r.value.vt.emu == FreshEmu(SizeFor(cols, rows))
                && r.value.vt.proxy.Snapshot() == NO_EVENTS && r.value.vt.cachedTitle == None
    {
      var spawned := PtyHandle.Spawn(os, shell, cols, rows);
      if spawned.Err? {
        return Err(spawned.error);
      }
      var vt := new VtTerminal(cols, rows, engine);
      var s := new TerminalSession.Assemble(id, vt, spawned.value);
      r := Ok(s);
    }

    /** Everything this session owns, as a value. */
    ghost function View(): SessionView
      reads this, vt, vt.proxy, pty
    {
      SessionView(vt.emu, vt.proxy.Snapshot(), vt.cachedTitle,
                  pty.cols, pty.rows, pty.readCount, pty.writeCount, pty.resizeCount,
                  pty.written, pty.exitStatus, pty.pollCount, pty.readerTaken,
                  title, alive, exitCode)
    }

    /** What `process_pty_output` makes of the state `v` of this session. */
    function Step(v: SessionView): Processed {
      ProcessStep(vt.engine, pty.behaviour, v)
    }

    /** Write each write-back to the PTY in order, stopping at the first
        failure, of which the shell may have received a prefix. */
    method WriteBacks(writes: seq<string>) returns (r: Result<Unit, PtyError>)
      modifies pty
      ensures var k := WritesBeforeFailure(pty.behaviour, old(pty.writeCount), |writes|);
              && pty.written == old(pty.written) + Delivered(pty.behaviour, old(pty.writeCount), writes)
              && (r.Ok? <==> k == |writes|)
              && (r.Err? ==> r.error == IoError(pty.behaviour.write(old(pty.writeCount) + k).value))
      ensures pty.writeCount == old(pty.writeCount) + WritesBeforeFailure(pty.behaviour, old(pty.writeCount), |writes|)
                                + (if r.Err? then 1 else 0)
      ensures pty.exitStatus == old(pty.exitStatus) && pty.readCount == old(pty.readCount)
      ensures pty.pollCount == old(pty.pollCount) && pty.cols == old(pty.cols) && pty.rows == old(pty.rows)
      ensures pty.resizeCount == old(pty.resizeCount) && pty.readerTaken == old(pty.readerTaken)
    {
      ghost var start := pty.writeCount;
      var i := 0;
      while i < |writes|
        invariant 0 <= i <= |writes|
        invariant pty.writeCount == start + i
        invariant forall j :: start <= j < start + i ==> pty.behaviour.write(j).None?
        invariant pty.written == old(pty.written) + EncodeAll(writes[..i])
        invariant pty.exitStatus == old(pty.exitStatus) && pty.readCount == old(pty.readCount)
        invariant pty.pollCount == old(pty.pollCount) && pty.cols == old(pty.cols) && pty.rows == old(pty.rows)
        invariant pty.resizeCount == old(pty.resizeCount) && pty.readerTaken == old(pty.readerTaken)
      {
        var w := pty.Write(Utf8(writes[i]));
        if w.Err? {
          WritesBeforeFailureIs(pty.behaviour, start, |writes|, i);
          r := Err(w.error);
          return;
        }
        assert EncodeAll(writes[..i + 1]) == EncodeAll(writes[..i]) + [Utf8(writes[i])];
        i := i + 1;
      }
      assert writes[..i] == writes;
      WritesBeforeFailureIs(pty.behaviour, start, |writes|, i);
      r := Ok(Unit);
    }

    /** The events that parsing `data` leaves in the event state. */
    function EventsAfter(data: seq<u8>): EventSnapshot
      reads vt, vt.proxy
    {
      ApplyEvents(vt.proxy.Snapshot(), vt.engine.advance(vt.emu, data).events)
    }

    /** Feed `data` to the emulator, write the write-backs it produced to the
        PTY in order and, when all of them succeed, sync the title. */
    method Feed(data: seq<u8>) returns (w: Result<Unit, PtyError>)
      modifies this, vt, vt.proxy, pty
      ensures Processed(View(), if w.Ok? then Ok(|data|) else Err(w.error))
              == FeedStep(vt.engine, pty.behaviour, old(View()), data)
    {
      ghost var v := View();
      ghost var p := FeedStep(vt.engine, pty.behaviour, v, data);
      ghost var after := EventsAfter(data);
      ghost var k := WritesBeforeFailure(pty.behaviour, pty.writeCount, |after.ptyWrites|);
      var writes := Parse(data);
      assert writes == after.ptyWrites && vt.proxy.Snapshot() == after.(ptyWrites := []);
      assert pty.written == v.written && pty.writeCount == v.writeCount;
      ghost var emu := vt.emu;
      w := WriteBacks(writes);
      assert vt.emu == emu && vt.proxy.Snapshot() == after.(ptyWrites := []);
      assert pty.written == v.written + Delivered(pty.behaviour, v.writeCount, after.ptyWrites);
      assert pty.writeCount == v.writeCount + k + (if w.Err? then 1 else 0);
      if w.Ok? {
        title := vt.TitleOwned();
      }
      assert View() == p.view;
    }

    /** Feed `data` to the emulator and take the write-backs it produced. */
    method Parse(data: seq<u8>) returns (writes: seq<string>)
      modifies vt, vt.proxy
      ensures var after := old(EventsAfter(data));
              && writes == after.ptyWrites && vt.proxy.Snapshot() == after.(ptyWrites := [])
      ensures vt.emu == AfterWrite(vt.engine, old(vt.emu), data) && vt.cachedTitle == old(vt.cachedTitle)
    {
      vt.Write(data);
      writes := vt.TakePtyWrites();
    }

    /** `process_pty_output`: the session's new state and the result are the
        ones `ProcessStep` gives for its old state. */
    method ProcessPtyOutput() returns (r: Result<nat, PtyError>)
      requires Valid()
      modifies Repr()
      ensures Valid()
      ensures Processed(View(), r) == Step(old(View()))
    {
      ghost var v := View();
      var read := pty.Read(READ_BUFFER_SIZE);
      assert View() == v.(readCount := v.readCount + 1);
      if read.Err? {
        return Err(read.error);
      }
      ProcessStepRead(vt.engine, pty.behaviour, v, read.value);
      r := Consume(read.value);
    }

    /** The part of `process_pty_output` after a successful read. */
    method Consume(data: seq<u8>) returns (r: Result<nat, PtyError>)
      requires Valid()
      modifies this, vt, vt.proxy, pty
      ensures Valid()
      ensures Processed(View(), r) == ConsumeStep(vt.engine, pty.behaviour, old(View()), data)
    {
      if |data| > 0 {
        var w := Feed(data);
        if w.Err? {
          return Err(w.error);
        }
      }
      Poll();
      r := Ok(|data|);
    }

    /** The `try_wait` that ends `process_pty_output`: the poll is counted, and a
        known exit status ends the session with that code. */
    method Poll()
      requires Valid()
      modifies this, pty
      ensures Valid() && View() == Polled(old(View()))
    {
      var status := pty.TryWait();
      if status.Some? {
        alive := false;
        exitCode := status;
      }
    }

    /** `write_input`: the bytes go to the PTY unchanged; a failed write may
        have delivered a prefix of them. */
    method WriteInput(data: seq<u8>) returns (r: Result<Unit, PtyError>)
      requires Valid()
      modifies pty
      ensures Valid()
      ensures match pty.behaviour.write(old(pty.writeCount))
              case None => r == Ok(Unit) && pty.written == old(pty.written) + [data]
              case Some(msg) => r == Err(IoError(msg))
                                && pty.written == old(pty.written) + [Clip(data, pty.behaviour.delivered(old(pty.writeCount)))]
      ensures pty.cols == old(pty.cols) && pty.rows == old(pty.rows) && pty.pollCount == old(pty.pollCount)
    {
      r := pty.Write(data);
    }

    /** `resize`: the PTY first; only when it accepts is the emulator resized,
        so both get the new size or neither does. */
    method Resize(cols: u16, rows: u16) returns (r: Result<Unit, PtyError>)
      requires Valid()
      modifies vt, pty
      ensures Valid()
      ensures match pty.behaviour.resize(old(pty.resizeCount))
              case Some(msg) =>
                && r == Err(ResizeFailed(msg)) && vt.emu == old(vt.emu)
                && pty.cols == old(pty.cols) && pty.rows == old(pty.rows)
              case None =>
                && r == Ok(Unit) && pty.cols == cols && pty.rows == rows
                && vt.emu == AfterResize(vt.engine, old(vt.emu), SizeFor(cols, rows))
                && Cols(vt.Screen()) == cols && Rows(vt.Screen()) == rows
      ensures pty.written == old(pty.written) && pty.pollCount == old(pty.pollCount)
      ensures vt.cachedTitle == old(vt.cachedTitle)
    {
      r := pty.Resize(cols, rows);
      if r.Err? {
        return;
      }
      vt.Resize(cols, rows);
    }

    /** `is_alive`: polls the child only while the session is alive; once it is
        not alive it never polls again and stays not alive. */
    method IsAlive() returns (b: bool)
      requires Valid()
      modifies this, pty
      ensures Valid()
      ensures b == alive && title == old(title)
      ensures old(alive) ==> alive == pty.exitStatus.None? && pty.pollCount == old(pty.pollCount) + 1
      ensures !old(alive) ==> !b && exitCode == old(exitCode) && pty.pollCount == old(pty.pollCount)
      ensures pty.exitStatus == old(pty.exitStatus) && pty.written == old(pty.written)
      ensures pty.readCount == old(pty.readCount) && pty.cols == old(pty.cols) && pty.rows == old(pty.rows)
    {
      if alive {
        var status := pty.TryWait();
        if status.Some? {
          alive := false;
          exitCode := status;
        }
      }
      b := alive;
    }

    /** `exit_code`: a known code is returned unchanged without polling; otherwise
        the child is polled and its code, if any, is cached. */
    method ExitCode() returns (code: Option<u32>)
      requires Valid()
      modifies this, pty
      ensures Valid()
      ensures code == exitCode && title == old(title)
      ensures old(exitCode).Some? ==> code == old(exitCode) && pty.pollCount == old(pty.pollCount)
      ensures old(exitCode).None? ==> code == pty.exitStatus && pty.pollCount == old(pty.pollCount) + 1
      ensures pty.exitStatus == old(pty.exitStatus) && pty.written == old(pty.written)
      ensures pty.readCount == old(pty.readCount) && pty.cols == old(pty.cols) && pty.rows == old(pty.rows)
    {
      if exitCode.None? {
        var status := pty.TryWait();
        if status.Some? {
          alive := false;
          exitCode := status;
        }
      }
      code := exitCode;
    }

    /** `take_pty_reader`: hand the reader to a dedicated thread. */
    method TakePtyReader()
      requires Valid()
      modifies pty
      ensures Valid() && pty.readerTaken
      ensures pty.written == old(pty.written) && pty.readCount == old(pty.readCount)
      ensures pty.cols == old(pty.cols) && pty.rows == old(pty.rows) && pty.pollCount == old(pty.pollCount)
    {
      pty.TakeReader();
    }

    /** `handle_write_backs`: the pending write-backs go to the PTY in order; if
        all succeed the title is synced, and the first failure ends the call. */
    method HandleWriteBacks() returns (r: Result<Unit, PtyError>)
      requires Valid()
      modifies this, vt.proxy, pty
      ensures Valid()
      ensures var writes := old(vt.proxy.ptyWrites);
              var k := WritesBeforeFailure(pty.behaviour, old(pty.writeCount), |writes|);
              && pty.written == old(pty.written) + Delivered(pty.behaviour, old(pty.writeCount), writes)
              && (r.Ok? <==> k == |writes|)
              && (r.Err? ==> r.error == IoError(pty.behaviour.write(old(pty.writeCount) + k).value))
      ensures vt.proxy.ptyWrites == [] && vt.proxy.title == old(vt.proxy.title) && vt.proxy.bell == old(vt.proxy.bell)
      ensures r.Ok? ==> title == vt.proxy.title
      ensures r.Err? ==> title == old(title)
      ensures alive == old(alive) && exitCode == old(exitCode)
      ensures pty.pollCount == old(pty.pollCount) && pty.readCount == old(pty.readCount)
      ensures pty.cols == old(pty.cols) && pty.rows == old(pty.rows)
    {
      var writes := vt.TakePtyWrites();
      ghost var proxyTitle, proxyBell := vt.proxy.title, vt.proxy.bell;
      r := WriteBacks(writes);
      assert vt.proxy.ptyWrites == [] && vt.proxy.title == proxyTitle && vt.proxy.bell == proxyBell;
      if r.Err? {
        return;
      }
      title := vt.TitleOwned();
    }
  }
}
