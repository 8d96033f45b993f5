/// The pseudo-terminal handle the session drives (crates/phantom-pty/src/pty.rs).
///
/// Opening a PTY, spawning the shell, reading, writing, resizing and asking
/// whether the child exited are operating-system services. They are
/// represented by a `PtyBehaviour` value of oracle functions, indexed by how
/// many times each service was used, and by the child's exit status, which
/// the environment sets (`ChildExits`) and never changes again.
module Pty {
  import opened Wrappers
  import opened Text

  /** `PtyError`; an I/O error carries the operating system's message. */
  datatype PtyError = SpawnFailed(msg: string) | IoError(msg: string) | ResizeFailed(msg: string)

  /** `Display for PtyError`. */
  function Message(e: PtyError): (m: string)
    ensures e.SpawnFailed? ==> m == "PTY spawn failed: " + e.msg
    ensures e.IoError? ==> m == "PTY I/O error: " + e.msg
    ensures e.ResizeFailed? ==> m == "PTY resize failed: " + e.msg
  {
    match e
    case SpawnFailed(msg) => "PTY spawn failed: " + msg
    case IoError(msg) => "PTY I/O error: " + msg
    case ResizeFailed(msg) => "PTY resize failed: " + msg
  }

  /** What the operating system does for one PTY. `read(k, cap)` is the outcome
      of the k-th read into a buffer of `cap` bytes; `write(k)` and `resize(k)`
      are the failure, if any, of the k-th write and the k-th resize. When the
      k-th write fails, `delivered(k)` is how many of its bytes reached the
      shell first: `write_all` can fail part way through, and a failing
      `flush` comes after every byte was handed over. */
  datatype PtyBehaviour = PtyBehaviour(
    read: (nat, nat) -> Result<seq<u8>, string>,
    write: nat -> Option<string>,
    delivered: nat -> nat,
    resize: nat -> Option<string>)

  /** What the operating system offers for spawning: the `$SHELL` variable,
      the failure, if any, of opening a PTY and spawning the given shell, and
      the behaviour of the PTY obtained. */
  datatype Os = Os(
    shellVar: Option<string>,
    spawnFailure: (string, u16, u16) -> Option<string>,
    behaviour: string -> PtyBehaviour)

  /** `default_shell`: `$SHELL`, or "/bin/sh" when it is unset. */
  function DefaultShell(os: Os): (r: string)
    ensures os.shellVar.Some? ==> r == os.shellVar.value
    ensures os.shellVar.None? ==> r == "/bin/sh"
  {
    os.shellVar.GetOr("/bin/sh")
  }

  /** The command `spawn` starts: the given shell, or the default one. */
  function ShellCommand(os: Os, shell: Option<string>): (r: string)
    ensures shell.Some? ==> r == shell.value
    ensures shell.None? ==> r == DefaultShell(os)
  {
    shell.GetOr(DefaultShell(os))
  }

  /** At most `cap` bytes of a chunk: a read never fills more than the buffer. */
  function Clip(data: seq<u8>, cap: nat): (r: seq<u8>)
    ensures |r| <= cap && |r| <= |data| && r == data[..|r|]
    ensures |data| <= cap ==> r == data
  {
    if |data| <= cap then data else data[..cap]
  }

  /** The outcome of the k-th read into a buffer of `cap` bytes: the bytes
      that fit, or the operating system's error. */
  function ReadOutcome(b: PtyBehaviour, k: nat, cap: nat): (r: Result<seq<u8>, PtyError>)
    ensures r.Ok? ==> |r.value| <= cap
    ensures b.read(k, cap).Err? ==> r == Err(IoError(b.read(k, cap).error))
    ensures b.read(k, cap).Ok? ==>
              r.Ok? && |r.value| <= |b.read(k, cap).value| && r.value == b.read(k, cap).value[..|r.value|]
    ensures b.read(k, cap).Ok? && |b.read(k, cap).value| <= cap ==> r == Ok(b.read(k, cap).value)
  {
    match b.read(k, cap)
    case Ok(data) => Ok(Clip(data, cap))
    case Err(msg) => Err(IoError(msg))
  }

  class PtyHandle {
    /** The command running in the PTY and the operating system's behaviour for it. */
    const command: string
    const behaviour: PtyBehaviour
    /** The PTY's size as last set, columns then rows. */
    var cols: u16
    var rows: u16
    /** How many reads, write attempts and resize attempts were made. */
    var readCount: nat
    var writeCount: nat
    var resizeCount: nat
    /** Everything the shell received on its input, one entry per write
        attempt: all the bytes of a successful write, the delivered prefix
        of a failed one. */
    var written: seq<seq<u8>>
    /** The child's exit status once it has exited; how many times it was asked. */
    var exitStatus: Option<u32>
    var pollCount: nat
    /** Whether the reader was handed to a dedicated reading thread. */
    var readerTaken: bool

    constructor(command: string, behaviour: PtyBehaviour, cols: u16, rows: u16)
      ensures this.command == command && this.behaviour == behaviour
      ensures this.cols == cols && this.rows == rows
      ensures readCount == 0 && writeCount == 0 && resizeCount == 0 && pollCount == 0
      ensures written == [] && exitStatus == None && !readerTaken
    {
      this.command, this.behaviour := command, behaviour;
      this.cols, this.rows := cols, rows;
      readCount, writeCount, resizeCount, pollCount := 0, 0, 0, 0;
      written, exitStatus, readerTaken := [], None, false;
    }

    /** `PtyHandle::spawn`: the given shell (or the default one) in a PTY of
        cols x rows, or `SpawnFailed` when the operating system refuses. */
    static method Spawn(os: Os, shell: Option<string>, cols: u16, rows: u16) returns (r: Result<PtyHandle, PtyError>)
      ensures var cmd := ShellCommand(os, shell);
              match os.spawnFailure(cmd, cols, rows)
              case Some(msg) => r == Err(SpawnFailed(msg))
              case None => r.Ok? && fresh(r.value) && r.value.command == cmd && r.value.behaviour == os.behaviour(cmd)
                           && r.value.cols == cols && r.value.rows == rows && r.value.IsFresh()
    {
      var cmd := ShellCommand(os, shell);
      var failure := os.spawnFailure(cmd, cols, rows);
      if failure.Some? {
        return Err(SpawnFailed(failure.value));
      }
      var p := new PtyHandle(cmd, os.behaviour(cmd), cols, rows);
      r := Ok(p);
    }

    /** A handle nothing was done with yet. */
    predicate IsFresh()
      reads this
    {
      readCount == 0 && writeCount == 0 && resizeCount == 0 && pollCount == 0
      && written == [] && exitStatus == None && !readerTaken
    }

    /** The outcome of the next read into a buffer of `cap` bytes. */
    function NextRead(cap: nat): (r: Result<seq<u8>, PtyError>)
      reads this
      ensures r.Ok? ==> |r.value| <= cap
    {
      ReadOutcome(behaviour, readCount, cap)
    }

    /** `read`: the bytes the shell produced, at most `cap` of them. */
    method Read(cap: nat) returns (r: Result<seq<u8>, PtyError>)
      modifies this
      ensures r == old(NextRead(cap)) && readCount == old(readCount) + 1
      ensures writeCount == old(writeCount) && written == old(written) && resizeCount == old(resizeCount)
      ensures cols == old(cols) && rows == old(rows) && exitStatus == old(exitStatus) && pollCount == old(pollCount)
      ensures readerTaken == old(readerTaken)
    {
      r := NextRead(cap);
      readCount := readCount + 1;
    }

    /** `write`: the bytes reach the shell unchanged, or an I/O error after
        some prefix of them (none, part or all) got through. */
    method Write(data: seq<u8>) returns (r: Result<Unit, PtyError>)
      modifies this
      ensures writeCount == old(writeCount) + 1
      ensures match behaviour.write(old(writeCount))
              case None => r == Ok(Unit) && written == old(written) + [data]
              case Some(msg) => r == Err(IoError(msg))
                                && written == old(written) + [Clip(data, behaviour.delivered(old(writeCount)))]
      ensures readCount == old(readCount) && resizeCount == old(resizeCount)
      ensures cols == old(cols) && rows == old(rows) && exitStatus == old(exitStatus) && pollCount == old(pollCount)
      ensures readerTaken == old(readerTaken)
    {
      match behaviour.write(writeCount) {
        case None =>
          written := written + [data];
          r := Ok(Unit);
        case Some(msg) =>
          written := written + [Clip(data, behaviour.delivered(writeCount))];
          r := Err(IoError(msg));
      }
      writeCount := writeCount + 1;
    }

    /** `resize`: the PTY takes the new size, or `ResizeFailed` and the old size stays. */
    method Resize(newCols: u16, newRows: u16) returns (r: Result<Unit, PtyError>)
      modifies this
      ensures resizeCount == old(resizeCount) + 1
      ensures match behaviour.resize(old(resizeCount))
              case None => r == Ok(Unit) && cols == newCols && rows == newRows
              case Some(msg) => r == Err(ResizeFailed(msg)) && cols == old(cols) && rows == old(rows)
      ensures readCount == old(readCount) && writeCount == old(writeCount) && written == old(written)
      ensures exitStatus == old(exitStatus) && pollCount == old(pollCount) && readerTaken == old(readerTaken)
    {
      match behaviour.resize(resizeCount) {
        case None =>
          cols, rows := newCols, newRows;
          r := Ok(Unit);
        case Some(msg) =>
          r := Err(ResizeFailed(msg));
      }
      resizeCount := resizeCount + 1;
    }

    /** `try_wait`: the exit status if the child exited, otherwise None. */
    method TryWait() returns (status: Option<u32>)
      modifies this
      ensures status == exitStatus == old(exitStatus) && pollCount == old(pollCount) + 1
      ensures readCount == old(readCount) && writeCount == old(writeCount) && written == old(written)
      ensures resizeCount == old(resizeCount) && cols == old(cols) && rows == old(rows)
      ensures readerTaken == old(readerTaken)
    {
      status := exitStatus;
      pollCount := pollCount + 1;
    }

    /** `take_reader`: the reader moves to a dedicated thread. */
    method TakeReader()
      modifies this
      ensures readerTaken
      ensures readCount == old(readCount) && writeCount == old(writeCount) && written == old(written)
      ensures resizeCount == old(resizeCount) && cols == old(cols) && rows == old(rows)
      ensures exitStatus == old(exitStatus) && pollCount == old(pollCount)
    {
      readerTaken := true;
    }

    /** The environment: the child process exits with `code`; a child exits only once. */
    method ChildExits(code: u32)
      requires exitStatus.None?
      modifies this
      ensures exitStatus == Some(code)
      ensures readCount == old(readCount) && writeCount == old(writeCount) && written == old(written)
      ensures resizeCount == old(resizeCount) && cols == old(cols) && rows == old(rows)
      ensures pollCount == old(pollCount) && readerTaken == old(readerTaken)
    {
      exitStatus := Some(code);
    }
  }

  /** How many of `count` writes starting at attempt `start` succeed before the first failure. */
  function WritesBeforeFailure(b: PtyBehaviour, start: nat, count: nat): (k: nat)
    ensures k <= count
    ensures forall j :: start <= j < start + k ==> b.write(j).None?
    ensures k < count ==> b.write(start + k).Some?
    decreases count
  {
    if count == 0 then 0
    else if b.write(start).Some? then 0
    else 1 + WritesBeforeFailure(b, start + 1, count - 1)
  }

  /** The count of successful writes is the first failing attempt's offset,
      or all of them when none fails. */
  lemma {:induction false} WritesBeforeFailureIs(b: PtyBehaviour, start: nat, count: nat, i: nat)
    requires i <= count
    requires forall j :: start <= j < start + i ==> b.write(j).None?
    requires i < count ==> b.write(start + i).Some?
    ensures WritesBeforeFailure(b, start, count) == i
    decreases i
  {
    if i > 0 {
      assert b.write(start).None?;
      WritesBeforeFailureIs(b, start + 1, count - 1, i - 1);
    }
  }
}
