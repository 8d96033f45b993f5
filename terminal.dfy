/// The terminal emulator wrapper (crates/phantom-vt/src/terminal.rs): the
/// event state the emulator reports into (title, bell, write-backs), and the
/// `VtTerminal` object that feeds bytes to the emulator and exposes its
/// screen, cursor, damage and events.
///
/// The emulator library itself (escape-sequence parsing, grid updates,
/// damage tracking) is foreign code: it is represented by an `Engine`, a
/// value of oracle functions that the terminal is constructed with.
module Vt {
  import opened Wrappers
  import opened Text
  import opened Cell
  import opened Screen

  // ---------------------------------------------------------------------
  // Events and the event state

  /** The events the emulator sends to its listener; `OtherEvent` stands for
      every event the listener ignores (clipboard, mouse cursor, wakeup, ...). */
  datatype TermEvent = TitleEvent(title: string) | ResetTitle | BellEvent | PtyWrite(data: string) | OtherEvent(kind: nat)

  /** The contents of one `EventState` at a point in time. */
  datatype EventSnapshot = EventSnapshot(title: Option<string>, bell: bool, ptyWrites: seq<string>)

  /** `EventState::default()`. */
  const NO_EVENTS: EventSnapshot := EventSnapshot(None, false, [])

  /** The effect of one event, as `send_event` applies it. */
  function ApplyEvent(s: EventSnapshot, e: TermEvent): EventSnapshot {
    match e
    case TitleEvent(t) => s.(title := Some(t))
    case ResetTitle => s.(title := None)
    case BellEvent => s.(bell := true)
    case PtyWrite(d) => s.(ptyWrites := s.ptyWrites + [d])
    case OtherEvent(_) => s
  }

  /** The effect of a sequence of events, applied in order. */
  function ApplyEvents(s: EventSnapshot, es: seq<TermEvent>): EventSnapshot {
    if es == [] then s else ApplyEvent(ApplyEvents(s, es[..|es| - 1]), es[|es| - 1])
  }

  predicate IsTitleEvent(e: TermEvent) {
    e.TitleEvent? || e.ResetTitle?
  }

  /** The title a title event leaves behind. */
  function TitleAfter(e: TermEvent): Option<string>
    requires IsTitleEvent(e)
  {
    if e.TitleEvent? then Some(e.title) else None
  }

  /** The data of the write-back events of `es`, in order. */
  function PtyWritesOf(es: seq<TermEvent>): (r: seq<string>)
    ensures |r| <= |es|
  {
    if es == [] then []
    else (if es[0].PtyWrite? then [es[0].data] else []) + PtyWritesOf(es[1..])
  }

  lemma {:induction false} PtyWritesOfAppend(es: seq<TermEvent>, e: TermEvent)
    ensures PtyWritesOf(es + [e]) == PtyWritesOf(es) + (if e.PtyWrite? then [e.data] else [])
  {
    if es == [] {
      assert es + [e] == [e];
    } else {
      assert (es + [e])[0] == es[0] && (es + [e])[1..] == es[1..] + [e];
      PtyWritesOfAppend(es[1..], e);
    }
  }

  /** Write-backs accumulate in arrival order and are never reordered or lost. */
  lemma {:induction false} ApplyEventsWrites(s: EventSnapshot, es: seq<TermEvent>)
    ensures ApplyEvents(s, es).ptyWrites == s.ptyWrites + PtyWritesOf(es)
  {
    if es != [] {
      var init := es[..|es| - 1];
      ApplyEventsWrites(s, init);
      assert es == init + [es[|es| - 1]];
      PtyWritesOfAppend(init, es[|es| - 1]);
    }
  }

  /** The bell is set afterwards exactly when it was set before or some event is a bell. */
  lemma {:induction false} ApplyEventsBell(s: EventSnapshot, es: seq<TermEvent>)
    ensures ApplyEvents(s, es).bell <==> s.bell || exists i :: 0 <= i < |es| && es[i] == BellEvent
  {
    if es != [] {
      var init := es[..|es| - 1];
      ApplyEventsBell(s, init);
      if ApplyEvents(s, es).bell && !s.bell && es[|es| - 1] != BellEvent {
        var i :| 0 <= i < |init| && init[i] == BellEvent;
        assert es[i] == BellEvent;
      }
      if exists i :: 0 <= i < |es| && es[i] == BellEvent {
        var i :| 0 <= i < |es| && es[i] == BellEvent;
        if i < |init| {
          assert init[i] == BellEvent;
        }
      }
    }
  }

  /** Without title events the title is unchanged. */
  lemma {:induction false} ApplyEventsKeepTitle(s: EventSnapshot, es: seq<TermEvent>)
    requires forall i :: 0 <= i < |es| ==> !IsTitleEvent(es[i])
    ensures ApplyEvents(s, es).title == s.title
  {
    if es != [] {
      var init := es[..|es| - 1];
      assert forall i :: 0 <= i < |init| ==> init[i] == es[i];
      ApplyEventsKeepTitle(s, init);
    }
  }

  /** The title afterwards is the one left by the last title event. */
  lemma {:induction false} ApplyEventsLastTitle(s: EventSnapshot, es: seq<TermEvent>, i: nat)
    requires i < |es| && IsTitleEvent(es[i])
    requires forall j :: i < j < |es| ==> !IsTitleEvent(es[j])
    ensures ApplyEvents(s, es).title == TitleAfter(es[i])
  {
    var init := es[..|es| - 1];
    if i < |es| - 1 {
      assert forall j :: i < j < |init| ==> init[j] == es[j];
      ApplyEventsLastTitle(s, init, i);
    }
  }

  /** The shared event state the emulator's listener writes into. */
  class EventState {
    var title: Option<string>
    var bell: bool
    var ptyWrites: seq<string>

    constructor()
      ensures Snapshot() == NO_EVENTS
    {
      title, bell, ptyWrites := None, false, [];
    }

    function Snapshot(): EventSnapshot
      reads this
    {
      EventSnapshot(title, bell, ptyWrites)
    }

    /** `EventProxy::send_event`: each event has its single effect. */
    method SendEvent(e: TermEvent)
      modifies this
      ensures Snapshot() == ApplyEvent(old(Snapshot()), e)
      ensures e.TitleEvent? ==> title == Some(e.title)
      ensures e.ResetTitle? ==> title == None
      ensures e.BellEvent? ==> bell
      ensures e.PtyWrite? ==> ptyWrites == old(ptyWrites) + [e.data]
      ensures e.OtherEvent? ==> Snapshot() == old(Snapshot())
    {
      match e
      case TitleEvent(t) => title := Some(t);
      case ResetTitle => title := None;
      case BellEvent => bell := true;
      case PtyWrite(d) => ptyWrites := ptyWrites + [d];
      case OtherEvent(_) =>
    }
  }

  // ---------------------------------------------------------------------
  // The emulator as an oracle

  /** The emulator's report of one damaged line. */
  datatype LineDamage = LineDamage(line: nat, left: nat, right: nat)

  datatype EmuDamage = EmuFull | EmuPartial(lines: seq<LineDamage>)

  /** The emulator's state: visible grid, cursor, damage, the configured
      history size and its remaining private state (parser and bookkeeping). */
  datatype Emu = Emu(grid: Grid, cursorLine: int, cursorColumn: int, cursorShape: AlacCursorShape,
                     damage: EmuDamage, historyLimit: nat, internal: nat)

  /** `TermSize`: the dimensions handed to the emulator, with no history lines. */
  datatype TermSize = TermSize(columns: nat, screenLines: nat) {
    function TotalLines(): nat { screenLines }
  }

  function SizeFor(cols: u16, rows: u16): (size: TermSize)
    ensures size.columns == cols && size.screenLines == rows && size.TotalLines() == rows
  {
    TermSize(cols, rows)
  }

  /** What feeding bytes to the emulator produced: its new state and the events it sent. */
  datatype Advance = Advance(after: Emu, events: seq<TermEvent>)

  /** The emulator library's behaviour: parsing bytes, resizing, and the
      bookkeeping it does when asked for damage. */
  datatype Engine = Engine(advance: (Emu, seq<u8>) -> Advance, resize: (Emu, TermSize) -> Emu, damage: Emu -> Emu)

  const SCROLLBACK_LINES: nat := 10000

  /** A new emulator of the given size: blank cells, cursor home, fully damaged. */
  function FreshEmu(size: TermSize): (e: Emu)
    ensures e.grid.columns as nat == size.columns % 0x1_0000 && e.grid.screenLines as nat == size.screenLines % 0x1_0000
  {
    Emu(BlankGrid(size.columns % 0x1_0000, size.screenLines % 0x1_0000), 0, 0, AlacBlock, EmuFull, SCROLLBACK_LINES, 0)
  }

  /** The emulator after parsing `bytes`; parsing never changes the dimensions. */
  function AfterWrite(engine: Engine, e: Emu, bytes: seq<u8>): (r: Emu)
    ensures r.grid.columns == e.grid.columns && r.grid.screenLines == e.grid.screenLines
  {
    var a := engine.advance(e, bytes).after;
    a.(grid := a.grid.(columns := e.grid.columns, screenLines := e.grid.screenLines))
  }

  /** The emulator after a resize: its dimensions are the ones of the size. */
  function AfterResize(engine: Engine, e: Emu, size: TermSize): (r: Emu)
    ensures r.grid.columns as nat == size.columns % 0x1_0000 && r.grid.screenLines as nat == size.screenLines % 0x1_0000
  {
    var a := engine.resize(e, size);
    a.(grid := a.grid.(columns := size.columns % 0x1_0000, screenLines := size.screenLines % 0x1_0000))
  }

  /** The emulator after `damage()`: only its damage and private state change. */
  function AfterDamageQuery(engine: Engine, e: Emu): (r: Emu)
    ensures r.grid == e.grid && r.cursorLine == e.cursorLine && r.cursorColumn == e.cursorColumn
    ensures r.cursorShape == e.cursorShape && r.historyLimit == e.historyLimit
  {
    var a := engine.damage(e);
    e.(damage := a.damage, internal := a.internal)
  }

  /** `as u16` on a line or column number: the low 16 bits. */
  function Trunc16(x: int): (r: u16)
    ensures 0 <= x < 0x1_0000 ==> r == x
  {
    x % 0x1_0000
  }

  function ToDamagedRow(d: LineDamage): DamagedRow {
    DamagedRow(Trunc16(d.line), Trunc16(d.left), Trunc16(d.right))
  }

  function DamagedRows(lines: seq<LineDamage>): (r: seq<DamagedRow>)
    ensures |r| == |lines|
    ensures forall i :: 0 <= i < |lines| ==> r[i] == ToDamagedRow(lines[i])
  {
    if lines == [] then [] else [ToDamagedRow(lines[0])] + DamagedRows(lines[1..])
  }

  /** `damage()`'s translation: full stays full, and each damaged line becomes a
      row with the same line, left and right (kept in order; read as 16-bit). */
  function DamageInfoOf(d: EmuDamage): (r: DamageInfo)
    ensures r.Full? <==> d.EmuFull?
    ensures d.EmuPartial? ==> r.Partial? && |r.rows| == |d.lines|
    ensures d.EmuPartial? ==> forall i :: 0 <= i < |d.lines| && d.lines[i].line < 0x1_0000 ==> r.rows[i].row == d.lines[i].line
    ensures d.EmuPartial? ==> forall i :: 0 <= i < |d.lines| && d.lines[i].left < 0x1_0000 && d.lines[i].right < 0x1_0000 ==>
              r.rows[i].left == d.lines[i].left && r.rows[i].right == d.lines[i].right
  {
    match d
    case EmuFull => Full
    case EmuPartial(lines) => Partial(DamagedRows(lines))
  }

  // ---------------------------------------------------------------------
  // The terminal

  class VtTerminal {
    const engine: Engine
    const proxy: EventState
    var emu: Emu
    var cachedTitle: Option<string>

    /** `VtTerminal::new`: an emulator of size cols x rows with a 10 000-line
        history, an empty event state and no cached title. */
    constructor(cols: u16, rows: u16, engine: Engine)
      ensures this.engine == engine && fresh(proxy)
      ensures emu == FreshEmu(SizeFor(cols, rows)) && cachedTitle == None
      ensures Cols(Screen()) == cols && Rows(Screen()) == rows && emu.damage == EmuFull
      ensures emu.historyLimit == SCROLLBACK_LINES
      ensures proxy.Snapshot() == NO_EVENTS
    {
      this.engine := engine;
      emu := FreshEmu(SizeFor(cols, rows));
      proxy := new EventState();
      cachedTitle := None;
    }

    /** `screen()`: the read-only view of the grid. */
    function Screen(): Grid
      reads this
    {
      emu.grid
    }

    /** `write`: the emulator parses the bytes and every event it sends goes to the event state, in order. */
    method Write(bytes: seq<u8>)
      modifies this, proxy
      ensures emu == AfterWrite(engine, old(emu), bytes)
      ensures proxy.Snapshot() == ApplyEvents(old(proxy.Snapshot()), engine.advance(old(emu), bytes).events)
      ensures cachedTitle == old(cachedTitle)
    {
      var step := engine.advance(emu, bytes);
      emu := AfterWrite(engine, emu, bytes);
      var i := 0;
      while i < |step.events|
        invariant 0 <= i <= |step.events|
        invariant proxy.Snapshot() == ApplyEvents(old(proxy.Snapshot()), step.events[..i])
        invariant emu == AfterWrite(engine, old(emu), bytes) && cachedTitle == old(cachedTitle)
      {
        proxy.SendEvent(step.events[i]);
        assert step.events[..i + 1][..i] == step.events[..i];
        i := i + 1;
      }
      assert step.events[..i] == step.events;
    }

    /** `resize`: the emulator takes the size (columns = cols, lines = rows). */
    method Resize(cols: u16, rows: u16)
      modifies this
      ensures emu == AfterResize(engine, old(emu), SizeFor(cols, rows))
      ensures Cols(Screen()) == cols && Rows(Screen()) == rows
      ensures cachedTitle == old(cachedTitle)
    {
      emu := AfterResize(engine, emu, SizeFor(cols, rows));
    }

    /** `cursor()`: the cursor is visible exactly when its converted shape is not hidden. */
    function Cursor(): (c: CursorState)
      reads this
      ensures c.visible <==> c.shape != HiddenShape
      ensures c.shape == ConvertCursorShape(emu.cursorShape)
      ensures 0 <= emu.cursorLine < 0x1_0000 && 0 <= emu.cursorColumn < 0x1_0000 ==>
                c.row == emu.cursorLine && c.col == emu.cursorColumn
    {
      ConvertCursorShapeCases(emu.cursorShape);
      CursorState(Trunc16(emu.cursorLine), Trunc16(emu.cursorColumn),
                  ConvertCursorShape(emu.cursorShape), emu.cursorShape != AlacHidden)
    }

    /** `sync_title`: copy the event state's title into the cache. */
    method SyncTitle()
      modifies this
      ensures cachedTitle == proxy.title && emu == old(emu)
    {
      cachedTitle := proxy.title;
    }

    /** `title()`: sync, then return the cache, which is then the same as `title_owned()`. */
    method Title() returns (t: Option<string>)
      modifies this
      ensures t == TitleOwned() && cachedTitle == t && emu == old(emu)
    {
      SyncTitle();
      t := cachedTitle;
    }

    /** `title_owned()`: the event state's title. */
    function TitleOwned(): Option<string>
      reads proxy
    {
      proxy.title
    }

    /** `damage()`: the emulator's damage after its own bookkeeping, translated. */
    method Damage() returns (d: DamageInfo)
      modifies this
      ensures emu == AfterDamageQuery(engine, old(emu))
      ensures d == DamageInfoOf(emu.damage)
      ensures cachedTitle == old(cachedTitle)
    {
      emu := AfterDamageQuery(engine, emu);
      d := DamageInfoOf(emu.damage);
    }

    /** `reset_damage()`: no line is damaged any more. */
    method ResetDamage()
      modifies this
      ensures emu == old(emu).(damage := EmuPartial([]))
      ensures cachedTitle == old(cachedTitle)
    {
      emu := emu.(damage := EmuPartial([]));
    }

    /** `take_pty_writes()`: the pending write-backs in arrival order; none remain. */
    method TakePtyWrites() returns (writes: seq<string>)
      modifies proxy
      ensures writes == old(proxy.ptyWrites) && proxy.ptyWrites == []
      ensures proxy.title == old(proxy.title) && proxy.bell == old(proxy.bell)
    {
      writes := proxy.ptyWrites;
      proxy.ptyWrites := [];
    }

    /** `has_bell()`: whether the bell rang since the last call; the flag is cleared,
        so a second call with no event in between returns false. */
    method HasBell() returns (rang: bool)
      modifies proxy
      ensures rang == old(proxy.bell) && !proxy.bell
      ensures proxy.title == old(proxy.title) && proxy.ptyWrites == old(proxy.ptyWrites)
    {
      rang := proxy.bell;
      proxy.bell := false;
    }
  }
}
