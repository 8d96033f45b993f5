/// One tick of a session's render pump (crates/phantom-app/src/render_pump.rs):
/// `extract_events` decides which events the frontend gets; the send loop
/// delivers them and stops the pump after an `Exited` event.
module RenderPump {
  import opened Wrappers
  import opened Text
  import opened Cell
  import opened Screen
  import opened Vt
  import opened Session
  import opened State
  import opened Ipc

  // ---------------------------------------------------------------------
  // Full frames

  /** The encoded rows `0 .. n - 1` of the screen, concatenated. */
  function FrameCellsUpTo(g: Grid, n: nat): (cells: seq<u8>)
    requires n <= Rows(g)
    ensures |cells| == n * (Cols(g) * CELL_BYTES)
  {
    if n == 0 then [] else FrameCellsUpTo(g, n - 1) + RowRecord(g, n - 1)
  }

  /** The cells of a full frame: every row of the screen, top to bottom. */
  function FrameCells(g: Grid): (cells: seq<u8>)
    ensures |cells| == Rows(g) * (Cols(g) * CELL_BYTES)
  {
    FrameCellsUpTo(g, Rows(g))
  }

  /** Encoding more rows only extends the encoding of fewer. */
  lemma {:induction false} FrameCellsUpToPrefix(g: Grid, m: nat, n: nat)
    requires m <= n <= Rows(g)
    ensures FrameCellsUpTo(g, m) <= FrameCellsUpTo(g, n)
    decreases n
  {
    if m < n {
      FrameCellsUpToPrefix(g, m, n - 1);
    }
  }

  /** A full frame has `cols * rows * 16` bytes. */
  lemma FrameCellsSize(g: Grid)
    ensures |FrameCells(g)| == Cols(g) * Rows(g) * CELL_BYTES
  {
    MulRearrange(Cols(g), Rows(g), CELL_BYTES);
  }

  /** After the encoded rows `0 .. r - 1` a full frame continues with the
      encoded row `r`. */
  lemma FrameCellsRows(g: Grid)
    ensures forall r :: 0 <= r < Rows(g) ==> FrameCellsUpTo(g, r) + RowRecord(g, r) <= FrameCells(g)
  {
    forall r | 0 <= r < Rows(g)
      ensures FrameCellsUpTo(g, r) + RowRecord(g, r) <= FrameCells(g)
    {
      FrameCellsUpToPrefix(g, r + 1, Rows(g));
    }
  }

  /** Rearranging a product of three factors. */
  lemma MulRearrange(w: int, h: int, k: int)
    ensures h * (w * k) == w * h * k
  {
    assert h * (w * k) == (h * w) * k;
    assert h * w == w * h;
  }

  /** Encode every row of the screen, top to bottom. */
  method EncodeFrame(g: Grid) returns (cells: seq<u8>)
    ensures cells == FrameCells(g)
  {
    cells := [];
    var row := 0;
    while row < Rows(g)
      invariant 0 <= row <= Rows(g)
      invariant cells == FrameCellsUpTo(g, row)
    {
      var data := EncodeRow(g, row);
      cells := cells + data;
      row := row + 1;
    }
  }

  // ---------------------------------------------------------------------
  // Dirty rows

  /** The row indices of a damage list, in order. */
  function RowsOf(damaged: seq<DamagedRow>): (rows: seq<u16>)
    ensures |rows| == |damaged| && forall i :: 0 <= i < |damaged| ==> rows[i] == damaged[i].row
  {
    seq(|damaged|, i requires 0 <= i < |damaged| => damaged[i].row)
  }

  /** Each value of `xs` once, in the order of its first occurrence. */
  function FirstOccurrences(xs: seq<u16>): (d: seq<u16>)
    ensures forall x :: x in d <==> x in xs
    ensures |d| <= |xs|
  {
    if xs == [] then []
    else
      var init := FirstOccurrences(xs[..|xs| - 1]);
      var last := xs[|xs| - 1];
      assert forall x :: x in xs <==> x in xs[..|xs| - 1] || x == last;
      if last in init then init else init + [last]
  }

  /** The position of the first occurrence of `x` in `xs`. */
  function FirstIndex(xs: seq<u16>, x: u16): (i: nat)
    requires x in xs
    ensures i < |xs| && xs[i] == x && forall j :: 0 <= j < i ==> xs[j] != x
  {
    if xs[0] == x then 0 else 1 + FirstIndex(xs[1..], x)
  }

  /** The first occurrence of `x` in `xs + ys` lies in `xs` when `x` does. */
  lemma FirstIndexAppend(xs: seq<u16>, ys: seq<u16>, x: u16)
    requires x in xs
    ensures FirstIndex(xs + ys, x) == FirstIndex(xs, x)
  {
    var i := FirstIndex(xs, x);
    var k := FirstIndex(xs + ys, x);
    assert (xs + ys)[i] == x;
    assert k <= i;
    assert xs[k] == (xs + ys)[k];
  }

  /** The deduplicated rows are ordered by first occurrence. */
  lemma {:induction false} FirstOccurrencesOrder(xs: seq<u16>)
    ensures var d := FirstOccurrences(xs);
            forall i, j :: 0 <= i < j < |d| ==> FirstIndex(xs, d[i]) < FirstIndex(xs, d[j])
  {
    if xs != [] {
      var init := xs[..|xs| - 1];
      var last := xs[|xs| - 1];
      assert xs == init + [last];
      FirstOccurrencesOrder(init);
      var d0 := FirstOccurrences(init);
      var d := FirstOccurrences(xs);
      forall i, j | 0 <= i < j < |d|
        ensures FirstIndex(xs, d[i]) < FirstIndex(xs, d[j])
      {
        OldFirstIndex(init, last, d0[i]);
        if j < |d0| {
          OldFirstIndex(init, last, d0[j]);
        } else {
          FirstIndexOfNew(init, last);
        }
      }
    }
  }

  /** A value already deduplicated from `xs` keeps its first index in `xs + [x]`. */
  lemma OldFirstIndex(xs: seq<u16>, x: u16, y: u16)
    requires y in FirstOccurrences(xs)
    ensures FirstIndex(xs + [x], y) == FirstIndex(xs, y) < |xs|
  {
    FirstIndexAppend(xs, [x], y);
  }

  /** A value new to `xs` first occurs at the end of `xs + [x]`. */
  lemma FirstIndexOfNew(xs: seq<u16>, x: u16)
    requires x !in xs
    ensures FirstIndex(xs + [x], x) == |xs|
  {
  }

  /** Distinct values ordered by first occurrence are distinct. */
  lemma FirstOccurrencesDistinct(xs: seq<u16>)
    ensures var d := FirstOccurrences(xs);
            forall i, j :: 0 <= i < j < |d| ==> d[i] != d[j]
  {
    FirstOccurrencesOrder(xs);
  }

  /** One dirty row per entry of `rows`, carrying that screen row's encoding. */
  function DirtyRowsFor(g: Grid, rows: seq<u16>): (dirty: seq<DirtyRow>)
    ensures |dirty| == |rows|
    ensures forall i :: 0 <= i < |rows| ==> dirty[i] == DirtyRow(rows[i], RowRecord(g, rows[i]))
  {
    seq(|rows|, i requires 0 <= i < |rows| => DirtyRow(rows[i], RowRecord(g, rows[i])))
  }

  lemma FirstOccurrencesStep(xs: seq<u16>, i: nat)
    requires i < |xs|
    ensures FirstOccurrences(xs[..i + 1]) ==
              if xs[i] in xs[..i] then FirstOccurrences(xs[..i]) else FirstOccurrences(xs[..i]) + [xs[i]]
    ensures forall x :: x in xs[..i + 1] <==> x in xs[..i] || x == xs[i]
  {
    assert xs[..i + 1][..i] == xs[..i];
    assert xs[..i + 1] == xs[..i] + [xs[i]];
  }

  lemma DirtyRowsForSnoc(g: Grid, rows: seq<u16>, r: u16)
    ensures DirtyRowsFor(g, rows + [r]) == DirtyRowsFor(g, rows) + [DirtyRow(r, RowRecord(g, r))]
  {
  }

  /** The dirty rows of a damage list: each damaged row once, in first-occurrence order. */
  method CollectDirtyRows(g: Grid, damaged: seq<DamagedRow>) returns (dirty: seq<DirtyRow>)
    ensures dirty == DirtyRowsFor(g, FirstOccurrences(RowsOf(damaged)))
  {
    ghost var rows := RowsOf(damaged);
    var seen: set<u16> := {};
    dirty := [];
    var i := 0;
    while i < |damaged|
      invariant 0 <= i <= |damaged|
      invariant dirty == DirtyRowsFor(g, FirstOccurrences(rows[..i]))
      invariant forall x :: x in seen <==> x in rows[..i]
    {
      var row := damaged[i].row;
      FirstOccurrencesStep(rows, i);
      if row !in seen {
        var data := EncodeRow(g, row);
        DirtyRowsForSnoc(g, FirstOccurrences(rows[..i]), row);
        dirty := dirty + [DirtyRow(row, data)];
        seen := seen + {row};
      }
      i := i + 1;
    }
    assert rows[..i] == rows;
  }

  // ---------------------------------------------------------------------
  // The decision

  /** The frame event of a tick: a full frame when one is due or the damage is
      full, the dirty rows when some row is damaged, otherwise none. */
  function FrameEvents(fullDue: bool, damage: DamageInfo, g: Grid, c: CursorState): seq<TerminalEvent> {
    var shape := CursorShapeStr(c.shape);
    if fullDue || damage.Full? then [FullFrame(Cols(g), Rows(g), FrameCells(g), c.row, c.col, shape, c.visible)]
    else if damage.rows != [] then [DirtyRows(DirtyRowsFor(g, FirstOccurrences(RowsOf(damage.rows))), c.row, c.col, shape, c.visible)]
    else []
  }

  /** The title event of a tick: the current title when it differs from the
      one last reported and is set. */
  function TitleEvents(current: Option<string>, last: Option<string>): seq<TerminalEvent> {
    if current != last && current.Some? then [TitleChanged(current.value)] else []
  }

  /** At most one frame event, and it is a full frame exactly when one is due or
      the damage is full; a full frame carries the screen's size and every row. */
  lemma FrameEventsCases(fullDue: bool, damage: DamageInfo, g: Grid, c: CursorState)
    ensures var es := FrameEvents(fullDue, damage, g, c);
            && |es| <= 1
            && (fullDue || damage.Full? <==> |es| == 1 && es[0].FullFrame?)
            && (|es| == 1 && es[0].FullFrame? ==>
                  es[0].cols == Cols(g) && es[0].rows == Rows(g)
                  && |es[0].cells| == Cols(g) * Rows(g) * CELL_BYTES)
            && (!fullDue && damage.Partial? ==> (|es| == 0 <==> damage.rows == []))
            && forall e :: e in es ==> e.cursorShape == CursorShapeStr(c.shape) && e.cursorVisible == c.visible
  {
    FrameCellsSize(g);
  }

  /** The dirty rows follow the order of first occurrence in `rows`. */
  lemma DirtyRowsOrder(g: Grid, rows: seq<u16>)
    ensures forall i, j :: 0 <= i < j < |FirstOccurrences(rows)| ==>
              FirstIndex(rows, DirtyRowsFor(g, FirstOccurrences(rows))[i].y)
              < FirstIndex(rows, DirtyRowsFor(g, FirstOccurrences(rows))[j].y)
  {
    var d := FirstOccurrences(rows);
    var dirty := DirtyRowsFor(g, d);
    FirstOccurrencesOrder(rows);
    forall i, j | 0 <= i < j < |dirty|
      ensures FirstIndex(rows, dirty[i].y) < FirstIndex(rows, dirty[j].y)
    {
      assert dirty[i].y == d[i] && dirty[j].y == d[j];
    }
  }

  /** A dirty-rows event lists each damaged row once, in first-occurrence
      order, with that row's encoding. */
  lemma DirtyRowsContents(damage: DamageInfo, g: Grid, c: CursorState)
    requires damage.Partial? && damage.rows != []
    ensures var es := FrameEvents(false, damage, g, c);
            var rows := RowsOf(damage.rows);
            && |es| == 1 && es[0].DirtyRows?
            && (forall y :: (exists k :: 0 <= k < |es[0].dirty| && es[0].dirty[k].y == y) <==> y in rows)
            && (forall i, j :: 0 <= i < j < |es[0].dirty| ==>
                  FirstIndex(rows, es[0].dirty[i].y) < FirstIndex(rows, es[0].dirty[j].y))
            && (forall k :: 0 <= k < |es[0].dirty| ==> es[0].dirty[k].cells == RowRecord(g, es[0].dirty[k].y))
  {
    var rows := RowsOf(damage.rows);
    var d := FirstOccurrences(rows);
    var es := FrameEvents(false, damage, g, c);
    assert forall k :: 0 <= k < |d| ==> es[0].dirty[k].y == d[k];
    var dirty := DirtyRowsFor(g, d);
    DirtyRowsOrder(g, rows);
    assert es[0].dirty == dirty;
    forall i, j | 0 <= i < j < |dirty|
      ensures FirstIndex(rows, es[0].dirty[i].y) < FirstIndex(rows, es[0].dirty[j].y)
    {
      assert FirstIndex(rows, dirty[i].y) < FirstIndex(rows, dirty[j].y);
    }
    forall y | y in rows
      ensures exists k :: 0 <= k < |es[0].dirty| && es[0].dirty[k].y == y
    {
      var k :| 0 <= k < |d| && d[k] == y;
      assert es[0].dirty[k].y == y;
    }
  }

  /** A title event is sent exactly when the title changed and is set. */
  lemma TitleEventsIff(current: Option<string>, last: Option<string>, t: string)
    ensures TitleChanged(t) in TitleEvents(current, last) <==> current != last && current == Some(t)
    ensures |TitleEvents(current, last)| <= 1
  {
  }

  /** The events of one tick, in order: frame, title, bell, exit. */
  function TickEvents(frame: seq<TerminalEvent>, title: seq<TerminalEvent>, bell: bool,
                      exited: Option<Option<u32>>): seq<TerminalEvent> {
    frame + title + (if bell then [Bell] else []) + (if exited.Some? then [Exited(exited.value)] else [])
  }

  /** In a tick's events `Exited` can only come last, and it comes exactly
      when the session has exited. */
  lemma ExitedIsLast(fullDue: bool, damage: DamageInfo, g: Grid, c: CursorState,
                     current: Option<string>, last: Option<string>, bell: bool, exited: Option<Option<u32>>)
    ensures var es := TickEvents(FrameEvents(fullDue, damage, g, c), TitleEvents(current, last), bell, exited);
            && (forall i :: 0 <= i < |es| && es[i].Exited? ==> i == |es| - 1)
            && (exited.Some? <==> es != [] && es[|es| - 1].Exited?)
            && (exited.Some? ==> es[|es| - 1] == Exited(exited.value))
  {
  }

  // ---------------------------------------------------------------------
  // `extract_events`

  /** The frame part of a tick: send a full frame when one is due or the
      damage is full, the dirty rows otherwise; the damage is always reset. */
  method FrameStep(ss: SessionState, c: CursorState) returns (frame: seq<TerminalEvent>)
    modifies ss, ss.session.vt
    ensures var vt := ss.session.vt;
            var queried := AfterDamageQuery(vt.engine, old(vt.emu));
            && frame == FrameEvents(old(ss.needsFullFrame), DamageInfoOf(queried.damage), old(vt.emu.grid), c)
            && vt.emu == queried.(damage := EmuPartial([]))
            && !ss.needsFullFrame && vt.cachedTitle == old(vt.cachedTitle)
    ensures ss.lastTitle == old(ss.lastTitle) && ss.hasPtyData == old(ss.hasPtyData)
  {
    var vt := ss.session.vt;
    var shape := CursorShapeStr(c.shape);
    if ss.needsFullFrame {
      var g := vt.Screen();
      var cells := EncodeFrame(g);
      var _ := vt.Damage();
      vt.ResetDamage();
      ss.needsFullFrame := false;
      frame := [FullFrame(Cols(g), Rows(g), cells, c.row, c.col, shape, c.visible)];
    } else {
      var damage := vt.Damage();
      var g := vt.Screen();
      if damage.Full? {
        var cells := EncodeFrame(g);
        vt.ResetDamage();
        frame := [FullFrame(Cols(g), Rows(g), cells, c.row, c.col, shape, c.visible)];
      } else if damage.rows != [] {
        var dirty := CollectDirtyRows(g, damage.rows);
        vt.ResetDamage();
        frame := [DirtyRows(dirty, c.row, c.col, shape, c.visible)];
      } else {
        vt.ResetDamage();
        frame := [];
      }
    }
  }

  /** The title part of a tick: report the session's title when it changed and
      is set; remember it whenever it changed, also when it became None. */
  method TitleStep(ss: SessionState) returns (title: seq<TerminalEvent>)
    modifies ss
    ensures title == TitleEvents(ss.session.title, old(ss.lastTitle))
    ensures ss.lastTitle == ss.session.title
    ensures ss.needsFullFrame == old(ss.needsFullFrame) && ss.hasPtyData == old(ss.hasPtyData)
  {
    var current := ss.session.title;
    title := [];
    if current != ss.lastTitle {
      if current.Some? {
        title := [TitleChanged(current.value)];
      }
      ss.lastTitle := current;
    }
  }

  /** The exit part of a tick: poll liveness and, once the session is not
      alive, report its exit code, which is then known. */
  method ExitStep(s: TerminalSession) returns (exited: Option<Option<u32>>)
    requires s.Valid()
    modifies s, s.pty
    ensures s.Valid()
    ensures s.alive == (old(s.alive) && s.pty.exitStatus.None?)
    ensures exited.Some? <==> !s.alive
    ensures exited.Some? ==> exited.value == s.exitCode && s.exitCode.Some?
    ensures s.title == old(s.title) && s.pty.exitStatus == old(s.pty.exitStatus)
    ensures s.pty.written == old(s.pty.written) && s.pty.readCount == old(s.pty.readCount)
  {
    var alive := s.IsAlive();
    if alive {
      return None;
    }
    var code := s.ExitCode();
    exited := Some(code);
  }

  /** `extract_events`: the events of one tick, in the order frame, title,
      bell, exit, together with the state they clear. The cursor is read
      before anything changes. */
  method ExtractEvents(ss: SessionState) returns (events: seq<TerminalEvent>)
    requires ss.session.Valid()
    modifies ss, ss.session, ss.session.vt, ss.session.vt.proxy, ss.session.pty
    ensures ss.session.Valid()
    ensures var s := ss.session;
            var queried := AfterDamageQuery(s.vt.engine, old(s.vt.emu));
            && events == TickEvents(
                 FrameEvents(old(ss.needsFullFrame), DamageInfoOf(queried.damage), old(s.vt.emu.grid), old(s.vt.Cursor())),
                 TitleEvents(old(s.title), old(ss.lastTitle)),
                 old(s.vt.proxy.bell),
                 if s.alive then None else Some(s.exitCode))
            && s.vt.emu == queried.(damage := EmuPartial([]))
    ensures !ss.needsFullFrame && ss.lastTitle == old(ss.session.title)
    ensures !ss.session.vt.proxy.bell
    ensures ss.session.vt.proxy.title == old(ss.session.vt.proxy.title)
    ensures ss.session.vt.proxy.ptyWrites == old(ss.session.vt.proxy.ptyWrites)
    ensures ss.session.alive == (old(ss.session.alive) && ss.session.pty.exitStatus.None?)
    ensures !ss.session.alive ==> ss.session.exitCode.Some?
  {
    var s := ss.session;
    var c := s.vt.Cursor();
    var frame := FrameStep(ss, c);
    var title := TitleStep(ss);
    var bell := s.vt.HasBell();
    var exited := ExitStep(s);
    events := TickEvents(frame, title, bell, exited);
  }

  // ---------------------------------------------------------------------
  // The send loop

  /** The frontend's end of the channel: every event delivered so far. */
  class Channel {
    var delivered: seq<TerminalEvent>

    constructor()
      ensures delivered == []
    {
      delivered := [];
    }
  }

  /** The events up to and including the first `Exited`; all of them if none is. */
  function UntilExited(events: seq<TerminalEvent>): (r: seq<TerminalEvent>)
    ensures |r| <= |events|
  {
    if events == [] then []
    else if events[0].Exited? then [events[0]]
    else [events[0]] + UntilExited(events[1..])
  }

  /** What is sent is a prefix of the events in which only the last may be
      `Exited`, and it is cut short only at an `Exited`. */
  lemma {:induction false} UntilExitedPrefix(events: seq<TerminalEvent>)
    ensures var r := UntilExited(events);
            && r <= events
            && (forall i :: 0 <= i < |r| - 1 ==> !r[i].Exited?)
            && (r != events ==> r != [] && r[|r| - 1].Exited?)
  {
    if events != [] && !events[0].Exited? {
      var rest := events[1..];
      UntilExitedPrefix(rest);
      assert events == [events[0]] + rest;
    }
  }

  /** Everything is sent exactly when no event is `Exited`. */
  lemma {:induction false} UntilExitedAll(events: seq<TerminalEvent>)
    ensures (forall i :: 0 <= i < |events| ==> !events[i].Exited?) <==>
            UntilExited(events) == events && (events == [] || !events[|events| - 1].Exited?)
  {
    if events != [] && !events[0].Exited? {
      var rest := events[1..];
      UntilExitedAll(rest);
      assert events == [events[0]] + rest;
      assert forall i :: 0 <= i < |rest| ==> rest[i] == events[i + 1];
      assert rest != [] ==> rest[|rest| - 1] == events[|events| - 1];
    }
  }

  /** Without an `Exited` among the first `i` events, those are all sent. */
  lemma {:induction false} UntilExitedSkip(events: seq<TerminalEvent>, i: nat)
    requires i <= |events| && forall j :: 0 <= j < i ==> !events[j].Exited?
    ensures UntilExited(events) == events[..i] + UntilExited(events[i..])
  {
    if i > 0 {
      assert events[1..][..i - 1] == events[1..i];
      UntilExitedSkip(events[1..], i - 1);
      assert events[1..][i - 1..] == events[i..];
      assert events[..i] == [events[0]] + events[1..i];
    }
  }

  /** Send the events of a tick in order, ignoring delivery errors; after an
      `Exited` event nothing more is sent and the pump stops. */
  method SendEvents(channel: Channel, events: seq<TerminalEvent>) returns (stop: bool)
    modifies channel
    ensures channel.delivered == old(channel.delivered) + UntilExited(events)
    ensures stop <==> exists i :: 0 <= i < |events| && events[i].Exited?
  {
    var i := 0;
    while i < |events|
      invariant 0 <= i <= |events|
      invariant forall j :: 0 <= j < i ==> !events[j].Exited?
      invariant channel.delivered == old(channel.delivered) + events[..i]
    {
      var event := events[i];
      channel.delivered := channel.delivered + [event];
      assert events[..i + 1] == events[..i] + [event];
      if event.Exited? {
        UntilExitedSkip(events, i);
        return true;
      }
      i := i + 1;
    }
    assert events[..i] == events;
    UntilExitedSkip(events, i);
    stop := false;
  }
}
