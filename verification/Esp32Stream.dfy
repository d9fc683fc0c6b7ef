/** From the bytes the ESP32 receives to the commands it carries out. */
module Esp32Stream {
  import opened Prelude
  import opened ArmedSession
  import opened Esp32
  import opened Esp32Device
  import opened LineAssembly
  import opened Lines

  const LINE_ROOM: nat := LINE_MAX - 1

  /** What happens around the loop: time passes, a level changes, no byte is waiting, a byte is. */
  datatype Input = Passes(ms: nat) | Changes(pin: nat, level: bool) | Idle | Byte(c: char)

  function Bytes(inputs: seq<Input>): string {
    if inputs == [] then ""
    else
      var last := inputs[|inputs| - 1];
      Bytes(inputs[..|inputs| - 1]) + if last.Byte? then [last.c] else ""
  }

  function InputEvents(a: Assembler, input: Input, read: string -> Option<Command>): seq<Event> {
    match input
    case Passes(ms) => [Tick(ms)]
    case Changes(pin, level) => [External(pin, level)]
    case Idle => [Poll, Pulses]
    case Byte(c) => ByteEvents(a, c, read)
  }

  /** The steps the loop takes on what happens around it. */
  function LoopEvents(inputs: seq<Input>, read: string -> Option<Command>): seq<Event> {
    if inputs == [] then []
    else
      var init := inputs[..|inputs| - 1];
      LoopEvents(init, read) + InputEvents(EspBytes(Bytes(init), LINE_ROOM), inputs[|inputs| - 1], read)
  }

  function Commands(es: seq<Event>): seq<Command> {
    if es == [] then []
    else Commands(es[..|es| - 1]) + if es[|es| - 1].Cmd? then [es[|es| - 1].c] else []
  }

  lemma {:induction false} CommandsAppend(es: seq<Event>, fs: seq<Event>)
    ensures Commands(es + fs) == Commands(es) + Commands(fs)
    decreases |fs|
  {
    if fs == [] {
      assert es + fs == es;
    } else {
      CommandsAppend(es, fs[..|fs| - 1]);
      assert (es + fs)[..|es + fs| - 1] == es + fs[..|fs| - 1];
    }
  }

  lemma {:induction false} CommandsOfOne(e: Event)
    ensures Commands([e]) == if e.Cmd? then [e.c] else []
  {
    assert [e][..0] == [];
  }

  lemma {:induction false} CommandsOfTwo(e: Event, f: Event)
    ensures Commands([e, f]) == Commands([e]) + Commands([f])
  {
    CommandsAppend([e], [f]);
    assert [e] + [f] == [e, f];
  }

  /** A byte carries out the command of the line it ends, if it ends one. */
  lemma {:induction false} ByteCommands(a: Assembler, c: char, read: string -> Option<Command>)
    ensures Commands(ByteEvents(a, c, read)) ==
            if c == '\n' && !a.overflow && read(a.kept).Some? then [read(a.kept).value] else []
  {
    CommandsOfOne(Poll);
    CommandsOfTwo(Poll, Poll);
    if c == '\n' && !a.overflow && read(a.kept).Some? {
      var command := Cmd(read(a.kept).value);
      CommandsOfOne(command);
      CommandsOfTwo(Poll, command);
      CommandsAppend([Poll, command], [Poll]);
      assert [Poll, command] + [Poll] == [Poll, command, Poll];
    }
  }

  lemma {:induction false} ByteReads(a: Assembler, c: char, read: string -> Option<Command>)
    ensures ReadAll(EspByte(a, c, LINE_ROOM).dispatched, read) ==
            ReadAll(a.dispatched, read) + Commands(ByteEvents(a, c, read))
  {
    ByteCommands(a, c, read);
    var d := EspByte(a, c, LINE_ROOM).dispatched;
    if c == '\n' && !a.overflow {
      assert d[..|d| - 1] == a.dispatched;
    }
    assert ReadAll(a.dispatched, read) + [] == ReadAll(a.dispatched, read);
  }

  lemma {:induction false} InputReads(stream: string, input: Input, read: string -> Option<Command>)
    ensures ReadAll(EspBytes(stream + if input.Byte? then [input.c] else "", LINE_ROOM).dispatched, read) ==
            ReadAll(EspBytes(stream, LINE_ROOM).dispatched, read) +
            Commands(InputEvents(EspBytes(stream, LINE_ROOM), input, read))
  {
    var before := ReadAll(EspBytes(stream, LINE_ROOM).dispatched, read);
    if input.Byte? {
      assert (stream + [input.c])[..|stream|] == stream;
      ByteReads(EspBytes(stream, LINE_ROOM), input.c, read);
    } else {
      assert stream + "" == stream && before + [] == before;
      match input
      case Passes(ms) => CommandsOfOne(Tick(ms));
      case Changes(pin, level) => CommandsOfOne(External(pin, level));
      case Idle =>
        CommandsOfOne(Poll);
        CommandsOfOne(Pulses);
        CommandsOfTwo(Poll, Pulses);
    }
  }

  lemma {:induction false} LoopReads(inputs: seq<Input>, read: string -> Option<Command>)
    ensures Commands(LoopEvents(inputs, read)) == ReadAll(EspBytes(Bytes(inputs), LINE_ROOM).dispatched, read)
  {
    if inputs != [] {
      var init, last := inputs[..|inputs| - 1], inputs[|inputs| - 1];
      LoopReads(init, read);
      InputReads(Bytes(init), last, read);
      CommandsAppend(LoopEvents(init, read), InputEvents(EspBytes(Bytes(init), LINE_ROOM), last, read));
    }
  }

  /**
   Whatever the timing, the commands carried out are those on the stream's lines in which no
   byte follows the 1023rd kept one.
   */
  lemma {:induction false} CommandsAreTheFittingLines(inputs: seq<Input>, read: string -> Option<Command>)
    ensures Commands(LoopEvents(inputs, read)) == ReadAll(EspLines(RawLines(Bytes(inputs)), LINE_ROOM), read)
  {
    LoopReads(inputs, read);
    EspRefinesSplit(Bytes(inputs), LINE_ROOM);
  }

  // ---- The object does what its loop events say ----

  lemma {:induction false} RunAppend(b: Board, s: State, es: seq<Event>, fs: seq<Event>)
    requires ValidBoard(b) && Sized(b, s)
    ensures Run(b, s, es + fs) == Run(b, Run(b, s, es), fs)
    decreases |fs|
  {
    if fs == [] {
      assert es + fs == es;
    } else {
      RunAppend(b, s, es, fs[..|fs| - 1]);
      assert (es + fs)[..|es + fs| - 1] == es + fs[..|fs| - 1];
    }
  }

  /** The assembler after one input. */
  function Assembled(a: Assembler, input: Input): Assembler {
    if input.Byte? then EspByte(a, input.c, LINE_ROOM) else a
  }

  /** One input: time, a level, a turn of the loop without a byte, or one with a byte. */
  method Turn(d: Device, input: Input, read: string -> Option<Command>, ghost a: Assembler)
    requires d.Valid() && d.Assembles(a)
    modifies d, d.configs, d.pulses, d.pins, d.activeOutputs, d.activePwmPins, d.duties, d.lineBuffer
    ensures d.Valid() && d.Assembles(Assembled(a, input))
    ensures d.View() == Run(d.board, old(d.View()), InputEvents(a, input, read))
  {
    ghost var s := d.View();
    match input
    case Passes(ms) =>
      RunOne(d.board, s, Tick(ms));
      d.Wait(ms);
    case Changes(pin, level) =>
      RunOne(d.board, s, External(pin, level));
      d.LevelChanges(pin, level);
    case Idle =>
      RunTwo(d.board, s, Poll, Pulses);
      d.CheckDeadline();
      d.PollPulseTable();
    case Byte(c) =>
      d.OnByte(c, read, a);
  }

  /** The loop over all that happens: the object's state is that of the run, its line buffer that of the stream. */
  method Serve(d: Device, inputs: seq<Input>, read: string -> Option<Command>)
    requires d.Valid() && d.Assembles(EMPTY)
    modifies d, d.configs, d.pulses, d.pins, d.activeOutputs, d.activePwmPins, d.duties, d.lineBuffer
    ensures d.Valid() && d.Assembles(EspBytes(Bytes(inputs), LINE_ROOM))
    ensures d.View() == Run(d.board, old(d.View()), LoopEvents(inputs, read))
  {
    ghost var start := d.View();
    for i := 0 to |inputs|
      invariant d.Valid() && d.Assembles(EspBytes(Bytes(inputs[..i]), LINE_ROOM))
      invariant d.View() == Run(d.board, start, LoopEvents(inputs[..i], read))
    {
      OneMore(d.board, start, inputs, i, read);
      Turn(d, inputs[i], read, EspBytes(Bytes(inputs[..i]), LINE_ROOM));
    }
    assert inputs[..|inputs|] == inputs;
  }

  lemma {:induction false} OneMore(b: Board, s: State, inputs: seq<Input>, i: nat, read: string -> Option<Command>)
    requires ValidBoard(b) && Sized(b, s) && i < |inputs|
    ensures var a := EspBytes(Bytes(inputs[..i]), LINE_ROOM);
            && EspBytes(Bytes(inputs[..i + 1]), LINE_ROOM) == Assembled(a, inputs[i])
            && Run(b, s, LoopEvents(inputs[..i + 1], read)) ==
               Run(b, Run(b, s, LoopEvents(inputs[..i], read)), InputEvents(a, inputs[i], read))
  {
    var init, input := inputs[..i], inputs[i];
    var a := EspBytes(Bytes(init), LINE_ROOM);
    assert inputs[..i + 1][..i] == init;
    RunAppend(b, s, LoopEvents(init, read), InputEvents(a, input, read));
    if input.Byte? {
      assert (Bytes(init) + [input.c])[..|Bytes(init)|] == Bytes(init);
    } else {
      assert Bytes(init) + "" == Bytes(init);
    }
  }
}
