/** The reader behind downloads: a child process `ipfs cat` that is started lazily
    and stands in for a seekable file. */
module IpfsReader {
  import opened Prelude

  type byte = b: int | 0 <= b < 256

  datatype Whence = FromStart | FromCurrent | FromEnd | OtherWhence

  datatype Call = Seek(delta: int, whence: Whence) | Read(max: nat, chunk: nat) | Close

  /** A refused seek still reports the offset. */
  datatype Answer = Position(at: int) | Data(bytes: seq<byte>) | EndOfFile | Closed | Refused(at: int)

  /** Which of the operating system's answers during one call are errors. */
  datatype Faults = Faults(close: bool, wait: bool, stdout: bool, start: bool, read: bool)

  const CALM := Faults(false, false, false, false, false)

  datatype Event = Created(pid: nat) | StdoutFailed(pid: nat) | StartFailed(pid: nat)
                 | WaitFailed(pid: nat) | Reaped(pid: nat) | Dropped(pid: nat)

  /** An open pipe: how far its process has been read, and whether it was started. */
  datatype Pipe = Pipe(at: nat, live: bool)

  datatype State = State(offset: int, cmd: Option<nat>, pipe: Option<Pipe>, spawned: nat)

  const FRESH := State(0, None, None, 0)

  function Max(a: int, b: int): int {
    if a < b then b else a
  }

  /** `--offset` is passed only when it is positive. */
  function OpenAt(offset: int): nat {
    Max(0, offset)
  }

  /** One read of at most `max` bytes of a stream; the system chooses how many. */
  function Slice(content: seq<byte>, at: nat, max: nat, chunk: nat): (bytes: seq<byte>)
    ensures |bytes| <= max && at + |bytes| <= Max(at, |content|)
    ensures at <= |content| ==> bytes == content[at..at + |bytes|]
    ensures max > 0 && at < |content| ==> bytes != []
  {
    if at >= |content| || max == 0 then []
    else
      var n := if chunk == 0 then 1 else chunk;
      var upTo := if n < max then n else max;
      content[at..if upTo < |content| - at then at + upTo else |content|]
  }

  function ClosePipe(s: State, f: Faults): (State, bool, seq<Event>) {
    if s.pipe.Some? && f.close then (s, false, [])
    else
      var t := s.(pipe := None);
      match s.cmd
      case None => (t, true, [])
      case Some(pid) => if f.wait then (t, false, [WaitFailed(pid)]) else (t.(cmd := None), true, [Reaped(pid)])
  }

  function Open(s: State, f: Faults): (State, bool, seq<Event>) {
    if s.pipe.Some? then (s, true, [])
    else
      var pid := s.spawned;
      var dropped := if s.cmd.Some? then [Dropped(s.cmd.value)] else [];
      var t := s.(cmd := Some(pid), spawned := pid + 1);
      if f.stdout then (t, false, dropped + [Created(pid), StdoutFailed(pid)])
      else
        var u := t.(pipe := Some(Pipe(OpenAt(s.offset), !f.start)));
        if f.start then (u, false, dropped + [Created(pid), StartFailed(pid)])
        else (u, true, dropped + [Created(pid)])
  }

  function SoughtTo(offset: int, size: int, delta: int, whence: Whence): int {
    match whence
    case FromStart => delta
    case FromCurrent => offset + delta
    case FromEnd => size + delta
    case OtherWhence => offset
  }

  datatype Stepped = Stepped(state: State, answer: Answer, events: seq<Event>)

  function Step(content: seq<byte>, size: int, s: State, c: Call, f: Faults): Stepped {
    match c
    case Seek(delta, whence) =>
      var (t, ok, es) := ClosePipe(s, f);
      if !ok then Stepped(t, Refused(s.offset), es)
      else
        var to := SoughtTo(s.offset, size, delta, whence);
        Stepped(t.(offset := to), Position(to), es)
    case Close =>
      var (t, ok, es) := ClosePipe(s, f);
      Stepped(t, if ok then Closed else Refused(0), es)
    case Read(max, chunk) =>
      var (t, ok, es) := Open(s, f);
      if !ok || t.pipe.None? || !t.pipe.value.live || f.read then Stepped(t, Refused(0), es)
      else
        var at := t.pipe.value.at;
        var bytes := Slice(content, at, max, chunk);
        if bytes == [] && max > 0 then Stepped(t, EndOfFile, es)
        else Stepped(t.(pipe := Some(Pipe(at + |bytes|, true))), Data(bytes), es)
  }

  class IpfsReadSeeker {
    const content: seq<byte>
    const size: int
    var offset: int
    var cmd: Option<nat>
    var pipe: Option<Pipe>
    var spawned: nat
    ghost var log: seq<Event>

    constructor (content: seq<byte>, size: int)
      ensures View() == FRESH && log == [] && this.content == content && this.size == size
    {
      this.content, this.size := content, size;
      offset, cmd, pipe := 0, None, None;
      spawned, log := 0, [];
    }

    ghost function View(): State
      reads this
    {
      State(offset, cmd, pipe, spawned)
    }

    method Seek(delta: int, whence: Whence, f: Faults) returns (answer: Answer)
      modifies this
      ensures var r := Step(content, size, old(View()), Call.Seek(delta, whence), f);
        View() == r.state && answer == r.answer && log == old(log) + r.events
    {
      var ok := LockedClose(f);
      if !ok { return Refused(offset); }
      match whence {
        case FromStart => offset := delta;
        case FromCurrent => offset := offset + delta;
        case FromEnd => offset := size + delta;
        case OtherWhence =>
      }
      answer := Position(offset);
    }

    method Read(max: nat, chunk: nat, f: Faults) returns (answer: Answer)
      modifies this
      ensures var r := Step(content, size, old(View()), Call.Read(max, chunk), f);
        View() == r.state && answer == r.answer && log == old(log) + r.events
    {
      var ok := EnsurePipeOpen(f);
      if !ok { return Refused(0); }
      if pipe.None? || !pipe.value.live || f.read { return Refused(0); }
      var bytes := Slice(content, pipe.value.at, max, chunk);
      if bytes == [] && max > 0 { return EndOfFile; }
      pipe := Some(Pipe(pipe.value.at + |bytes|, true));
      answer := Data(bytes);
    }

    method Close(f: Faults) returns (answer: Answer)
      modifies this
      ensures var r := Step(content, size, old(View()), Call.Close, f);
        View() == r.state && answer == r.answer && log == old(log) + r.events
    {
      var ok := LockedClose(f);
      answer := if ok then Closed else Refused(0);
    }

    method LockedClose(f: Faults) returns (ok: bool)
      modifies this
      ensures var (t, done, events) := ClosePipe(old(View()), f);
        View() == t && ok == done && log == old(log) + events
    {
      if pipe.Some? {
        if f.close { return false; }
        pipe := None;
      }
      if cmd.Some? {
        if f.wait {
          log := log + [WaitFailed(cmd.value)];
          return false;
        }
        log := log + [Reaped(cmd.value)];
        cmd := None;
      }
      ok := true;
    }

    method EnsurePipeOpen(f: Faults) returns (ok: bool)
      modifies this
      ensures var (t, done, events) := Open(old(View()), f);
        View() == t && ok == done && log == old(log) + events
    {
      if pipe.Some? { return true; }
      ghost var dropped := if cmd.Some? then [Dropped(cmd.value)] else [];
      var pid := spawned;
      cmd := Some(pid);
      spawned := spawned + 1;
      if f.stdout {
        log := log + (dropped + [Created(pid), StdoutFailed(pid)]);
        return false;
      }
      pipe := Some(Pipe(OpenAt(offset), !f.start));
      if f.start {
        log := log + (dropped + [Created(pid), StartFailed(pid)]);
        return false;
      }
      log := log + (dropped + [Created(pid)]);
      ok := true;
    }
  }
}
