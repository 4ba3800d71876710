/** What holds over whole runs of the reader: which processes are accounted for under
    any faults, and how the reader relates to a file when nothing fails. */
module ReaderRuns {
  import opened Prelude
  import opened IpfsReader

  datatype Timed = Timed(call: Call, faults: Faults)
  datatype Ran = Ran(state: State, answers: seq<Answer>, events: seq<Event>)

  function Run(content: seq<byte>, size: int, s: State, calls: seq<Timed>): Ran
    decreases |calls|
  {
    if calls == [] then Ran(s, [], [])
    else
      var r := Step(content, size, s, calls[0].call, calls[0].faults);
      var rest := Run(content, size, r.state, calls[1..]);
      Ran(rest.state, [r.answer] + rest.answers, r.events + rest.events)
  }

  // ---- under any faults ---------------------------------------------------------

  /** A command is dropped only after its wait or its pipe had failed. */
  ghost predicate Excused(es: seq<Event>) {
    forall n :: 0 <= n < |es| && es[n].Dropped? ==>
      WaitFailed(es[n].pid) in es[..n] || StdoutFailed(es[n].pid) in es[..n]
  }

  /** Every command ever created was created once, and has ended once, by being waited
      for or dropped, unless it is the current one. */
  ghost predicate Tallied(cmd: Option<nat>, spawned: nat, es: seq<Event>) {
    && (forall p: nat :: multiset(es)[Created(p)] == if p < spawned then 1 else 0)
    && (forall p: nat :: multiset(es)[Reaped(p)] + multiset(es)[Dropped(p)] ==
          if p < spawned && cmd != Some(p) then 1 else 0)
  }

  /** The pipe never outlives its command, and a command without a pipe has failed. */
  ghost predicate Accounted(s: State, es: seq<Event>) {
    && (s.pipe.Some? ==> s.cmd.Some?)
    && (s.cmd.Some? ==> s.cmd.value < s.spawned)
    && (s.cmd.Some? && s.pipe.None? ==> WaitFailed(s.cmd.value) in es || StdoutFailed(s.cmd.value) in es)
    && Excused(es) && Tallied(s.cmd, s.spawned, es)
  }

  lemma {:induction false} ExcusedMore(es: seq<Event>, e: Event)
    requires Excused(es)
    requires e.Dropped? ==> WaitFailed(e.pid) in es || StdoutFailed(e.pid) in es
    ensures Excused(es + [e])
  {
    var fs := es + [e];
    forall n | 0 <= n < |fs| && fs[n].Dropped?
      ensures WaitFailed(fs[n].pid) in fs[..n] || StdoutFailed(fs[n].pid) in fs[..n]
    {
      assert fs[..n] == es[..n];
      assert n == |es| ==> es[..n] == es;
    }
  }

  lemma {:induction false} TallyEnd(c: nat, spawned: nat, es: seq<Event>, e: Event)
    requires Tallied(Some(c), spawned, es) && c < spawned && e in {Reaped(c), Dropped(c)}
    ensures Tallied(None, spawned, es + [e])
  {
  }

  lemma {:induction false} TallyCreate(spawned: nat, es: seq<Event>)
    requires Tallied(None, spawned, es)
    ensures Tallied(Some(spawned), spawned + 1, es + [Created(spawned)])
  {
  }

  lemma {:induction false} TallyFailure(cmd: Option<nat>, spawned: nat, es: seq<Event>, e: Event)
    requires Tallied(cmd, spawned, es) && (e.WaitFailed? || e.StdoutFailed? || e.StartFailed?)
    ensures Tallied(cmd, spawned, es + [e])
  {
  }

  lemma {:induction false} CloseAccounted(s: State, es: seq<Event>, f: Faults)
    requires Accounted(s, es)
    ensures var (t, ok, more) := ClosePipe(s, f);
      && Accounted(t, es + more)
      && (ok ==> t.cmd == None && t.pipe == None) && t.offset == s.offset
  {
    hide Tallied, Excused;
    if s.cmd.Some? && !(s.pipe.Some? && f.close) {
      var c := s.cmd.value;
      if f.wait {
        ExcusedMore(es, WaitFailed(c));
        TallyFailure(s.cmd, s.spawned, es, WaitFailed(c));
      } else {
        ExcusedMore(es, Reaped(c));
        TallyEnd(c, s.spawned, es, Reaped(c));
      }
    } else {
      assert es + [] == es;
    }
  }

  /** What is left of the old command before a new one is created. */
  function LetGo(s: State): seq<Event> {
    if s.cmd.Some? then [Dropped(s.cmd.value)] else []
  }

  lemma {:induction false} CreateAccounted(s: State, es: seq<Event>)
    requires Accounted(s, es) && s.pipe.None?
    ensures var fs := es + LetGo(s) + [Created(s.spawned)];
      Excused(fs) && Tallied(Some(s.spawned), s.spawned + 1, fs)
  {
    hide Tallied, Excused;
    var d := es + LetGo(s);
    if s.cmd.Some? {
      ExcusedMore(es, Dropped(s.cmd.value));
      TallyEnd(s.cmd.value, s.spawned, es, Dropped(s.cmd.value));
    } else {
      assert d == es;
    }
    ExcusedMore(d, Created(s.spawned));
    TallyCreate(s.spawned, d);
  }

  lemma {:induction false} OpenShape(s: State, es: seq<Event>, f: Faults)
    requires s.pipe.None?
    ensures var (t, ok, more) := Open(s, f);
      var c := es + LetGo(s) + [Created(s.spawned)];
      && t.cmd == Some(s.spawned) && t.spawned == s.spawned + 1 && (t.pipe.None? <==> f.stdout)
      && es + more ==
           if f.stdout then c + [StdoutFailed(s.spawned)] else if f.start then c + [StartFailed(s.spawned)] else c
  {
  }

  lemma {:induction false} OpenAccounted(s: State, es: seq<Event>, f: Faults)
    requires Accounted(s, es)
    ensures var (t, ok, more) := Open(s, f); Accounted(t, es + more)
  {
    hide Tallied, Excused, LetGo;
    if s.pipe.Some? {
      assert es + [] == es;
    } else {
      CreateAccounted(s, es);
      OpenShape(s, es, f);
      hide Open;
      var pid := s.spawned;
      var c := es + LetGo(s) + [Created(pid)];
      var last := if f.stdout then StdoutFailed(pid) else StartFailed(pid);
      ExcusedMore(c, last);
      TallyFailure(Some(pid), pid + 1, c, last);
      assert (c + [last])[|c|] == last;
    }
  }

  lemma {:induction false} StepAccounted(content: seq<byte>, size: int, s: State, es: seq<Event>, c: Call, f: Faults)
    requires Accounted(s, es)
    ensures var r := Step(content, size, s, c, f);
      && Accounted(r.state, es + r.events)
      && (c.Seek? && r.answer.Refused? ==> r.state.offset == s.offset && r.answer == Refused(s.offset))
      && (!c.Read? && !r.answer.Refused? ==> r.state.cmd == None && r.state.pipe == None)
  {
    hide Tallied, Excused, Slice, Open, ClosePipe;
    var r := Step(content, size, s, c, f);
    if c.Read? {
      var (t, ok, more) := Open(s, f);
      OpenAccounted(s, es, f);
      assert r.events == more && r.state.cmd == t.cmd && r.state.spawned == t.spawned;
      assert r.state.pipe.Some? <==> t.pipe.Some?;
    } else {
      CloseAccounted(s, es, f);
    }
  }

  /** Whether closing pipe and command works: a pipe that does not close stays, a command
      that is not waited for stays without its pipe, and nothing stays otherwise. */
  predicate Released(s: State, f: Faults, t: State, ok: bool) {
    && t.offset == s.offset && t.spawned == s.spawned
    && (ok <==> !(s.pipe.Some? && f.close) && !(s.cmd.Some? && f.wait))
    && t.pipe == (if s.pipe.Some? && f.close then s.pipe else None)
    && t.cmd == (if ok then None else s.cmd)
  }

  /** Under any faults, exactly when a call is refused, and what it leaves behind. */
  lemma {:induction false} RefusedExactly(content: seq<byte>, size: int, s: State, c: Call, f: Faults)
    requires s.pipe.Some? ==> s.cmd.Some?
    ensures var r := Step(content, size, s, c, f); var ok := !r.answer.Refused?;
      match c
      case Close => Released(s, f, r.state, ok)
      case Seek(delta, whence) =>
        && Released(s, f, r.state.(offset := s.offset), ok)
        && (ok ==> r.answer == Position(r.state.offset))
        && (ok && whence == OtherWhence ==> r.state.offset == s.offset)
      case Read(_, _) =>
        && r.state.offset == s.offset
        && (ok <==> !f.read && if s.pipe.Some? then s.pipe.value.live else !f.stdout && !f.start)
        && r.state.spawned == (if s.pipe.Some? then s.spawned else s.spawned + 1)
        && (r.state.pipe.None? <==> s.pipe.None? && f.stdout)
  {
    hide Slice;
  }

  /** A process that did not start is never read from: every read is refused until the
      pipe is closed, whatever else fails or not. */
  lemma {:induction false} NeverStarted(content: seq<byte>, size: int, s: State, max: nat, chunk: nat, f: Faults, rs: seq<Timed>)
    requires s.pipe.None? && f.start && !f.stdout
    requires forall i :: 0 <= i < |rs| ==> rs[i].call.Read?
    ensures var answers := Run(content, size, s, [Timed(Read(max, chunk), f)] + rs).answers;
      |answers| == |rs| + 1 && forall i :: 0 <= i < |answers| ==> answers[i] == Refused(0)
  {
    var calls := [Timed(Read(max, chunk), f)] + rs;
    assert calls[1..] == rs;
    var t := Step(content, size, s, Read(max, chunk), f).state;
    DeadPipe(content, size, t, rs);
    assert Run(content, size, s, calls).answers == [Refused(0)] + Run(content, size, t, rs).answers;
  }

  lemma {:induction false} DeadPipe(content: seq<byte>, size: int, s: State, rs: seq<Timed>)
    requires s.pipe.Some? && !s.pipe.value.live
    requires forall i :: 0 <= i < |rs| ==> rs[i].call.Read?
    ensures |Run(content, size, s, rs).answers| == |rs|
    ensures forall i :: 0 <= i < |rs| ==> Run(content, size, s, rs).answers[i] == Refused(0)
    decreases |rs|
  {
    if rs != [] { DeadPipe(content, size, s, rs[1..]); }
  }

  lemma {:induction false} RunAccounted(content: seq<byte>, size: int, s: State, es: seq<Event>, calls: seq<Timed>)
    requires Accounted(s, es)
    ensures var r := Run(content, size, s, calls); Accounted(r.state, es + r.events)
    decreases |calls|
  {
    hide Accounted, Step;
    if calls == [] {
      assert es + [] == es;
    } else {
      var r := Step(content, size, s, calls[0].call, calls[0].faults);
      StepAccounted(content, size, s, es, calls[0].call, calls[0].faults);
      RunAccounted(content, size, r.state, es + r.events, calls[1..]);
      var rest := Run(content, size, r.state, calls[1..]);
      assert es + r.events + rest.events == es + (r.events + rest.events);
    }
  }

  /** With failures at any call of any run: the pipe never outlives its command, no
      process is lost sight of without an earlier failure, none is waited for twice. */
  lemma {:induction false} EveryRunAccounted(content: seq<byte>, size: int, calls: seq<Timed>)
    ensures var r := Run(content, size, FRESH, calls); Accounted(r.state, r.events)
  {
    assert Accounted(FRESH, []);
    RunAccounted(content, size, FRESH, [], calls);
    assert [] + Run(content, size, FRESH, calls).events == Run(content, size, FRESH, calls).events;
  }

  // ---- without faults: the lazy process is a rewinding reader -----------------------

  /** A reader without processes: where the last seek went, and where the next read is. */
  datatype Simple = Simple(mark: int, cursor: nat)

  function ReadAnswer(content: seq<byte>, cursor: nat, max: nat, chunk: nat): Answer {
    var bytes := Slice(content, cursor, max, chunk);
    if bytes == [] && max > 0 then EndOfFile else Data(bytes)
  }

  function SimpleStep(content: seq<byte>, size: int, m: Simple, c: Call): (Simple, Answer) {
    match c
    case Seek(delta, whence) =>
      var to := SoughtTo(m.mark, size, delta, whence);
      (Simple(to, OpenAt(to)), Position(to))
    case Read(max, chunk) =>
      (m.(cursor := m.cursor + |Slice(content, m.cursor, max, chunk)|), ReadAnswer(content, m.cursor, max, chunk))
    case Close => (Simple(m.mark, OpenAt(m.mark)), Closed)
  }

  function SimpleRun(content: seq<byte>, size: int, m: Simple, calls: seq<Call>): (answers: seq<Answer>)
    decreases |calls|
  {
    if calls == [] then []
    else
      var (n, answer) := SimpleStep(content, size, m, calls[0]);
      [answer] + SimpleRun(content, size, n, calls[1..])
  }

  function Calmly(calls: seq<Call>): (ts: seq<Timed>)
    ensures |ts| == |calls| && forall i :: 0 <= i < |ts| ==> ts[i] == Timed(calls[i], CALM)
  {
    if calls == [] then [] else [Timed(calls[0], CALM)] + Calmly(calls[1..])
  }

  predicate Live(s: State) {
    s.pipe.Some? ==> s.pipe.value.live
  }

  function Abstract(s: State): Simple {
    Simple(s.offset, if s.pipe.Some? then s.pipe.value.at else OpenAt(s.offset))
  }

  lemma {:induction false} StepRefines(content: seq<byte>, size: int, s: State, c: Call)
    requires Live(s)
    ensures var r := Step(content, size, s, c, CALM);
      Live(r.state) && (Abstract(r.state), r.answer) == SimpleStep(content, size, Abstract(s), c)
  {
  }

  /** For every run without faults the lazy process answers as the simple reader. */
  lemma {:induction false} LazyRefinesSimple(content: seq<byte>, size: int, s: State, calls: seq<Call>)
    requires Live(s)
    ensures Run(content, size, s, Calmly(calls)).answers == SimpleRun(content, size, Abstract(s), calls)
    decreases |calls|
  {
    if calls != [] {
      StepRefines(content, size, s, calls[0]);
      LazyRefinesSimple(content, size, Step(content, size, s, calls[0], CALM).state, calls[1..]);
      assert Calmly(calls)[1..] == Calmly(calls[1..]);
    }
  }

  // ---- agreement with a file ----------------------------------------------------------

  /** A file as the io package describes it: seeking is relative to the read cursor,
      seeking before the start is an error, and so is any use after closing. */
  datatype File = File(cursor: nat, open: bool)

  function FileStep(content: seq<byte>, m: File, c: Call): (File, Answer) {
    if !m.open then (m, Refused(0))
    else
      match c
      case Seek(delta, whence) =>
        var to := match whence
          case FromStart => delta
          case FromCurrent => m.cursor + delta
          case FromEnd => |content| + delta
          case OtherWhence => -1;
        if to < 0 then (m, Refused(0)) else (m.(cursor := to), Position(to))
      case Read(max, chunk) =>
        (m.(cursor := m.cursor + |Slice(content, m.cursor, max, chunk)|), ReadAnswer(content, m.cursor, max, chunk))
      case Close => (m.(open := false), Closed)
  }

  function FileRun(content: seq<byte>, m: File, calls: seq<Call>): (answers: seq<Answer>)
    decreases |calls|
  {
    if calls == [] then []
    else
      var (n, answer) := FileStep(content, m, calls[0]);
      [answer] + FileRun(content, n, calls[1..])
  }

  /** A seek the reader gets right: to a place that exists, and, when it is relative,
      with nothing read since the last seek. */
  predicate SeekFits(size: int, m: Simple, delta: int, whence: Whence) {
    && whence != OtherWhence
    && SoughtTo(m.mark, size, delta, whence) >= 0
    && (whence == FromCurrent ==> m.cursor == m.mark)
  }

  /** The caller's side: seeks fit and nothing follows a close. */
  predicate Fits(content: seq<byte>, size: int, m: Simple, calls: seq<Call>)
    decreases |calls|
  {
    calls == [] ||
    ((match calls[0]
        case Seek(delta, whence) => SeekFits(size, m, delta, whence)
        case Read(_, _) => true
        case Close => |calls| == 1)
     && Fits(content, size, SimpleStep(content, size, m, calls[0]).0, calls[1..]))
  }

  lemma {:induction false} ClosedRefuses(content: seq<byte>, size: int, m: Simple, f: File, calls: seq<Call>)
    requires !f.open && calls != []
    ensures SimpleRun(content, size, m, calls)[0] != FileRun(content, f, calls)[0]
  {
  }

  /** A run without faults gives exactly the answers of a file if and only if every
      seek fits and the reader is not used after closing. */
  lemma {:induction false} AgreesWithFile(content: seq<byte>, m: Simple, calls: seq<Call>)
    requires m.mark >= 0 && m.mark <= m.cursor
    ensures SimpleRun(content, |content|, m, calls) == FileRun(content, File(m.cursor, true), calls)
      <==> Fits(content, |content|, m, calls)
    decreases |calls|
  {
    if calls != [] {
      var size := |content|;
      var (n, a) := SimpleStep(content, size, m, calls[0]);
      var (g, b) := FileStep(content, File(m.cursor, true), calls[0]);
      var xs, ys := SimpleRun(content, size, n, calls[1..]), FileRun(content, g, calls[1..]);
      assert ([a] + xs)[0] == a && ([b] + ys)[0] == b && ([a] + xs)[1..] == xs && ([b] + ys)[1..] == ys;
      if calls[0].Close? {
        if |calls| > 1 { ClosedRefuses(content, size, n, g, calls[1..]); }
      } else if a == b {
        AgreesWithFile(content, n, calls[1..]);
      }
    }
  }

  /** The same for the process-backed reader from its first call. */
  lemma {:induction false} ReaderIsFileExactlyWhen(content: seq<byte>, calls: seq<Call>)
    ensures Run(content, |content|, FRESH, Calmly(calls)).answers == FileRun(content, File(0, true), calls)
      <==> Fits(content, |content|, Simple(0, 0), calls)
  {
    LazyRefinesSimple(content, |content|, FRESH, calls);
    AgreesWithFile(content, Simple(0, 0), calls);
  }

  /** One read and a relative seek by nothing are enough to tell the two apart: a file
      stays where it is, the reader goes back to the last seek. */
  lemma {:induction false} RelativeSeekDiffers(content: seq<byte>)
    requires |content| == 1
    ensures var calls := [Read(1, 1), Seek(0, FromCurrent)];
      && Run(content, 1, FRESH, Calmly(calls)).answers == [Data(content), Position(0)]
      && FileRun(content, File(0, true), calls) == [Data(content), Position(1)]
      && !Fits(content, 1, Simple(0, 0), calls)
  {
    var read, seek := Call.Read(1, 1), Call.Seek(0, FromCurrent);
    var calls := [read, seek];
    assert calls[1..] == [seek] && [seek][1..] == [];
    assert Slice(content, 0, 1, 1) == content;
    LazyRefinesSimple(content, 1, FRESH, calls);
    assert SimpleRun(content, 1, Simple(0, 1), [seek]) == [Position(0)];
    assert FileRun(content, File(1, true), [seek]) == [Position(1)];
    ReaderIsFileExactlyWhen(content, calls);
    assert [Data(content), Position(0)][1] != [Data(content), Position(1)][1];
  }

  // ---- byte ranges ---------------------------------------------------------------------

  /** Everything that was read, in order. */
  function Bytes(answers: seq<Answer>): seq<byte> {
    if answers == [] then []
    else Delivered(answers[0]) + Bytes(answers[1..])
  }

  function Delivered(a: Answer): seq<byte> {
    match a case Data(bytes) => bytes case _ => []
  }

  lemma {:induction false} BytesCons(a: Answer, rest: seq<Answer>)
    ensures Bytes([a] + rest) == Delivered(a) + Bytes(rest)
  {
    assert ([a] + rest)[1..] == rest;
  }

  lemma {:induction false} ReadFits(content: seq<byte>, size: int, m: Simple, c: Call)
    requires c.Read? && m.cursor <= |content|
    ensures var (n, a) := SimpleStep(content, size, m, c);
      && m.cursor <= n.cursor <= |content| && Delivered(a) == content[m.cursor..n.cursor]
      && n.mark == m.mark && n.cursor - m.cursor <= c.max
      && (c.max > 0 && m.cursor < |content| ==> a.Data? && m.cursor < n.cursor)
  {
  }

  lemma {:induction false} ReadsAreConsecutive(content: seq<byte>, size: int, m: Simple, rs: seq<Call>)
    requires forall i :: 0 <= i < |rs| ==> rs[i].Read?
    requires m.cursor <= |content|
    ensures var got := Bytes(SimpleRun(content, size, m, rs));
      m.cursor + |got| <= |content| && got == content[m.cursor..m.cursor + |got|]
    decreases |rs|
  {
    hide Slice, Bytes, SimpleStep;
    if rs == [] {
      NothingRead();
    } else {
      var (n, a) := SimpleStep(content, size, m, rs[0]);
      ReadFits(content, size, m, rs[0]);
      ReadsAreConsecutive(content, size, n, rs[1..]);
      var rest := SimpleRun(content, size, n, rs[1..]);
      BytesCons(a, rest);
      var k, e := m.cursor, n.cursor + |Bytes(rest)|;
      assert content[k..n.cursor] + content[n.cursor..e] == content[k..e];
    }
  }

  lemma {:induction false} NothingRead()
    ensures Bytes([]) == []
  {
  }

  lemma {:induction false} NothingPastTheEnd(content: seq<byte>, size: int, m: Simple, rs: seq<Call>)
    requires forall i :: 0 <= i < |rs| ==> rs[i].Read?
    requires m.cursor > |content|
    ensures Bytes(SimpleRun(content, size, m, rs)) == []
    decreases |rs|
  {
    if rs != [] {
      NothingPastTheEnd(content, size, m, rs[1..]);
      BytesCons(SimpleStep(content, size, m, rs[0]).1, SimpleRun(content, size, m, rs[1..]));
    }
  }

  /** From any state, a seek and the reads after it deliver the content from the place
      it returned on, without gap or overlap, however the system cuts it up; nothing
      past the end, and from the start when the place is negative. */
  lemma {:induction false} SeekThenReads(
    content: seq<byte>, size: int, s: State, delta: int, whence: Whence, rs: seq<Call>)
    requires Live(s) && forall i :: 0 <= i < |rs| ==> rs[i].Read?
    ensures var k := SoughtTo(s.offset, size, delta, whence);
      var answers := Run(content, size, s, Calmly([Seek(delta, whence)] + rs)).answers;
      var from, got := OpenAt(k), Bytes(answers);
      && answers[0] == Position(k)
      && (from <= |content| ==> from + |got| <= |content| && got == content[from..from + |got|])
      && (from > |content| ==> got == [])
  {
    var k := SoughtTo(s.offset, size, delta, whence);
    var m := Simple(k, OpenAt(k));
    var calls := [Seek(delta, whence)] + rs;
    LazyRefinesSimple(content, size, s, calls);
    assert calls[1..] == rs;
    if OpenAt(k) <= |content| {
      ReadsAreConsecutive(content, size, m, rs);
    } else {
      NothingPastTheEnd(content, size, m, rs);
    }
    BytesCons(Position(k), SimpleRun(content, size, m, rs));
  }

  lemma {:induction false} SeekLands(content: seq<byte>, size: int, s: State, delta: int, whence: Whence)
    requires Live(s) && SoughtTo(s.offset, size, delta, whence) >= 0
    ensures var k := SoughtTo(s.offset, size, delta, whence);
      var r := Step(content, size, s, Seek(delta, whence), CALM);
      Live(r.state) && r.answer == Position(k) && Abstract(r.state) == Simple(k, k)
  {
  }

  /** Serving one byte range the way a file server does: learn the size, rewind, seek
      to the start of the range and copy its length. */
  method ServeRange(reader: IpfsReadSeeker, start: nat, length: nat, chunks: nat -> nat) returns (body: seq<byte>)
    requires Live(reader.View()) && reader.size == |reader.content| && start + length <= reader.size
    modifies reader
    ensures body == reader.content[start..start + length]
  {
    hide Slice, Step, SimpleStep;
    SeekLands(reader.content, reader.size, reader.View(), 0, FromEnd);
    var answer := reader.Seek(0, FromEnd, CALM);
    assert answer == Position(|reader.content|);
    SeekLands(reader.content, reader.size, reader.View(), 0, FromStart);
    answer := reader.Seek(0, FromStart, CALM);
    SeekLands(reader.content, reader.size, reader.View(), start, FromStart);
    answer := reader.Seek(start, FromStart, CALM);
    body := [];
    var turn := 0;
    while |body| < length
      invariant |body| <= length && body == reader.content[start..start + |body|]
      invariant Live(reader.View()) && Abstract(reader.View()) == Simple(start, start + |body|)
      decreases length - |body|
    {
      ghost var m := Abstract(reader.View());
      ghost var c := Call.Read(length - |body|, chunks(turn));
      StepRefines(reader.content, reader.size, reader.View(), c);
      ReadFits(reader.content, reader.size, m, c);
      answer := reader.Read(length - |body|, chunks(turn), CALM);
      body := body + answer.bytes;
      turn := turn + 1;
    }
  }
}
