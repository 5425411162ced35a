/** The uploading writer with the goroutine that feeds it: lines are read from a pipe, sent over a
    channel of four, and received by the loop, which ticks, fails and is cancelled at any time. */
module UploadProtocol {
  import opened Upload

  datatype Config = Config(max: nat, scanName: string)

  /** A line the loop received, and whether it went into the buffer. */
  datatype Taken = Taken(line: string, accepted: bool)

  datatype State = State(
    read: seq<string>, counter: int, hand: Option<string>, queue: seq<string>, closed: bool,
    taken: seq<Taken>, writer: Writer, done: bool)

  datatype Event =
    | Read(line: string) | Send | Close   // the reading goroutine
    | Take(r: Response) | Flush(r: Response) | Exhaust(r: Response) | Cancel(r: Response)  // the loop
    | SetID(id: string)                   // a caller

  const CHANNEL_SIZE := 4

  predicate ValidLine(line: string) {
    line != "" && line[|line| - 1] == '\n' && '\n' !in line[..|line| - 1]
  }

  ghost predicate LinesValid(lines: seq<string>) { forall line | line in lines :: ValidLine(line) }

  predicate Enabled(s: State, e: Event) {
    match e
    case Read(line) => s.hand == None && !s.closed && ValidLine(line)
    case Send => s.hand.Some? && |s.queue| < CHANNEL_SIZE
    case Close => s.hand == None && !s.closed
    case Take(_) => !s.done && s.queue != []
    case Flush(_) => !s.done
    case Exhaust(_) => !s.done && s.closed && s.queue == []
    case Cancel(_) => !s.done
    case SetID(id) => ValidScanID(id)
  }

  /** The counter of the code has 32 bits. */
  function Wrap(n: int): int { (n + 0x8000_0000) % 0x1_0000_0000 - 0x8000_0000 }

  function Apply(c: Config, s: State, e: Event): State
    requires Enabled(s, e)
  {
    match e
    case Read(line) => s.(read := s.read + [line], counter := Wrap(s.counter + 1), hand := Some(line))
    case Send => s.(queue := s.queue + [s.hand.value], hand := None)
    case Close => s.(closed := true)
    case Take(r) =>
      s.(queue := s.queue[1..], taken := s.taken + [Taken(s.queue[0], Fits(s.writer, c.max, s.queue[0]))],
         writer := Received(s.writer, c.max, c.scanName, s.queue[0], r))
    case Flush(r) => s.(writer := FlushedIfAny(s.writer, c.scanName, r))
    case Exhaust(r) => s.(writer := FlushedIfAny(s.writer, c.scanName, r), done := true)
    case Cancel(r) => s.(writer := FlushedIfAny(s.writer, c.scanName, r), done := true)
    case SetID(id) => s.(writer := s.writer.(scanID := id))
  }

  const INITIAL := State([], 0, None, [], false, [], Writer("", "", []), false)

  function Reached(c: Config, es: seq<Event>): Option<State> {
    if es == [] then Some(INITIAL)
    else
      var last := |es| - 1;
      match Reached(c, es[..last])
      case None => None
      case Some(s) => if Enabled(s, es[last]) then Some(Apply(c, s, es[last])) else None
  }

  // ---- The ledger ----

  function Concat(lines: seq<string>): string {
    if lines == [] then "" else Concat(lines[..|lines| - 1]) + lines[|lines| - 1]
  }

  function Lines(taken: seq<Taken>): seq<string> {
    if taken == [] then [] else Lines(taken[..|taken| - 1]) + [taken[|taken| - 1].line]
  }

  function Accepted(taken: seq<Taken>): seq<string> {
    if taken == [] then []
    else
      var front := Accepted(taken[..|taken| - 1]);
      if taken[|taken| - 1].accepted then front + [taken[|taken| - 1].line] else front
  }

  /** The bodies of the successful uploads. */
  function Uploaded(log: seq<Attempt>): string {
    if log == [] then ""
    else
      var front := Uploaded(log[..|log| - 1]);
      if Succeeds(log[|log| - 1].response) then front + log[|log| - 1].request.body else front
  }

  function InHand(hand: Option<string>): seq<string> {
    if hand.Some? then [hand.value] else []
  }

  /** What was uploaded and what is buffered is what was accepted, in order and without repetition;
      every line read is received, in the channel or in the hand of the reader. */
  ghost predicate Balanced(s: State) {
    && Uploaded(s.writer.log) + s.writer.buffer == Concat(Accepted(s.taken))
    && Lines(s.taken) + s.queue + InHand(s.hand) == s.read
    && s.counter == Wrap(|s.read|)
  }

  lemma UploadedSnoc(log: seq<Attempt>, a: Attempt)
    ensures Uploaded(log + [a]) == if Succeeds(a.response) then Uploaded(log) + a.request.body else Uploaded(log)
  {
    assert (log + [a])[..|log|] == log;
  }

  lemma ConcatSnoc(lines: seq<string>, line: string)
    ensures Concat(lines + [line]) == Concat(lines) + line
  {
    assert (lines + [line])[..|lines|] == lines;
  }

  lemma TakenSnoc(taken: seq<Taken>, t: Taken)
    ensures Lines(taken + [t]) == Lines(taken) + [t.line]
    ensures Accepted(taken + [t]) == if t.accepted then Accepted(taken) + [t.line] else Accepted(taken)
  {
    assert (taken + [t])[..|taken|] == taken;
  }

  /** A flush moves the buffer to the uploads, or leaves both as they are. */
  lemma FlushBalances(w: Writer, scanName: string, r: Response)
    ensures var w' := Flushed(w, scanName, r); Uploaded(w'.log) + w'.buffer == Uploaded(w.log) + w.buffer
  {
    UploadedSnoc(w.log, Attempt(RequestFor(w.scanID, scanName, w.buffer), r));
  }

  lemma ReceiveBalances(w: Writer, c: Config, line: string, r: Response)
    ensures var w' := Received(w, c.max, c.scanName, line, r);
            Uploaded(w'.log) + w'.buffer == Uploaded(w.log) + w.buffer + if Fits(w, c.max, line) then line else ""
  {
    FlushBalances(w, c.scanName, r);
  }

  lemma TakeBalances(c: Config, s: State, r: Response)
    requires Balanced(s) && Enabled(s, Take(r))
    ensures Balanced(Apply(c, s, Take(r)))
  {
    var line, s' := s.queue[0], Apply(c, s, Take(r));
    var t := Taken(line, Fits(s.writer, c.max, line));
    TakenSnoc(s.taken, t);
    assert Uploaded(s'.writer.log) + s'.writer.buffer == Concat(Accepted(s'.taken)) by {
      ReceiveBalances(s.writer, c, line, r);
      ConcatSnoc(Accepted(s.taken), line);
    }
    QueueMoves(Lines(s.taken), s.queue, InHand(s.hand));
  }

  lemma QueueMoves(lines: seq<string>, queue: seq<string>, hand: seq<string>)
    requires queue != []
    ensures lines + [queue[0]] + queue[1..] + hand == lines + queue + hand
  {
    assert [queue[0]] + queue[1..] == queue;
  }

  lemma HandFills(lines: seq<string>, queue: seq<string>, line: string)
    ensures lines + queue + InHand(Some(line)) == lines + queue + InHand(None) + [line]
    ensures lines + (queue + [line]) + InHand(None) == lines + queue + InHand(Some(line))
  {
    assert lines + (queue + [line]) == lines + queue + [line];
  }

  lemma CountIsNext(read: seq<string>, counter: int, line: string)
    requires counter == Wrap(|read|)
    ensures Wrap(counter + 1) == Wrap(|read + [line]|)
  {
  }

  lemma ReadBalances(c: Config, s: State, line: string)
    requires Balanced(s) && Enabled(s, Read(line))
    ensures Balanced(Apply(c, s, Read(line)))
  {
    HandFills(Lines(s.taken), s.queue, line);
    CountIsNext(s.read, s.counter, line);
  }

  lemma SendBalances(c: Config, s: State)
    requires Balanced(s) && Enabled(s, Send)
    ensures Balanced(Apply(c, s, Send))
  {
    HandFills(Lines(s.taken), s.queue, s.hand.value);
  }

  lemma FlushKeepsBalance(c: Config, s: State, e: Event)
    requires Balanced(s) && Enabled(s, e) && (e.Flush? || e.Exhaust? || e.Cancel?)
    ensures Balanced(Apply(c, s, e))
  {
    FlushBalances(s.writer, c.scanName, e.r);
  }

  lemma BalancedKept(c: Config, s: State, e: Event)
    requires Balanced(s) && Enabled(s, e)
    ensures Balanced(Apply(c, s, e))
  {
    match e
    case Read(line) => ReadBalances(c, s, line);
    case Send => SendBalances(c, s);
    case Take(r) => TakeBalances(c, s, r);
    case Close =>
    case SetID(id) =>
    case _ => FlushKeepsBalance(c, s, e);
  }

  lemma {:induction false} Ledger(c: Config, es: seq<Event>)
    requires Reached(c, es).Some?
    ensures Balanced(Reached(c, es).value)
  {
    if es != [] {
      var last := |es| - 1;
      Ledger(c, es[..last]);
      BalancedKept(c, Reached(c, es[..last]).value, es[last]);
    }
  }

  // ---- The bounds ----

  ghost predicate Bounded(c: Config, w: Writer) {
    |w.buffer| <= c.max && forall a | a in w.log :: |a.request.body| <= c.max
  }

  lemma {:induction false} ChunksBounded(c: Config, es: seq<Event>)
    requires Reached(c, es).Some?
    ensures Bounded(c, Reached(c, es).value.writer)
  {
    if es != [] {
      var last := |es| - 1;
      ChunksBounded(c, es[..last]);
      BoundedKept(c, Reached(c, es[..last]).value, es[last]);
    }
  }

  lemma BoundedKept(c: Config, s: State, e: Event)
    requires Bounded(c, s.writer) && Enabled(s, e)
    ensures Bounded(c, Apply(c, s, e).writer)
  {
  }

  // ---- Which lines are lost ----

  ghost predicate NothingDropped(s: State) { forall t | t in s.taken :: t.accepted }

  /** A line is dropped exactly when it does not fit behind the buffer. The flush it causes does not
      help it: even if that succeeds and the line would now fit, the line is gone. */
  lemma DroppedLine(c: Config, s: State, r: Response)
    requires Enabled(s, Take(r)) && !Fits(s.writer, c.max, s.queue[0])
    ensures var s' := Apply(c, s, Take(r));
            && !NothingDropped(s') && s'.writer == Flushed(s.writer, c.scanName, r)
            && (Succeeds(r) ==> s'.writer.buffer == "")
  {
    var s' := Apply(c, s, Take(r));
    assert s'.taken[|s.taken|] in s'.taken;
  }

  lemma {:induction false} ConcatLength(a: seq<string>, b: seq<string>)
    ensures |Concat(a + b)| == |Concat(a)| + |Concat(b)|
  {
    if b == [] {
      assert a + b == a;
    } else {
      assert (a + b)[..|a + b| - 1] == a + b[..|b| - 1];
      ConcatLength(a, b[..|b| - 1]);
    }
  }

  lemma LastLength(taken: seq<Taken>)
    requires taken != []
    ensures var front, t := taken[..|taken| - 1], taken[|taken| - 1];
            && |Concat(Accepted(taken))| == |Concat(Accepted(front))| + (if t.accepted then |t.line| else 0)
            && |Concat(Lines(taken))| == |Concat(Lines(front))| + |t.line|
  {
    var front, t := taken[..|taken| - 1], taken[|taken| - 1];
    ConcatSnoc(Accepted(front), t.line);
    ConcatSnoc(Lines(front), t.line);
  }

  lemma {:induction false} AcceptedLength(taken: seq<Taken>)
    ensures |Concat(Accepted(taken))| <= |Concat(Lines(taken))|
  {
    if taken != [] {
      AcceptedLength(taken[..|taken| - 1]);
      LastLength(taken);
    }
  }

  /** What was received and the next line are no longer than everything that was read. */
  lemma PartLength(lines: seq<string>, line: string, rest: seq<string>)
    ensures |Concat(lines)| + |line| <= |Concat(lines + [line] + rest)|
  {
    ConcatLength(lines + [line], rest);
    ConcatSnoc(lines, line);
  }

  lemma NextLineFits(c: Config, s: State)
    requires Balanced(s) && s.queue != [] && |Concat(s.read)| <= c.max
    ensures Fits(s.writer, c.max, s.queue[0])
  {
    var lines, line, rest := Lines(s.taken), s.queue[0], s.queue[1..] + InHand(s.hand);
    assert s.read == lines + [line] + rest by { QueueMoves(lines, s.queue, InHand(s.hand)); }
    PartLength(lines, line, rest);
    AcceptedLength(s.taken);
    BufferLength(s);
  }

  lemma BufferLength(s: State)
    requires Balanced(s)
    ensures |s.writer.buffer| <= |Concat(Accepted(s.taken))|
  {
    assert |Uploaded(s.writer.log) + s.writer.buffer| == |Uploaded(s.writer.log)| + |s.writer.buffer|;
  }

  lemma SmallStep(c: Config, s: State, e: Event)
    requires Balanced(s) && Enabled(s, e)
    ensures |Concat(s.read)| <= |Concat(Apply(c, s, e).read)|
    ensures NothingDropped(s) && |Concat(s.read)| <= c.max ==> NothingDropped(Apply(c, s, e))
  {
    if e.Read? { ConcatSnoc(s.read, e.line); }
    if e.Take? && |Concat(s.read)| <= c.max { NextLineFits(c, s); }
  }

  lemma {:induction false} SmallIsKept(c: Config, es: seq<Event>)
    requires Reached(c, es).Some? && |Concat(Reached(c, es).value.read)| <= c.max
    ensures NothingDropped(Reached(c, es).value)
  {
    if es != [] {
      var last := |es| - 1;
      Ledger(c, es[..last]);
      SmallStep(c, Reached(c, es[..last]).value, es[last]);
      SmallIsKept(c, es[..last]);
    }
  }

  /** A schedule without ticks that hands over one line after the other. */
  function Feed(lines: seq<string>): seq<Event> {
    if lines == [] then [] else Feed(lines[..|lines| - 1]) + [Read(lines[|lines| - 1])] + [Send] + [Take(NoRequest)]
  }

  ghost predicate Fed(c: Config, s: State, lines: seq<string>) {
    && s.read == lines && s.hand == None && s.queue == [] && !s.closed && !s.done
    && (NothingDropped(s) ==> s.writer.buffer == Concat(lines))
  }

  lemma FeedOne(c: Config, s: State, lines: seq<string>, line: string)
    requires Fed(c, s, lines) && ValidLine(line)
    ensures Enabled(s, Read(line))
    ensures Enabled(Apply(c, s, Read(line)), Send)
    ensures Enabled(Apply(c, Apply(c, s, Read(line)), Send), Take(NoRequest))
    ensures Fed(c, Apply(c, Apply(c, Apply(c, s, Read(line)), Send), Take(NoRequest)), lines + [line])
  {
    var s2 := Apply(c, Apply(c, s, Read(line)), Send);
    var s3 := Apply(c, s2, Take(NoRequest));
    assert s2.queue == [line];
    ConcatSnoc(lines, line);
    if NothingDropped(s3) {
      assert s3.taken[|s.taken|] in s3.taken;
      assert forall t | t in s.taken :: t in s3.taken;
    }
  }

  lemma ReachedSnoc(c: Config, es: seq<Event>, e: Event)
    requires Reached(c, es).Some? && Enabled(Reached(c, es).value, e)
    ensures Reached(c, es + [e]) == Some(Apply(c, Reached(c, es).value, e))
  {
    assert (es + [e])[..|es|] == es;
  }

  lemma FeedNext(c: Config, es: seq<Event>, lines: seq<string>, line: string)
    requires Reached(c, es).Some? && Fed(c, Reached(c, es).value, lines) && ValidLine(line)
    ensures var fs := es + [Read(line)] + [Send] + [Take(NoRequest)];
            Reached(c, fs).Some? && Fed(c, Reached(c, fs).value, lines + [line])
  {
    FeedOne(c, Reached(c, es).value, lines, line);
    ReachedSnoc(c, es, Read(line));
    ReachedSnoc(c, es + [Read(line)], Send);
    ReachedSnoc(c, es + [Read(line)] + [Send], Take(NoRequest));
  }

  ghost predicate FeedWorks(c: Config, lines: seq<string>) {
    Reached(c, Feed(lines)).Some? && Fed(c, Reached(c, Feed(lines)).value, lines)
  }

  lemma FeedLast(c: Config, front: seq<string>, line: string)
    requires FeedWorks(c, front) && ValidLine(line)
    ensures FeedWorks(c, front + [line])
  {
    FeedNext(c, Feed(front), front, line);
    assert (front + [line])[..|front|] == front;
  }

  lemma {:induction false} FeedReaches(c: Config, lines: seq<string>)
    requires LinesValid(lines)
    ensures FeedWorks(c, lines)
  {
    if lines == [] {
      assert Fed(c, INITIAL, []);
    } else {
      FeedReaches(c, lines[..|lines| - 1]);
      FeedLast(c, lines[..|lines| - 1], lines[|lines| - 1]);
      assert lines[..|lines| - 1] + [lines[|lines| - 1]] == lines;
    }
  }

  /** Whatever the timing of ticks, failures and callers, a list of lines is safe from being dropped
      exactly when all of it together fits into one chunk. */
  lemma NothingDroppedExactly(c: Config, lines: seq<string>)
    requires LinesValid(lines)
    ensures (forall es | Reached(c, es).Some? && Reached(c, es).value.read == lines :: NothingDropped(Reached(c, es).value))
            <==> |Concat(lines)| <= c.max
  {
    if |Concat(lines)| <= c.max {
      forall es | Reached(c, es).Some? && Reached(c, es).value.read == lines ensures NothingDropped(Reached(c, es).value) {
        SmallIsKept(c, es);
      }
    } else {
      FeedReaches(c, lines);
      ChunksBounded(c, Feed(lines));
      assert !NothingDropped(Reached(c, Feed(lines)).value);
    }
  }

  lemma {:induction false} ReadLinesValid(c: Config, es: seq<Event>)
    requires Reached(c, es).Some?
    ensures LinesValid(Reached(c, es).value.read)
  {
    if es != [] { ReadLinesValid(c, es[..|es| - 1]); }
  }

  lemma {:induction false} AllAccepted(taken: seq<Taken>)
    requires forall t | t in taken :: t.accepted
    ensures Accepted(taken) == Lines(taken)
  {
    if taken != [] { AllAccepted(taken[..|taken| - 1]); }
  }

  lemma {:induction false} SomeDropped(taken: seq<Taken>, k: nat)
    requires k < |taken| && !taken[k].accepted && taken[k].line != ""
    ensures |Concat(Accepted(taken))| < |Concat(Lines(taken))|
  {
    var front := taken[..|taken| - 1];
    LastLength(taken);
    if k < |front| { SomeDropped(front, k); } else { AcceptedLength(front); }
  }

  lemma {:induction false} LineOf(taken: seq<Taken>, k: nat)
    requires k < |taken|
    ensures taken[k].line in Lines(taken)
  {
    if k < |taken| - 1 { LineOf(taken[..|taken| - 1], k); }
  }

  /** The lines received are all buffered or uploaded exactly when none was dropped. */
  lemma AcceptedExactly(taken: seq<Taken>)
    requires LinesValid(Lines(taken))
    ensures if forall t | t in taken :: t.accepted then Concat(Accepted(taken)) == Concat(Lines(taken))
            else |Concat(Accepted(taken))| < |Concat(Lines(taken))|
  {
    if t :| t in taken && !t.accepted {
      var k :| 0 <= k < |taken| && taken[k] == t;
      LineOf(taken, k);
      SomeDropped(taken, k);
    } else {
      AllAccepted(taken);
    }
  }

  lemma {:induction false} SomeLine(lines: seq<string>)
    requires lines != [] && LinesValid(lines)
    ensures Concat(lines) != ""
  {
    assert lines[|lines| - 1] in lines;
  }

  lemma LongerByPending(lines: seq<string>, pending: seq<string>)
    requires LinesValid(lines + pending)
    ensures LinesValid(lines)
    ensures if pending == [] then Concat(lines) == Concat(lines + pending) else |Concat(lines)| < |Concat(lines + pending)|
  {
    var read := lines + pending;
    assert forall line | line in lines :: line in read;
    assert forall line | line in pending :: line in read;
    ConcatLength(lines, pending);
    if pending == [] { assert read == lines; } else { SomeLine(pending); }
  }

  lemma PendingLines(c: Config, s: State)
    requires Balanced(s) && LinesValid(s.read)
    ensures LinesValid(Lines(s.taken))
    ensures if s.queue == [] && s.hand == None then Concat(Lines(s.taken)) == Concat(s.read)
            else |Concat(Lines(s.taken))| < |Concat(s.read)|
  {
    var lines, queue, hand := Lines(s.taken), s.queue, InHand(s.hand);
    assert lines + queue + hand == lines + (queue + hand);
    LongerByPending(lines, queue + hand);
  }

  /** At any time, all that was read is uploaded exactly when the buffer, the channel and the hand of
      the reader are empty and no line was dropped. */
  lemma DeliveredExactly(c: Config, es: seq<Event>)
    requires Reached(c, es).Some?
    ensures var s := Reached(c, es).value;
            Uploaded(s.writer.log) == Concat(s.read)
            <==> s.writer.buffer == "" && s.queue == [] && s.hand == None && NothingDropped(s)
  {
    Ledger(c, es);
    ReadLinesValid(c, es);
    var s := Reached(c, es).value;
    PendingLines(c, s);
    AcceptedExactly(s.taken);
    AllTheWay(Uploaded(s.writer.log), s.writer.buffer, Concat(Accepted(s.taken)), Concat(Lines(s.taken)), Concat(s.read),
              NothingDropped(s), s.queue == [] && s.hand == None);
  }

  lemma AllTheWay(uploaded: string, buffer: string, accepted: string, received: string, read: string, kept: bool, drained: bool)
    requires uploaded + buffer == accepted
    requires if kept then accepted == received else |accepted| < |received|
    requires if drained then received == read else |received| < |read|
    ensures uploaded == read <==> buffer == "" && drained && kept
  {
    assert |accepted| == |uploaded| + |buffer|;
    if buffer == "" { assert uploaded + buffer == uploaded; }
  }

  /** An upload without content is attempted exactly for a line that is too long on its own, when
      nothing is buffered. */
  lemma EmptyChunkExactly(c: Config, s: State, e: Event)
    requires Enabled(s, e)
    ensures (exists a :: Apply(c, s, e).writer.log == s.writer.log + [a] && a.request.body == "")
            <==> e.Take? && s.writer.buffer == "" && |s.queue[0]| > c.max
  {
    var w, w' := s.writer, Apply(c, s, e).writer;
    if e.Take? && s.writer.buffer == "" && |s.queue[0]| > c.max {
      assert w'.log == w.log + [Attempt(RequestFor(w.scanID, c.scanName, ""), e.r)];
    }
    forall a | w'.log == w.log + [a] ensures a.request.body == w.buffer {
      assert a == w'.log[|w.log|];
    }
  }

  // ---- The identifier of the scan ----

  predicate Creates(a: Attempt) { a.request.post && Succeeds(a.response) && a.response.id.value != "" }

  /** A request creates a scan only while there is no identifier; from the first that appends, and
      from the first that was answered with an identifier, every later one appends. */
  ghost predicate Identified(w: Writer) {
    && (w.scanID == "" ==> forall a | a in w.log :: a.request.post && !Creates(a))
    && (forall a | a in w.log :: a.request.post <==> a.request.path == UPLOAD_ENDPOINT)
    && (forall i, j | 0 <= i < j < |w.log| && (!w.log[i].request.post || Creates(w.log[i])) :: !w.log[j].request.post)
  }

  lemma FlushIdentified(w: Writer, scanName: string, r: Response)
    requires Identified(w)
    ensures Identified(Flushed(w, scanName, r))
  {
    EndpointsDiffer(w.scanID);
    var a, w' := Attempt(RequestFor(w.scanID, scanName, w.buffer), r), Flushed(w, scanName, r);
    forall i, j | 0 <= i < j < |w'.log| && (!w'.log[i].request.post || Creates(w'.log[i])) ensures !w'.log[j].request.post {
      assert w'.log[i] == w.log[i] && w.log[i] in w.log;
    }
  }

  lemma {:induction false} ScanIDStable(c: Config, es: seq<Event>)
    requires Reached(c, es).Some?
    ensures Identified(Reached(c, es).value.writer)
  {
    if es != [] {
      var last := |es| - 1;
      ScanIDStable(c, es[..last]);
      var s := Reached(c, es[..last]).value;
      if es[last].Take? || es[last].Flush? || es[last].Exhaust? || es[last].Cancel? {
        FlushIdentified(s.writer, c.scanName, es[last].r);
      }
    }
  }

  /** Once set, the identifier stays, however the run goes on, unless a caller sets another. */
  lemma {:induction false} IDKept(c: Config, es: seq<Event>, later: seq<Event>)
    requires Reached(c, es).Some? && Reached(c, es + later).Some?
    requires Reached(c, es).value.writer.scanID != "" && forall e | e in later :: !e.SetID?
    ensures Reached(c, es + later).value.writer.scanID == Reached(c, es).value.writer.scanID
  {
    if later == [] {
      assert es + later == es;
    } else {
      var last := |later| - 1;
      assert (es + later)[..|es| + last] == es + later[..last];
      IDKept(c, es, later[..last]);
      assert later[last] in later && (es + later)[|es| + last] == later[last];
    }
  }

  ghost predicate SameScan(w: Writer) {
    && (forall a | a in w.log && !a.request.post :: a.request.path == AppendEndpoint(w.scanID))
    && (w.scanID != "" ==> exists a :: a in w.log && Creates(a) && a.response.id.value == w.scanID)
  }

  lemma FlushSameScan(w: Writer, scanName: string, r: Response)
    requires SameScan(w) && Identified(w)
    ensures SameScan(Flushed(w, scanName, r))
  {
    var a, w' := Attempt(RequestFor(w.scanID, scanName, w.buffer), r), Flushed(w, scanName, r);
    assert w'.log[|w.log|] == a;
    assert forall b | b in w.log :: b in w'.log;
  }

  /** Without such a caller all appending requests go to one scan: the one that the first answer
      with an identifier named. */
  lemma {:induction false} OneScan(c: Config, es: seq<Event>)
    requires Reached(c, es).Some? && forall e | e in es :: !e.SetID?
    ensures SameScan(Reached(c, es).value.writer)
  {
    if es != [] {
      var last := |es| - 1;
      OneScan(c, es[..last]);
      ScanIDStable(c, es[..last]);
      var s := Reached(c, es[..last]).value;
      assert es[last] in es;
      if es[last].Take? || es[last].Flush? || es[last].Exhaust? || es[last].Cancel? {
        FlushSameScan(s.writer, c.scanName, es[last].r);
      }
    }
  }

  // ---- The loop on a schedule ----

  predicate Ends(a: Arrival) { a.Closed? || a.Cancelled? }

  function Step(c: Config, w: Writer, a: Arrival): Writer {
    match a
    case Line(line, r) => Received(w, c.max, c.scanName, line, r)
    case _ => FlushedIfAny(w, c.scanName, a.r)
  }

  /** The loop on one more arrival, as long as none before ended it. */
  lemma {:induction false} CommittedNext(c: Config, w: Writer, arrivals: seq<Arrival>, a: Arrival)
    requires forall i | 0 <= i < |arrivals| :: !Ends(arrivals[i])
    ensures Committed(w, c.max, c.scanName, arrivals + [a]) == Step(c, Committed(w, c.max, c.scanName, arrivals), a)
    decreases |arrivals|
  {
    if arrivals == [] {
      assert [a][1..] == [];
    } else {
      assert (arrivals + [a])[0] == arrivals[0] && (arrivals + [a])[1..] == arrivals[1..] + [a];
      CommittedNext(c, Step(c, w, arrivals[0]), arrivals[1..], a);
    }
  }

  /** What an event is to the loop. */
  function ArrivalOf(s: State, e: Event): seq<Arrival>
    requires Enabled(s, e)
  {
    match e
    case Take(r) => [Line(s.queue[0], r)]
    case Flush(r) => [Tick(r)]
    case Exhaust(r) => [Closed(r)]
    case Cancel(r) => [Cancelled(r)]
    case _ => []
  }

  /** What arrives at the loop in a schedule, in order. */
  function Arrivals(c: Config, es: seq<Event>): seq<Arrival>
    requires Reached(c, es).Some?
  {
    if es == [] then [] else Arrivals(c, es[..|es| - 1]) + ArrivalOf(Reached(c, es[..|es| - 1]).value, es[|es| - 1])
  }

  lemma {:induction false} EndsLast(c: Config, es: seq<Event>)
    requires Reached(c, es).Some?
    ensures !Reached(c, es).value.done ==> forall i | 0 <= i < |Arrivals(c, es)| :: !Ends(Arrivals(c, es)[i])
  {
    if es != [] { EndsLast(c, es[..|es| - 1]); }
  }

  lemma OneArrival(c: Config, s: State, e: Event)
    requires Enabled(s, e) && !e.SetID?
    ensures Apply(c, s, e).writer == if ArrivalOf(s, e) == [] then s.writer else Step(c, s.writer, ArrivalOf(s, e)[0])
    ensures ArrivalOf(s, e) != [] ==> !s.done && ArrivalOf(s, e) == [ArrivalOf(s, e)[0]]
  {
  }

  /** In every schedule in which no caller sets an identifier, the writer is where its loop gets on what
      arrives at it: what is proved of schedules is proved of the loop. */
  lemma {:induction false} LoopFollowsSchedule(c: Config, es: seq<Event>)
    requires Reached(c, es).Some? && forall i | 0 <= i < |es| :: !es[i].SetID?
    ensures Reached(c, es).value.writer == Committed(INITIAL.writer, c.max, c.scanName, Arrivals(c, es))
  {
    if es != [] {
      var front, e := es[..|es| - 1], es[|es| - 1];
      var s := Reached(c, front).value;
      LoopFollowsSchedule(c, front);
      OneArrival(c, s, e);
      EndsLast(c, front);
      var next := ArrivalOf(s, e);
      if next == [] {
        assert Arrivals(c, front) + next == Arrivals(c, front);
      } else {
        CommittedNext(c, INITIAL.writer, Arrivals(c, front), next[0]);
      }
    }
  }
}
