/**
 The asynchronous log of src/async_log.cpp: any number of threads hand over whole lines, one writer
 thread prints them, and under a full queue the oldest lines give way to a notice.
 */
module AsyncLog {

  const MAX_QUEUED_BYTES := 8 * 1024 * 1024
  const NEWLINE := '\n'

  /** What reaches the console: a line, or a notice that so many bytes were dropped. */
  datatype Output = Text(line: string) | Notice(bytes: nat)

  function Bytes(lines: seq<string>): nat {
    if lines == [] then 0 else |lines[0]| + Bytes(lines[1..])
  }

  lemma {:induction false} BytesConcat(a: seq<string>, b: seq<string>)
    ensures Bytes(a + b) == Bytes(a) + Bytes(b)
  {
    if a == [] {
      assert a + b == b;
    } else {
      assert (a + b)[0] == a[0] && (a + b)[1..] == a[1..] + b;
      BytesConcat(a[1..], b);
    }
  }

  /** The lines as one text. */
  function Joined(lines: seq<string>): string {
    if lines == [] then "" else Joined(lines[..|lines| - 1]) + lines[|lines| - 1]
  }

  /** What is counted is the characters of the text. */
  lemma {:induction false} BytesAreLength(lines: seq<string>)
    ensures Bytes(lines) == |Joined(lines)|
  {
    if lines != [] {
      var last := lines[|lines| - 1];
      BytesAreLength(lines[..|lines| - 1]);
      BytesConcat(lines[..|lines| - 1], [last]);
      assert lines == lines[..|lines| - 1] + [last];
      assert [last][1..] == [];
    }
  }

  /** How many of the oldest lines must go: until the rest fits, but never the newest. */
  function DropCount(lines: seq<string>): (k: nat)
    ensures lines != [] ==> k < |lines|
  {
    if Bytes(lines) > MAX_QUEUED_BYTES && |lines| > 1 then 1 + DropCount(lines[1..]) else 0
  }

  // ---------------------------------------------------------------------------------------------
  // The shared queue and the writer thread
  // ---------------------------------------------------------------------------------------------

  /** `batch` and `dropped` are the writer's own variables; `output` is what it has printed. */
  datatype Log = Log(
    lines: seq<string>,
    bytes: nat,
    droppedBytes: nat,
    writing: bool,
    batch: seq<string>,
    dropped: nat,
    output: seq<Output>)

  const EmptyLog := Log([], 0, 0, false, [], 0, [])

  function Submit(l: Log, line: string): Log {
    var all := l.lines + [line];
    var k := DropCount(all);
    l.(lines := all[k..], bytes := Bytes(all[k..]), droppedBytes := l.droppedBytes + Bytes(all[..k]))
  }

  /** One step of the writer: wake up, print the notice, print a line, or go back to waiting. */
  datatype WriterAction = Take | PrintNotice | PrintLine | Finish

  predicate Enabled(l: Log, a: WriterAction) {
    match a
    case Take => !l.writing && l.lines != []
    case PrintNotice => l.writing && l.dropped != 0
    case PrintLine => l.writing && l.dropped == 0 && l.batch != []
    case Finish => l.writing && l.dropped == 0 && l.batch == []
  }

  function Act(l: Log, a: WriterAction): Log
    requires Enabled(l, a)
  {
    match a
    case Take =>
      l.(lines := [], bytes := 0, droppedBytes := 0, writing := true, batch := l.lines, dropped := l.droppedBytes)
    case PrintNotice => l.(output := l.output + [Notice(l.dropped)], dropped := 0)
    case PrintLine => l.(output := l.output + [Text(l.batch[0])], batch := l.batch[1..])
    case Finish => l.(writing := false)
  }

  /** What `flush` waits for. */
  predicate Drained(l: Log) {
    l.lines == [] && !l.writing
  }

  /** What dropping the line at `k`, after all before it, does to the sums. */
  lemma DropOldest(all: seq<string>, k: nat)
    requires k < |all|
    ensures all[k..][1..] == all[k + 1..] && all[k..][0] == all[k]
    ensures Bytes(all[..k + 1]) == Bytes(all[..k]) + |all[k]|
    ensures Bytes(all[k..]) == |all[k]| + Bytes(all[k + 1..])
    ensures Bytes(all[k..]) > MAX_QUEUED_BYTES && k + 1 < |all| ==> DropCount(all[k..]) == 1 + DropCount(all[k + 1..])
  {
    assert all[k..][1..] == all[k + 1..];
    assert all[..k + 1] == all[..k] + [all[k]];
    BytesConcat(all[..k], [all[k]]);
    assert [all[k]][1..] == [];
  }

  lemma NothingDropped(lines: seq<string>)
    requires !(Bytes(lines) > MAX_QUEUED_BYTES && |lines| > 1)
    ensures DropCount(lines) == 0
  {
  }

  lemma BytesAppend(lines: seq<string>, line: string)
    ensures Bytes(lines + [line]) == Bytes(lines) + |line|
    ensures Bytes((lines + [line])[..0]) == 0 && (lines + [line])[0..] == lines + [line]
  {
    BytesConcat(lines, [line]);
    assert [line][1..] == [];
  }

  class Queue {
    var lines: seq<string>
    var bytes: nat
    var droppedBytes: nat
    var writing: bool
    var batch: seq<string>
    var dropped: nat
    var output: seq<Output>

    function State(): Log
      reads this
    {
      Log(lines, bytes, droppedBytes, writing, batch, dropped, output)
    }

    constructor ()
      ensures State() == EmptyLog
    {
      lines, bytes, droppedBytes, writing := [], 0, 0, false;
      batch, dropped, output := [], 0, [];
    }

    method SubmitLine(line: string)
      requires bytes == Bytes(lines)
      modifies this`lines, this`bytes, this`droppedBytes
      ensures State() == Submit(old(State()), line)
    {
      hide Bytes, DropCount;
      ghost var all := lines + [line];
      ghost var k := 0;
      BytesAppend(lines, line);
      bytes := bytes + |line|;
      lines := lines + [line];
      while bytes > MAX_QUEUED_BYTES && |lines| > 1
        invariant 0 <= k < |all| && lines == all[k..] && bytes == Bytes(lines)
        invariant k + DropCount(lines) == DropCount(all)
        invariant droppedBytes == old(droppedBytes) + Bytes(all[..k])
        decreases |lines|
      {
        DropOldest(all, k);
        droppedBytes := droppedBytes + |lines[0]|;
        bytes := bytes - |lines[0]|;
        lines := lines[1..];
        k := k + 1;
      }
      NothingDropped(lines);
    }

    /** The part of the writer's loop that holds the mutex before printing. */
    method TakeBatch()
      requires Enabled(State(), Take)
      modifies this
      ensures State() == Act(old(State()), Take)
    {
      batch := lines;
      lines := [];
      bytes := 0;
      dropped := droppedBytes;
      droppedBytes := 0;
      writing := true;
    }

    method PrintDropped()
      requires Enabled(State(), PrintNotice)
      modifies this`output, this`dropped
      ensures State() == Act(old(State()), PrintNotice)
    {
      output := output + [Notice(dropped)];
      dropped := 0;
    }

    method PrintOldest()
      requires Enabled(State(), PrintLine)
      modifies this`output, this`batch
      ensures State() == Act(old(State()), PrintLine)
    {
      output := output + [Text(batch[0])];
      batch := batch[1..];
    }

    method FinishBatch()
      requires Enabled(State(), Finish)
      modifies this`writing
      ensures State() == Act(old(State()), Finish)
    {
      writing := false;
    }
  }

  // ---------------------------------------------------------------------------------------------
  // A thread's line buffer
  // ---------------------------------------------------------------------------------------------

  /** The part of `text` up to and including its last newline. */
  function Complete(text: string): (head: string)
    ensures head <= text
  {
    if text == "" then "" else if text[|text| - 1] == NEWLINE then text else Complete(text[..|text| - 1])
  }

  function Rest(text: string): string {
    text[|Complete(text)|..]
  }

  lemma {:induction false} CompleteEndsLine(text: string)
    ensures Complete(text) + Rest(text) == text
    ensures NEWLINE !in Rest(text)
    ensures Complete(text) == "" || Complete(text)[|Complete(text)| - 1] == NEWLINE
    ensures Complete(text) == "" <==> NEWLINE !in text
  {
    if text != "" && text[|text| - 1] != NEWLINE {
      var shorter := text[..|text| - 1];
      CompleteEndsLine(shorter);
      assert text == shorter + [text[|text| - 1]];
      assert Rest(text) == Rest(shorter) + [text[|text| - 1]];
    }
  }

  class LineBuffer {
    const queue: Queue
    var line: string

    constructor (queue: Queue)
      ensures this.queue == queue && line == ""
    {
      this.queue := queue;
      line := "";
    }

    /** The position just after the last newline, 0 if there is none. */
    method AfterLastNewline() returns (end: nat)
      ensures end == |Complete(line)|
    {
      end := |line|;
      assert line[..end] == line;
      while end > 0 && line[end - 1] != NEWLINE
        invariant end <= |line| && Complete(line) == Complete(line[..end])
      {
        assert line[..end][..end - 1] == line[..end - 1];
        end := end - 1;
      }
    }

    method Append(text: string)
      requires queue.bytes == Bytes(queue.lines)
      modifies this`line, queue
      ensures var all := old(line) + text;
              && line == Rest(all)
              && queue.State() == if Complete(all) == "" then old(queue.State())
                  else Submit(old(queue.State()), Complete(all))
    {
      line := line + text;
      var end := AfterLastNewline();
      assert line[..end] == Complete(line);
      if end != 0 {
        queue.SubmitLine(line[..end]);
        line := line[end..];
      }
    }

    /** The destructor: an unfinished line is handed over as it is. */
    method Close()
      requires queue.bytes == Bytes(queue.lines)
      modifies this`line, queue
      ensures line == ""
      ensures queue.State() == if old(line) == "" then old(queue.State()) else Submit(old(queue.State()), old(line))
    {
      if line != "" {
        queue.SubmitLine(line);
        line := "";
      }
    }
  }

  // ---------------------------------------------------------------------------------------------
  // Runs: every interleaving of the producers and the writer
  // ---------------------------------------------------------------------------------------------

  datatype Event =
    | Append(thread: nat, text: string)
    | Exit(thread: nat)
    | Write(action: WriterAction)

  datatype Entry = Entry(thread: nat, line: string)

  /** A chapter of the story the console tells: a line, or the lines that one notice stands for. */
  datatype Told = Written(line: string) | Lost(lines: seq<string>)

  /**
   The queue and the threads' pending text, with a record of what happened: all chunks submitted so far,
   and what the output and the counters stand for.
   */
  datatype Traced = Traced(
    log: Log,
    pending: map<nat, string>,
    history: seq<Entry>,
    story: seq<Told>,
    announced: seq<string>,   // the lines behind a notice the writer has yet to print
    unreported: seq<string>)  // the lines dropped since the writer last woke up

  const Start := Traced(EmptyLog, map[], [], [], [], [])

  function Pending(s: Traced, thread: nat): string {
    if thread in s.pending then s.pending[thread] else ""
  }

  function HandOver(s: Traced, thread: nat, chunk: string, rest: string): Traced {
    if chunk == "" then s.(pending := s.pending[thread := rest])
    else
      var all := s.log.lines + [chunk];
      s.(log := Submit(s.log, chunk), pending := s.pending[thread := rest],
         history := s.history + [Entry(thread, chunk)],
         unreported := s.unreported + all[..DropCount(all)])
  }

  function TracedStep(s: Traced, e: Event): Traced {
    match e
    case Append(thread, text) =>
      var all := Pending(s, thread) + text;
      HandOver(s, thread, Complete(all), Rest(all))
    case Exit(thread) => HandOver(s, thread, Pending(s, thread), "")
    case Write(action) =>
      if !Enabled(s.log, action) then s
      else
        var after := s.(log := Act(s.log, action));
        match action
        case Take => after.(announced := s.unreported, unreported := [])
        case PrintNotice => after.(story := s.story + [Lost(s.announced)], announced := [])
        case PrintLine => after.(story := s.story + [Written(s.log.batch[0])])
        case Finish => after
  }

  function Run(events: seq<Event>): Traced {
    if events == [] then Start else TracedStep(Run(events[..|events| - 1]), events[|events| - 1])
  }

  // ---------------------------------------------------------------------------------------------
  // The stream can be reconstructed
  // ---------------------------------------------------------------------------------------------

  function Lines(history: seq<Entry>): seq<string> {
    if history == [] then [] else Lines(history[..|history| - 1]) + [history[|history| - 1].line]
  }

  /** How a chapter appears on the console. */
  function Shown(t: Told): Output {
    match t
    case Written(line) => Text(line)
    case Lost(lines) => Notice(|Joined(lines)|)
  }

  function Render(story: seq<Told>): seq<Output> {
    if story == [] then [] else Render(story[..|story| - 1]) + [Shown(story[|story| - 1])]
  }

  /** The story with each notice replaced by the lines it stands for. */
  function Expand(story: seq<Told>): seq<string> {
    if story == [] then []
    else
      var last := story[|story| - 1];
      Expand(story[..|story| - 1]) + if last.Written? then [last.line] else last.lines
  }

  lemma StoryAppend(story: seq<Told>, t: Told)
    ensures Render(story + [t]) == Render(story) + [Shown(t)]
    ensures Expand(story + [t]) == Expand(story) + if t.Written? then [t.line] else t.lines
  {
    assert (story + [t])[..|story|] == story;
  }

  ghost predicate NoneEmpty(lines: seq<string>) {
    forall i :: 0 <= i < |lines| ==> lines[i] != ""
  }

  ghost predicate Invariant(s: Traced) {
    && s.log.bytes == Bytes(s.log.lines)
    && (s.log.bytes <= MAX_QUEUED_BYTES || |s.log.lines| == 1)
    && s.log.droppedBytes == Bytes(s.unreported)
    && s.log.dropped == Bytes(s.announced)
    && (!s.log.writing ==> s.log.batch == [] && s.announced == [])
    && (s.log.lines == [] ==> s.unreported == [])
    && NoneEmpty(s.log.lines) && NoneEmpty(s.unreported) && NoneEmpty(s.announced)
    && s.log.output == Render(s.story)
    && Lines(s.history) == Ledger(s)
  }

  /** Every chunk submitted, sorted by where it is now. */
  function Ledger(s: Traced): seq<string> {
    Expand(s.story) + (s.announced + (s.log.batch + (s.unreported + s.log.lines)))
  }

  lemma {:induction false} NonEmptyLinesHaveBytes(lines: seq<string>)
    requires NoneEmpty(lines)
    ensures Bytes(lines) == 0 <==> lines == []
  {
  }

  lemma {:induction false} DropCountFits(lines: seq<string>)
    requires lines != []
    ensures var k := DropCount(lines); Bytes(lines[k..]) <= MAX_QUEUED_BYTES || |lines[k..]| == 1
  {
    if Bytes(lines) > MAX_QUEUED_BYTES && |lines| > 1 {
      DropCountFits(lines[1..]);
      assert lines[1..][DropCount(lines[1..])..] == lines[DropCount(lines)..];
    }
  }

  lemma Associates(a: seq<string>, b: seq<string>, c: seq<string>)
    ensures a + (b + c) == a + b + c
  {
  }

  /** A new chunk goes to the end of the ledger, also when older lines move from the queue to the drops. */
  lemma LedgerGrows(e: seq<string>, a: seq<string>, b: seq<string>, u: seq<string>, l: seq<string>, chunk: string,
          k: nat)
    requires k <= |l| + 1
    ensures var all := l + [chunk];
            e + (a + (b + ((u + all[..k]) + all[k..]))) == (e + (a + (b + (u + l)))) + [chunk]
  {
    var all := l + [chunk];
    assert all[..k] + all[k..] == all;
    Associates(u, all[..k], all[k..]);
    Associates(u, l, [chunk]);
    Associates(b, u + l, [chunk]);
    Associates(a, b + (u + l), [chunk]);
    Associates(e, a + (b + (u + l)), [chunk]);
  }

  lemma HandOverKeeps(s: Traced, thread: nat, chunk: string, rest: string)
    requires Invariant(s)
    ensures Invariant(HandOver(s, thread, chunk, rest))
  {
    hide Render, Expand, Lines, DropCount, Bytes;
    if chunk != "" {
      var all := s.log.lines + [chunk];
      var k := DropCount(all);
      DropCountFits(all);
      assert k < |all| by { DropCountBelow(all); }
      BytesConcat(s.unreported, all[..k]);
      LinesAppend(s.history, Entry(thread, chunk));
      LedgerGrows(Expand(s.story), s.announced, s.log.batch, s.unreported, s.log.lines, chunk, k);
    }
  }

  lemma DropCountBelow(lines: seq<string>)
    requires lines != []
    ensures DropCount(lines) < |lines|
  {
  }

  lemma LinesAppend(history: seq<Entry>, e: Entry)
    ensures Lines(history + [e]) == Lines(history) + [e.line]
  {
    assert (history + [e])[..|history|] == history;
  }

  lemma WriteKeeps(s: Traced, action: WriterAction)
    requires Invariant(s)
    ensures Invariant(TracedStep(s, Write(action)))
  {
    hide Render, Expand, Lines, Bytes;
    NonEmptyLinesHaveBytes(s.announced);
    assert Bytes([]) == 0 by { NonEmptyLinesHaveBytes([]); }
    if Enabled(s.log, action) {
      match action {
        case Take => TakeLedger(Expand(s.story), s.unreported, s.log.lines);
        case PrintNotice =>
          StoryAppend(s.story, Lost(s.announced));
          BytesAreLength(s.announced);
          NoticeLedger(Expand(s.story), s.announced, s.log.batch + (s.unreported + s.log.lines));
        case PrintLine =>
          StoryAppend(s.story, Written(s.log.batch[0]));
          LineLedger(Expand(s.story), s.log.batch, s.unreported + s.log.lines);
        case Finish =>
      }
    }
  }

  lemma TakeLedger(e: seq<string>, u: seq<string>, l: seq<string>)
    ensures e + ([] + ([] + (u + l))) == e + (u + (l + ([] + [])))
  {
  }

  lemma NoticeLedger(e: seq<string>, a: seq<string>, rest: seq<string>)
    ensures e + (a + rest) == (e + a) + ([] + rest)
  {
    assert [] + rest == rest;
  }

  lemma LineLedger(e: seq<string>, batch: seq<string>, rest: seq<string>)
    requires batch != []
    ensures e + ([] + (batch + rest)) == (e + [batch[0]]) + ([] + (batch[1..] + rest))
  {
    assert batch == [batch[0]] + batch[1..];
    Associates([batch[0]], batch[1..], rest);
    Associates(e, [batch[0]], batch[1..] + rest);
    assert [] + (batch + rest) == batch + rest && [] + (batch[1..] + rest) == batch[1..] + rest;
  }

  lemma {:induction false} Reachable(events: seq<Event>)
    ensures Invariant(Run(events))
  {
    hide Invariant, HandOver, Act, Enabled;
    if events == [] {
      StartHolds();
    } else {
      var before, e := events[..|events| - 1], events[|events| - 1];
      Reachable(before);
      var s := Run(before);
      match e {
        case Append(thread, text) =>
          HandOverKeeps(s, thread, Complete(Pending(s, thread) + text), Rest(Pending(s, thread) + text));
        case Exit(thread) => HandOverKeeps(s, thread, Pending(s, thread), "");
        case Write(action) => WriteKeeps(s, action);
      }
    }
  }

  lemma StartHolds()
    ensures Invariant(Start)
  {
  }

  /**
   Over every interleaving: there is a way to replace each notice on the console by the lines it stands
   for, its number being their size in bytes, such that the result, followed by what the writer still has
   to announce and print, the drops not yet reported and the queue, is every chunk submitted so far, in
   submission order.
   */
  lemma StreamReconstruction(events: seq<Event>)
    returns (story: seq<Told>, announced: seq<string>, unreported: seq<string>)
    ensures var s := Run(events);
            && s.log.output == Render(story)
            && s.log.dropped == |Joined(announced)| && s.log.droppedBytes == |Joined(unreported)|
            && Lines(s.history) == Expand(story) + (announced + (s.log.batch + (unreported + s.log.lines)))
  {
    Reachable(events);
    var s := Run(events);
    story, announced, unreported := s.story, s.announced, s.unreported;
    BytesAreLength(announced);
    BytesAreLength(unreported);
  }

  /** When `flush` reports success, every chunk submitted so far is on the console or covered by a notice there. */
  lemma FlushedMeansToldAll(events: seq<Event>) returns (story: seq<Told>)
    requires Drained(Run(events).log)
    ensures Run(events).log.output == Render(story)
    ensures Lines(Run(events).history) == Expand(story)
  {
    Reachable(events);
    var s := Run(events);
    story := s.story;
    assert Expand(story) + ([] + ([] + ([] + []))) == Expand(story);
  }

  /** The byte counter is exact, and the queue is within its cap unless it holds a single line. */
  lemma QueueAccounting(events: seq<Event>)
    ensures var l := Run(events).log; l.bytes == |Joined(l.lines)| && (l.bytes <= 8 * 1024 * 1024 || |l.lines| == 1)
  {
    Reachable(events);
    BytesAreLength(Run(events).log.lines);
  }

  /** A submit keeps the longest run of newest lines that fits, and always the newest line. */
  lemma {:induction false} DropsAsFewAsPossible(lines: seq<string>, j: nat)
    requires lines != [] && j < DropCount(lines)
    ensures Bytes(lines[j..]) > MAX_QUEUED_BYTES
    ensures lines[DropCount(lines)..] != []
            && lines[DropCount(lines)..][|lines| - DropCount(lines) - 1] == lines[|lines| - 1]
  {
    if j != 0 {
      DropsAsFewAsPossible(lines[1..], j - 1);
      assert lines[1..][j - 1..] == lines[j..];
    } else {
      assert lines[0..] == lines;
    }
  }

  /**
   What one submit does to the queue: the new line goes to its end, and the oldest lines go, each of them
   only because the text from it on is longer than eight megabytes, until the rest fits or only the new line
   is left.
   */
  lemma SubmitKeepsNewest(l: Log, line: string) returns (k: nat)
    ensures var all := l.lines + [line]; var after := Submit(l, line);
            && k < |all| && after.lines == all[k..]
            && (forall j :: 0 <= j < k ==> |Joined(all[j..])| > 8 * 1024 * 1024)
            && (|Joined(all[k..])| <= 8 * 1024 * 1024 || k == |all| - 1)
            && after.bytes == |Joined(all[k..])|
            && after.droppedBytes == l.droppedBytes + |Joined(all[..k])|
            && after == l.(lines := after.lines, bytes := after.bytes, droppedBytes := after.droppedBytes)
  {
    hide Bytes, Joined, DropCount;
    var all := l.lines + [line];
    k := DropCount(all);
    DropCountBelow(all);
    DropCountFits(all);
    BytesAreLength(all[k..]);
    BytesAreLength(all[..k]);
    forall j | 0 <= j < k ensures |Joined(all[j..])| > 8 * 1024 * 1024 {
      DropsAsFewAsPossible(all, j);
      BytesAreLength(all[j..]);
    }
  }

  // ---------------------------------------------------------------------------------------------
  // Nothing is lost below the cap
  // ---------------------------------------------------------------------------------------------

  ghost predicate NothingLost(s: Traced) {
    s.unreported == [] && s.announced == [] && forall i :: 0 <= i < |s.story| ==> s.story[i].Written?
  }

  lemma {:induction false} LinesBytesGrow(events: seq<Event>)
    requires events != []
    ensures Bytes(Lines(Run(events[..|events| - 1]).history)) <= Bytes(Lines(Run(events).history))
  {
    hide Act, Enabled, Submit, Rest, Complete;
    var s, t := Run(events[..|events| - 1]), Run(events);
    if t.history != s.history {
      assert t.history[..|t.history| - 1] == s.history;
      BytesConcat(Lines(s.history), [t.history[|t.history| - 1].line]);
    }
  }

  /** As long as all chunks together fit under the cap, no line is ever dropped. */
  lemma {:induction false} BelowCapNothingIsLost(events: seq<Event>)
    requires Bytes(Lines(Run(events).history)) <= 8 * 1024 * 1024
    ensures NothingLost(Run(events))
  {
    hide HandOver, NothingLost, Rest, Complete, Bytes, Invariant, Act, Enabled;
    if events == [] {
      StartLosesNothing();
    } else {
      var before, e := events[..|events| - 1], events[|events| - 1];
      LinesBytesGrow(events);
      BelowCapNothingIsLost(before);
      Reachable(before);
      var s := Run(before);
      match e {
        case Append(thread, text) =>
          HandOverLosesNothing(s, thread, Complete(Pending(s, thread) + text), Rest(Pending(s, thread) + text));
        case Exit(thread) => HandOverLosesNothing(s, thread, Pending(s, thread), "");
        case Write(action) => WriteLosesNothing(s, action);
      }
    }
  }

  lemma StartLosesNothing()
    ensures NothingLost(Start)
  {
  }

  lemma HandOverLosesNothing(s: Traced, thread: nat, chunk: string, rest: string)
    requires Invariant(s) && NothingLost(s)
    requires Bytes(Lines(HandOver(s, thread, chunk, rest).history)) <= MAX_QUEUED_BYTES
    ensures NothingLost(HandOver(s, thread, chunk, rest))
  {
    hide Render, Expand, Lines, Bytes, DropCount;
    if chunk != "" {
      LinesAppend(s.history, Entry(thread, chunk));
      LedgerBelowCap(Expand(s.story), s.log.batch, s.log.lines, chunk);
      NothingDropped(s.log.lines + [chunk]);
    }
  }

  lemma LedgerBelowCap(e: seq<string>, b: seq<string>, l: seq<string>, chunk: string)
    ensures Bytes(l + [chunk]) <= Bytes(e + ([] + (b + ([] + l))) + [chunk])
  {
    hide Bytes;
    assert e + ([] + (b + ([] + l))) + [chunk] == (e + b) + (l + [chunk]);
    BytesConcat(e + b, l + [chunk]);
  }

  lemma WriteLosesNothing(s: Traced, action: WriterAction)
    requires Invariant(s) && NothingLost(s)
    ensures NothingLost(TracedStep(s, Write(action)))
  {
    hide Render, Expand, Lines, Bytes;
    assert Bytes([]) == 0 by { NonEmptyLinesHaveBytes([]); }
  }

  // ---------------------------------------------------------------------------------------------
  // The writer gets there
  // ---------------------------------------------------------------------------------------------

  /** How many steps of its own the writer needs before `flush` succeeds, if nothing more is submitted. */
  function StepsToDrain(l: Log): nat {
    (if l.writing then (if l.dropped != 0 then 1 else 0) + |l.batch| + 1 else 0) +
    (if l.lines != [] then 2 + (if l.droppedBytes != 0 then 1 else 0) + |l.lines| else 0)
  }

  /**
   Unless the log is drained exactly one writer action is enabled, and it brings the drained state one step
   nearer.
   */
  lemma WriterMakesProgress(events: seq<Event>)
    ensures var l := Run(events).log;
            && (Drained(l) <==> StepsToDrain(l) == 0)
            && (!Drained(l) ==> exists a :: Enabled(l, a))
            && (forall a :: Enabled(l, a) ==> StepsToDrain(Act(l, a)) == StepsToDrain(l) - 1)
            && (forall a, b :: Enabled(l, a) && Enabled(l, b) ==> a == b)
  {
    Reachable(events);
    var l := Run(events).log;
    assert Enabled(l, Take) || Enabled(l, PrintNotice) || Enabled(l, PrintLine) || Enabled(l, Finish) || Drained(l);
  }

  // ---------------------------------------------------------------------------------------------
  // Each thread's text arrives whole and in order
  // ---------------------------------------------------------------------------------------------

  /** Everything a thread appended, in order. */
  function AppendedBy(events: seq<Event>, thread: nat): string {
    if events == [] then ""
    else
      var e := events[|events| - 1];
      AppendedBy(events[..|events| - 1], thread) + if e.Append? && e.thread == thread then e.text else ""
  }

  /** The chunks a thread submitted, joined. */
  function SubmittedBy(history: seq<Entry>, thread: nat): string {
    if history == [] then ""
    else
      var last := history[|history| - 1];
      SubmittedBy(history[..|history| - 1], thread) + if last.thread == thread then last.line else ""
  }

  ghost predicate Lives(events: seq<Event>, thread: nat) {
    forall i :: 0 <= i < |events| ==> events[i] != Exit(thread)
  }

  /** Every chunk of the thread in the submission history ends in a newline. */
  ghost predicate EndsLines(history: seq<Entry>, thread: nat) {
    forall i :: 0 <= i < |history| && history[i].thread == thread ==>
      history[i].line != "" && history[i].line[|history[i].line| - 1] == '\n'
  }

  /**
   For any split of a thread's text into appends and any interleaving with other threads: its chunks in the
   submission history followed by its pending text are exactly what it appended. While it lives each chunk
   ends in a newline and the pending text has none.
   */
  lemma {:induction false} ThreadTextIsWhole(events: seq<Event>, thread: nat)
    ensures var s := Run(events);
            && SubmittedBy(s.history, thread) + Pending(s, thread) == AppendedBy(events, thread)
            && '\n' !in Pending(s, thread)
            && (Lives(events, thread) ==> EndsLines(s.history, thread))
  {
    hide TracedStep, Lines, EndsLines;
    if events == [] {
      assert EndsLines([], thread) by { NoLines(thread); }
    } else {
      var before, e := events[..|events| - 1], events[|events| - 1];
      ThreadTextIsWhole(before, thread);
      assert Lives(events, thread) ==> Lives(before, thread) && e != Exit(thread);
      StepKeepsText(Run(before), e, thread, AppendedBy(before, thread));
    }
  }

  lemma NoLines(thread: nat)
    ensures EndsLines([], thread)
  {
  }

  lemma StepKeepsText(s: Traced, e: Event, thread: nat, sofar: string)
    requires SubmittedBy(s.history, thread) + Pending(s, thread) == sofar && NEWLINE !in Pending(s, thread)
    ensures var t := TracedStep(s, e);
            && SubmittedBy(t.history, thread) + Pending(t, thread) ==
                sofar + (if e.Append? && e.thread == thread then e.text else "")
            && NEWLINE !in Pending(t, thread)
            && (EndsLines(s.history, thread) && e != Exit(thread) ==> EndsLines(t.history, thread))
  {
    hide Act, Enabled, HandOver, SubmittedBy, EndsLines, Complete, Rest, Pending;
    var submitted := SubmittedBy(s.history, thread);
    assert sofar + "" == sofar;
    match e {
      case Write(action) => WriteKeepsText(s, action, thread);
      case Append(other, text) =>
        var all := Pending(s, other) + text;
        CompleteEndsLine(all);
        HandOverText(s, other, Complete(all), Rest(all), thread);
        if other == thread {
          assert submitted + Complete(all) + Rest(all) == submitted + (Complete(all) + Rest(all));
          assert submitted + (Pending(s, thread) + text) == submitted + Pending(s, thread) + text;
        } else {
          assert submitted + "" == submitted;
        }
      case Exit(other) =>
        HandOverText(s, other, Pending(s, other), "", thread);
        if other == thread {
          assert submitted + Pending(s, thread) + "" == submitted + Pending(s, thread);
        } else {
          assert submitted + "" == submitted;
        }
    }
  }

  lemma WriteKeepsText(s: Traced, action: WriterAction, thread: nat)
    ensures var t := TracedStep(s, Write(action)); t.history == s.history && Pending(t, thread) == Pending(s, thread)
  {
  }

  lemma HandOverText(s: Traced, other: nat, chunk: string, rest: string, thread: nat)
    ensures var t := HandOver(s, other, chunk, rest);
            && SubmittedBy(t.history, thread) ==
                SubmittedBy(s.history, thread) + (if other == thread then chunk else "")
            && Pending(t, thread) == (if other == thread then rest else Pending(s, thread))
            && (EndsLines(s.history, thread) && !(other == thread && chunk != "" && chunk[|chunk| - 1] != NEWLINE)
                ==> EndsLines(t.history, thread))
  {
    hide Submit, EndsLines, SubmittedBy;
    assert SubmittedBy(s.history, thread) + "" == SubmittedBy(s.history, thread);
    if chunk != "" {
      SubmittedAppend(s.history, Entry(other, chunk), thread);
      EndsLinesAppend(s.history, Entry(other, chunk), thread);
    }
  }

  lemma SubmittedAppend(history: seq<Entry>, e: Entry, thread: nat)
    ensures SubmittedBy(history + [e], thread) ==
            SubmittedBy(history, thread) + if e.thread == thread then e.line else ""
  {
    assert (history + [e])[..|history|] == history;
  }

  lemma EndsLinesAppend(history: seq<Entry>, e: Entry, thread: nat)
    requires e.line != ""
    ensures EndsLines(history, thread) && !(e.thread == thread && e.line[|e.line| - 1] != NEWLINE) ==>
            EndsLines(history + [e], thread)
  {
  }

  /** How a living thread splits its text into appends makes no difference to what it has submitted in all. */
  lemma SplitDoesNotMatter(a: seq<Event>, b: seq<Event>, thread: nat)
    requires Lives(a, thread) && Lives(b, thread) && AppendedBy(a, thread) == AppendedBy(b, thread)
    ensures SubmittedBy(Run(a).history, thread) == SubmittedBy(Run(b).history, thread) ==
            Complete(AppendedBy(a, thread))
    ensures Pending(Run(a), thread) == Pending(Run(b), thread)
  {
    hide Run, SubmittedBy, EndsLines, Complete, AppendedBy, Pending;
    ThreadTextIsWhole(a, thread);
    ThreadTextIsWhole(b, thread);
    JoinedEndsLine(Run(a).history, thread);
    JoinedEndsLine(Run(b).history, thread);
    CompleteIsUnique(SubmittedBy(Run(a).history, thread), Pending(Run(a), thread));
    CompleteIsUnique(SubmittedBy(Run(b).history, thread), Pending(Run(b), thread));
    var head := Complete(AppendedBy(a, thread));
    assert (head + Pending(Run(a), thread))[|head|..] == Pending(Run(a), thread);
    assert (head + Pending(Run(b), thread))[|head|..] == Pending(Run(b), thread);
  }

  lemma {:induction false} JoinedEndsLine(history: seq<Entry>, thread: nat)
    requires EndsLines(history, thread)
    ensures var joined := SubmittedBy(history, thread); joined == "" || joined[|joined| - 1] == NEWLINE
  {
    if history != [] {
      JoinedEndsLine(history[..|history| - 1], thread);
    }
  }

  lemma {:induction false} CompleteIsUnique(head: string, tail: string)
    requires head == "" || head[|head| - 1] == NEWLINE
    requires NEWLINE !in tail
    ensures Complete(head + tail) == head
  {
    if tail == "" {
      assert head + tail == head;
    } else {
      var all := head + tail;
      assert all[|all| - 1] == tail[|tail| - 1];
      assert all[..|all| - 1] == head + tail[..|tail| - 1];
      CompleteIsUnique(head, tail[..|tail| - 1]);
    }
  }
}
