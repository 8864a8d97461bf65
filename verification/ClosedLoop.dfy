/**
 The closed loop: AgOpenGPS demands sections, the task controller sends setpoint blocks, the implement
 echoes each block as its actual state some time later, and the heartbeat reports back to AgOpenGPS.
 */
module ClosedLoop {
  import opened Bits
  import opened DeviceDescriptor
  import opened ElementHierarchy
  import opened MeasurementIndex
  import opened SectionControl
  import opened ServerModel
  import opened SectionRuns
  import opened SetpointDelivery
  import opened Heartbeat

  const AOG_SOURCE := 0x7F
  const PGN_SECTIONS := 0xE5
  const PGN_CONTROL := 0xF1

  /** What a packet from AgOpenGPS asks of the task controller, as far as section control goes. */
  function PacketRequest(src: Byte, pgn: Byte, data: seq<Byte>): Option<Request> {
    if src != AOG_SOURCE then None
    else if pgn == PGN_SECTIONS && |data| >= DEMAND_BYTES then Some(Demand(DemandBits(data)))
    else if pgn == PGN_CONTROL && data != [] then Some(Control(data[0] == 1))
    else None
  }

  /**
   What the packets mean: PGN 0xE5 from 0x7F with at least 8 bytes demands 64 sections, section `8 * j + i`
   by bit `i` of byte `j`; PGN 0xF1 from there with at least a byte asks for automatic mode if that is 1 and
   for manual mode otherwise; all other packets ask for nothing.
   */
  lemma PacketMeans(src: Byte, pgn: Byte, data: seq<Byte>)
    ensures var request := PacketRequest(src, pgn, data);
            if src == 0x7F && pgn == 0xE5 && |data| >= 8 then
              && request.Some? && request.value.Demand? && |request.value.states| == 64
              && forall i :: 0 <= i < 64 ==>
                   (request.value.states[i] <==> data[i / 8] / [1, 2, 4, 8, 16, 32, 64, 128][i % 8] % 2 == 1)
            else if src == 0x7F && pgn == 0xF1 && data != [] then request == Some(Control(data[0] == 1))
            else request == None
  {
    hide BitSet;
    if |data| >= 8 {
      DemandDigits(data);
    }
  }

  /**
   The client, the blocks its implement has received and not yet echoed, and the last demand received in
   automatic mode (a section that no demand has covered yet is not demanded).
   */
  datatype Loop = Loop(client: Client, pending: seq<Message>, demanded: seq<bool>)

  datatype LoopEvent =
    | Packet(src: Byte, pgn: Byte, data: seq<Byte>)
    | Echo                                 // the implement reports the oldest block it has not echoed
    | Mode(element: nat, value: int)       // the implement reports its section control state (DDI 160)
    | Work(element: nat, value: int)       // an element reports its work state (DDI 141)
    | Quality(quality: nat)
    | Measurement

  /** Which element each block is echoed from. */
  type EchoElements = nat -> nat

  function EchoValue(m: Message): int
    requires m.SetValue?
  {
    if m.value < TWO_POW_32 then ToInt32(m.value) else m.value
  }

  function LoopStep(l: Loop, e: LoopEvent, echo: EchoElements): Loop {
    match e
    case Packet(src, pgn, data) =>
      var request := PacketRequest(src, pgn, data);
      if request.Some? then LoopRequest(l, request.value) else l
    case Echo =>
      if l.pending == [] then l
      else if !CarriesAnyBlock(l.pending[0]) then l.(pending := l.pending[1..])
      else
        var m := l.pending[0];
        l.(client := Report(l.client, ACTUAL_CONDENSED_FIRST + BlockOf(m), echo(BlockOf(m)), EchoValue(m)),
           pending := l.pending[1..])
    case Mode(element, value) => l.(client := Report(l.client, SECTION_CONTROL_STATE, element, value))
    case Work(element, value) => l.(client := Report(l.client, ACTUAL_WORK_STATE, element, value))
    case Quality(quality) => LoopRequest(l, Gnss(quality))
    case Measurement => LoopRequest(l, Measure)
  }

  /** Serves the request; the implement receives the new block values. */
  function LoopRequest(l: Loop, request: Request): Loop {
    var after := Serve(l.client, request);
    var added := BlockMessages(if |l.client.sent| <= |after.sent| then after.sent[|l.client.sent|..] else []);
    Loop(after, l.pending + added,
         if request.Demand? && l.client.auto then Covered(l.demanded, request.states) else l.demanded)
  }

  /** `demanded` with the sections that the demand covers replaced. */
  function Covered(demanded: seq<bool>, states: seq<bool>): (r: seq<bool>)
    ensures |r| == |demanded|
    ensures forall i :: 0 <= i < |r| ==> r[i] == if i < |states| then states[i] else demanded[i]
  {
    seq(|demanded|, i requires 0 <= i < |demanded| => if i < |states| then states[i] else demanded[i])
  }

  function LoopRun(l: Loop, events: seq<LoopEvent>, echo: EchoElements): Loop {
    if events == [] then l else LoopStep(LoopRun(l, events[..|events| - 1], echo), events[|events| - 1], echo)
  }

  // ---------------------------------------------------------------------------------------------
  // What the task controller will know once every pending block has been echoed
  // ---------------------------------------------------------------------------------------------

  datatype Picture = Picture(actual: seq<nat>, element: seq<nat>)

  function Echoed(p: Picture, m: Message, echo: EchoElements): Picture
    requires CarriesAnyBlock(m)
  {
    var first := SECTIONS_PER_MESSAGE * BlockOf(m);
    Picture(WithFields(p.actual, first, EchoValue(m), SECTIONS_PER_MESSAGE),
            WithElement(p.element, first, echo(BlockOf(m)), SECTIONS_PER_MESSAGE))
  }

  ghost predicate AllBlocks(messages: seq<Message>) {
    forall i :: 0 <= i < |messages| ==> CarriesAnyBlock(messages[i])
  }

  function Drained(p: Picture, pending: seq<Message>, echo: EchoElements): Picture
    requires AllBlocks(pending)
    decreases |pending|
  {
    if pending == [] then p else Drained(Echoed(p, pending[0], echo), pending[1..], echo)
  }

  lemma {:induction false} DrainedConcat(p: Picture, a: seq<Message>, b: seq<Message>, echo: EchoElements)
    requires AllBlocks(a) && AllBlocks(b)
    ensures AllBlocks(a + b)
    ensures Drained(p, a + b, echo) == Drained(Drained(p, a, echo), b, echo)
    decreases |a|
  {
    hide CarriesAnyBlock, Echoed;
    if a == [] {
      assert a + b == b;
    } else {
      assert (a + b)[0] == a[0] && (a + b)[1..] == a[1..] + b;
      DrainedConcat(Echoed(p, a[0], echo), a[1..], b, echo);
    }
  }

  /** The picture agrees with the setpoints, and every section that is on was echoed from its block's element. */
  ghost predicate Agrees(p: Picture, setpoint: seq<nat>, echo: EchoElements) {
    && p.actual == setpoint && |p.element| == |setpoint|
    && forall i :: 0 <= i < |setpoint| && setpoint[i] == ON ==> p.element[i] == echo(i / SECTIONS_PER_MESSAGE)
  }

  ghost predicate AllTargets(c: Client) {
    forall b: nat :: b < Blocks(c.n) ==> BlockTarget(c, b).Some?
  }

  /** Echoing the changed blocks takes a picture of the old setpoints to one of the new ones. */
  lemma {:induction false} EchoFollowsSweep(c: Client, demand: seq<bool>, b: nat, p: Picture, echo: EchoElements)
    requires Regular(c) && AllTargets(c) && b <= Blocks(c.n) <= BLOCK_COUNT
    requires Agrees(p, c.setpoint, echo)
    ensures AllBlocks(ChangedMessages(c, demand, b))
    ensures Agrees(Drained(p, ChangedMessages(c, demand, b), echo),
            Swept(c.setpoint, demand, SECTIONS_PER_MESSAGE * b), echo)
  {
    hide Agrees, Echoed, CarriesAnyBlock, BlockChanged, BlockMessage, BlockTarget, Swept, WellFormed, Blocks;
    ChangedMessagesShape(c, demand, b);
    if b == 0 {
      NothingSwept(c.setpoint, demand);
    } else {
      EchoFollowsSweep(c, demand, b - 1, p, echo);
      var before := ChangedMessages(c, demand, b - 1);
      var q := Drained(p, before, echo);
      assert SECTIONS_PER_MESSAGE * (b - 1 + 1) == SECTIONS_PER_MESSAGE * b;
      if BlockChanged(c.setpoint, demand, b - 1) {
        SameTarget(c, c.(setpoint := Swept(c.setpoint, demand, |c.setpoint|)), b - 1);
        var m := BlockMessage(c.(setpoint := Swept(c.setpoint, demand, |c.setpoint|)), b - 1);
        assert ChangedMessages(c, demand, b) == before + [m];
        assert (before + [m])[|before|] == m && [m][0] == m;
        DrainedConcat(p, before, [m], echo);
        DrainedOne(q, m, echo);
        EchoOneBlock(c, demand, b - 1, q, echo);
      } else {
        assert ChangedMessages(c, demand, b) == before;
        UnchangedSweep(c.setpoint, demand, b - 1);
      }
    }
  }

  lemma DrainedOne(p: Picture, m: Message, echo: EchoElements)
    requires CarriesAnyBlock(m)
    ensures AllBlocks([m]) && Drained(p, [m], echo) == Echoed(p, m, echo)
  {
    hide Echoed, CarriesAnyBlock;
    assert [m][1..] == [];
    assert Drained(Echoed(p, m, echo), [], echo) == Echoed(p, m, echo);
  }

  lemma NothingSwept(setpoint: seq<nat>, demand: seq<bool>)
    ensures Swept(setpoint, demand, SECTIONS_PER_MESSAGE * 0) == setpoint
  {
  }

  /** Echoing the value of block `b` gives its states back. */
  lemma EchoedStates(states: seq<nat>, b: nat, i: nat)
    requires AllFields(states) && i < SECTIONS_PER_MESSAGE && SECTIONS_PER_MESSAGE * b + i < |states|
    ensures BlockValue(states, b) < TWO_POW_32
    ensures Field(ToInt32(BlockValue(states, b)), i) == states[SECTIONS_PER_MESSAGE * b + i]
  {
    hide PackFields, Field, ToInt32;
    assert AllFields(Block(states, b));
    CondensedRoundTrip(Block(states, b), i);
  }

  lemma EchoOneBlock(c: Client, demand: seq<bool>, b: nat, q: Picture, echo: EchoElements)
    requires Regular(c) && b < BLOCK_COUNT && BlockTarget(c, b).Some?
    requires Agrees(q, Swept(c.setpoint, demand, SECTIONS_PER_MESSAGE * b), echo)
    ensures var m := BlockMessage(c.(setpoint := Swept(c.setpoint, demand, |c.setpoint|)), b);
            && CarriesAnyBlock(m)
            && Agrees(Echoed(q, m, echo), Swept(c.setpoint, demand, SECTIONS_PER_MESSAGE * (b + 1)), echo)
  {
    hide BlockValue, Field, ToInt32, IsDdiSettable, DemandedState;
    var end := c.(setpoint := Swept(c.setpoint, demand, |c.setpoint|));
    var m := BlockMessage(end, b);
    BlockMessageIsAbout(end, b);
    SweptStates(c.setpoint, demand);
    var first := SECTIONS_PER_MESSAGE * b;
    var after := Echoed(q, m, echo);
    var swept := Swept(c.setpoint, demand, SECTIONS_PER_MESSAGE * (b + 1));
    forall i | 0 <= i < |swept| ensures after.actual[i] == swept[i] {
      if first <= i < first + SECTIONS_PER_MESSAGE {
        EchoedStates(end.setpoint, b, i - first);
      }
    }
    assert after.actual == swept;
    forall i | 0 <= i < |swept| && swept[i] == ON ensures after.element[i] == echo(i / SECTIONS_PER_MESSAGE) {
      if first <= i < first + SECTIONS_PER_MESSAGE {
        assert i / SECTIONS_PER_MESSAGE == b;
      }
    }
  }

  lemma SweptStates(setpoint: seq<nat>, demand: seq<bool>)
    requires forall i :: 0 <= i < |setpoint| ==> setpoint[i] == OFF || setpoint[i] == ON
    ensures var swept := Swept(setpoint, demand, |setpoint|);
            && (forall i :: 0 <= i < |swept| ==> swept[i] == OFF || swept[i] == ON)
            && forall b: nat :: AllFields(Block(swept, b))
  {
  }

  // ---------------------------------------------------------------------------------------------
  // The invariant of the loop
  // ---------------------------------------------------------------------------------------------

  /** The setpoints are the last automatic demand. */
  ghost predicate FollowsDemand(c: Client, demanded: seq<bool>)
    requires WellFormed(c)
  {
    |demanded| == c.n && forall i :: 0 <= i < c.n ==> (c.setpoint[i] == ON <==> demanded[i])
  }

  function PictureOf(c: Client): Picture {
    Picture(c.actual, c.sectionElement)
  }

  ghost predicate LoopInvariant(l: Loop, echo: EchoElements) {
    && Regular(l.client) && l.client.subscribed && !l.client.perElement && AllTargets(l.client)
    && FollowsDemand(l.client, l.demanded)
    && AllBlocks(l.pending)
    && Agrees(Drained(PictureOf(l.client), l.pending, echo), l.client.setpoint, echo)
  }

  lemma {:induction false} BlockMessagesAreBlocks(sent: seq<Message>)
    ensures AllBlocks(BlockMessages(sent))
  {
    if sent != [] {
      BlockMessagesAreBlocks(sent[..|sent| - 1]);
    }
  }

  /** What a demand in automatic mode adds for the implement: exactly the changed blocks. */
  lemma DemandAdds(c: Client, states: seq<bool>)
    requires Regular(c) && c.auto && c.n > 0
    ensures var after := UpdateSections(c, states);
            |c.sent| <= |after.sent| && BlockMessages(after.sent[|c.sent|..]) == ChangedMessages(c, states, Blocks(c.n))
  {
    hide SweepBlocks, BlockMessages, ChangedMessages;
    var after := UpdateSections(c, states);
    UpdateSectionsFrame(c, states);
    SweepMessages(c, states, Blocks(c.n));
    var added, expected := after.sent[|c.sent|..], ChangedMessages(c, states, Blocks(c.n));
    assert after.sent == c.sent + added;
    BlockMessagesConcat(c.sent, added);
    assert (BlockMessages(c.sent) + BlockMessages(added))[|BlockMessages(c.sent)|..] == BlockMessages(added);
    assert (BlockMessages(c.sent) + expected)[|BlockMessages(c.sent)|..] == expected;
  }

  lemma DemandKeepsLoop(l: Loop, states: seq<bool>, echo: EchoElements)
    requires LoopInvariant(l, echo)
    ensures LoopInvariant(LoopRequest(l, Demand(states)), echo)
  {
    hide SweepBlocks, BlockMessages, ChangedMessages, Drained, BlockTarget, IsDdiSettable, CarriesAnyBlock, Agrees,
         AllFields;
    var c := l.client;
    var after := UpdateSections(c, states);
    if c.auto && c.n > 0 {
      UpdateSectionsFrame(c, states);
      DemandAdds(c, states);
      var added := ChangedMessages(c, states, Blocks(c.n));
      var now := Drained(PictureOf(c), l.pending, echo);
      EchoFollowsSweep(c, states, Blocks(c.n), now, echo);
      SweptToTheEnd(c.setpoint, states, Blocks(c.n));
      DrainedConcat(PictureOf(c), l.pending, added, echo);
      SameTargets(c, after);
    } else {
      assert LoopRequest(l, Demand(states)).pending == l.pending by { NoMessages(c); }
    }
  }

  lemma SweptToTheEnd(setpoint: seq<nat>, demand: seq<bool>, b: nat)
    requires |setpoint| <= SECTIONS_PER_MESSAGE * b
    ensures Swept(setpoint, demand, SECTIONS_PER_MESSAGE * b) == Swept(setpoint, demand, |setpoint|)
  {
    hide DemandedState;
  }

  lemma NoMessages(c: Client)
    ensures BlockMessages(c.sent[|c.sent|..]) == []
  {
  }

  lemma SameTargets(c: Client, after: Client)
    requires c.ddiElement == after.ddiElement && c.pool == after.pool && c.n == after.n
    ensures AllTargets(c) == AllTargets(after)
  {
    hide IsDdiSettable;
    assert forall b: nat :: BlockTarget(c, b) == BlockTarget(after, b);
  }

  lemma OthersKeepLoop(l: Loop, after: Client, others: seq<Message>, echo: EchoElements)
    requires LoopInvariant(l, echo) && OnlyOthersSent(l.client, after, others)
    ensures LoopInvariant(Loop(after, l.pending + BlockMessages(after.sent[|l.client.sent|..]), l.demanded), echo)
  {
    hide Drained, BlockTarget, IsDdiSettable, CarriesAnyBlock, Agrees, AllFields, BlockMessages;
    assert after.sent[|l.client.sent|..] == others;
    NoBlockMessages(others);
    assert l.pending + [] == l.pending;
    SameTargets(l.client, after);
  }

  lemma EchoKeepsLoop(l: Loop, echo: EchoElements)
    requires LoopInvariant(l, echo) && l.pending != []
    ensures LoopInvariant(LoopStep(l, Echo, echo), echo)
  {
    hide BlockTarget, IsDdiSettable, Agrees, Field, EchoValue;
    var c, m := l.client, l.pending[0];
    var after := LoopStep(l, Echo, echo).client;
    assert CarriesAnyBlock(m);
    EchoIsReport(c, m, echo);
    ReportFrame(c, ACTUAL_CONDENSED_FIRST + BlockOf(m), echo(BlockOf(m)), EchoValue(m));
    SameTargets(c, after);
  }

  lemma EchoIsReport(c: Client, m: Message, echo: EchoElements)
    requires WellFormed(c) && CarriesAnyBlock(m)
    ensures var after := Report(c, ACTUAL_CONDENSED_FIRST + BlockOf(m), echo(BlockOf(m)), EchoValue(m));
            WellFormed(after) && PictureOf(after) == Echoed(PictureOf(c), m, echo)
  {
    hide Field, EchoValue, AllFields, WithFields, WithElement;
    ReportKeepsWellFormed(c, ACTUAL_CONDENSED_FIRST + BlockOf(m), echo(BlockOf(m)), EchoValue(m));
  }

  /** Reports of the mode and of an element's work state leave section states and setpoints alone. */
  lemma ReportKeepsLoop(l: Loop, ddi: nat, element: nat, value: int, echo: EchoElements)
    requires LoopInvariant(l, echo) && (ddi == SECTION_CONTROL_STATE || ddi == ACTUAL_WORK_STATE)
    ensures LoopInvariant(l.(client := Report(l.client, ddi, element, value)), echo)
  {
    hide BlockTarget, IsDdiSettable, Agrees, Drained, CarriesAnyBlock, AllFields;
    var after := Report(l.client, ddi, element, value);
    ReportKeepsWellFormed(l.client, ddi, element, value);
    ReportFrame(l.client, ddi, element, value);
    assert PictureOf(after) == PictureOf(l.client);
    SameTargets(l.client, after);
  }

  lemma RequestKeepsLoop(l: Loop, request: Request, echo: EchoElements)
    requires LoopInvariant(l, echo)
    ensures LoopInvariant(LoopRequest(l, request), echo)
  {
    hide LoopInvariant, UpdateSections, UpdateControl, SendGnss, Subscribe, BlockMessages;
    LoopClient(l, echo);
    match request {
      case Demand(states) => DemandKeepsLoop(l, states, echo);
      case Control(enabled) =>
        var others := ControlAppends(l.client, enabled);
        OthersKeepLoop(l, UpdateControl(l.client, enabled), others, echo);
      case Gnss(quality) =>
        var others := GnssAppends(l.client, quality);
        OthersKeepLoop(l, SendGnss(l.client, quality), others, echo);
      case Measure =>
        NoMessages(l.client);
        assert LoopRequest(l, request) == l;
    }
  }

  lemma LoopClient(l: Loop, echo: EchoElements)
    requires LoopInvariant(l, echo)
    ensures Subscribe(l.client) == l.client
  {
    hide BlockTarget, Agrees, Drained, CarriesAnyBlock, AllFields, BuiltIndex, BuiltCommands;
  }

  lemma StepKeepsLoop(l: Loop, e: LoopEvent, echo: EchoElements)
    requires LoopInvariant(l, echo)
    ensures LoopInvariant(LoopStep(l, e, echo), echo)
  {
    hide LoopInvariant, LoopRequest, Report, Echoed, DemandBits;
    match e {
      case Packet(src, pgn, data) =>
        var request := PacketRequest(src, pgn, data);
        if request.Some? {
          RequestKeepsLoop(l, request.value, echo);
        }
      case Echo =>
        if l.pending != [] {
          EchoKeepsLoop(l, echo);
        }
      case Mode(element, value) => ReportKeepsLoop(l, SECTION_CONTROL_STATE, element, value, echo);
      case Work(element, value) => ReportKeepsLoop(l, ACTUAL_WORK_STATE, element, value, echo);
      case Quality(quality) => RequestKeepsLoop(l, Gnss(quality), echo);
      case Measurement => RequestKeepsLoop(l, Measure, echo);
    }
  }

  lemma {:induction false} RunKeepsLoop(l: Loop, events: seq<LoopEvent>, echo: EchoElements)
    requires LoopInvariant(l, echo)
    ensures LoopInvariant(LoopRun(l, events, echo), echo)
  {
    hide LoopInvariant, LoopStep;
    if events != [] {
      RunKeepsLoop(l, events[..|events| - 1], echo);
      StepKeepsLoop(LoopRun(l, events[..|events| - 1], echo), events[|events| - 1], echo);
    }
  }

  // ---------------------------------------------------------------------------------------------
  // The heartbeat closes the loop
  // ---------------------------------------------------------------------------------------------

  /** The loop just after the subscription pass of a client that has neither been told nor reported anything on. */
  ghost predicate LoopStart(l: Loop) {
    && Mirrored(l.client) && l.client.subscribed && !l.client.perElement && AllTargets(l.client)
    && l.pending == [] && |l.demanded| == l.client.n
    && forall i :: 0 <= i < l.client.n ==> l.client.setpoint[i] == OFF && l.client.actual[i] == OFF && !l.demanded[i]
  }

  lemma StartIsInvariant(l: Loop, echo: EchoElements)
    requires LoopStart(l)
    ensures LoopInvariant(l, echo)
  {
    hide BlockTarget, IsDdiSettable, BlockMirrored;
    assert l.client.actual == l.client.setpoint;
  }

  /** No element that echoes a block is off, nor any element above it. */
  ghost predicate EchoElementsOn(c: Client, echo: EchoElements) {
    forall b: nat :: b < Blocks(c.n) ==> !ElementOrParentOff(c, echo(b))
  }

  /**
   Over any run of packets, echoes, mode and work state reports from such a start: whenever the implement
   has echoed everything it received, and no echoing element or ancestor is reported off, every section is
   shown as on exactly when the last demand received in automatic mode had it on; sections that no demand
   ever covered are off. The heartbeat sent at that moment carries just these bits.
   */
  lemma HeartbeatEchoesDemand(start: Loop, events: seq<LoopEvent>, echo: EchoElements, heartbeat: seq<nat>, i: nat)
    requires LoopStart(start)
    requires var l := LoopRun(start, events, echo); l.pending == [] && EchoElementsOn(l.client, echo)
    requires WellFormed(LoopRun(start, events, echo).client)
            && IsHeartbeat(LoopRun(start, events, echo).client, heartbeat)
    requires i < start.client.n
    ensures var l := LoopRun(start, events, echo);
            && |l.demanded| == l.client.n == start.client.n == |start.demanded|
            && |heartbeat| == 2 + (l.client.n + 7) / 8
            && (BitSet(heartbeat[2 + i / 8], i % 8) <==> l.demanded[i])
  {
    hide LoopRun, BlockTarget, IsDdiSettable, Regular, BitSet, ElementOrParentOff, AllFields;
    StartIsInvariant(start, echo);
    RunKeepsLoop(start, events, echo);
    LoopShape(start, events, echo);
    var l := LoopRun(start, events, echo);
    var c := l.client;
    RegularIsWellFormed(c);
    assert PictureOf(c).actual == c.setpoint;
    assert i / SECTIONS_PER_MESSAGE < Blocks(c.n);
    assert ShowsBit(c, heartbeat, i);
    assert ActualState(c, i) == ON <==> c.setpoint[i] == ON;
  }

  lemma RegularIsWellFormed(c: Client)
    requires Regular(c)
    ensures WellFormed(c)
  {
  }

  lemma {:induction false} LoopShape(l: Loop, events: seq<LoopEvent>, echo: EchoElements)
    requires LoopInvariant(l, echo)
    ensures LoopRun(l, events, echo).client.n == l.client.n
  {
    hide LoopInvariant, LoopStep;
    if events != [] {
      var before := events[..|events| - 1];
      LoopShape(l, before, echo);
      RunKeepsLoop(l, before, echo);
      LoopStepShape(LoopRun(l, before, echo), events[|events| - 1], echo);
    }
  }

  lemma LoopStepShape(l: Loop, e: LoopEvent, echo: EchoElements)
    requires LoopInvariant(l, echo)
    ensures LoopStep(l, e, echo).client.n == l.client.n
  {
    hide Serve, Report, Drained, Agrees, BlockTarget, BlockMessages, EchoValue, AllFields, DemandBits;
    match e {
      case Packet(src, pgn, data) =>
        var request := PacketRequest(src, pgn, data);
        if request.Some? {
          ServeFrame(l.client, request.value);
        }
      case Echo =>
        if l.pending != [] {
          var m := l.pending[0];
          if CarriesAnyBlock(m) {
            ReportFrame(l.client, ACTUAL_CONDENSED_FIRST + BlockOf(m), echo(BlockOf(m)), EchoValue(m));
          }
        }
      case Mode(element, value) => ReportFrame(l.client, SECTION_CONTROL_STATE, element, value);
      case Work(element, value) => ReportFrame(l.client, ACTUAL_WORK_STATE, element, value);
      case Quality(quality) => ServeFrame(l.client, Gnss(quality));
      case Measurement => ServeFrame(l.client, Measure);
    }
  }

  /** The mode after a run: the last of the control packets and the implement's own reports decides. */
  function AutoAfter(auto: bool, events: seq<LoopEvent>): bool {
    if events == [] then auto
    else
      match events[|events| - 1]
      case Packet(src, pgn, data) =>
        if src == 0x7F && pgn == 0xF1 && data != [] then data[0] == 1
        else AutoAfter(auto, events[..|events| - 1])
      case Mode(element, value) => value == 1
      case _ => AutoAfter(auto, events[..|events| - 1])
  }

  /** The sections demanded by the last demand packet that arrived in automatic mode; none before the first. */
  function DemandAfter(n: nat, auto: bool, events: seq<LoopEvent>): (demanded: seq<bool>)
    ensures |demanded| == n
  {
    if events == [] then seq(n, _ => false)
    else
      var before, e := events[..|events| - 1], events[|events| - 1];
      if e.Packet? && e.src == 0x7F && e.pgn == 0xE5 && |e.data| >= 8
          && AutoAfter(auto, before)
      then Covered(DemandAfter(n, auto, before), DemandBits(e.data))
      else DemandAfter(n, auto, before)
  }

  /** The loop's record of mode and demand is determined by the packets and mode reports alone. */
  lemma {:induction false} LoopTracksPackets(start: Loop, events: seq<LoopEvent>, echo: EchoElements)
    requires LoopStart(start)
    ensures var l := LoopRun(start, events, echo);
            && l.client.auto == AutoAfter(start.client.auto, events)
            && l.demanded == DemandAfter(start.client.n, start.client.auto, events)
  {
    hide LoopStep, Mirrored, AllTargets, Covered, DemandBits, Serve;
    if events != [] {
      var before := events[..|events| - 1];
      LoopTracksPackets(start, before, echo);
      StartIsInvariant(start, echo);
      RunKeepsLoop(start, before, echo);
      StepTracksPackets(LoopRun(start, before, echo), events[|events| - 1], echo);
    }
  }

  lemma StepTracksPackets(l: Loop, e: LoopEvent, echo: EchoElements)
    requires LoopInvariant(l, echo)
    ensures var after := LoopStep(l, e, echo);
            && after.client.auto == (match e
                 case Packet(src, pgn, data) =>
                   if src == AOG_SOURCE && pgn == PGN_CONTROL && data != [] then data[0] == 1 else l.client.auto
                 case Mode(element, value) => value == 1
                 case _ => l.client.auto)
            && after.demanded == if e.Packet? && e.src == AOG_SOURCE && e.pgn == PGN_SECTIONS
                && |e.data| >= DEMAND_BYTES && l.client.auto
                                 then Covered(l.demanded, DemandBits(e.data)) else l.demanded
  {
    hide UpdateSections, UpdateControl, SendGnss, Subscribe, Report, BlockMessages, Covered, DemandBits, EchoValue,
         Drained, Agrees, AllTargets, AllFields;
    match e {
      case Packet(src, pgn, data) =>
        var request := PacketRequest(src, pgn, data);
        if request.Some? {
          RequestMode(l.client, request.value);
        }
      case Echo =>
        if l.pending != [] {
          var m := l.pending[0];
          if CarriesAnyBlock(m) {
            ReportFrame(l.client, ACTUAL_CONDENSED_FIRST + BlockOf(m), echo(BlockOf(m)), EchoValue(m));
          }
        }
      case Mode(element, value) => ReportFrame(l.client, SECTION_CONTROL_STATE, element, value);
      case Work(element, value) => ReportFrame(l.client, ACTUAL_WORK_STATE, element, value);
      case Quality(quality) => RequestMode(l.client, Gnss(quality));
      case Measurement => RequestMode(l.client, Measure);
    }
  }

  /** Over any run of the loop, the heartbeat bits are the last demand packet received in automatic mode. */
  lemma HeartbeatIsLastAutomaticDemand(start: Loop, events: seq<LoopEvent>, echo: EchoElements, heartbeat: seq<nat>,
          i: nat)
    requires LoopStart(start)
    requires var l := LoopRun(start, events, echo); l.pending == [] && EchoElementsOn(l.client, echo)
    requires WellFormed(LoopRun(start, events, echo).client)
            && IsHeartbeat(LoopRun(start, events, echo).client, heartbeat)
    requires i < start.client.n
    ensures |heartbeat| == 2 + (start.client.n + 7) / 8
    ensures BitSet(heartbeat[2 + i / 8], i % 8) <==> DemandAfter(start.client.n, start.client.auto, events)[i]
  {
    hide LoopRun, LoopStart, BitSet, EchoElementsOn, IsHeartbeat, WellFormed, DemandAfter, AutoAfter;
    HeartbeatEchoesDemand(start, events, echo, heartbeat, i);
    LoopTracksPackets(start, events, echo);
  }

  /** Such a start is what a subscription pass straight after an activation leaves. */
  lemma ActivatedLoopStart(pool: Pool, elements: seq<nat>)
    requires !UsesPerElementControl(pool) && SectionCount(elements) > 0
    requires AllTargets(Subscribe(ActivatedClient(pool, elements)))
    ensures LoopStart(Loop(Subscribe(ActivatedClient(pool, elements)), [], seq(SectionCount(elements), _ => false)))
  {
    hide Mirrored, AllTargets, UsesPerElementControl, ParentMapOf, SectionIndex, BuiltIndex, BuiltCommands;
    ActivatedMirrored(pool, elements);
    MeasureMirrors(ActivatedClient(pool, elements));
  }
}
