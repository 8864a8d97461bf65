/**
 A client's run of requests and reports, inside the runs of the server, and what it keeps: the values sent
 to the implement mirror the stored setpoints.
 */
module SectionRuns {
  import opened Bits
  import opened DeviceDescriptor
  import opened ElementHierarchy
  import opened MeasurementIndex
  import opened SectionControl
  import opened ServerModel

  /** What can happen to a client between its activation and its removal. */
  datatype ClientEvent =
    | Served(request: Request)
    | Reported(ddi: nat, element: nat, value: int)

  function ClientStep(c: Client, e: ClientEvent): Client {
    match e
    case Served(request) => Serve(c, request)
    case Reported(ddi, element, value) => Report(c, ddi, element, value)
  }

  function ClientRun(c: Client, events: seq<ClientEvent>): Client {
    if events == [] then c else ClientStep(ClientRun(c, events[..|events| - 1]), events[|events| - 1])
  }

  // ---------------------------------------------------------------------------------------------
  // A client inside a run of the server
  // ---------------------------------------------------------------------------------------------

  /** The event removes the client, or replaces it if its activation is accepted. */
  predicate EndsClient(e: Event, cf: nat) {
    match e
    case ActivatePool(x) => x == cf
    case DeactivatePool(x) => x == cf
    case DeletePool(x) => x == cf
    case TimeOut(x) => x == cf
    case _ => false
  }

  /** What the client `cf` notices of a run. */
  function Project(events: seq<Event>, cf: nat): seq<ClientEvent> {
    if events == [] then []
    else
      Project(events[..|events| - 1], cf) +
      match events[|events| - 1]
      case Requested(request) => [Served(request)]
      case Value(x, ddi, element, value) => if x == cf then [Reported(ddi, element, value)] else []
      case _ => []
  }

  lemma {:induction false} ClientRunAppend(c: Client, events: seq<ClientEvent>, e: ClientEvent)
    ensures ClientRun(c, events + [e]) == ClientStep(ClientRun(c, events), e)
  {
    assert (events + [e])[..|events|] == events;
  }

  /** No event of the run removes or replaces the client: a refused activation does not. */
  ghost predicate Survives(s: Server, events: seq<Event>, lib: Library, cf: nat) {
    events != [] ==>
      var before, e := events[..|events| - 1], events[|events| - 1];
      && Survives(s, before, lib, cf)
      && (EndsClient(e, cf) ==> e == ActivatePool(cf) && !ActivationResult(Run(s, before, lib), cf, lib).accepted)
  }

  /**
   Other clients' events and refused activations do not reach a client: its part of any interleaved run is a
   run of its own events.
   */
  lemma {:induction false} ClientsAreIndependent(s: Server, events: seq<Event>, lib: Library, cf: nat)
    requires cf in s.clients
    requires Survives(s, events, lib, cf)
    ensures cf in Run(s, events, lib).clients
    ensures Run(s, events, lib).clients[cf] == ClientRun(s.clients[cf], Project(events, cf))
  {
    hide Serve, Report, ActivatedClient, Deserialized, HasDevice, FlatSections;
    if events != [] {
      var before, e := events[..|events| - 1], events[|events| - 1];
      ClientsAreIndependent(s, before, lib, cf);
      var t := Run(s, before, lib);
      var own := Project(before, cf);
      match e {
        case Requested(request) =>
          ClientRunAppend(s.clients[cf], own, Served(request));
        case Value(x, ddi, element, value) =>
          if x == cf {
            ClientRunAppend(s.clients[cf], own, Reported(ddi, element, value));
            if !CreatesClient(ddi) {
              ReportIgnoresOtherDdis(t.clients[cf], ddi, element, value);
            }
          } else {
            assert Project(events, cf) == own;
          }
        case _ =>
          assert Project(events, cf) == own;
      }
    }
  }

  lemma ReportIgnoresOtherDdis(c: Client, ddi: nat, element: nat, value: int)
    requires !CreatesClient(ddi)
    ensures Report(c, ddi, element, value) == c
  {
  }

  // ---------------------------------------------------------------------------------------------
  // What the implement was told last
  // ---------------------------------------------------------------------------------------------

  const BLOCK_COUNT := 16

  /** `m` carries the setpoints of block `b`, by either of the two condensed DDIs. */
  predicate CarriesBlock(m: Message, b: nat) {
    m.SetValue? && (m.ddi == SETPOINT_CONDENSED_FIRST + b || m.ddi == ACTUAL_CONDENSED_FIRST + b)
  }

  /** The last value sent for block `b`. */
  function LastBlockValue(sent: seq<Message>, b: nat): Option<nat> {
    if sent == [] then None
    else
      var m := sent[|sent| - 1];
      if CarriesBlock(m, b) then Some(m.value) else LastBlockValue(sent[..|sent| - 1], b)
  }

  /** Under which DDI block `b` is sent, if it can be sent as one value. */
  function BlockTarget(c: Client, b: nat): Option<nat> {
    if SETPOINT_CONDENSED_FIRST + b in c.ddiElement then Some(SETPOINT_CONDENSED_FIRST + b)
    else if ACTUAL_CONDENSED_FIRST + b in c.ddiElement && IsDdiSettable(c.pool, ACTUAL_CONDENSED_FIRST + b)
    then Some(ACTUAL_CONDENSED_FIRST + b)
    else None
  }

  function BlockMessage(c: Client, b: nat): Message
    requires BlockTarget(c, b).Some?
  {
    var ddi := BlockTarget(c, b).value;
    SetValue(ddi, c.ddiElement[ddi], BlockValue(c.setpoint, b))
  }

  ghost predicate CarriesNoBlock(messages: seq<Message>) {
    forall i, b :: 0 <= i < |messages| && 0 <= b < BLOCK_COUNT ==> !CarriesBlock(messages[i], b)
  }

  lemma {:induction false} LastBlockValueSkips(sent: seq<Message>, others: seq<Message>, b: nat)
    requires b < BLOCK_COUNT && CarriesNoBlock(others)
    ensures LastBlockValue(sent + others, b) == LastBlockValue(sent, b)
  {
    if others == [] {
      assert sent + others == sent;
    } else {
      var last := |others| - 1;
      assert (sent + others)[..|sent + others| - 1] == sent + others[..last];
      LastBlockValueSkips(sent, others[..last], b);
    }
  }

  lemma LastBlockValueAppend(sent: seq<Message>, m: Message, b: nat)
    ensures LastBlockValue(sent + [m], b) == if CarriesBlock(m, b) then Some(m.value) else LastBlockValue(sent, b)
  {
    assert (sent + [m])[..|sent|] == sent;
  }

  /** Per-element setpoints have their own DDI, and no DDI is addressable before the subscription pass. */
  ghost predicate Regular(c: Client) {
    && WellFormed(c)
    && (c.perElementDdi == 0 || c.perElementDdi == ACTUAL_WORK_STATE)
    && (!c.subscribed ==> c.ddiElement == map[])
  }

  lemma {:induction false} ElementSetpointsShape(c: Client, first: nat, last: nat)
    ensures forall m :: m in ElementSetpoints(c, first, last) ==> m.SetValue? && m.ddi == c.perElementDdi
  {
    if first < last {
      ElementSetpointsShape(c, first, last - 1);
    }
  }

  lemma {:induction false} AllCommandsSubscribe(links: seq<Link>, actual: bool)
    requires AllData(links)
    ensures forall m :: m in AllCommands(links, actual) ==> !m.SetValue?
  {
    if links != [] {
      AllCommandsSubscribe(links[..|links| - 1], actual);
    }
  }

  lemma BuiltCommandsSubscribe(pool: Pool)
    ensures forall m :: m in BuiltCommands(pool) ==> !m.SetValue?
  {
    hide AllCommands, Links;
    LinksAreData(pool, true, |pool|);
    LinksAreData(pool, false, |pool|);
    AllCommandsSubscribe(Links(pool, true, |pool|), true);
    AllCommandsSubscribe(Links(pool, false, |pool|), false);
  }

  lemma SendWorkAppends(c: Client) returns (rest: seq<Message>)
    ensures SendWorkState(c).sent == c.sent + rest
    ensures rest == [] || rest == [WorkMessage(c)]
    ensures rest == [] ==> SendWorkState(c).setpointWork == c.setpointWork
    ensures rest != [] ==> SendWorkState(c).setpointWork == AnyOn(c.setpoint) != c.setpointWork
    ensures SETPOINT_WORK_STATE in c.ddiElement ==> SendWorkState(c).setpointWork == AnyOn(c.setpoint)
  {
    rest := if SendWorkState(c).sent == c.sent then [] else [WorkMessage(c)];
    assert c.sent + [] == c.sent;
  }

  function WorkMessage(c: Client): Message {
    SetValue(SETPOINT_WORK_STATE,
             if SETPOINT_WORK_STATE in c.ddiElement then c.ddiElement[SETPOINT_WORK_STATE] else 0,
             if AnyOn(c.setpoint) then 1 else 0)
  }

  /** What sending a block appends: its value if it has a target, and things that are no block values. */
  lemma SendBlockAppends(c: Client, b: nat) returns (rest: seq<Message>)
    requires Regular(c) && b < BLOCK_COUNT
    ensures SendBlock(c, b).sent == c.sent + (if BlockTarget(c, b).Some? then [BlockMessage(c, b)] else []) + rest
    ensures CarriesNoBlock(rest)
  {
    hide BlockValue, IsDdiSettable, AnyOn, SendWorkState, ElementSetpoints;
    var modern := SETPOINT_CONDENSED_FIRST + b;
    if modern in c.ddiElement {
      rest := SendWorkAppends(c.(sent := c.sent + [BlockMessage(c, b)]));
    } else if BlockTarget(c, b).Some? {
      rest := [];
    } else if ACTUAL_CONDENSED_FIRST + b !in c.ddiElement && c.perElement {
      ElementSetpointsShape(c, SECTIONS_PER_MESSAGE * b, SECTIONS_PER_MESSAGE * (b + 1));
      var elements := ElementSetpoints(c, SECTIONS_PER_MESSAGE * b, SECTIONS_PER_MESSAGE * (b + 1));
      var work := SendWorkAppends(c.(sent := c.sent + elements));
      rest := elements + work;
      assert c.sent + elements + work == c.sent + [] + rest;
      assert CarriesNoBlock(elements) by {
        assert forall i :: 0 <= i < |elements| ==> elements[i] in elements;
      }
    } else {
      rest := [];
      assert c.sent + [] + [] == c.sent;
    }
  }

  lemma SendBlockMirror(c: Client, b: nat, k: nat)
    requires Regular(c) && b < BLOCK_COUNT && k < BLOCK_COUNT
    ensures LastBlockValue(SendBlock(c, b).sent, k) ==
            if k == b && BlockTarget(c, b).Some? then Some(BlockValue(c.setpoint, b)) else LastBlockValue(c.sent, k)
  {
    hide SendBlock, BlockValue, IsDdiSettable;
    var rest := SendBlockAppends(c, b);
    if BlockTarget(c, b).Some? {
      LastBlockValueAppend(c.sent, BlockMessage(c, b), k);
      LastBlockValueSkips(c.sent + [BlockMessage(c, b)], rest, k);
    } else {
      assert c.sent + [] == c.sent;
      LastBlockValueSkips(c.sent, rest, k);
    }
  }

  // ---------------------------------------------------------------------------------------------
  // The mirror invariant
  // ---------------------------------------------------------------------------------------------

  /** Block `b`: if it was ever sent, what was sent last is what is stored now. */
  ghost predicate BlockMirrored(c: Client, b: nat) {
    match LastBlockValue(c.sent, b)
    case Some(v) => c.subscribed && BlockTarget(c, b).Some? && v == BlockValue(c.setpoint, b)
    case None => true
  }

  ghost predicate Mirrored(c: Client) {
    Regular(c) && forall b :: 0 <= b < BLOCK_COUNT ==> BlockMirrored(c, b)
  }

  lemma UnchangedBlockValue(setpoint: seq<nat>, demand: seq<bool>, b: nat, k: nat)
    requires k != b || !BlockChanged(setpoint, demand, b)
    ensures BlockValue(Swept(setpoint, demand, SECTIONS_PER_MESSAGE * (b + 1)), k)
         == BlockValue(Swept(setpoint, demand, SECTIONS_PER_MESSAGE * b), k)
  {
    hide PackFields, DemandedState;
    var before := Swept(setpoint, demand, SECTIONS_PER_MESSAGE * b);
    var after := Swept(setpoint, demand, SECTIONS_PER_MESSAGE * (b + 1));
    forall i | 0 <= i < SECTIONS_PER_MESSAGE
      ensures Block(before, k)[i] == Block(after, k)[i]
    {
      var j := SECTIONS_PER_MESSAGE * k + i;
      if k == b && j < |setpoint| {
        assert DemandedState(setpoint[j], demand, j) == setpoint[j];
      }
    }
    assert Block(before, k) == Block(after, k);
  }

  lemma UnchangedSweep(setpoint: seq<nat>, demand: seq<bool>, b: nat)
    requires !BlockChanged(setpoint, demand, b)
    ensures Swept(setpoint, demand, SECTIONS_PER_MESSAGE * (b + 1)) == Swept(setpoint, demand, SECTIONS_PER_MESSAGE * b)
  {
    hide DemandedState;
  }

  /** The client with block `b` brought in line with the demand, before that block is sent. */
  function Updated(c: Client, demand: seq<bool>, b: nat): Client {
    SweepBlocks(c, demand, b).(setpoint := Swept(c.setpoint, demand, SECTIONS_PER_MESSAGE * (b + 1)))
  }

  /** The two differ in setpoints, messages and the stored master work state only. */
  ghost predicate SameButSent(c: Client, d: Client) {
    d == c.(setpoint := d.setpoint, sent := d.sent, setpointWork := d.setpointWork)
  }

  /** One step of a sweep, with all that the inductions over sweeps need. */
  lemma SweepOne(c: Client, demand: seq<bool>, b: nat)
    requires Regular(c)
    ensures var before := SweepBlocks(c, demand, b); var updated := Updated(c, demand, b);
            && Regular(before) && Regular(updated) && Regular(SweepBlocks(c, demand, b + 1))
            && before.setpoint == Swept(c.setpoint, demand, SECTIONS_PER_MESSAGE * b)
            && updated.setpoint == Swept(c.setpoint, demand, SECTIONS_PER_MESSAGE * (b + 1))
            && SweepBlocks(c, demand, b + 1).setpoint == updated.setpoint
            && updated.sent == before.sent && updated.setpointWork == before.setpointWork
            && SameButSent(c, before) && SameButSent(c, updated) && SameButSent(c, SweepBlocks(c, demand, b + 1))
            && SweepBlocks(c, demand, b + 1) ==
               if BlockChanged(c.setpoint, demand, b) then SendBlock(updated, b) else updated
  {
    hide SendBlock, Swept, BlockChanged, Regular;
    SweepFrame(c, demand, b);
    SweepFrame(c, demand, b + 1);
    SweptWellFormed(c, demand, SECTIONS_PER_MESSAGE * b, SweepBlocks(c, demand, b));
    SweptWellFormed(c, demand, SECTIONS_PER_MESSAGE * (b + 1), Updated(c, demand, b));
    SweptWellFormed(c, demand, SECTIONS_PER_MESSAGE * (b + 1), SweepBlocks(c, demand, b + 1));
  }

  lemma SweepNone(c: Client, demand: seq<bool>)
    ensures SweepBlocks(c, demand, 0) == c
  {
  }

  lemma {:induction false} SweepMirrors(c: Client, demand: seq<bool>, b: nat)
    requires Mirrored(c) && b <= BLOCK_COUNT
    ensures Mirrored(SweepBlocks(c, demand, b))
  {
    hide SendBlock, BlockValue, Swept, BlockChanged, BlockTarget, LastBlockValue, SweepBlocks, Updated, Regular;
    if b == 0 {
      SweepNone(c, demand);
    } else {
      var j := b - 1;
      SweepMirrors(c, demand, j);
      SweepOne(c, demand, j);
      forall k | 0 <= k < BLOCK_COUNT ensures BlockMirrored(SweepBlocks(c, demand, b), k) {
        assert BlockMirrored(SweepBlocks(c, demand, j), k);
        SweepOneMirrors(c, demand, j, k);
      }
    }
  }

  lemma SweepOneMirrors(c: Client, demand: seq<bool>, b: nat, k: nat)
    requires Regular(c) && b < BLOCK_COUNT && k < BLOCK_COUNT
    requires BlockMirrored(SweepBlocks(c, demand, b), k)
    ensures BlockMirrored(SweepBlocks(c, demand, b + 1), k)
  {
    hide SendBlock, BlockValue, Swept, BlockChanged, LastBlockValue, SweepBlocks, Updated, IsDdiSettable;
    SweepOne(c, demand, b);
    if BlockChanged(c.setpoint, demand, b) {
      SendBlockMirror(Updated(c, demand, b), b, k);
    }
    if k != b || !BlockChanged(c.setpoint, demand, b) {
      UnchangedBlockValue(c.setpoint, demand, b, k);
    }
  }

  lemma SweptWellFormed(c: Client, demand: seq<bool>, k: nat, after: Client)
    requires Regular(c) && OnlySent(c.(setpoint := Swept(c.setpoint, demand, k)), after)
    ensures Regular(after)
  {
  }

  lemma StepMirrors(c: Client, e: ClientEvent)
    requires Mirrored(c)
    ensures Mirrored(ClientStep(c, e))
  {
    hide UpdateSections, UpdateControl, SendGnss, Subscribe, Report, Mirrored;
    match e {
      case Reported(ddi, element, value) => ReportMirrors(c, ddi, element, value);
      case Served(Demand(states)) => DemandMirrors(c, states);
      case Served(Control(enabled)) => ControlMirrors(c, enabled);
      case Served(Gnss(quality)) => GnssMirrors(c, quality);
      case Served(Measure) => MeasureMirrors(c);
    }
  }

  lemma DemandMirrors(c: Client, states: seq<bool>)
    requires Mirrored(c)
    ensures Mirrored(UpdateSections(c, states))
  {
    hide SweepBlocks, BlockMirrored;
    if c.auto && c.n > 0 {
      SweepMirrors(c, states, Blocks(c.n));
    }
  }

  /** `after` is `c` in another mode perhaps, with messages sent that are no block values. */
  ghost predicate OnlyOthersSent(c: Client, after: Client, others: seq<Message>) {
    after == c.(sent := c.sent + others, auto := after.auto) && CarriesNoBlock(others)
  }

  lemma ControlCarriesNoBlock(others: seq<Message>)
    requires forall i :: 0 <= i < |others| ==>
            others[i].SetValue? && (others[i].ddi == SECTION_CONTROL_STATE || others[i].ddi == GNSS_QUALITY)
    ensures CarriesNoBlock(others)
  {
  }

  lemma ControlAppends(c: Client, enabled: bool) returns (others: seq<Message>)
    ensures OnlyOthersSent(c, UpdateControl(c, enabled), others)
    ensures forall m :: m in others ==> m.SetValue? && m.ddi == SECTION_CONTROL_STATE
  {
    hide CarriesNoBlock;
    others := if SECTION_CONTROL_STATE in c.ddiElement && c.n > 0
              then [SetValue(SECTION_CONTROL_STATE, c.ddiElement[SECTION_CONTROL_STATE], if enabled then 1 else 0)]
              else [];
    assert c.sent + [] == c.sent;
    ControlCarriesNoBlock(others);
  }

  lemma GnssAppends(c: Client, quality: nat) returns (others: seq<Message>)
    ensures OnlyOthersSent(c, SendGnss(c, quality), others)
    ensures forall m :: m in others ==> m.SetValue? && m.ddi == GNSS_QUALITY
  {
    hide CarriesNoBlock;
    others := if GNSS_QUALITY in c.ddiElement then [SetValue(GNSS_QUALITY, c.ddiElement[GNSS_QUALITY], quality)]
              else [];
    assert c.sent + [] == c.sent;
    ControlCarriesNoBlock(others);
  }

  lemma ControlMirrors(c: Client, enabled: bool)
    requires Mirrored(c)
    ensures Mirrored(UpdateControl(c, enabled))
  {
    hide Mirrored, UpdateControl;
    var others := ControlAppends(c, enabled);
    AppendMirrors(c, UpdateControl(c, enabled), others);
  }

  lemma GnssMirrors(c: Client, quality: nat)
    requires Mirrored(c)
    ensures Mirrored(SendGnss(c, quality))
  {
    hide Mirrored, SendGnss;
    var others := GnssAppends(c, quality);
    AppendMirrors(c, SendGnss(c, quality), others);
  }

  lemma MeasureMirrors(c: Client)
    requires Mirrored(c)
    ensures Mirrored(Subscribe(c))
  {
    hide BlockValue, IsDdiSettable, LastBlockValue, BuiltIndex, BuiltCommands;
    if !c.subscribed && c.n > 0 {
      BuiltCommandsSubscribe(c.pool);
      forall b | 0 <= b < BLOCK_COUNT ensures BlockMirrored(Subscribe(c), b) {
        assert BlockMirrored(c, b);
        LastBlockValueSkips(c.sent, BuiltCommands(c.pool), b);
      }
    }
  }

  lemma ReportMirrors(c: Client, ddi: nat, element: nat, value: int)
    requires Mirrored(c)
    ensures Mirrored(Report(c, ddi, element, value))
  {
    hide Report, BlockValue, IsDdiSettable, LastBlockValue;
    var after := Report(c, ddi, element, value);
    ReportKeepsWellFormed(c, ddi, element, value);
    ReportFrame(c, ddi, element, value);
    forall b | 0 <= b < BLOCK_COUNT ensures BlockMirrored(after, b) {
      assert BlockMirrored(c, b);
    }
  }

  lemma ReportFieldsFrame(c: Client, b: nat, element: nat, value: int, k: nat)
    ensures var r := ReportFields(c, b, element, value, k);
            r == c.(actual := r.actual, sectionElement := r.sectionElement, elementSection := r.elementSection)
  {
    hide WithFields, WithElement;
  }

  lemma ReportWorkFrame(c: Client, element: nat, working: bool)
    ensures var r := ReportWork(c, element, working);
            r == c.(actual := r.actual, work := c.work[element := working])
  {
    hide WithState;
  }

  /** A report changes what is known about the implement and the mode, and nothing that was sent or is wanted. */
  lemma ReportFrame(c: Client, ddi: nat, element: nat, value: int)
    ensures var r := Report(c, ddi, element, value);
            r == c.(actual := r.actual, sectionElement := r.sectionElement, elementSection := r.elementSection,
                    work := if ddi == ACTUAL_WORK_STATE then c.work[element := value == 1] else c.work,
                    auto := if ddi == SECTION_CONTROL_STATE then value == 1 else c.auto)
  {
    hide ReportFields, ReportWork;
    if ACTUAL_CONDENSED_FIRST <= ddi <= ACTUAL_CONDENSED_LAST {
      ReportFieldsFrame(c, ddi - ACTUAL_CONDENSED_FIRST, element, value, SECTIONS_PER_MESSAGE);
    } else if ddi == ACTUAL_WORK_STATE {
      ReportWorkFrame(c, element, value == 1);
    }
  }

  /** A request changes the setpoints, the mode, what is addressable and what was sent, and nothing reported. */
  ghost predicate OnlyServed(c: Client, after: Client) {
    after == c.(setpoint := after.setpoint, sent := after.sent, setpointWork := after.setpointWork, auto := after.auto,
                ddiElement := after.ddiElement, subscribed := after.subscribed)
  }

  lemma ServeFrame(c: Client, request: Request)
    requires WellFormed(c)
    ensures OnlyServed(c, Serve(c, request)) && WellFormed(Serve(c, request))
  {
    hide UpdateSections, UpdateControl, SendGnss, Subscribe;
    match request {
      case Demand(states) => DemandFrame(c, states);
      case Control(enabled) => var others := ControlAppends(c, enabled);
      case Gnss(quality) => var others := GnssAppends(c, quality);
      case Measure => MeasureFrame(c);
    }
  }

  lemma DemandFrame(c: Client, states: seq<bool>)
    requires WellFormed(c)
    ensures OnlyServed(c, UpdateSections(c, states)) && WellFormed(UpdateSections(c, states))
  {
    hide SweepBlocks;
    if c.auto && c.n > 0 {
      UpdateSectionsFrame(c, states);
    }
  }

  lemma DemandFrameIndex(c: Client, states: seq<bool>)
    requires Regular(c)
    ensures UpdateSections(c, states).ddiElement == c.ddiElement && UpdateSections(c, states).subscribed == c.subscribed
  {
    hide SweepBlocks;
    if c.auto && c.n > 0 {
      UpdateSectionsFrame(c, states);
    }
  }

  lemma RequestMode(c: Client, request: Request)
    requires WellFormed(c)
    ensures Serve(c, request).auto == if request.Control? then request.enabled else c.auto
  {
    hide SweepBlocks, BuiltIndex, BuiltCommands;
    if request.Demand? && c.auto && c.n > 0 {
      UpdateSectionsFrame(c, request.states);
    }
  }

  lemma MeasureFrame(c: Client)
    requires WellFormed(c)
    ensures OnlyServed(c, Subscribe(c)) && WellFormed(Subscribe(c))
  {
    hide BuiltIndex, BuiltCommands;
  }

  lemma AppendMirrors(c: Client, after: Client, others: seq<Message>)
    requires Mirrored(c) && OnlyOthersSent(c, after, others)
    ensures Mirrored(after)
  {
    hide BlockValue, IsDdiSettable, LastBlockValue;
    forall b | 0 <= b < BLOCK_COUNT ensures BlockMirrored(after, b) {
      assert BlockMirrored(c, b);
      LastBlockValueSkips(c.sent, others, b);
    }
  }

  lemma {:induction false} RunMirrors(c: Client, events: seq<ClientEvent>)
    requires Mirrored(c)
    ensures Mirrored(ClientRun(c, events))
  {
    hide ClientStep, Mirrored;
    if events != [] {
      RunMirrors(c, events[..|events| - 1]);
      StepMirrors(ClientRun(c, events[..|events| - 1]), events[|events| - 1]);
    }
  }

  lemma MirroredRegular(c: Client)
    requires Mirrored(c)
    ensures Regular(c)
  {
  }

  /** What an activation fixes for the client's life: how it is controlled, and what its index will be. */
  ghost predicate SameIndexing(c: Client, d: Client) {
    && d.pool == c.pool && d.n == c.n && d.perElement == c.perElement && d.perElementDdi == c.perElementDdi
    && d.ddiElement == (if c.subscribed || !d.subscribed then c.ddiElement else BuiltIndex(map[], c.pool))
    && (c.subscribed ==> d.subscribed)
  }

  lemma StepKeepsIndexing(c: Client, e: ClientEvent)
    requires Regular(c)
    ensures SameIndexing(c, ClientStep(c, e))
  {
    hide UpdateSections, UpdateControl, SendGnss, Subscribe, Report, BuiltIndex, WellFormed, CarriesNoBlock;
    match e {
      case Reported(ddi, element, value) => ReportFrame(c, ddi, element, value);
      case Served(Demand(states)) => DemandFrame(c, states); DemandFrameIndex(c, states);
      case Served(Control(enabled)) => var others := ControlAppends(c, enabled);
      case Served(Gnss(quality)) => var others := GnssAppends(c, quality);
      case Served(Measure) => MeasureKeepsIndexing(c);
    }
  }

  lemma MeasureKeepsIndexing(c: Client)
    requires Regular(c)
    ensures SameIndexing(c, Subscribe(c))
  {
    hide BuiltIndex, BuiltCommands, WellFormed;
  }

  lemma {:induction false} RunKeepsIndexing(c: Client, events: seq<ClientEvent>)
    requires Mirrored(c)
    ensures SameIndexing(c, ClientRun(c, events))
  {
    hide ClientStep, Mirrored, BuiltIndex;
    if events != [] {
      var before := events[..|events| - 1];
      RunKeepsIndexing(c, before);
      RunMirrors(c, before);
      MirroredRegular(ClientRun(c, before));
      StepKeepsIndexing(ClientRun(c, before), events[|events| - 1]);
    }
  }

  lemma ActivatedMirrored(pool: Pool, elements: seq<nat>)
    ensures Mirrored(ActivatedClient(pool, elements))
  {
    hide ParentMapOf, SectionIndex, UsesPerElementControl, BlockValue;
  }
}
