/**
 Clients that take setpoints element by element (DDI 141): what each element was told last mirrors the
 stored setpoint of its section at all times, and when the per-element branch is reached at all.
 */
module PerElementDelivery {
  import opened Bits
  import opened DeviceDescriptor
  import opened ElementHierarchy
  import opened MeasurementIndex
  import opened SectionControl
  import opened ServerModel
  import opened SectionRuns
  import opened SetpointDelivery
  import opened Heartbeat

  predicate CarriesElement(m: Message, e: nat) {
    m.SetValue? && m.ddi == ACTUAL_WORK_STATE && m.element == e
  }

  /** The last setpoint sent to an element. */
  function LastElementValue(sent: seq<Message>, e: nat): Option<nat> {
    if sent == [] then None
    else
      var m := sent[|sent| - 1];
      if CarriesElement(m, e) then Some(m.value) else LastElementValue(sent[..|sent| - 1], e)
  }

  /** The client is controlled by element. */
  ghost predicate ElementControlled(c: Client) {
    Regular(c) && c.perElement && c.perElementDdi == ACTUAL_WORK_STATE
  }

  /** Neither condensed DDI of block `b` is addressable, so that its setpoints go out element by element. */
  predicate ReachesElements(c: Client, b: nat) {
    SETPOINT_CONDENSED_FIRST + b !in c.ddiElement && ACTUAL_CONDENSED_FIRST + b !in c.ddiElement
  }

  /** Section `i` has an element number that can be addressed and that no other section shares. */
  ghost predicate OwnElement(c: Client, i: nat)
    requires WellFormed(c)
  {
    && i < c.n && c.sectionElement[i] != 0
    && forall j :: 0 <= j < c.n && j != i ==> c.sectionElement[j] != c.sectionElement[i]
  }

  function Told(c: Client, i: nat): nat
    requires i < |c.setpoint|
  {
    if c.setpoint[i] == ON then 1 else 0
  }

  /** The element of section `i` was last told the stored setpoint; if it was told nothing the setpoint is off. */
  ghost predicate ElementMirrored(c: Client, i: nat)
    requires WellFormed(c) && i < c.n
  {
    match LastElementValue(c.sent, c.sectionElement[i])
    case Some(v) => v == Told(c, i)
    case None => c.setpoint[i] == OFF
  }

  lemma LastElementAppend(sent: seq<Message>, m: Message, e: nat)
    ensures LastElementValue(sent + [m], e) == if CarriesElement(m, e) then Some(m.value) else LastElementValue(sent, e)
  {
    assert (sent + [m])[..|sent|] == sent;
  }

  lemma {:induction false} LastElementSkips(sent: seq<Message>, others: seq<Message>, e: nat)
    requires forall m :: m in others ==> !CarriesElement(m, e)
    ensures LastElementValue(sent + others, e) == LastElementValue(sent, e)
  {
    if others == [] {
      assert sent + others == sent;
    } else {
      var last := |others| - 1;
      assert (sent + others)[..|sent + others| - 1] == sent + others[..last];
      assert others[last] in others;
      LastElementSkips(sent, others[..last], e);
    }
  }

  /** The sections of a block tell the element of `i` its setpoint if `i` is among them, and nothing otherwise. */
  lemma {:induction false} LastOfElementSetpoints(c: Client, first: nat, last: nat, i: nat)
    requires WellFormed(c) && OwnElement(c, i) && c.perElementDdi == ACTUAL_WORK_STATE
    ensures LastElementValue(c.sent + ElementSetpoints(c, first, last), c.sectionElement[i]) ==
            if first <= i < last then Some(Told(c, i)) else LastElementValue(c.sent, c.sectionElement[i])
    decreases last
  {
    hide LastElementValue, AllFields;
    if last <= first {
      assert c.sent + [] == c.sent;
    } else {
      var j := last - 1;
      LastOfElementSetpoints(c, first, j, i);
      var before := c.sent + ElementSetpoints(c, first, j);
      if j < c.n && c.sectionElement[j] != 0 {
        var m := SetValue(ACTUAL_WORK_STATE, c.sectionElement[j], Told(c, j));
        assert c.sent + ElementSetpoints(c, first, last) == before + [m];
        LastElementAppend(before, m, c.sectionElement[i]);
      } else {
        assert c.sent + ElementSetpoints(c, first, last) == before;
      }
    }
  }

  lemma SendBlockTellsElements(c: Client, b: nat, i: nat)
    requires ElementControlled(c) && b < BLOCK_COUNT && OwnElement(c, i)
    ensures LastElementValue(SendBlock(c, b).sent, c.sectionElement[i]) ==
            if i / SECTIONS_PER_MESSAGE == b && ReachesElements(c, b) then Some(Told(c, i))
            else LastElementValue(c.sent, c.sectionElement[i])
  {
    hide LastElementValue, SendWorkState, ElementSetpoints, BlockValue, IsDdiSettable, AllFields;
    var e := c.sectionElement[i];
    if ReachesElements(c, b) {
      var first, last := SECTIONS_PER_MESSAGE * b, SECTIONS_PER_MESSAGE * (b + 1);
      LastOfElementSetpoints(c, first, last, i);
      var told := c.(sent := c.sent + ElementSetpoints(c, first, last));
      var rest := SendWorkAppends(told);
      LastElementSkips(told.sent, rest, e);
    } else if BlockTarget(c, b).Some? {
      var told := c.(sent := c.sent + [BlockMessage(c, b)]);
      LastElementAppend(c.sent, BlockMessage(c, b), e);
      var rest := SendWorkAppends(told);
      LastElementSkips(told.sent, rest, e);
    }
  }

  /** After a sweep the element of section `i` was told its new setpoint if its block changed and reaches elements. */
  lemma {:induction false} SweepTellsElements(c: Client, demand: seq<bool>, b: nat, i: nat)
    requires ElementControlled(c) && b <= BLOCK_COUNT && OwnElement(c, i)
    ensures var k := i / SECTIONS_PER_MESSAGE;
            LastElementValue(SweepBlocks(c, demand, b).sent, c.sectionElement[i]) ==
            if k < b && BlockChanged(c.setpoint, demand, k) && ReachesElements(c, k)
            then Some(if DemandedState(c.setpoint[i], demand, i) == ON then 1 else 0)
            else LastElementValue(c.sent, c.sectionElement[i])
  {
    hide SendBlock, BlockChanged, SweepBlocks, Updated, LastElementValue, AllFields, DemandedState, BlockTarget;
    if b == 0 {
      SweepNone(c, demand);
    } else {
      var j := b - 1;
      SweepTellsElements(c, demand, j, i);
      SweepOne(c, demand, j);
      if BlockChanged(c.setpoint, demand, j) {
        SendBlockTellsElements(Updated(c, demand, j), j, i);
      }
    }
  }

  /** A section whose block is unchanged has the setpoint it was asked for. */
  lemma UnchangedSection(c: Client, demand: seq<bool>, i: nat)
    requires i < |c.setpoint| && !BlockChanged(c.setpoint, demand, i / SECTIONS_PER_MESSAGE)
    ensures DemandedState(c.setpoint[i], demand, i) == c.setpoint[i]
  {
  }

  /**
   When an element hears of a demand: for a client controlled by element, an automatic update that changes
   a section with an element of its own tells that element the new setpoint if and only if neither condensed
   DDI of the section's block is addressable; otherwise what the element was told last stays as it was.
   */
  lemma ElementHearsDemandIff(c: Client, demand: seq<bool>, i: nat)
    requires ElementControlled(c) && c.auto && OwnElement(c, i)
    requires i < |demand| && demand[i] != (c.setpoint[i] == ON)
    ensures var after := UpdateSections(c, demand); var e := c.sectionElement[i];
            && |after.setpoint| == c.n && after.setpoint[i] == (if demand[i] then ON else OFF)
            && LastElementValue(after.sent, e) ==
               if ReachesElements(c, i / SECTIONS_PER_MESSAGE)
               then Some(Told(after, i)) else LastElementValue(c.sent, e)
  {
    hide SweepBlocks, LastElementValue, AllFields, BlockChanged;
    assert Blocks(c.n) <= BLOCK_COUNT && i / SECTIONS_PER_MESSAGE < Blocks(c.n);
    SweepTellsElements(c, demand, Blocks(c.n), i);
    UpdateSectionsFrame(c, demand);
    if !BlockChanged(c.setpoint, demand, i / SECTIONS_PER_MESSAGE) {
      UnchangedSection(c, demand, i);
    }
  }

  // ---------------------------------------------------------------------------------------------
  // Blocks that cannot be sent at all
  // ---------------------------------------------------------------------------------------------

  lemma {:induction false} SettableIsInPool(pool: Pool, ddi: nat)
    requires IsDdiSettable(pool, ddi)
    ensures exists i :: 0 <= i < |pool| && pool[i].ProcessData? && pool[i].settable && pool[i].ddi == ddi
  {
    if !(pool[0].ProcessData? && pool[0].ddi == ddi) {
      SettableIsInPool(pool[1..], ddi);
      var i :| 0 <= i < |pool[1..]| && pool[1..][i].ProcessData? && pool[1..][i].settable && pool[1..][i].ddi == ddi;
      assert pool[i + 1] == pool[1..][i];
    }
  }

  /** With control by element no condensed DDI can be set: there is no setpoint, and the actual states are read-only. */
  lemma NothingCondensedIsSettable(pool: Pool, b: nat)
    requires UsesPerElementControl(pool) && b < BLOCK_COUNT
    ensures !Listed(pool, SETPOINT_CONDENSED_FIRST + b)
    ensures !IsDdiSettable(pool, ACTUAL_CONDENSED_FIRST + b)
  {
    if IsDdiSettable(pool, ACTUAL_CONDENSED_FIRST + b) {
      SettableIsInPool(pool, ACTUAL_CONDENSED_FIRST + b);
    }
  }

  /** A client that was activated for control by element, and what happened to it since. */
  ghost predicate ElementRun(pool: Pool, elements: seq<nat>, events: seq<ClientEvent>, c: Client) {
    UsesPerElementControl(pool) && c == ClientRun(ActivatedClient(pool, elements), events)
  }

  lemma ElementRunKeeps(pool: Pool, elements: seq<nat>, events: seq<ClientEvent>, c: Client)
    requires ElementRun(pool, elements, events, c)
    ensures ElementControlled(c) && c.pool == pool
    ensures c.ddiElement == if c.subscribed then BuiltIndex(map[], pool) else map[]
  {
    hide ClientRun, Mirrored, BuiltIndex, UsesPerElementControl, ParentMapOf, SectionIndex;
    var start := ActivatedClient(pool, elements);
    ActivatedMirrored(pool, elements);
    RunMirrors(start, events);
    MirroredRegular(c);
    RunKeepsIndexing(start, events);
  }

  /**
   Setpoints of a block go out element by element until the subscription pass, and after it exactly if no
   element of the pool lists the condensed actual state of the block.
   */
  lemma ReachesElementsIff(pool: Pool, elements: seq<nat>, events: seq<ClientEvent>, c: Client, b: nat)
    requires ElementRun(pool, elements, events, c) && b < BLOCK_COUNT
    ensures ReachesElements(c, b) <==> !c.subscribed || !Listed(pool, ACTUAL_CONDENSED_FIRST + b)
    ensures SETPOINT_CONDENSED_FIRST + b !in c.ddiElement
  {
    hide BuiltIndex, UsesPerElementControl, Listed, ElementControlled;
    ElementRunKeeps(pool, elements, events, c);
    NothingCondensedIsSettable(pool, b);
    IndexedIffListed(pool, SETPOINT_CONDENSED_FIRST + b, false);
    IndexedIffListed(pool, ACTUAL_CONDENSED_FIRST + b, true);
  }

  /** So, in terms of the pool: the element of a section that the demand changes is told so exactly then. */
  lemma ElementHearsDemandUnlessListed(pool: Pool, elements: seq<nat>, events: seq<ClientEvent>, c: Client,
                                       demand: seq<bool>, i: nat)
    requires ElementRun(pool, elements, events, c) && c.auto && WellFormed(c) && OwnElement(c, i)
    requires i < |demand| && demand[i] != (c.setpoint[i] == ON)
    ensures var after := UpdateSections(c, demand); var e := c.sectionElement[i];
            && |after.setpoint| == c.n && after.setpoint[i] == (if demand[i] then ON else OFF)
            && LastElementValue(after.sent, e) ==
               if !c.subscribed || !Listed(pool, ACTUAL_CONDENSED_FIRST + i / SECTIONS_PER_MESSAGE)
               then Some(Told(after, i)) else LastElementValue(c.sent, e)
  {
    hide UpdateSections, LastElementValue, ElementRun, Listed, WellFormed, OwnElement, ReachesElements;
    ElementRunKeeps(pool, elements, events, c);
    assert i / SECTIONS_PER_MESSAGE < BLOCK_COUNT by { OwnElementBlock(c, i); }
    ElementHearsDemandIff(c, demand, i);
    ReachesElementsIff(pool, elements, events, c, i / SECTIONS_PER_MESSAGE);
  }

  lemma OwnElementBlock(c: Client, i: nat)
    requires WellFormed(c) && OwnElement(c, i)
    ensures i / SECTIONS_PER_MESSAGE < BLOCK_COUNT
  {
  }

  lemma SilentBlock(c: Client, b: nat)
    requires SETPOINT_CONDENSED_FIRST + b !in c.ddiElement
    requires ACTUAL_CONDENSED_FIRST + b in c.ddiElement && !IsDdiSettable(c.pool, ACTUAL_CONDENSED_FIRST + b)
    ensures SendBlock(c, b) == c
  {
  }

  /** No changed block below `b` can be sent in any form. */
  ghost predicate ChangesAreBlocked(c: Client, demand: seq<bool>, b: nat) {
    forall k: nat :: k < b && BlockChanged(c.setpoint, demand, k) ==>
      SETPOINT_CONDENSED_FIRST + k !in c.ddiElement
      && ACTUAL_CONDENSED_FIRST + k in c.ddiElement && !IsDdiSettable(c.pool, ACTUAL_CONDENSED_FIRST + k)
  }

  lemma {:induction false} BlockedSweepIsSilent(c: Client, demand: seq<bool>, b: nat)
    requires Regular(c) && ChangesAreBlocked(c, demand, b)
    ensures SweepBlocks(c, demand, b) == c.(setpoint := Swept(c.setpoint, demand, SECTIONS_PER_MESSAGE * b))
  {
    hide SendBlock, BlockChanged, SweepBlocks, IsDdiSettable, Regular;
    if b == 0 {
      SweepNone(c, demand);
      assert Swept(c.setpoint, demand, 0) == c.setpoint;
    } else {
      var j := b - 1;
      BlockedSweepIsSilent(c, demand, j);
      SweepOne(c, demand, j);
      if BlockChanged(c.setpoint, demand, j) {
        SilentBlock(Updated(c, demand, j), j);
      }
    }
  }

  /**
   A demand that reaches the implement in no form at all: from the subscription pass of a client controlled
   by element on, a demand that only disagrees with blocks whose condensed actual state some element lists
   changes the setpoints and nothing else; no message is added.
   */
  lemma ListedBlocksAreSilent(pool: Pool, elements: seq<nat>, events: seq<ClientEvent>, c: Client, demand: seq<bool>)
    requires ElementRun(pool, elements, events, c) && c.subscribed && c.auto && c.n > 0
    requires forall b: nat :: Disagrees(c, demand, b) ==> Listed(pool, ACTUAL_CONDENSED_FIRST + b)
    ensures UpdateSections(c, demand) == c.(setpoint := Swept(c.setpoint, demand, c.n))
  {
    hide SweepBlocks, UsesPerElementControl, ElementRun, Listed, IsDdiSettable, Disagrees, BlockChanged, BuiltIndex;
    ElementRunKeeps(pool, elements, events, c);
    assert Blocks(c.n) <= BLOCK_COUNT;
    forall k: nat | k < Blocks(c.n) && BlockChanged(c.setpoint, demand, k)
      ensures SETPOINT_CONDENSED_FIRST + k !in c.ddiElement
      ensures ACTUAL_CONDENSED_FIRST + k in c.ddiElement && !IsDdiSettable(c.pool, ACTUAL_CONDENSED_FIRST + k)
    {
      ChangedIsDisagreement(c, demand, k);
      ReachesElementsIff(pool, elements, events, c, k);
      assert UsesPerElementControl(pool) by { ElementRunPool(pool, elements, events, c); }
      NothingCondensedIsSettable(pool, k);
    }
    BlockedSweepIsSilent(c, demand, Blocks(c.n));
    assert Swept(c.setpoint, demand, c.n) == Swept(c.setpoint, demand, SECTIONS_PER_MESSAGE * Blocks(c.n));
  }

  lemma ElementRunPool(pool: Pool, elements: seq<nat>, events: seq<ClientEvent>, c: Client)
    requires ElementRun(pool, elements, events, c)
    ensures UsesPerElementControl(pool)
  {
  }

  /** One section, DDI 141 that can be set, and a condensed actual state that cannot. */
  const ReadOnlyActual: Pool :=
    [Device(0), Element(1, 5, 0, [2, 3]),
     ProcessData(2, 141, true, true, false), ProcessData(3, 161, false, true, false)]

  /**
   Such an implement: after its subscription pass it is put into automatic mode, and a demand then switches
   its section on without telling it anything.
   */
  lemma DemandReachesNothing()
    ensures UsesPerElementControl(ReadOnlyActual)
    ensures var start := ClientRun(ActivatedClient(ReadOnlyActual, [5]), [Served(Measure), Served(Control(true))]);
            var end := ClientStep(start, Served(Demand([true])));
            && ElementControlled(start) && start.auto && OwnElement(start, 0) && !ReachesElements(start, 0)
            && start.setpoint == [OFF] && end.setpoint == [ON]
            && end.sent == start.sent
  {
    hide SweepBlocks, BuiltIndex, BuiltCommands, UsesPerElementControl, ParentMapOf, SectionIndex, ClientRun, Listed;
    ReadOnlyActualPool();
    var c := ActivatedClient(ReadOnlyActual, [5]);
    var events := [Served(Measure), Served(Control(true))];
    RunOfTwo(c, events[0], events[1]);
    var start := ClientRun(c, events);
    ElementRunKeeps(ReadOnlyActual, [5], events, start);
    ReachesElementsIff(ReadOnlyActual, [5], events, start, 0);
    forall b: nat | Disagrees(start, [true], b) ensures Listed(ReadOnlyActual, ACTUAL_CONDENSED_FIRST + b) {
      assert b == 0;
    }
    ListedBlocksAreSilent(ReadOnlyActual, [5], events, start, [true]);
  }

  lemma ReadOnlyActualPool()
    ensures UsesPerElementControl(ReadOnlyActual) && Listed(ReadOnlyActual, 161)
  {
    var data := ReadOnlyActual[3];
    assert data.ProcessData? && data.ddi == 161 && Owns(ReadOnlyActual, 1, data.id);
    assert ReadOnlyActual[2].settable && ReadOnlyActual[2].ddi == 141;
  }

  // ---------------------------------------------------------------------------------------------
  // Runs
  // ---------------------------------------------------------------------------------------------

  /** No element lists a condensed DDI of block `b`. */
  ghost predicate Unlisted(pool: Pool, b: nat) {
    !Listed(pool, SETPOINT_CONDENSED_FIRST + b) && !Listed(pool, ACTUAL_CONDENSED_FIRST + b)
  }

  /** A condensed report that gives section `i` another element, or its element `own` to other sections. */
  predicate Remaps(e: ClientEvent, i: nat, own: nat) {
    CondensedReport(e) && (e.ddi - ACTUAL_CONDENSED_FIRST == i / SECTIONS_PER_MESSAGE || e.element == own)
  }

  /** What a run of such a client keeps about section `i` and its element `own`. */
  ghost predicate Tells(c: Client, i: nat, own: nat) {
    && ElementControlled(c) && i < c.n && c.sectionElement[i] == own
    && ReachesElements(c, i / SECTIONS_PER_MESSAGE) && Unlisted(c.pool, i / SECTIONS_PER_MESSAGE)
    && OwnElement(c, i) && ElementMirrored(c, i)
  }

  lemma StepTellsElements(c: Client, e: ClientEvent, i: nat, own: nat)
    requires Tells(c, i, own) && !Remaps(e, i, own)
    ensures Tells(ClientStep(c, e), i, own)
  {
    hide UpdateSections, UpdateControl, SendGnss, Subscribe, Report, LastElementValue, AllFields, Unlisted,
         CarriesNoBlock;
    match e {
      case Reported(ddi, element, value) => ReportTellsElements(c, ddi, element, value, i, own);
      case Served(Demand(states)) => DemandTellsElements(c, states, i, own);
      case Served(Control(enabled)) =>
        var others := ControlAppends(c, enabled);
        LastElementSkips(c.sent, others, own);
      case Served(Gnss(quality)) =>
        var others := GnssAppends(c, quality);
        LastElementSkips(c.sent, others, own);
      case Served(Measure) => MeasureTellsElements(c, i, own);
    }
  }

  lemma ReportTellsElements(c: Client, ddi: nat, element: nat, value: int, i: nat, own: nat)
    requires Tells(c, i, own) && !Remaps(Reported(ddi, element, value), i, own)
    ensures Tells(Report(c, ddi, element, value), i, own)
  {
    hide Report, LastElementValue, AllFields, Unlisted, Field;
    ReportKeepsWellFormed(c, ddi, element, value);
    ReportFrame(c, ddi, element, value);
    forall j | 0 <= j < c.n
      ensures Report(c, ddi, element, value).sectionElement[j] ==
              if ACTUAL_CONDENSED_FIRST <= ddi <= ACTUAL_CONDENSED_LAST
                  && ddi - ACTUAL_CONDENSED_FIRST == j / SECTIONS_PER_MESSAGE
              then element else c.sectionElement[j]
    {
      ReportOnElement(c, ddi, element, value, j);
    }
  }

  lemma ReportOnElement(c: Client, ddi: nat, element: nat, value: int, j: nat)
    requires WellFormed(c) && j < c.n
    ensures var after := Report(c, ddi, element, value);
            && j < |after.sectionElement|
            && after.sectionElement[j] ==
               if ACTUAL_CONDENSED_FIRST <= ddi <= ACTUAL_CONDENSED_LAST
                   && ddi - ACTUAL_CONDENSED_FIRST == j / SECTIONS_PER_MESSAGE
               then element else c.sectionElement[j]
  {
    hide ReportFields, ReportWork, Field, AllFields;
    if ACTUAL_CONDENSED_FIRST <= ddi <= ACTUAL_CONDENSED_LAST {
      FieldsOnSection(c, ddi - ACTUAL_CONDENSED_FIRST, element, value, j);
    } else if ddi == ACTUAL_WORK_STATE {
      ReportWorkFrame(c, element, value == 1);
    }
  }

  lemma DemandTellsElements(c: Client, states: seq<bool>, i: nat, own: nat)
    requires Tells(c, i, own)
    ensures Tells(UpdateSections(c, states), i, own)
  {
    hide SweepBlocks, LastElementValue, AllFields, Unlisted, BlockChanged, DemandedState;
    if c.auto && c.n > 0 {
      var k := i / SECTIONS_PER_MESSAGE;
      assert k < Blocks(c.n) <= BLOCK_COUNT;
      SweepTellsElements(c, states, Blocks(c.n), i);
      UpdateSectionsFrame(c, states);
      DemandFrame(c, states);
      if !BlockChanged(c.setpoint, states, k) {
        UnchangedSection(c, states, i);
      }
    }
  }

  lemma MeasureTellsElements(c: Client, i: nat, own: nat)
    requires Tells(c, i, own)
    ensures Tells(Subscribe(c), i, own)
  {
    hide BuiltIndex, BuiltCommands, LastElementValue, AllFields, Listed;
    if !c.subscribed && c.n > 0 {
      BuiltCommandsSubscribe(c.pool);
      LastElementSkips(c.sent, BuiltCommands(c.pool), own);
      IndexedIffListed(c.pool, SETPOINT_CONDENSED_FIRST + i / SECTIONS_PER_MESSAGE, false);
      IndexedIffListed(c.pool, ACTUAL_CONDENSED_FIRST + i / SECTIONS_PER_MESSAGE, true);
    }
  }

  /** Section `i` has the element `elements[i]`, other than 0 and shared with no other section. */
  ghost predicate ElementOfItsOwn(elements: seq<nat>, i: nat) {
    && i < SectionCount(elements) && elements[i] != 0
    && forall j :: 0 <= j < SectionCount(elements) && j != i ==> elements[j] != elements[i]
  }

  ghost predicate NoRemaps(events: seq<ClientEvent>, i: nat, own: nat) {
    forall k :: 0 <= k < |events| ==> !Remaps(events[k], i, own)
  }

  /** The element of section `i` was last told the stored setpoint, or nothing and the setpoint is off. */
  ghost predicate SectionTold(c: Client, i: nat, own: nat) {
    WellFormed(c) && i < c.n && c.sectionElement[i] == own && ElementMirrored(c, i)
  }

  lemma {:induction false} RunTellsElements(pool: Pool, elements: seq<nat>, events: seq<ClientEvent>, i: nat)
    requires UsesPerElementControl(pool) && Unlisted(pool, i / SECTIONS_PER_MESSAGE)
    requires ElementOfItsOwn(elements, i) && NoRemaps(events, i, elements[i])
    ensures Tells(ClientRun(ActivatedClient(pool, elements), events), i, elements[i])
  {
    hide ClientStep, Tells, ActivatedClient, UsesPerElementControl, Unlisted, Remaps;
    if events == [] {
      ElementsStart(pool, elements, i);
    } else {
      var before := events[..|events| - 1];
      RunTellsElements(pool, elements, before, i);
      StepTellsElements(ClientRun(ActivatedClient(pool, elements), before), events[|events| - 1], i, elements[i]);
    }
  }

  lemma ElementsStart(pool: Pool, elements: seq<nat>, i: nat)
    requires UsesPerElementControl(pool) && Unlisted(pool, i / SECTIONS_PER_MESSAGE) && ElementOfItsOwn(elements, i)
    ensures Tells(ActivatedClient(pool, elements), i, elements[i])
  {
    hide UsesPerElementControl, ParentMapOf, SectionIndex, Unlisted;
  }

  /** Subscribed and in automatic mode, the client is asked to switch on everything up to section `i`. */
  function SwitchOnRun(i: nat): (events: seq<ClientEvent>)
    ensures |events| == 3
  {
    [Served(Measure), Served(Control(true)), Served(Demand(seq(i + 1, _ => true)))]
  }

  lemma ListedBlockIsNotTold(pool: Pool, elements: seq<nat>, i: nat)
    requires UsesPerElementControl(pool) && Listed(pool, ACTUAL_CONDENSED_FIRST + i / SECTIONS_PER_MESSAGE)
    requires ElementOfItsOwn(elements, i)
    ensures !SectionTold(ClientRun(ActivatedClient(pool, elements), SwitchOnRun(i)), i, elements[i])
  {
    hide UpdateSections, BuiltIndex, BuiltCommands, UsesPerElementControl, ParentMapOf, SectionIndex, ClientRun, Listed,
         LastElementValue, Block, AllFields, ReachesElements;
    var c := ActivatedClient(pool, elements);
    var demand := seq(i + 1, _ => true);
    RunOfThree(c, Served(Measure), Served(Control(true)), Served(Demand(demand)));
    var events := [Served(Measure), Served(Control(true))];
    RunOfTwo(c, events[0], events[1]);
    var start := ClientRun(c, events);
    ElementRunKeeps(pool, elements, events, start);
    BuiltCommandsSubscribe(pool);
    LastElementSkips([], BuiltCommands(pool), elements[i]);
    var others := ControlAppends(Subscribe(c), true);
    LastElementSkips(Subscribe(c).sent, others, elements[i]);
    LastElementOfNone(elements[i]);
    ElementHearsDemandUnlessListed(pool, elements, events, start, demand, i);
  }

  lemma LastElementOfNone(e: nat)
    ensures LastElementValue([], e) == None
  {
  }

  /**
   A client controlled by element, and a section with an element of its own: its element was last told the
   stored setpoint, or nothing and the setpoint is off, in every state of every run without remapping
   reports, before and after the subscription pass alike, if and only if no element of the pool lists the
   condensed actual state of the section's block.
   */
  lemma ElementsAreMirroredIff(pool: Pool, elements: seq<nat>, i: nat)
    requires UsesPerElementControl(pool) && ElementOfItsOwn(elements, i)
    ensures (forall events :: NoRemaps(events, i, elements[i]) ==>
                                SectionTold(ClientRun(ActivatedClient(pool, elements), events), i, elements[i]))
            <==> !Listed(pool, ACTUAL_CONDENSED_FIRST + i / SECTIONS_PER_MESSAGE)
  {
    hide ClientRun, ActivatedClient, UsesPerElementControl, Listed, NoRemaps, SectionTold;
    if Listed(pool, ACTUAL_CONDENSED_FIRST + i / SECTIONS_PER_MESSAGE) {
      SwitchOnRemapsNothing(i, elements[i]);
      ListedBlockIsNotTold(pool, elements, i);
    } else {
      assert i / SECTIONS_PER_MESSAGE < BLOCK_COUNT;
      NothingCondensedIsSettable(pool, i / SECTIONS_PER_MESSAGE);
      forall events | NoRemaps(events, i, elements[i])
        ensures SectionTold(ClientRun(ActivatedClient(pool, elements), events), i, elements[i])
      {
        RunTellsElements(pool, elements, events, i);
        TellsIsTold(ClientRun(ActivatedClient(pool, elements), events), i, elements[i]);
      }
    }
  }

  lemma SwitchOnRemapsNothing(i: nat, own: nat)
    ensures NoRemaps(SwitchOnRun(i), i, own)
  {
  }

  lemma TellsIsTold(c: Client, i: nat, own: nat)
    requires Tells(c, i, own)
    ensures SectionTold(c, i, own)
  {
  }

  /** Over any run a section has the element that reported its block last, and its own before the first report. */
  lemma {:induction false} SectionElementIsLastReporter(pool: Pool, elements: seq<nat>, events: seq<ClientEvent>,
                                                        i: nat)
    requires i < SectionCount(elements)
    ensures var c := ClientRun(ActivatedClient(pool, elements), events);
            && WellFormed(c) && i < c.n
            && c.sectionElement[i] == match LastReport(events, i) case Some(r) => r.element case None => elements[i]
  {
    hide Serve, Report, ActivatedClient, AllFields;
    var start := ActivatedClient(pool, elements);
    ActivatedMirrored(pool, elements);
    if events == [] {
      SectionElementsAtStart(pool, elements);
    } else {
      var before, e := events[..|events| - 1], events[|events| - 1];
      SectionElementIsLastReporter(pool, elements, before, i);
      var c := ClientRun(start, before);
      match e {
        case Served(request) => ServeFrame(c, request);
        case Reported(ddi, element, value) =>
          ReportKeepsWellFormed(c, ddi, element, value);
          ReportFrame(c, ddi, element, value);
          ReportOnElement(c, ddi, element, value, i);
      }
    }
  }

  lemma SectionElementsAtStart(pool: Pool, elements: seq<nat>)
    ensures var c := ActivatedClient(pool, elements);
            WellFormed(c) && c.n == SectionCount(elements) && c.sectionElement == elements[..c.n]
  {
    hide ParentMapOf, SectionIndex, UsesPerElementControl;
  }
}
