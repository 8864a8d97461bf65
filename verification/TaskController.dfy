/**
 `ClientState` of src/task_controller.cpp, and what the server's methods do to one of them: each method is
 proved to have exactly the effect that SectionControl.dfy gives it.
 */
module TaskController {
  import opened Bits
  import opened DeviceDescriptor
  import opened ElementHierarchy
  import opened MeasurementIndex
  import opened SectionControl
  import opened ServerModel

  class ClientState {
    var pool: Pool
    var areMeasurementCommandsSent: bool
    var ddiToElementNumber: map<nat, nat>
    var numberOfSections: nat
    var sectionSetpointStates: seq<nat>
    var sectionActualStates: seq<nat>
    var sectionToElementNumber: seq<nat>
    var elementToSection: map<nat, nat>
    var setpointWorkState: bool
    var elementWorkStates: map<nat, bool>
    var elementParents: ParentMap
    var isSectionControlEnabled: bool
    var usesPerElementControl: bool
    var perElementSetpointDdi: nat
    var sent: seq<Message>  // what the bus carried to this client

    function View(): Client
      reads this
    {
      Client(pool, areMeasurementCommandsSent, ddiToElementNumber, numberOfSections, sectionSetpointStates,
             sectionActualStates, sectionToElementNumber, elementToSection, setpointWorkState, elementWorkStates,
             elementParents, isSectionControlEnabled, usesPerElementControl, perElementSetpointDdi, sent)
    }

    constructor ()
      ensures View() == EmptyClient
    {
      pool, areMeasurementCommandsSent, ddiToElementNumber := [], false, map[];
      numberOfSections, sectionSetpointStates, sectionActualStates := 0, [], [];
      sectionToElementNumber, elementToSection := [], map[];
      setpointWorkState, elementWorkStates, elementParents := false, map[], map[];
      isSectionControlEnabled, usesPerElementControl, perElementSetpointDdi, sent := false, false, 0, [];
    }

    static function Resized(states: seq<nat>, number: nat): (r: seq<nat>)
      ensures |r| == number
      ensures forall i :: 0 <= i < number ==> r[i] == if i < |states| then states[i] else 0
    {
      if number <= |states| then states[..number] else states + Zeros(number - |states|)
    }

    method SetNumberOfSections(number: nat)
      requires number < 256
      modifies this
      ensures View() == old(View()).(n := number, setpoint := Resized(old(sectionSetpointStates), number),
                                     actual := Resized(old(sectionActualStates), number),
                                     sectionElement := Resized(old(sectionToElementNumber), number))
    {
      numberOfSections := number;
      sectionSetpointStates := Resized(sectionSetpointStates, number);
      sectionActualStates := Resized(sectionActualStates, number);
      sectionToElementNumber := Resized(sectionToElementNumber, number);
    }

    method SetSectionSetpointState(section: nat, state: nat)
      requires WellFormed(View())
      modifies this`sectionSetpointStates
      ensures View() == old(View()).(setpoint := WithState(old(sectionSetpointStates), section, state))
    {
      if section < numberOfSections {
        sectionSetpointStates := sectionSetpointStates[section := state];
      }
    }

    method SetSectionActualState(section: nat, state: nat)
      requires |sectionActualStates| == numberOfSections
      modifies this`sectionActualStates
      ensures View() == old(View()).(actual := WithState(old(sectionActualStates), section, state))
    {
      if section < numberOfSections {
        sectionActualStates := sectionActualStates[section := state];
      }
    }

    method SetElementNumberForSection(section: nat, elementNumber: nat)
      modifies this`sectionToElementNumber, this`elementToSection
      ensures if section < numberOfSections && section < |old(sectionToElementNumber)|
              then sectionToElementNumber == old(sectionToElementNumber)[section := elementNumber]
                   && elementToSection == old(elementToSection)[elementNumber := section]
              else sectionToElementNumber == old(sectionToElementNumber) && elementToSection == old(elementToSection)
    {
      if section < numberOfSections && section < |sectionToElementNumber| {
        sectionToElementNumber := sectionToElementNumber[section := elementNumber];
        elementToSection := elementToSection[elementNumber := section];
      }
    }

    method IsAnySectionSetpointOn() returns (on: bool)
      ensures on <==> AnyOn(sectionSetpointStates)
    {
      for i := 0 to |sectionSetpointStates|
        invariant ON !in sectionSetpointStates[..i]
      {
        if sectionSetpointStates[i] == ON {
          return true;
        }
      }
      return false;
    }

    method IsElementOrParentOff(elementNumber: nat) returns (off: bool)
      ensures off <==> ElementOrParentOff(View(), elementNumber)
    {
      var state := View();
      var isOff := (x: nat) => ReportedOff(state.work, x);
      off := AnyInChain(elementParents, elementNumber, isOff);
      SameAncestors(elementParents, elementNumber, isOff, (x: nat) => ReportedOff(state.work, x));
    }

    method GetSectionActualState(section: nat) returns (state: nat)
      requires WellFormed(View())
      ensures state == ActualState(View(), section)
    {
      if section < numberOfSections {
        if usesPerElementControl {
          return sectionActualStates[section];
        }
        var off := IsElementOrParentOff(sectionToElementNumber[section]);
        if off {
          return OFF;
        }
        return sectionActualStates[section];
      }
      return NOT_INSTALLED;
    }

    /** The call into the ISOBUS library that puts a value on the bus. */
    method SendSetValue(ddi: nat, element: nat, value: nat)
      modifies this`sent
      ensures View() == old(View()).(sent := old(sent) + [SetValue(ddi, element, value)])
    {
      sent := sent + [SetValue(ddi, element, value)];
    }
  }

  lemma SameAncestors(parents: ParentMap, e: nat, p: nat -> bool, q: nat -> bool)
    requires forall x: nat :: p(x) == q(x)
    ensures AnyAncestor(parents, e, p) == AnyAncestor(parents, e, q)
  {
  }

  // ---------------------------------------------------------------------------------------------
  // Operations on one client
  // ---------------------------------------------------------------------------------------------

  method SendMasterWorkState(state: ClientState)
    modifies state`sent, state`setpointWorkState
    ensures state.View() == SendWorkState(old(state.View()))
  {
    var on := state.IsAnySectionSetpointOn();
    if state.setpointWorkState != on && SETPOINT_WORK_STATE in state.ddiToElementNumber {
      state.SendSetValue(SETPOINT_WORK_STATE, state.ddiToElementNumber[SETPOINT_WORK_STATE], if on then 1 else 0);
      state.setpointWorkState := on;
    }
  }

  method CondensedValue(state: ClientState, sectionOffset: nat) returns (value: nat)
    requires WellFormed(state.View())
    requires sectionOffset % SECTIONS_PER_MESSAGE == 0
    ensures value == BlockValue(state.sectionSetpointStates, sectionOffset / SECTIONS_PER_MESSAGE)
    ensures Carries(value, state.sectionSetpointStates, sectionOffset)
  {
    hide PackFields, BitOr, ShiftLeft, WellFormed, Carries;
    ghost var block := Block(state.sectionSetpointStates, sectionOffset / SECTIONS_PER_MESSAGE);
    SetpointFields(state.View(), sectionOffset / SECTIONS_PER_MESSAGE);
    NoFields(block);
    value := 0;
    for i := 0 to SECTIONS_PER_MESSAGE
      invariant value == PackFields(block[..i])
    {
      NextField(block, i);
      value := BitOr(value, ShiftLeft(StateAt(state.sectionSetpointStates, sectionOffset + i), 2 * i));
    }
    assert block[..SECTIONS_PER_MESSAGE] == block;
    SetpointsAreFields(state.View());
    BlockValueCarries(state.sectionSetpointStates, sectionOffset / SECTIONS_PER_MESSAGE);
  }

  lemma SetpointsAreFields(c: Client)
    requires WellFormed(c)
    ensures AllFields(c.setpoint)
  {
  }

  lemma SetpointFields(c: Client, b: nat)
    requires WellFormed(c)
    ensures AllFields(Block(c.setpoint, b))
  {
  }

  lemma NoFields(block: seq<nat>)
    ensures PackFields(block[..0]) == 0
  {
  }

  /** Or-ing in the next field, two bits further up, extends the packed value by one state. */
  lemma NextField(block: seq<nat>, i: nat)
    requires AllFields(block) && i < |block|
    ensures BitOr(PackFields(block[..i]), ShiftLeft(block[i], 2 * i)) == PackFields(block[..i + 1])
  {
    hide BitOr, ShiftLeft, PackFields;
    PackFieldsBound(block[..i]);
    PackFieldsAppend(block[..i], block[i]);
    OrAboveIsSum(PackFields(block[..i]), block[i], 2 * i);
    assert block[..i + 1] == block[..i] + [block[i]];
  }

  method SendSectionSetpointStates(state: ClientState, ddiOffset: nat)
    requires WellFormed(state.View())
    modifies state`sent, state`setpointWorkState
    ensures state.View() == SendBlock(old(state.View()), ddiOffset)
  {
    var sectionOffset := ddiOffset * SECTIONS_PER_MESSAGE;
    var value := CondensedValue(state, sectionOffset);
    var ddiTarget := SETPOINT_CONDENSED_FIRST + ddiOffset;
    var ddiTargetLegacy := ACTUAL_CONDENSED_FIRST + ddiOffset;
    if ddiTarget in state.ddiToElementNumber {
      state.SendSetValue(ddiTarget, state.ddiToElementNumber[ddiTarget], value);
      SendMasterWorkState(state);
    } else if ddiTargetLegacy in state.ddiToElementNumber {
      if IsDdiSettable(state.pool, ddiTargetLegacy) {
        state.SendSetValue(ddiTargetLegacy, state.ddiToElementNumber[ddiTargetLegacy], value);
      }
    } else if state.usesPerElementControl {
      SendElementSetpoints(state, sectionOffset);
      SendMasterWorkState(state);
    }
  }

  method SendElementSetpoints(state: ClientState, sectionOffset: nat)
    requires WellFormed(state.View())
    modifies state`sent
    ensures state.sent == old(state.sent) +
        ElementSetpoints(old(state.View()), sectionOffset, sectionOffset + SECTIONS_PER_MESSAGE)
  {
    ghost var c := state.View();
    for i := 0 to SECTIONS_PER_MESSAGE
      invariant state.sent == old(state.sent) + ElementSetpoints(c, sectionOffset, sectionOffset + i)
    {
      var sectionIndex := sectionOffset + i;
      if sectionIndex >= state.numberOfSections {
        NoElementSetpointsPastEnd(c, sectionOffset, sectionIndex, sectionOffset + SECTIONS_PER_MESSAGE);
        break;
      }
      var elementNumber := state.sectionToElementNumber[sectionIndex];
      if elementNumber != 0 {
        state.SendSetValue(state.perElementSetpointDdi, elementNumber,
                           if state.sectionSetpointStates[sectionIndex] == ON then 1 else 0);
      }
    }
  }

  lemma {:induction false} NoElementSetpointsPastEnd(c: Client, first: nat, from: nat, to: nat)
    requires |c.setpoint| <= from && first <= from <= to
    ensures ElementSetpoints(c, first, to) == ElementSetpoints(c, first, from)
  {
    if from < to {
      NoElementSetpointsPastEnd(c, first, from, to - 1);
    }
  }

  /** Brings one section in line with the demand, if the demand covers it. */
  method FollowDemand(state: ClientState, sectionStates: seq<bool>, i: nat) returns (changed: bool)
    requires WellFormed(state.View()) && i < state.numberOfSections
    modifies state`sectionSetpointStates
    ensures var before := old(state.View());
            var demanded := DemandedState(before.setpoint[i], sectionStates, i);
            && state.View() == before.(setpoint := before.setpoint[i := demanded])
            && changed == (demanded != before.setpoint[i])
  {
    changed := false;
    if i < |sectionStates| {
      if sectionStates[i] != (state.sectionSetpointStates[i] == ON) {
        state.SetSectionSetpointState(i, if sectionStates[i] then ON else OFF);
        changed := true;
      }
    }
    assert !changed ==>
      old(state.sectionSetpointStates) == old(state.sectionSetpointStates)[i := old(state.sectionSetpointStates)[i]];
  }

  /** The part of a section demand that concerns one client. */
  method UpdateSectionStatesOf(state: ClientState, sectionStates: seq<bool>)
    requires WellFormed(state.View())
    modifies state`sent, state`setpointWorkState, state`sectionSetpointStates
    ensures state.View() == UpdateSections(old(state.View()), sectionStates)
    ensures WellFormed(state.View())
  {
    if !state.isSectionControlEnabled || state.numberOfSections == 0 {
      return;
    }
    SweepSections(state, sectionStates);
  }

  /** The loop over the sections, sending a block as soon as the next one starts. */
  method SweepSections(state: ClientState, sectionStates: seq<bool>)
    requires WellFormed(state.View()) && state.View().auto && state.View().n > 0
    modifies state`sent, state`setpointWorkState, state`sectionSetpointStates
    ensures state.View() == UpdateSections(old(state.View()), sectionStates)
    ensures WellFormed(state.View())
  {
    hide *;
    ghost var c := state.View();
    SweepStart(state, sectionStates);
    var requiresUpdate := false;
    for i := 0 to state.numberOfSections
      invariant requiresUpdate <==> i > 0 && ChangedBelow(c.setpoint, sectionStates, (i - 1) / SECTIONS_PER_MESSAGE, i)
      invariant state.View() == InProgress(c, sectionStates, i)
    {
      ghost var b := i / SECTIONS_PER_MESSAGE;
      InProgressShape(c, sectionStates, i);
      BlockDone(c, sectionStates, i);
      if i % SECTIONS_PER_MESSAGE == 0 && requiresUpdate {
        SendSectionSetpointStates(state, i / SECTIONS_PER_MESSAGE - 1);
        requiresUpdate := false;
      }
      assert state.View() == SweepBlocks(c, sectionStates, b).(setpoint := Swept(c.setpoint, sectionStates, i));
      assert requiresUpdate <==> ChangedBelow(c.setpoint, sectionStates, b, i);
      var changed := FollowDemand(state, sectionStates, i);
      requiresUpdate := requiresUpdate || changed;
      SweptNext(c, sectionStates, i);
      ChangedNext(c.setpoint, sectionStates, b, i);
    }
    InProgressShape(c, sectionStates, c.n);
    if requiresUpdate {
      SendSectionSetpointStates(state, (state.numberOfSections - 1) / SECTIONS_PER_MESSAGE);
    }
    LastBlockDone(c, sectionStates);
  }

  lemma SweepStart(state: ClientState, demand: seq<bool>)
    ensures state.View().n == state.numberOfSections
    ensures InProgress(state.View(), demand, 0) == state.View()
    ensures SECTIONS_PER_MESSAGE == 16
  {
  }

  /** Between two sections: the blocks before the current one are finished, the current one is partly written. */
  function InProgress(c: Client, demand: seq<bool>, i: nat): Client {
    if i == 0 then c
    else SweepBlocks(c, demand, (i - 1) / SECTIONS_PER_MESSAGE).(setpoint := Swept(c.setpoint, demand, i))
  }

  lemma InProgressShape(c: Client, demand: seq<bool>, i: nat)
    requires WellFormed(c)
    ensures WellFormed(InProgress(c, demand, i))
    ensures InProgress(c, demand, i).n == c.n
    ensures InProgress(c, demand, i).setpoint == Swept(c.setpoint, demand, i)
  {
    if i > 0 {
      SweepFrame(c, demand, (i - 1) / SECTIONS_PER_MESSAGE);
    } else {
      assert Swept(c.setpoint, demand, 0) == c.setpoint;
    }
  }

  /** At a block boundary, sending the block if it changed completes it. */
  lemma BlockDone(c: Client, demand: seq<bool>, i: nat)
    requires WellFormed(c) && i < c.n
    ensures var b := i / SECTIONS_PER_MESSAGE;
            var done := SweepBlocks(c, demand, b).(setpoint := Swept(c.setpoint, demand, i));
            WellFormed(done) && done.n == c.n &&
            if i % SECTIONS_PER_MESSAGE == 0 && i > 0 && ChangedBelow(c.setpoint, demand, b - 1, i)
            then SendBlock(InProgress(c, demand, i), b - 1) == done
            else InProgress(c, demand, i) == done
    ensures i % SECTIONS_PER_MESSAGE == 0 ==> !ChangedBelow(c.setpoint, demand, i / SECTIONS_PER_MESSAGE, i)
  {
    hide SendBlock, WellFormed, ChangedBelow, BlockChanged;
    var b := i / SECTIONS_PER_MESSAGE;
    DoneShape(c, demand, b, i);
    NothingChangedYet(c, demand, i);
    if i == 0 {
      assert Swept(c.setpoint, demand, 0) == c.setpoint;
    } else if i % SECTIONS_PER_MESSAGE == 0 {
      assert (i - 1) / SECTIONS_PER_MESSAGE == b - 1 && i == SECTIONS_PER_MESSAGE * b;
      BlockEnds(c, demand, b - 1);
      SendBlockFrame(InProgress(c, demand, i), b - 1);
    } else {
      assert (i - 1) / SECTIONS_PER_MESSAGE == b;
    }
  }

  lemma DoneShape(c: Client, demand: seq<bool>, b: nat, i: nat)
    requires WellFormed(c)
    ensures var done := SweepBlocks(c, demand, b).(setpoint := Swept(c.setpoint, demand, i));
            WellFormed(done) && done.n == c.n
  {
    hide SweepBlocks;
    SweepFrame(c, demand, b);
  }

  lemma NothingChangedYet(c: Client, demand: seq<bool>, i: nat)
    ensures i % SECTIONS_PER_MESSAGE == 0 ==> !ChangedBelow(c.setpoint, demand, i / SECTIONS_PER_MESSAGE, i)
  {
  }

  /** Once the sections of a block have been compared, it has changed below that point if at all. */
  lemma BlockEnds(c: Client, demand: seq<bool>, b: nat)
    ensures ChangedBelow(c.setpoint, demand, b, SECTIONS_PER_MESSAGE * (b + 1)) == BlockChanged(c.setpoint, demand, b)
    ensures SweepBlocks(c, demand, b + 1) ==
            var swept := Swept(c.setpoint, demand, SECTIONS_PER_MESSAGE * (b + 1));
            var updated := SweepBlocks(c, demand, b).(setpoint := swept);
            if BlockChanged(c.setpoint, demand, b) then SendBlock(updated, b) else updated
    ensures SweepBlocks(c, demand, b + 1).setpoint == Swept(c.setpoint, demand, SECTIONS_PER_MESSAGE * (b + 1))
  {
    hide SendBlock, DemandedState;
    SweepFrame(c, demand, b + 1);
  }

  lemma SweptNext(c: Client, demand: seq<bool>, i: nat)
    requires i < |c.setpoint|
    ensures var swept := Swept(c.setpoint, demand, i);
            InProgress(c, demand, i + 1) == SweepBlocks(c, demand, i / SECTIONS_PER_MESSAGE).(
              setpoint := swept[i := DemandedState(c.setpoint[i], demand, i)])
  {
    hide SweepBlocks;
    assert Swept(c.setpoint, demand, i + 1) ==
        Swept(c.setpoint, demand, i)[i := DemandedState(c.setpoint[i], demand, i)];
  }

  lemma ChangedNext(setpoint: seq<nat>, demand: seq<bool>, b: nat, i: nat)
    requires i < |setpoint| && b == i / SECTIONS_PER_MESSAGE
    ensures ChangedBelow(setpoint, demand, b, i + 1)
            <==> ChangedBelow(setpoint, demand, b, i) || DemandedState(setpoint[i], demand, i) != setpoint[i]
  {
  }

  lemma LastBlockDone(c: Client, demand: seq<bool>)
    requires WellFormed(c) && c.n > 0 && c.auto
    ensures WellFormed(UpdateSections(c, demand))
    ensures var b := (c.n - 1) / SECTIONS_PER_MESSAGE;
            var inProgress := InProgress(c, demand, c.n);
            UpdateSections(c, demand) ==
            if ChangedBelow(c.setpoint, demand, b, c.n) then SendBlock(inProgress, b) else inProgress
  {
    hide SendBlock;
    UpdateSectionsFrame(c, demand);
    assert Blocks(c.n) == (c.n - 1) / SECTIONS_PER_MESSAGE + 1;
    assert Swept(c.setpoint, demand, c.n) == Swept(c.setpoint, demand, SECTIONS_PER_MESSAGE * Blocks(c.n));
  }

  // ---------------------------------------------------------------------------------------------
  // Reports from a client
  // ---------------------------------------------------------------------------------------------

  method StoreCondensedReport(state: ClientState, block: nat, elementNumber: nat, value: int)
    requires WellFormed(state.View())
    modifies state`sectionActualStates, state`sectionToElementNumber, state`elementToSection
    ensures state.View() == ReportFields(old(state.View()), block, elementNumber, value, SECTIONS_PER_MESSAGE)
    ensures WellFormed(state.View())
  {
    ghost var c := state.View();
    var sectionIndexOffset := SECTIONS_PER_MESSAGE * block;
    assert ReportFields(c, block, elementNumber, value, 0) == c by {
      assert WithFields(c.actual, sectionIndexOffset, value, 0) == c.actual;
      assert WithElement(c.sectionElement, sectionIndexOffset, elementNumber, 0) == c.sectionElement;
    }
    for i := 0 to SECTIONS_PER_MESSAGE
      invariant state.View() == ReportFields(c, block, elementNumber, value, i)
    {
      NextReportField(c, block, elementNumber, value, i);
      StoreReportedSection(state, i + sectionIndexOffset, elementNumber, Field(value, i));
    }
    ReportFieldsKeepsWellFormed(c, block, elementNumber, value, SECTIONS_PER_MESSAGE);
  }

  method StoreReportedSection(state: ClientState, section: nat, elementNumber: nat, sectionState: nat)
    requires WellFormed(state.View())
    modifies state`sectionActualStates, state`sectionToElementNumber, state`elementToSection
    ensures state.View() == ReportSection(old(state.View()), section, elementNumber, sectionState)
  {
    state.SetSectionActualState(section, sectionState);
    state.SetElementNumberForSection(section, elementNumber);
  }

  function ReportSection(c: Client, section: nat, element: nat, state: nat): Client {
    if section < c.n && section < |c.sectionElement|
    then c.(actual := WithState(c.actual, section, state), sectionElement := c.sectionElement[section := element],
            elementSection := c.elementSection[element := section])
    else c.(actual := WithState(c.actual, section, state))
  }

  lemma NextReportField(c: Client, b: nat, element: nat, value: int, k: nat)
    requires WellFormed(c)
    ensures WellFormed(ReportFields(c, b, element, value, k))
    ensures ReportFields(c, b, element, value, k + 1)
         == ReportSection(ReportFields(c, b, element, value, k), SECTIONS_PER_MESSAGE * b + k, element, Field(value, k))
  {
    var first := SECTIONS_PER_MESSAGE * b;
    ReportFieldsKeepsWellFormed(c, b, element, value, k);
    assert WithFields(c.actual, first, value, k + 1) ==
        WithState(WithFields(c.actual, first, value, k), first + k, Field(value, k));
    if first + k < c.n {
      assert WithElement(c.sectionElement, first, element, k + 1) ==
          WithElement(c.sectionElement, first, element, k)[first + k := element];
    } else {
      assert WithElement(c.sectionElement, first, element, k + 1) == WithElement(c.sectionElement, first, element, k);
    }
  }

  method StoreWorkReport(state: ClientState, elementNumber: nat, working: bool)
    requires WellFormed(state.View())
    modifies state`elementWorkStates, state`sectionActualStates
    ensures state.View() == ReportWork(old(state.View()), elementNumber, working)
    ensures WellFormed(state.View())
  {
    ReportWorkKeepsWellFormed(state.View(), elementNumber, working);
    state.elementWorkStates := state.elementWorkStates[elementNumber := working];
    if state.usesPerElementControl {
      if elementNumber in state.elementToSection {
        state.SetSectionActualState(state.elementToSection[elementNumber], if working then ON else OFF);
      }
    }
  }

  // ---------------------------------------------------------------------------------------------
  // Measurement commands
  // ---------------------------------------------------------------------------------------------

  /** `c` after the occurrences `links` have been registered and their commands sent. */
  function Registered(c: Client, links: seq<Link>, actual: bool): Client
    requires AllData(links)
  {
    c.(ddiElement := Index(c.ddiElement, links), sent := c.sent + AllCommands(links, actual))
  }

  lemma RegisteredNext(c: Client, links: seq<Link>, link: Link, actual: bool)
    requires AllData(links) && link.data.ProcessData?
    ensures AllData(links + [link])
    ensures var before := Registered(c, links, actual);
            Registered(c, links + [link], actual) ==
            before.(ddiElement := before.ddiElement[link.data.ddi := link.element],
                    sent := before.sent + Commands(link, actual))
  {
    var after := links + [link];
    assert after[..|links|] == links && after[|links|] == link;
  }

  /** Registers one occurrence and sends the commands its trigger methods allow. */
  method RegisterLink(state: ClientState, data: PoolObject, elementNumber: nat, actual: bool, ghost c: Client,
          ghost links: seq<Link>)
    requires data.ProcessData? && AllData(links)
    requires state.View() == Registered(c, links, actual)
    modifies state`ddiToElementNumber, state`sent
    ensures AllData(links + [Link(data, elementNumber)])
    ensures state.View() == Registered(c, links + [Link(data, elementNumber)], actual)
  {
    hide Index, AllCommands, Registered, Commands;
    RegisteredNext(c, links, Link(data, elementNumber), actual);
    state.ddiToElementNumber := state.ddiToElementNumber[data.ddi := elementNumber];
    SendCommands(state, data, elementNumber, actual);
  }

  method SendCommands(state: ClientState, data: PoolObject, elementNumber: nat, actual: bool)
    requires data.ProcessData?
    modifies state`sent
    ensures state.View() == old(state.View()).(sent := old(state.sent) + Commands(Link(data, elementNumber), actual))
  {
    if data.onChange {
      state.sent := state.sent + [SubscribeOnChange(data.ddi, elementNumber, 1)];
    }
    if actual && data.timeInterval {
      state.sent := state.sent + [SubscribeInterval(data.ddi, elementNumber, 1000)];
    }
  }

  /** Registers every occurrence of one process data object in a child list. */
  method RegisterOwners(state: ClientState, data: PoolObject, actual: bool, ghost c: Client, ghost links: seq<Link>)
    requires data.ProcessData? && AllData(links)
    requires state.View() == Registered(c, links, actual)
    modifies state`ddiToElementNumber, state`sent
    ensures AllData(links + OwnerLinks(state.pool, data, |state.pool|))
    ensures state.View() == Registered(c, links + OwnerLinks(state.pool, data, |state.pool|), actual)
  {
    ghost var done := links;
    for j := 0 to |state.pool|
      invariant done == links + OwnerLinks(state.pool, data, j)
      invariant AllData(done) && state.View() == Registered(c, done, actual)
    {
      var parentObject := state.pool[j];
      if parentObject.Element? {
        done := RegisterChildren(state, data, parentObject, actual, c, done);
      }
      assert done == links + OwnerLinks(state.pool, data, j + 1);
    }
  }

  method RegisterChildren(state: ClientState, data: PoolObject, parentObject: PoolObject, actual: bool,
          ghost c: Client, ghost links: seq<Link>)
    returns (ghost done: seq<Link>)
    requires data.ProcessData? && parentObject.Element? && AllData(links)
    requires state.View() == Registered(c, links, actual)
    modifies state`ddiToElementNumber, state`sent
    ensures done == links + ChildLinks(data, parentObject.number, parentObject.children, |parentObject.children|)
    ensures AllData(done) && state.View() == Registered(c, done, actual)
  {
    done := links;
    for k := 0 to |parentObject.children|
      invariant done == links + ChildLinks(data, parentObject.number, parentObject.children, k)
      invariant AllData(done) && state.View() == Registered(c, done, actual)
    {
      if parentObject.children[k] == data.id {
        RegisterLink(state, data, parentObject.number, actual, c, done);
        done := done + [Link(data, parentObject.number)];
      }
      assert done == links + ChildLinks(data, parentObject.number, parentObject.children, k + 1);
    }
  }

  /** One subscription pass over the pool. */
  method RegisterPass(state: ClientState, actual: bool)
    modifies state`ddiToElementNumber, state`sent
    ensures AllData(Links(state.pool, actual, |state.pool|))
    ensures state.View() == Registered(old(state.View()), Links(state.pool, actual, |state.pool|), actual)
  {
    ghost var c := state.View();
    for i := 0 to |state.pool|
      invariant AllData(Links(state.pool, actual, i))
      invariant state.View() == Registered(c, Links(state.pool, actual, i), actual)
    {
      LinksAreData(state.pool, actual, i + 1);
      if Selected(state.pool[i], actual) {
        RegisterOwners(state, state.pool[i], actual, c, Links(state.pool, actual, i));
      } else {
        assert Links(state.pool, actual, i + 1) == Links(state.pool, actual, i);
      }
    }
  }

  /** The first element in the pool whose child list names the object. */
  method FindOwningElementNumber(pool: Pool, id: nat) returns (owner: Option<nat>)
    ensures owner == FirstOwner(pool, id)
  {
    for i := 0 to |pool|
      invariant FirstOwner(pool, id) == FirstOwner(pool[i..], id)
    {
      if !pool[i].Element? {
        continue;
      }
      for k := 0 to |pool[i].children|
        invariant id !in pool[i].children[..k]
      {
        if pool[i].children[k] == id {
          return Some(pool[i].number);
        }
      }
    }
    return None;
  }

  function WithGnss(c: Client, owner: Option<nat>): Client {
    if owner.Some? then c.(ddiElement := c.ddiElement[GNSS_QUALITY := owner.value]) else c
  }

  lemma GnssOwnerNext(c: Client, pool: Pool, i: nat)
    requires i < |pool|
    ensures WithGnss(c, GnssOwner(pool, i + 1)) ==
            if SendsGnss(pool[i]) && FirstOwner(pool, pool[i].id).Some?
            then WithGnss(WithGnss(c, GnssOwner(pool, i)), FirstOwner(pool, pool[i].id))
            else WithGnss(c, GnssOwner(pool, i))
  {
    hide FirstOwner;
  }

  lemma NoGnssOwner(c: Client, pool: Pool)
    ensures WithGnss(c, GnssOwner(pool, 0)) == c
  {
  }

  method RegisterGnss(state: ClientState)
    modifies state`ddiToElementNumber
    ensures state.View() == WithGnss(old(state.View()), GnssOwner(state.pool, |state.pool|))
  {
    hide FirstOwner, GnssOwner;
    ghost var c := state.View();
    NoGnssOwner(c, state.pool);
    for i := 0 to |state.pool|
      invariant state.View() == WithGnss(c, GnssOwner(state.pool, i))
    {
      GnssOwnerNext(c, state.pool, i);
      var data := state.pool[i];
      if !data.ProcessData? || data.ddi != GNSS_QUALITY {
        continue;
      }
      if !data.settable {
        continue;
      }
      var owner := FindOwningElementNumber(state.pool, data.id);
      if owner.Some? {
        state.ddiToElementNumber := state.ddiToElementNumber[GNSS_QUALITY := owner.value];
      }
    }
  }

  lemma SubscribeInSteps(c: Client)
    ensures AllData(Links(c.pool, true, |c.pool|)) && AllData(Links(c.pool, false, |c.pool|))
    ensures var first := Registered(c, Links(c.pool, true, |c.pool|), true);
            var second := Registered(first, Links(c.pool, false, |c.pool|), false);
            && first.pool == second.pool == c.pool
            && Subscribe(c) == if c.subscribed || c.n == 0 then c
                               else WithGnss(second, GnssOwner(c.pool, |c.pool|)).(subscribed := true)
  {
    hide Index, AllCommands, GnssOwner, Links, Selected;
    LinksAreData(c.pool, true, |c.pool|);
    LinksAreData(c.pool, false, |c.pool|);
    var actual := AllCommands(Links(c.pool, true, |c.pool|), true);
    var control := AllCommands(Links(c.pool, false, |c.pool|), false);
    assert c.sent + actual + control == c.sent + (actual + control);
  }

  /** Nothing happens for a client without sections, or the second time. */
  method RequestMeasurementCommandsOf(state: ClientState)
    modifies state`ddiToElementNumber, state`sent, state`areMeasurementCommandsSent
    ensures state.View() == Subscribe(old(state.View()))
  {
    hide Subscribe, Registered, WithGnss, Links, BuiltIndex, BuiltCommands;
    SubscribeInSteps(state.View());
    if !state.areMeasurementCommandsSent && state.numberOfSections > 0 {
      RegisterPass(state, true);
      RegisterPass(state, false);
      RegisterGnss(state);
      state.areMeasurementCommandsSent := true;
    }
  }
}
