/**
 The packets exchanged with AgOpenGPS (src/app.cpp): unpacking the section demand of PGN 0xE5, packing
 the heartbeat of PGN 0xF0, and what its bits mean in terms of the reports received so far.
 */
module Heartbeat {
  import opened Bits
  import opened DeviceDescriptor
  import opened ElementHierarchy
  import opened SectionControl
  import opened ServerModel
  import opened SectionRuns
  import opened TaskController

  const DEMAND_BYTES := 8

  // ---------------------------------------------------------------------------------------------
  // Unpacking the demand
  // ---------------------------------------------------------------------------------------------

  method UnpackDemand(data: seq<Byte>) returns (states: seq<bool>)
    requires |data| >= DEMAND_BYTES
    ensures states == DemandBits(data)
    ensures |states| == 64
    ensures forall i :: 0 <= i < 64 ==> (states[i] <==> data[i / 8] / [1, 2, 4, 8, 16, 32, 64, 128][i % 8] % 2 == 1)
  {
    states := [];
    for j := 0 to DEMAND_BYTES
      invariant states == DemandBits(data)[..8 * j]
    {
      for i := 0 to 8
        invariant states == DemandBits(data)[..8 * j + i]
      {
        assert (8 * j + i) / 8 == j && (8 * j + i) % 8 == i;
        states := states + [BitSet(data[j], i)];
      }
    }
    DemandDigits(data);
  }

  /** The bits of a demand as binary digits of its bytes. */
  lemma DemandDigits(data: seq<Byte>)
    requires |data| >= 8
    ensures var states := DemandBits(data);
            && |states| == 64
            && forall i :: 0 <= i < 64 ==> (states[i] <==> data[i / 8] / [1, 2, 4, 8, 16, 32, 64, 128][i % 8] % 2 == 1)
  {
    hide BitSet;
    forall i | 0 <= i < 64
      ensures DemandBits(data)[i] <==> data[i / 8] / [1, 2, 4, 8, 16, 32, 64, 128][i % 8] % 2 == 1
    {
      BitIsDigit(data[i / 8], i % 8);
    }
  }

  /** Section `8 * j + i` is bit `i` of byte `j`. */
  function DemandBits(data: seq<Byte>): (states: seq<bool>)
    requires |data| >= DEMAND_BYTES
    ensures |states| == 8 * DEMAND_BYTES
    ensures forall i :: 0 <= i < |states| ==> states[i] == BitSet(data[i / 8], i % 8)
  {
    seq(8 * DEMAND_BYTES, i requires 0 <= i < 8 * DEMAND_BYTES => BitSet(data[i / 8], i % 8))
  }

  // ---------------------------------------------------------------------------------------------
  // Packing the heartbeat
  // ---------------------------------------------------------------------------------------------

  ghost function OnBits(c: Client): (bits: seq<bool>)
    requires WellFormed(c)
    ensures |bits| == c.n
    ensures forall i :: 0 <= i < c.n ==> bits[i] == (ActualState(c, i) == ON)
  {
    seq(c.n, i requires 0 <= i < c.n => ActualState(c, i) == ON)
  }

  /** The bits from `8 * j` on that fit one byte. */
  function ByteBits(bits: seq<bool>, j: nat): (r: seq<bool>)
    requires 8 * j <= |bits|
    ensures |r| <= 8
  {
    bits[8 * j..if 8 * j + 8 <= |bits| then 8 * j + 8 else |bits|]
  }

  method HeartbeatPayload(state: ClientState) returns (data: seq<nat>)
    requires WellFormed(state.View())
    ensures IsHeartbeat(state.View(), data)
  {
    ghost var bits := OnBits(state.View());
    data := [if state.isSectionControlEnabled then 1 else 0, state.numberOfSections];
    var sectionIndex := 0;
    while sectionIndex < state.numberOfSections
      invariant sectionIndex <= state.numberOfSections == |bits|
      invariant |data| == 2 + (sectionIndex + 7) / 8
      invariant sectionIndex % 8 == 0 || sectionIndex == state.numberOfSections
      invariant data[0] == (if state.isSectionControlEnabled then 1 else 0) && data[1] == state.numberOfSections
      invariant forall j :: 0 <= j < |data| - 2 ==> 8 * j <= |bits| && data[2 + j] == PackBits(ByteBits(bits, j))
      decreases state.numberOfSections - sectionIndex
    {
      ghost var j := sectionIndex / 8;
      assert sectionIndex == 8 * j;
      var byte;
      byte, sectionIndex := PackByte(state, sectionIndex);
      data := data + [byte];
    }
    HeartbeatBits(state.View(), data);
  }

  lemma PackNothing()
    ensures PackBits([]) == 0
  {
  }

  lemma PackOneMore(bits: seq<bool>, b: bool)
    ensures BitOr(PackBits(bits), ShiftLeft(if b then 1 else 0, |bits|)) == PackBits(bits + [b])
  {
    PackBitsBound(bits);
    PackBitsAppend(bits, b);
    OrAboveIsSum(PackBits(bits), if b then 1 else 0, |bits|);
  }

  /** Packs up to eight sections, the first in the lowest bit. */
  method PackByte(state: ClientState, first: nat) returns (byte: nat, sectionIndex: nat)
    requires WellFormed(state.View()) && first < state.numberOfSections && first % 8 == 0
    ensures byte == PackBits(ByteBits(OnBits(state.View()), first / 8))
    ensures sectionIndex == if first + 8 <= state.numberOfSections then first + 8 else state.numberOfSections
  {
    hide PackBits, BitOr, ShiftLeft;
    ghost var bits := OnBits(state.View());
    byte, sectionIndex := 0, first;
    PackNothing();
    assert bits[first..first] == [];
    for i := 0 to 8
      invariant sectionIndex == if first + i <= state.numberOfSections then first + i else state.numberOfSections
      invariant byte == PackBits(bits[first..sectionIndex])
    {
      if sectionIndex < state.numberOfSections {
        var actual := state.GetSectionActualState(sectionIndex);
        ghost var sofar := bits[first..sectionIndex];
        assert bits[first..sectionIndex + 1] == sofar + [bits[sectionIndex]];
        PackOneMore(sofar, actual == ON);
        byte := BitOr(byte, ShiftLeft(if actual == ON then 1 else 0, i));
        sectionIndex := sectionIndex + 1;
      }
    }
  }

  /** Mode, section count, then one bit per section that the task controller shows as on; spare bits are 0. */
  ghost predicate IsHeartbeat(c: Client, data: seq<nat>)
    requires WellFormed(c)
  {
    && |data| == 2 + (c.n + 7) / 8
    && data[0] == (if c.auto then 1 else 0) && data[1] == c.n
    && (forall j :: 2 <= j < |data| ==> data[j] < 256)
    && forall i: nat :: i < 8 * (|data| - 2) ==> ShowsBit(c, data, i)
  }

  /** Bit `i` of the heartbeat's bit field is set exactly when section `i` exists and is shown as on. */
  ghost predicate ShowsBit(c: Client, data: seq<nat>, i: nat)
    requires WellFormed(c) && |data| >= 2 && i < 8 * (|data| - 2)
  {
    BitSet(data[2 + i / 8], i % 8) <==> i < c.n && ActualState(c, i) == ON
  }

  lemma HeartbeatBits(c: Client, data: seq<nat>)
    requires WellFormed(c)
    requires |data| == 2 + (c.n + 7) / 8 && data[0] == (if c.auto then 1 else 0) && data[1] == c.n
    requires forall j :: 0 <= j < |data| - 2 ==> 8 * j <= c.n && data[2 + j] == PackBits(ByteBits(OnBits(c), j))
    ensures IsHeartbeat(c, data)
  {
    hide BitSet, PackBits, ActualState;
    var bits := OnBits(c);
    assert |data| - 2 == (c.n + 7) / 8;
    forall j | 2 <= j < |data| ensures data[j] < 256 {
      var packed := ByteBits(bits, j - 2);
      assert data[2 + (j - 2)] == PackBits(packed);
      PackBitsBound(packed);
      ByteBound(|packed|);
    }
    forall i: nat | i < 8 * (|data| - 2) ensures ShowsBit(c, data, i) {
      var j := i / 8;
      assert data[2 + j] == PackBits(ByteBits(bits, j));
      BitOfPack(ByteBits(bits, j), i % 8);
      ByteBitsAt(bits, j, i % 8);
    }
  }

  lemma ByteBitsAt(bits: seq<bool>, j: nat, k: nat)
    requires 8 * j <= |bits| && k < 8
    ensures k < |ByteBits(bits, j)| <==> 8 * j + k < |bits|
    ensures 8 * j + k < |bits| ==> ByteBits(bits, j)[k] == bits[8 * j + k]
  {
  }

  lemma ByteBound(k: nat)
    requires k <= 8
    ensures ShiftLeft(1, k) <= 256
  {
    assert ShiftLeft(1, 8) == 256;
    if k < 8 {
      ShiftLeftGrows(k, 8);
    }
  }

  lemma {:induction false} ShiftLeftGrows(k: nat, m: nat)
    requires k <= m
    ensures ShiftLeft(1, k) <= ShiftLeft(1, m)
  {
    if k < m {
      ShiftLeftGrows(k, m - 1);
    }
  }

  // ---------------------------------------------------------------------------------------------
  // What the bits mean, over any history
  // ---------------------------------------------------------------------------------------------

  datatype SectionReport = SectionReport(value: int, element: nat)

  /** The last condensed report that covers section `i`. */
  function LastReport(events: seq<ClientEvent>, i: nat): Option<SectionReport> {
    if events == [] then None
    else
      var e := events[|events| - 1];
      if e.Reported? && ACTUAL_CONDENSED_FIRST <= e.ddi <= ACTUAL_CONDENSED_LAST
         && e.ddi - ACTUAL_CONDENSED_FIRST == i / SECTIONS_PER_MESSAGE
      then Some(SectionReport(e.value, e.element))
      else LastReport(events[..|events| - 1], i)
  }

  /** The last work state (DDI 141) an element reported: working only if the value was 1. */
  function LastWork(events: seq<ClientEvent>, element: nat): Option<bool> {
    if events == [] then None
    else
      var e := events[|events| - 1];
      if e.Reported? && e.ddi == ACTUAL_WORK_STATE && e.element == element then Some(e.value == 1)
      else LastWork(events[..|events| - 1], element)
  }

  /** The stored work states are the last reported ones. */
  ghost predicate WorkIsLast(c: Client, events: seq<ClientEvent>) {
    forall e: nat :: LastWork(events, e) == if e in c.work then Some(c.work[e]) else None
  }

  /** Section `i` holds the field of the last report covering it, and the element that sent it. */
  ghost predicate SectionIsLast(c: Client, elements: seq<nat>, events: seq<ClientEvent>, i: nat)
    requires WellFormed(c) && i < c.n <= |elements|
  {
    match LastReport(events, i)
    case Some(r) => c.actual[i] == Field(r.value, i % SECTIONS_PER_MESSAGE) && c.sectionElement[i] == r.element
    case None => c.actual[i] == OFF && c.sectionElement[i] == elements[i]
  }

  /** What never changes after activation. */
  ghost predicate SameShape(c: Client, start: Client) {
    c.n == start.n && c.parents == start.parents && c.perElement == start.perElement && c.pool == start.pool
  }

  lemma {:induction false} HistoryOfReports(pool: Pool, elements: seq<nat>, events: seq<ClientEvent>)
    requires !UsesPerElementControl(pool)
    ensures var start := ActivatedClient(pool, elements);
            var c := ClientRun(start, events);
            && WellFormed(c) && SameShape(c, start) && WorkIsLast(c, events)
            && forall i :: 0 <= i < c.n ==> SectionIsLast(c, elements, events, i)
  {
    hide Report, Serve, Field, ParentMapOf, SectionIndex, AllFields, UsesPerElementControl, LastReport, LastWork,
         ActivatedClient;
    var start := ActivatedClient(pool, elements);
    if events == [] {
      StartOfHistory(pool, elements);
    } else {
      var before, e := events[..|events| - 1], events[|events| - 1];
      HistoryOfReports(pool, elements, before);
      StartOfHistory(pool, elements);
      var c := ClientRun(start, before);
      HistoryStep(c, elements, before, e);
      assert before + [e] == events;
    }
  }

  lemma StartOfHistory(pool: Pool, elements: seq<nat>)
    ensures var start := ActivatedClient(pool, elements);
            && WellFormed(start) && start.n <= |elements| && WorkIsLast(start, [])
            && start.perElement == UsesPerElementControl(pool)
            && forall i :: 0 <= i < start.n ==> SectionIsLast(start, elements, [], i)
  {
    hide ParentMapOf, SectionIndex, UsesPerElementControl;
  }

  lemma HistoryStep(c: Client, elements: seq<nat>, before: seq<ClientEvent>, e: ClientEvent)
    requires WellFormed(c) && c.n <= |elements| && !c.perElement && WorkIsLast(c, before)
    requires forall i :: 0 <= i < c.n ==> SectionIsLast(c, elements, before, i)
    ensures var after := ClientStep(c, e);
            && WellFormed(after) && SameShape(after, c) && WorkIsLast(after, before + [e])
            && forall i :: 0 <= i < c.n ==> SectionIsLast(after, elements, before + [e], i)
  {
    hide Serve, Report, Field, AllFields;
    var events := before + [e];
    var after := ClientStep(c, e);
    assert events[..|events| - 1] == before;
    if e.Served? {
      ServeFrame(c, e.request);
    } else {
      ReportKeepsWellFormed(c, e.ddi, e.element, e.value);
      ReportFrame(c, e.ddi, e.element, e.value);
    }
    forall i | 0 <= i < c.n ensures SectionIsLast(after, elements, events, i) {
      assert SectionIsLast(c, elements, before, i);
      if e.Reported? {
        ReportOnSection(c, e.ddi, e.element, e.value, i);
      }
    }
  }

  lemma ReportOnSection(c: Client, ddi: nat, element: nat, value: int, i: nat)
    requires WellFormed(c) && i < c.n && !c.perElement
    ensures var after := Report(c, ddi, element, value);
            && |after.actual| == |after.sectionElement| == c.n
            && if ACTUAL_CONDENSED_FIRST <= ddi <= ACTUAL_CONDENSED_LAST
                && ddi - ACTUAL_CONDENSED_FIRST == i / SECTIONS_PER_MESSAGE
               then after.actual[i] == Field(value, i % SECTIONS_PER_MESSAGE) && after.sectionElement[i] == element
               else after.actual[i] == c.actual[i] && after.sectionElement[i] == c.sectionElement[i]
  {
    hide Field, AllFields, ReportFields;
    if ACTUAL_CONDENSED_FIRST <= ddi <= ACTUAL_CONDENSED_LAST {
      FieldsOnSection(c, ddi - ACTUAL_CONDENSED_FIRST, element, value, i);
    }
  }

  lemma FieldsOnSection(c: Client, b: nat, element: nat, value: int, i: nat)
    requires WellFormed(c) && i < c.n
    ensures var after := ReportFields(c, b, element, value, SECTIONS_PER_MESSAGE);
            && |after.actual| == |after.sectionElement| == c.n
            && if b == i / SECTIONS_PER_MESSAGE
               then after.actual[i] == Field(value, i % SECTIONS_PER_MESSAGE) && after.sectionElement[i] == element
               else after.actual[i] == c.actual[i] && after.sectionElement[i] == c.sectionElement[i]
  {
    hide Field, AllFields;
  }

  /**
   Section `i` of an implement with condensed reports is shown as on, after any history since its
   activation, exactly when the last report covering the section says on and no element from the reporting
   one upwards last reported a work state other than working.
   */
  lemma ShownOnIffReportedOn(pool: Pool, elements: seq<nat>, events: seq<ClientEvent>, i: nat)
    requires !UsesPerElementControl(pool)
    requires i < SectionCount(elements)
    ensures var c := ClientRun(ActivatedClient(pool, elements), events);
            var report := LastReport(events, i);
            && WellFormed(c) && c.n == SectionCount(elements)
            && (ActualState(c, i) == ON <==>
                && report.Some?
                && Field(report.value.value, i % SECTIONS_PER_MESSAGE) == ON
                && !AnyAncestor(ParentMapOf(pool, |pool|), report.value.element,
                                (x: nat) => LastWork(events, x) == Some(false)))
            && ActualState(c, i) ==
               if report.None? || AnyAncestor(ParentMapOf(pool, |pool|), report.value.element,
                                              (x: nat) => LastWork(events, x) == Some(false))
               then 0 else BaseFour(report.value.value, i % 16)
  {
    hide ClientRun, Field, UsesPerElementControl, LastReport, LastWork, ParentMapOf, SectionIndex, AllFields,
         AnyAncestor;
    HistoryOfReports(pool, elements, events);
    var c := ClientRun(ActivatedClient(pool, elements), events);
    assert SectionIsLast(c, elements, events, i);
    assert c.parents == ParentMapOf(pool, |pool|);
    if LastReport(events, i).Some? {
      FieldIsDigit(LastReport(events, i).value.value, i % 16);
      SameAncestors(c.parents, c.sectionElement[i], (x: nat) => ReportedOff(c.work, x),
          (x: nat) => LastWork(events, x) == Some(false));
    }
  }

  /** The same in terms of the pool: the chain is that of parent object ids, when each parent is on the cached walk. */
  lemma ShownOnInTermsOfPool(pool: Pool, elements: seq<nat>, events: seq<ClientEvent>, i: nat)
    requires !UsesPerElementControl(pool) && ParentsOnWalk(pool)
    requires i < SectionCount(elements)
    ensures var c := ClientRun(ActivatedClient(pool, elements), events);
            var report := LastReport(events, i);
            && WellFormed(c)
            && (ActualState(c, i) == ON <==>
                && report.Some?
                && Field(report.value.value, i % SECTIONS_PER_MESSAGE) == ON
                && !AnyPoolAncestor(pool, report.value.element, (x: nat) => LastWork(events, x) == Some(false)))
  {
    hide ClientRun, Field, UsesPerElementControl, LastReport, LastWork, ParentMapOf, AnyAncestor, AnyPoolAncestor,
         ActivatedClient, ActualState, ParentsOnWalk;
    ShownOnIffReportedOn(pool, elements, events, i);
    var report := LastReport(events, i);
    if report.Some? {
      CachedWalkAgreesWithPool(pool, report.value.element, (x: nat) => LastWork(events, x) == Some(false));
    }
  }

  // ---------------------------------------------------------------------------------------------
  // Per-element control
  // ---------------------------------------------------------------------------------------------

  predicate CondensedReport(e: ClientEvent) {
    e.Reported? && ACTUAL_CONDENSED_FIRST <= e.ddi <= ACTUAL_CONDENSED_LAST
  }

  /** The element of section `i` stands for it, unless a later section has the same element. */
  lemma {:induction false} SectionIndexIsLast(elements: seq<nat>, k: nat, e: nat)
    requires k <= |elements|
    ensures e in SectionIndex(elements, k) <==> e in elements[..k]
    ensures e in SectionIndex(elements, k) ==>
              var i := SectionIndex(elements, k)[e];
              i < k && elements[i] == e && forall j :: i < j < k ==> elements[j] != e
  {
    if k != 0 {
      SectionIndexIsLast(elements, k - 1, e);
      assert elements[..k] == elements[..k - 1] + [elements[k - 1]];
    }
  }

  /**
   The section that an element stands for: at first the last one that has it as its element, and after a
   condensed report the last existing section of the reported block.
   */
  function SectionOf(elements: seq<nat>, n: nat, events: seq<ClientEvent>, e: nat): Option<nat>
    requires n <= |elements|
  {
    if events == [] then
      if e in SectionIndex(elements, n) then Some(SectionIndex(elements, n)[e]) else None
    else
      var before, report := events[..|events| - 1], events[|events| - 1];
      if CondensedReport(report) && report.element == e
          && SECTIONS_PER_MESSAGE * (report.ddi - ACTUAL_CONDENSED_FIRST) < n
      then Some(LastOfBlock(n, report.ddi - ACTUAL_CONDENSED_FIRST))
      else SectionOf(elements, n, before, e)
  }

  /** The last existing section of a block that has one. */
  function LastOfBlock(n: nat, b: nat): nat
    requires SECTIONS_PER_MESSAGE * b < n
  {
    if SECTIONS_PER_MESSAGE * (b + 1) <= n then SECTIONS_PER_MESSAGE * (b + 1) - 1 else n - 1
  }

  /** What was last said about section `i`: by a condensed report of its block, or by an element that stands for it. */
  function LastWord(elements: seq<nat>, n: nat, events: seq<ClientEvent>, i: nat): Option<bool>
    requires n <= |elements|
  {
    if events == [] then None
    else
      var before, report := events[..|events| - 1], events[|events| - 1];
      if CondensedReport(report) && report.ddi - ACTUAL_CONDENSED_FIRST == i / SECTIONS_PER_MESSAGE
      then Some(Field(report.value, i % SECTIONS_PER_MESSAGE) == ON)
      else if report.Reported? && report.ddi == ACTUAL_WORK_STATE
          && SectionOf(elements, n, before, report.element) == Some(i)
      then Some(report.value == 1)
      else LastWord(elements, n, before, i)
  }

  /** The reverse index and the actual states are what the history of reports says. */
  ghost predicate FollowsReports(c: Client, elements: seq<nat>, events: seq<ClientEvent>) {
    && WellFormed(c) && c.n <= |elements|
    && (forall e: nat :: SectionOf(elements, c.n, events, e) ==
                         if e in c.elementSection then Some(c.elementSection[e]) else None)
    && (forall i :: 0 <= i < c.n ==> (c.actual[i] == ON <==> LastWord(elements, c.n, events, i) == Some(true)))
  }

  lemma {:induction false} PerElementHistory(pool: Pool, elements: seq<nat>, events: seq<ClientEvent>)
    requires UsesPerElementControl(pool)
    ensures var start := ActivatedClient(pool, elements);
            var c := ClientRun(start, events);
            SameShape(c, start) && FollowsReports(c, elements, events)
  {
    hide ClientStep, UsesPerElementControl, FollowsReports, ActivatedClient;
    var start := ActivatedClient(pool, elements);
    PerElementStart(pool, elements);
    if events != [] {
      var before, e := events[..|events| - 1], events[|events| - 1];
      PerElementHistory(pool, elements, before);
      PerElementStep(ClientRun(start, before), elements, before, e);
      assert before + [e] == events;
    }
  }

  lemma PerElementStart(pool: Pool, elements: seq<nat>)
    ensures var start := ActivatedClient(pool, elements);
            FollowsReports(start, elements, []) && start.perElement == UsesPerElementControl(pool)
  {
    hide ParentMapOf, SectionIndex, UsesPerElementControl;
  }

  lemma PerElementStep(c: Client, elements: seq<nat>, before: seq<ClientEvent>, e: ClientEvent)
    requires c.perElement && FollowsReports(c, elements, before)
    ensures SameShape(ClientStep(c, e), c) && FollowsReports(ClientStep(c, e), elements, before + [e])
  {
    hide Serve, Report, AllFields, Field;
    var events := before + [e];
    assert events[..|events| - 1] == before;
    if e.Served? {
      ServeFrame(c, e.request);
    } else {
      ReportKeepsWellFormed(c, e.ddi, e.element, e.value);
      ReportFrame(c, e.ddi, e.element, e.value);
      PerElementReport(c, e.ddi, e.element, e.value);
    }
  }

  lemma PerElementReport(c: Client, ddi: nat, element: nat, value: int)
    requires WellFormed(c) && c.perElement
    ensures var after := Report(c, ddi, element, value);
            var condensed := ACTUAL_CONDENSED_FIRST <= ddi <= ACTUAL_CONDENSED_LAST;
            && |after.actual| == c.n
            && (forall i :: 0 <= i < c.n ==>
                 after.actual[i] == if condensed && ddi - ACTUAL_CONDENSED_FIRST == i / SECTIONS_PER_MESSAGE
                                    then Field(value, i % SECTIONS_PER_MESSAGE)
                                    else if ddi == ACTUAL_WORK_STATE && element in c.elementSection
                                            && c.elementSection[element] == i
                                    then (if value == 1 then ON else OFF)
                                    else c.actual[i])
            && after.elementSection == if condensed && SECTIONS_PER_MESSAGE * (ddi - ACTUAL_CONDENSED_FIRST) < c.n
                                       then c.elementSection[element := LastOfBlock(c.n, ddi - ACTUAL_CONDENSED_FIRST)]
                                       else c.elementSection
  {
    hide ReportFields, ReportWork, AllFields, Field;
    if ACTUAL_CONDENSED_FIRST <= ddi <= ACTUAL_CONDENSED_LAST {
      var b := ddi - ACTUAL_CONDENSED_FIRST;
      FieldsOnIndex(c, b, element, value);
      forall i | 0 <= i < c.n
        ensures Report(c, ddi, element, value).actual[i] ==
                if b == i / SECTIONS_PER_MESSAGE then Field(value, i % SECTIONS_PER_MESSAGE) else c.actual[i]
      {
        FieldsOnSection(c, b, element, value, i);
      }
    } else if ddi == ACTUAL_WORK_STATE {
      WorkOnSections(c, element, value == 1);
    }
  }

  lemma FieldsOnIndex(c: Client, b: nat, element: nat, value: int)
    requires WellFormed(c)
    ensures var after := ReportFields(c, b, element, value, SECTIONS_PER_MESSAGE);
            && |after.actual| == c.n
            && after.elementSection == if SECTIONS_PER_MESSAGE * b < c.n
                                       then c.elementSection[element := LastOfBlock(c.n, b)]
                                       else c.elementSection
  {
    hide Field, AllFields;
  }

  lemma WorkOnSections(c: Client, element: nat, working: bool)
    requires WellFormed(c) && c.perElement
    ensures var after := ReportWork(c, element, working);
            && after.elementSection == c.elementSection && |after.actual| == c.n
            && forall i :: 0 <= i < c.n ==>
                 if element in c.elementSection && c.elementSection[element] == i
                 then after.actual[i] == (if working then ON else OFF)
                 else after.actual[i] == c.actual[i]
  {
    hide AllFields;
  }

  /**
   With per-element control, after any history, a section is shown as on exactly when the last word about it
   says so: a condensed report of its block, or a work state of the element that stood for it at that time.
   */
  lemma ShownOnIffLastWordIsOn(pool: Pool, elements: seq<nat>, events: seq<ClientEvent>, i: nat)
    requires UsesPerElementControl(pool) && i < SectionCount(elements)
    ensures var c := ClientRun(ActivatedClient(pool, elements), events);
            && WellFormed(c) && c.n == SectionCount(elements)
            && (ActualState(c, i) == ON <==> LastWord(elements, c.n, events, i) == Some(true))
  {
    hide ClientRun, UsesPerElementControl, LastWord, SectionOf, ParentMapOf, SectionIndex, AllFields;
    PerElementHistory(pool, elements, events);
  }

  predicate StandsFor(elements: seq<nat>, n: nat, i: nat)
    requires i < n <= |elements|
  {
    forall j :: i < j < n ==> elements[j] != elements[i]
  }

  lemma StandsForIndex(elements: seq<nat>, n: nat, i: nat, e: nat)
    requires i < n <= |elements|
    ensures StandsFor(elements, n, i) && elements[i] == e <==>
            e in SectionIndex(elements, n) && SectionIndex(elements, n)[e] == i
  {
    SectionIndexIsLast(elements, n, e);
  }

  /** Without condensed reports the last word about a section is that of its own element, if it stands for it. */
  lemma {:induction false} LastWordWithoutCondensed(elements: seq<nat>, n: nat, events: seq<ClientEvent>, i: nat)
    requires i < n <= |elements|
    requires forall k :: 0 <= k < |events| ==> !CondensedReport(events[k])
    ensures forall e: nat :: SectionOf(elements, n, events, e) == SectionOf(elements, n, [], e)
    ensures LastWord(elements, n, events, i) ==
            if StandsFor(elements, n, i) then LastWork(events, elements[i]) else None
  {
    hide StandsFor, SectionIndex;
    if events != [] {
      var before, report := events[..|events| - 1], events[|events| - 1];
      LastWordWithoutCondensed(elements, n, before, i);
      assert !CondensedReport(report);
      if report.Reported? {
        StandsForIndex(elements, n, i, report.element);
      }
    }
  }

  /**
   So, as long as no condensed report remaps sections, a section is shown as on exactly when its element last
   reported working and no later section has the same element.
   */
  lemma ShownOnIffElementWorks(pool: Pool, elements: seq<nat>, events: seq<ClientEvent>, i: nat)
    requires UsesPerElementControl(pool) && i < SectionCount(elements)
    requires forall k :: 0 <= k < |events| ==> !CondensedReport(events[k])
    ensures var c := ClientRun(ActivatedClient(pool, elements), events);
            && WellFormed(c) && c.n == SectionCount(elements)
            && (ActualState(c, i) == ON <==> StandsFor(elements, c.n, i) && LastWork(events, elements[i]) == Some(true))
  {
    hide ClientRun, UsesPerElementControl, LastWord, LastWork, ActivatedClient, ActualState, StandsFor, CondensedReport;
    ShownOnIffLastWordIsOn(pool, elements, events, i);
    LastWordWithoutCondensed(elements, SectionCount(elements), events, i);
  }
}
