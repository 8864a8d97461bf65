/**
 One client of the task controller as a value, and what each server operation does to it.
 The classes in TaskController.dfy are proved to do exactly this to their fields.
 */
module SectionControl {
  import opened Bits
  import opened DeviceDescriptor
  import opened ElementHierarchy
  import opened MeasurementIndex

  const OFF := 0
  const ON := 1
  const NOT_INSTALLED := 3
  const SECTIONS_PER_MESSAGE := 16

  /** `sent` is not kept by the program: it is what the bus has carried to this client since it was created. */
  datatype Client = Client(
    pool: Pool,
    subscribed: bool,
    ddiElement: map<nat, nat>,
    n: nat,
    setpoint: seq<nat>,
    actual: seq<nat>,
    sectionElement: seq<nat>,
    elementSection: map<nat, nat>,
    setpointWork: bool,
    work: map<nat, bool>,
    parents: ParentMap,
    auto: bool,
    perElement: bool,
    perElementDdi: nat,
    sent: seq<Message>)

  /** What a client inserted on the fly starts from. */
  const EmptyClient := Client([], false, map[], 0, [], [], [], map[], false, map[], map[], false, false, 0, [])

  ghost predicate WellFormed(c: Client) {
    && c.n < 256
    && |c.setpoint| == |c.actual| == |c.sectionElement| == c.n
    && (forall i :: 0 <= i < c.n ==> c.setpoint[i] == OFF || c.setpoint[i] == ON)
    && AllFields(c.actual)
  }

  // ---------------------------------------------------------------------------------------------
  // Reading
  // ---------------------------------------------------------------------------------------------

  function StateAt(states: seq<nat>, i: nat): nat {
    if i < |states| then states[i] else NOT_INSTALLED
  }

  /** The sixteen states of block `b`; positions past the last section read as not installed. */
  function Block(states: seq<nat>, b: nat): (block: seq<nat>)
    ensures |block| == SECTIONS_PER_MESSAGE
    ensures forall i :: 0 <= i < SECTIONS_PER_MESSAGE ==> block[i] == StateAt(states, SECTIONS_PER_MESSAGE * b + i)
  {
    seq<nat>(SECTIONS_PER_MESSAGE,
             i requires 0 <= i < SECTIONS_PER_MESSAGE => StateAt(states, SECTIONS_PER_MESSAGE * b + i))
  }

  function BlockValue(states: seq<nat>, b: nat): nat {
    PackFields(Block(states, b))
  }

  /**
   The 32-bit value `v` carries the states from position `first` on, two bits each from the lowest up, and
   "not installed" (3) past the last one.
   */
  ghost predicate Carries(v: int, states: seq<nat>, first: nat) {
    && 0 <= v < 0x1_0000_0000
    && forall i: nat :: i < 16 ==> BaseFour(v, i) == if first + i < |states| then states[first + i] else 3
  }

  lemma BlockValueCarries(states: seq<nat>, b: nat)
    requires AllFields(states)
    ensures Carries(BlockValue(states, b), states, 16 * b)
  {
    hide PackFields, BaseFour, Field;
    var block := Block(states, b);
    assert AllFields(block);
    SixteenFieldsFit(block);
    forall i: nat | i < 16
      ensures BaseFour(BlockValue(states, b), i) == if 16 * b + i < |states| then states[16 * b + i] else 3
    {
      FieldOfPack(block, i);
      FieldIsDigit(BlockValue(states, b), i);
    }
  }

  /** Only one value carries given states. */
  lemma CarriesOne(v: nat, w: nat, states: seq<nat>, first: nat)
    requires Carries(v, states, first) && Carries(w, states, first)
    ensures v == w
  {
    hide Field, ShiftLeft, BaseFour;
    ThirtyTwoBits();
    forall i: nat | i < 16 ensures Field(v, i) == Field(w, i) {
      FieldIsDigit(v, i);
      FieldIsDigit(w, i);
      assert BaseFour(v, i) == BaseFour(w, i);
    }
    FieldsDetermine(v, w, 16);
  }

  function Blocks(n: nat): nat {
    (n + SECTIONS_PER_MESSAGE - 1) / SECTIONS_PER_MESSAGE
  }

  predicate AnyOn(states: seq<nat>) {
    ON in states
  }

  predicate ReportedOff(work: map<nat, bool>, e: nat) {
    e in work && !work[e]
  }

  ghost predicate ElementOrParentOff(c: Client, e: nat) {
    AnyAncestor(c.parents, e, (x: nat) => ReportedOff(c.work, x))
  }

  /** The state the heartbeat and the terminal show for a section. */
  ghost function ActualState(c: Client, i: nat): nat
    requires WellFormed(c)
  {
    if i >= c.n then NOT_INSTALLED
    else if c.perElement then c.actual[i]
    else if ElementOrParentOff(c, c.sectionElement[i]) then OFF
    else c.actual[i]
  }

  // ---------------------------------------------------------------------------------------------
  // Sending one block of setpoints
  // ---------------------------------------------------------------------------------------------

  /** Sends the master work state (DDI 289) when it differs from the stored one and the client has it. */
  function SendWorkState(c: Client): Client {
    var on := AnyOn(c.setpoint);
    if c.setpointWork != on && SETPOINT_WORK_STATE in c.ddiElement
    then c.(sent := c.sent + [SetValue(SETPOINT_WORK_STATE, c.ddiElement[SETPOINT_WORK_STATE], if on then 1 else 0)],
            setpointWork := on)
    else c
  }

  /** The per-element setpoints of the sections in [first, last) that exist; element 0 is skipped. */
  function ElementSetpoints(c: Client, first: nat, last: nat): seq<Message> {
    if last <= first then []
    else
      var i := last - 1;
      ElementSetpoints(c, first, i) +
      if i < |c.setpoint| && i < |c.sectionElement| && c.sectionElement[i] != 0
      then [SetValue(c.perElementDdi, c.sectionElement[i], if c.setpoint[i] == ON then 1 else 0)]
      else []
  }

  function SendBlock(c: Client, b: nat): Client {
    var modern := SETPOINT_CONDENSED_FIRST + b;
    var legacy := ACTUAL_CONDENSED_FIRST + b;
    if modern in c.ddiElement then
      SendWorkState(c.(sent := c.sent + [SetValue(modern, c.ddiElement[modern], BlockValue(c.setpoint, b))]))
    else if legacy in c.ddiElement then
      if IsDdiSettable(c.pool, legacy)
      then c.(sent := c.sent + [SetValue(legacy, c.ddiElement[legacy], BlockValue(c.setpoint, b))])
      else c
    else if c.perElement then
      SendWorkState(c.(sent := c.sent + ElementSetpoints(c, SECTIONS_PER_MESSAGE * b, SECTIONS_PER_MESSAGE * (b + 1))))
    else c
  }

  // ---------------------------------------------------------------------------------------------
  // A section demand
  // ---------------------------------------------------------------------------------------------

  /** A section follows the demand where there is one; a setpoint that already agrees stays as it is. */
  function DemandedState(state: nat, demand: seq<bool>, i: nat): nat {
    if i < |demand| && demand[i] != (state == ON) then (if demand[i] then ON else OFF) else state
  }

  /** The setpoints once the first `k` sections have been compared with the demand. */
  function Swept(setpoint: seq<nat>, demand: seq<bool>, k: nat): (swept: seq<nat>)
    ensures |swept| == |setpoint|
    ensures forall i :: 0 <= i < |setpoint| ==>
            swept[i] == if i < k then DemandedState(setpoint[i], demand, i) else setpoint[i]
  {
    seq(|setpoint|,
        i requires 0 <= i < |setpoint| => if i < k then DemandedState(setpoint[i], demand, i) else setpoint[i])
  }

  /** Some section of block `b` below `k` disagrees with the demand. */
  predicate ChangedBelow(setpoint: seq<nat>, demand: seq<bool>, b: nat, k: nat) {
    exists i :: SECTIONS_PER_MESSAGE * b <= i < SECTIONS_PER_MESSAGE * (b + 1) && i < k && i < |setpoint|
                && DemandedState(setpoint[i], demand, i) != setpoint[i]
  }

  predicate BlockChanged(setpoint: seq<nat>, demand: seq<bool>, b: nat) {
    ChangedBelow(setpoint, demand, b, |setpoint|)
  }

  /** The client after the first `b` blocks: each is updated as a whole and then sent if it changed. */
  function SweepBlocks(c: Client, demand: seq<bool>, b: nat): Client {
    if b == 0 then c
    else
      var updated := SweepBlocks(c, demand, b - 1).(setpoint := Swept(c.setpoint, demand, SECTIONS_PER_MESSAGE * b));
      if BlockChanged(c.setpoint, demand, b - 1) then SendBlock(updated, b - 1) else updated
  }

  function UpdateSections(c: Client, demand: seq<bool>): Client {
    if !c.auto || c.n == 0 then c else SweepBlocks(c, demand, Blocks(c.n))
  }

  // ---------------------------------------------------------------------------------------------
  // The other operations
  // ---------------------------------------------------------------------------------------------

  function UpdateControl(c: Client, enabled: bool): Client {
    var updated := c.(auto := enabled);
    if SECTION_CONTROL_STATE in c.ddiElement && c.n > 0
    then
      var element := c.ddiElement[SECTION_CONTROL_STATE];
      updated.(sent := c.sent + [SetValue(SECTION_CONTROL_STATE, element, if enabled then 1 else 0)])
    else updated
  }

  function SendGnss(c: Client, quality: nat): Client {
    if GNSS_QUALITY in c.ddiElement
    then c.(sent := c.sent + [SetValue(GNSS_QUALITY, c.ddiElement[GNSS_QUALITY], quality)])
    else c
  }

  function Subscribe(c: Client): Client {
    if c.subscribed || c.n == 0 then c
    else c.(ddiElement := BuiltIndex(c.ddiElement, c.pool), sent := c.sent + BuiltCommands(c.pool), subscribed := true)
  }

  function FieldOr(value: int, first: nat, k: nat, i: nat, otherwise: nat): nat {
    if first <= i < first + k then Field(value, i - first) else otherwise
  }

  /** `states` with positions [first, first + k) replaced by the low fields of `value`. */
  function WithFields(states: seq<nat>, first: nat, value: int, k: nat): (r: seq<nat>)
    ensures |r| == |states|
    ensures forall i :: 0 <= i < |r| ==> r[i] == if first <= i < first + k then Field(value, i - first) else states[i]
  {
    seq<nat>(|states|, i requires 0 <= i < |states| => FieldOr(value, first, k, i, states[i]))
  }

  /** `elements` with positions [first, first + k) replaced by `element`. */
  function WithElement(elements: seq<nat>, first: nat, element: nat, k: nat): (r: seq<nat>)
    ensures |r| == |elements|
    ensures forall i :: 0 <= i < |r| ==> r[i] == if first <= i < first + k then element else elements[i]
  {
    seq<nat>(|elements|, i requires 0 <= i < |elements| => if first <= i < first + k then element else elements[i])
  }

  /** A condensed report of block `b`, coming from `element`, once its first `k` fields are stored. */
  function ReportFields(c: Client, b: nat, element: nat, value: int, k: nat): Client {
    var first := SECTIONS_PER_MESSAGE * b;
    var last := (if first + k <= c.n then first + k else c.n) - 1;
    c.(actual := WithFields(c.actual, first, value, k),
       sectionElement := WithElement(c.sectionElement, first, element, k),
       elementSection := if first <= last then c.elementSection[element := last] else c.elementSection)
  }

  /** A value the client reports. Other DDIs are ignored. */
  function Report(c: Client, ddi: nat, element: nat, value: int): Client {
    if ACTUAL_CONDENSED_FIRST <= ddi <= ACTUAL_CONDENSED_LAST then
      ReportFields(c, ddi - ACTUAL_CONDENSED_FIRST, element, value, SECTIONS_PER_MESSAGE)
    else if ddi == SECTION_CONTROL_STATE then
      c.(auto := value == 1)
    else if ddi == ACTUAL_WORK_STATE then
      ReportWork(c, element, value == 1)
    else c
  }

  /** An element's own work state; with per-element control it is also the state of the section it stands for. */
  function ReportWork(c: Client, element: nat, working: bool): Client {
    var stored := c.(work := c.work[element := working]);
    if c.perElement && element in c.elementSection
    then stored.(actual := WithState(c.actual, c.elementSection[element], if working then ON else OFF))
    else stored
  }

  function WithState(states: seq<nat>, i: nat, state: nat): seq<nat> {
    if i < |states| then states[i := state] else states
  }

  /** Reports of these DDIs make the server create a client it does not know. */
  predicate CreatesClient(ddi: nat) {
    ACTUAL_CONDENSED_FIRST <= ddi <= ACTUAL_CONDENSED_LAST || ddi == SECTION_CONTROL_STATE || ddi == ACTUAL_WORK_STATE
  }

  // ---------------------------------------------------------------------------------------------
  // Frames of the operations
  // ---------------------------------------------------------------------------------------------

  /** `after` differs from `before` only in what was sent, which grew, and in the stored master work state. */
  ghost predicate OnlySent(before: Client, after: Client) {
    && after == before.(sent := after.sent, setpointWork := after.setpointWork)
    && before.sent <= after.sent
  }

  lemma SendWorkStateFrame(c: Client)
    ensures OnlySent(c, SendWorkState(c))
  {
  }

  lemma SendBlockFrame(c: Client, b: nat)
    ensures OnlySent(c, SendBlock(c, b))
  {
    var modern := SETPOINT_CONDENSED_FIRST + b;
    var legacy := ACTUAL_CONDENSED_FIRST + b;
    if modern in c.ddiElement {
      SendWorkStateFrame(c.(sent := c.sent + [SetValue(modern, c.ddiElement[modern], BlockValue(c.setpoint, b))]));
    } else if legacy !in c.ddiElement && c.perElement {
      var elements := ElementSetpoints(c, SECTIONS_PER_MESSAGE * b, SECTIONS_PER_MESSAGE * (b + 1));
      SendWorkStateFrame(c.(sent := c.sent + elements));
    }
  }

  lemma {:induction false} SweepFrame(c: Client, demand: seq<bool>, b: nat)
    ensures OnlySent(c.(setpoint := Swept(c.setpoint, demand, SECTIONS_PER_MESSAGE * b)), SweepBlocks(c, demand, b))
  {
    if b == 0 {
      assert Swept(c.setpoint, demand, 0) == c.setpoint;
    } else {
      SweepFrame(c, demand, b - 1);
      var before := SweepBlocks(c, demand, b - 1);
      var updated := before.(setpoint := Swept(c.setpoint, demand, SECTIONS_PER_MESSAGE * b));
      assert OnlySent(c.(setpoint := Swept(c.setpoint, demand, SECTIONS_PER_MESSAGE * b)), updated);
      SendBlockFrame(updated, b - 1);
    }
  }

  /** The setpoints after a demand, and a frame for everything else. */
  lemma UpdateSectionsFrame(c: Client, demand: seq<bool>)
    requires WellFormed(c) && c.auto && c.n > 0
    ensures OnlySent(c.(setpoint := Swept(c.setpoint, demand, c.n)), UpdateSections(c, demand))
  {
    SweepFrame(c, demand, Blocks(c.n));
    assert Swept(c.setpoint, demand, c.n) == Swept(c.setpoint, demand, SECTIONS_PER_MESSAGE * Blocks(c.n));
  }

  lemma ReportFieldsKeepsWellFormed(c: Client, b: nat, element: nat, value: int, k: nat)
    requires WellFormed(c)
    ensures WellFormed(ReportFields(c, b, element, value, k))
  {
  }

  lemma ReportWorkKeepsWellFormed(c: Client, element: nat, working: bool)
    requires WellFormed(c)
    ensures WellFormed(ReportWork(c, element, working))
  {
  }

  lemma ReportKeepsWellFormed(c: Client, ddi: nat, element: nat, value: int)
    requires WellFormed(c)
    ensures WellFormed(Report(c, ddi, element, value))
  {
    if ACTUAL_CONDENSED_FIRST <= ddi <= ACTUAL_CONDENSED_LAST {
      ReportFieldsKeepsWellFormed(c, ddi - ACTUAL_CONDENSED_FIRST, element, value, SECTIONS_PER_MESSAGE);
    } else if ddi == ACTUAL_WORK_STATE {
      ReportWorkKeepsWellFormed(c, element, value == 1);
    }
  }
}
