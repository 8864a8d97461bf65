/**
 Delta transmission: how exactly the values sent mirror the stored setpoints over a run, and which blocks
 an update sends.
 */
module SetpointDelivery {
  import opened Bits
  import opened DeviceDescriptor
  import opened ElementHierarchy
  import opened MeasurementIndex
  import opened SectionControl
  import opened ServerModel
  import opened SectionRuns

  // ---------------------------------------------------------------------------------------------
  // The remote mirror
  // ---------------------------------------------------------------------------------------------

  /**
   Over any run from an activation, the last value sent for a block carries the stored setpoints of that
   block, two bits each, and 3 ("not installed") past the last section. Read as a signed number and taken
   apart by shifts it gives the same states.
   */
  lemma LastValueDecodesToSetpoints(pool: Pool, elements: seq<nat>, events: seq<ClientEvent>, b: nat, i: nat)
    requires b < BLOCK_COUNT && i < SECTIONS_PER_MESSAGE
    ensures var c := ClientRun(ActivatedClient(pool, elements), events);
            |c.setpoint| == c.n &&
            match LastBlockValue(c.sent, b)
            case Some(v) =>
              && Carries(v, c.setpoint, 16 * b)
              && Field(ToInt32(v), i) == if 16 * b + i < c.n then c.setpoint[16 * b + i] else 3
            case None => true
  {
    hide ClientRun, ActivatedClient, PackFields, Field, ToInt32, Carries;
    var c := ClientRun(ActivatedClient(pool, elements), events);
    ActivatedMirrored(pool, elements);
    RunMirrors(ActivatedClient(pool, elements), events);
    assert BlockMirrored(c, b);
    BlockValueCarries(c.setpoint, b);
    CondensedRoundTrip(Block(c.setpoint, b), i);
  }

  /** What the implement believes about a section: the last value it was sent, or off. */
  function RemoteState(c: Client, section: nat): nat {
    match LastBlockValue(c.sent, section / SECTIONS_PER_MESSAGE)
    case Some(v) => Field(v, section % SECTIONS_PER_MESSAGE)
    case None => OFF
  }

  ghost predicate RemoteExact(c: Client, b: nat)
    requires WellFormed(c)
  {
    forall i :: SECTIONS_PER_MESSAGE * b <= i < SECTIONS_PER_MESSAGE * (b + 1) && i < c.n ==>
        RemoteState(c, i) == c.setpoint[i]
  }

  ghost predicate BlockOff(c: Client, b: nat) {
    forall i :: SECTIONS_PER_MESSAGE * b <= i < SECTIONS_PER_MESSAGE * (b + 1) && i < |c.setpoint| ==>
        c.setpoint[i] == OFF
  }

  /** The picture of a block is right if the block was ever sent, and otherwise only while it is all off. */
  lemma ExactIfSentOrOff(c: Client, b: nat)
    requires Mirrored(c) && b < BLOCK_COUNT
    ensures RemoteExact(c, b) <==> LastBlockValue(c.sent, b).Some? || BlockOff(c, b)
  {
    hide LastBlockValue, PackFields, Field;
    assert BlockMirrored(c, b);
    forall i | SECTIONS_PER_MESSAGE * b <= i < SECTIONS_PER_MESSAGE * (b + 1) && i < c.n
      ensures RemoteState(c, i) == if LastBlockValue(c.sent, b).Some? then c.setpoint[i] else OFF
    {
      assert i / SECTIONS_PER_MESSAGE == b && i % SECTIONS_PER_MESSAGE == i - SECTIONS_PER_MESSAGE * b;
      FieldOfPack(Block(c.setpoint, b), i - SECTIONS_PER_MESSAGE * b);
    }
  }

  /** The last value of block `k` after a sweep: its new value if it changed and can be sent, else what it was. */
  lemma {:induction false} SweepLastValue(c: Client, demand: seq<bool>, b: nat, k: nat)
    requires Regular(c) && b <= BLOCK_COUNT && k < BLOCK_COUNT
    ensures LastBlockValue(SweepBlocks(c, demand, b).sent, k) ==
            if k < b && BlockChanged(c.setpoint, demand, k) && BlockTarget(c, k).Some?
            then Some(BlockValue(Swept(c.setpoint, demand, SECTIONS_PER_MESSAGE * (k + 1)), k))
            else LastBlockValue(c.sent, k)
  {
    hide SendBlock, BlockValue, Swept, BlockChanged, BlockTarget, LastBlockValue, SweepBlocks, Updated, Regular;
    if b == 0 {
      SweepNone(c, demand);
    } else {
      var j := b - 1;
      SweepLastValue(c, demand, j, k);
      SweepOne(c, demand, j);
      SameTarget(c, Updated(c, demand, j), k);
      if BlockChanged(c.setpoint, demand, j) {
        SendBlockMirror(Updated(c, demand, j), j, k);
      }
    }
  }

  lemma SameTarget(c: Client, d: Client, b: nat)
    requires c.ddiElement == d.ddiElement && c.pool == d.pool
    ensures BlockTarget(c, b) == BlockTarget(d, b)
  {
    hide IsDdiSettable;
  }

  /** The sections of block `b` that the demand covers disagree with it somewhere. */
  ghost predicate Disagrees(c: Client, demand: seq<bool>, b: int) {
    exists i :: SECTIONS_PER_MESSAGE * b <= i < SECTIONS_PER_MESSAGE * (b + 1) && 0 <= i < |c.setpoint| && i < |demand|
                && demand[i] != (c.setpoint[i] == ON)
  }

  lemma ChangedIsDisagreement(c: Client, demand: seq<bool>, b: nat)
    requires WellFormed(c)
    ensures BlockChanged(c.setpoint, demand, b) <==> Disagrees(c, demand, b)
  {
    if BlockChanged(c.setpoint, demand, b) {
      var i :| SECTIONS_PER_MESSAGE * b <= i < SECTIONS_PER_MESSAGE * (b + 1) && i < |c.setpoint|
               && DemandedState(c.setpoint[i], demand, i) != c.setpoint[i];
    }
    if Disagrees(c, demand, b) {
      var i :| SECTIONS_PER_MESSAGE * b <= i < SECTIONS_PER_MESSAGE * (b + 1) && 0 <= i < |c.setpoint| && i < |demand|
               && demand[i] != (c.setpoint[i] == ON);
      assert DemandedState(c.setpoint[i], demand, i) != c.setpoint[i];
    }
  }

  /** The event is a demand, in automatic mode, that disagrees with a setpoint of block `b`. */
  ghost predicate Changes(c: Client, e: ClientEvent, b: nat) {
    e.Served? && e.request.Demand? && c.auto && Disagrees(c, e.request.states, b)
  }

  /** Some event of the run changes block `b`. */
  ghost predicate ChangedInRun(c: Client, events: seq<ClientEvent>, b: nat) {
    events != [] &&
    var before, e := events[..|events| - 1], events[|events| - 1];
    ChangedInRun(c, before, b) || Changes(ClientRun(c, before), e, b)
  }

  /** A block that can be sent is sent in a step exactly if the step changes it, and otherwise stays as it is. */
  lemma StepSends(c: Client, e: ClientEvent, b: nat)
    requires Regular(c) && BlockTarget(c, b).Some? && b < BLOCK_COUNT
    ensures var after := ClientStep(c, e);
            && BlockTarget(after, b) == BlockTarget(c, b)
            && (LastBlockValue(after.sent, b).Some? <==> LastBlockValue(c.sent, b).Some? || Changes(c, e, b))
            && (!Changes(c, e, b) ==> BlockOff(after, b) == BlockOff(c, b))
  {
    hide UpdateSections, UpdateControl, SendGnss, Subscribe, Report, IsDdiSettable, LastBlockValue, BlockOff, Disagrees;
    match e {
      case Reported(ddi, element, value) =>
        ReportFrame(c, ddi, element, value);
        BlockOffDepends(c, Report(c, ddi, element, value), b);
      case Served(Demand(states)) => DemandSends(c, states, b);
      case Served(Control(enabled)) =>
        var others := ControlAppends(c, enabled);
        AppendKeeps(c, UpdateControl(c, enabled), others, b);
      case Served(Gnss(quality)) =>
        var others := GnssAppends(c, quality);
        AppendKeeps(c, SendGnss(c, quality), others, b);
      case Served(Measure) => SubscribedOnce(c, b);
    }
  }

  lemma BlockOffDepends(c: Client, d: Client, b: nat)
    requires c.setpoint == d.setpoint
    ensures BlockOff(c, b) == BlockOff(d, b)
  {
  }

  lemma SubscribedOnce(c: Client, b: nat)
    requires Regular(c) && BlockTarget(c, b).Some?
    ensures Subscribe(c) == c
  {
    hide BuiltIndex, BuiltCommands;
  }

  lemma AppendKeeps(c: Client, after: Client, others: seq<Message>, b: nat)
    requires b < BLOCK_COUNT && OnlyOthersSent(c, after, others)
    ensures LastBlockValue(after.sent, b) == LastBlockValue(c.sent, b)
    ensures BlockOff(after, b) == BlockOff(c, b) && BlockTarget(after, b) == BlockTarget(c, b)
  {
    hide LastBlockValue, IsDdiSettable;
    LastBlockValueSkips(c.sent, others, b);
  }

  lemma DemandSends(c: Client, states: seq<bool>, b: nat)
    requires Regular(c) && b < BLOCK_COUNT && BlockTarget(c, b).Some?
    ensures var after := UpdateSections(c, states); var changes := c.auto && Disagrees(c, states, b);
            && BlockTarget(after, b) == BlockTarget(c, b)
            && (LastBlockValue(after.sent, b).Some? <==> LastBlockValue(c.sent, b).Some? || changes)
            && (!changes ==> BlockOff(after, b) == BlockOff(c, b))
  {
    hide SweepBlocks, BlockValue, IsDdiSettable, LastBlockValue, Disagrees, BlockChanged, BlockOff;
    ChangedIsDisagreement(c, states, b);
    ChangedIsBelowCount(c, states, b);
    if c.auto && c.n > 0 {
      assert Blocks(c.n) <= BLOCK_COUNT;
      SweepLastValue(c, states, Blocks(c.n), b);
      UpdateSectionsFrame(c, states);
      if !BlockChanged(c.setpoint, states, b) {
        UnchangedBlockOff(c, UpdateSections(c, states), states, b);
      }
    }
  }

  lemma ChangedIsBelowCount(c: Client, demand: seq<bool>, b: nat)
    requires WellFormed(c)
    ensures BlockChanged(c.setpoint, demand, b) ==> b < Blocks(c.n)
  {
  }

  lemma UnchangedBlockOff(c: Client, after: Client, demand: seq<bool>, b: nat)
    requires WellFormed(c) && !BlockChanged(c.setpoint, demand, b)
    requires after.setpoint == Swept(c.setpoint, demand, c.n)
    ensures BlockOff(after, b) == BlockOff(c, b)
  {
    hide DemandedState;
    assert forall i :: SECTIONS_PER_MESSAGE * b <= i < SECTIONS_PER_MESSAGE * (b + 1) && i < c.n ==>
                         DemandedState(c.setpoint[i], demand, i) == c.setpoint[i];
  }

  lemma {:induction false} RunSends(c: Client, events: seq<ClientEvent>, b: nat)
    requires Mirrored(c) && BlockTarget(c, b).Some? && b < BLOCK_COUNT
    ensures var after := ClientRun(c, events);
            && Mirrored(after) && BlockTarget(after, b) == BlockTarget(c, b)
            && (LastBlockValue(after.sent, b).Some? <==> LastBlockValue(c.sent, b).Some? || ChangedInRun(c, events, b))
            && (!ChangedInRun(c, events, b) ==> BlockOff(after, b) == BlockOff(c, b))
  {
    hide Mirrored, ClientStep, LastBlockValue, BlockOff, BlockTarget, Changes;
    if events != [] {
      var before := events[..|events| - 1];
      RunSends(c, before, b);
      MirroredRegular(ClientRun(c, before));
      StepSends(ClientRun(c, before), events[|events| - 1], b);
      StepMirrors(ClientRun(c, before), events[|events| - 1]);
    }
  }

  /**
   When the picture is right. Take a client at its subscription pass, and a block that can be sent from
   then on. In every later state the implement's picture of the block is right if and only if all its
   setpoints were off at that pass, or an automatic demand has changed the block since.
   */
  lemma MirrorExactIff(pool: Pool, elements: seq<nat>, before: seq<ClientEvent>, c: Client, events: seq<ClientEvent>,
          b: nat)
    requires c == ClientRun(ActivatedClient(pool, elements), before) && !c.subscribed && c.n > 0
    requires b < Blocks(c.n) && BlockTarget(Subscribe(c), b).Some?
    ensures WellFormed(ClientRun(Subscribe(c), events))
    ensures RemoteExact(ClientRun(Subscribe(c), events), b) <==> BlockOff(c, b) || ChangedInRun(Subscribe(c), events, b)
  {
    hide Mirrored, Subscribe, BlockTarget, RemoteExact, BlockOff, ClientRun, WellFormed, ActivatedClient, ChangedInRun;
    ActivatedMirrored(pool, elements);
    RunMirrors(ActivatedClient(pool, elements), before);
    WellFormedCount(c);
    NotSentBefore(c, b);
    MeasureMirrors(c);
    RunSends(Subscribe(c), events, b);
    WellFormedCount(ClientRun(Subscribe(c), events));
    ExactIfSentOrOff(ClientRun(Subscribe(c), events), b);
  }

  lemma WellFormedCount(c: Client)
    ensures Mirrored(c) ==> WellFormed(c) && Blocks(c.n) <= BLOCK_COUNT
  {
  }

  /** The pass itself sends no setpoints, and nothing can have been sent before it. */
  lemma NotSentBefore(c: Client, b: nat)
    requires Mirrored(c) && !c.subscribed && b < BLOCK_COUNT
    ensures LastBlockValue(Subscribe(c).sent, b).None?
    ensures BlockOff(Subscribe(c), b) == BlockOff(c, b)
  {
    hide Subscribe, IsDdiSettable, LastBlockValue, BlockValue;
    SubscribeKeeps(c, b);
    assert BlockMirrored(c, b);
  }

  /**
   The picture of the block is right in every later state of every run if and only if all its setpoints
   were off at the pass, that is, if no automatic demand had switched one on before.
   */
  lemma MirrorExactIffOffAtSubscription(pool: Pool, elements: seq<nat>, before: seq<ClientEvent>, c: Client, b: nat)
    requires c == ClientRun(ActivatedClient(pool, elements), before) && !c.subscribed && c.n > 0
    requires b < Blocks(c.n) && BlockTarget(Subscribe(c), b).Some?
    ensures forall events :: WellFormed(ClientRun(Subscribe(c), events))
    ensures (forall events :: RemoteExact(ClientRun(Subscribe(c), events), b)) <==> BlockOff(c, b)
  {
    hide Subscribe, BlockTarget, RemoteExact, BlockOff, ClientRun, WellFormed, ActivatedClient;
    forall events
      ensures WellFormed(ClientRun(Subscribe(c), events))
      ensures RemoteExact(ClientRun(Subscribe(c), events), b) <==>
              BlockOff(c, b) || ChangedInRun(Subscribe(c), events, b)
    {
      MirrorExactIff(pool, elements, before, c, events, b);
    }
    if BlockOff(c, b) {
      assert forall events :: RemoteExact(ClientRun(Subscribe(c), events), b);
    } else {
      var none: seq<ClientEvent> := [];
      assert !ChangedInRun(Subscribe(c), none, b);
      assert !RemoteExact(ClientRun(Subscribe(c), none), b);
    }
  }

  lemma SubscribeKeeps(c: Client, b: nat)
    requires b < BLOCK_COUNT
    ensures Subscribe(c).setpoint == c.setpoint && Subscribe(c).n == c.n
    ensures LastBlockValue(Subscribe(c).sent, b) == LastBlockValue(c.sent, b)
  {
    hide LastBlockValue, BuiltIndex, BuiltCommands;
    BuiltCommandsSubscribe(c.pool);
    LastBlockValueSkips(c.sent, BuiltCommands(c.pool), b);
  }

  /** An implement with one section that takes DDI 290. */
  const OneSection: Pool := [Device(0), Element(1, 5, 0, [2]), ProcessData(2, 290, true, true, false)]

  /**
   The implement can be left behind: when it reports automatic mode between its activation and the
   subscription pass, the demand of the packet received then changes the setpoint, the value is lost, and
   repeating the demand afterwards sends nothing.
   */
  lemma DemandBeforeSubscriptionIsLost()
    ensures var modeReport := Reported(SECTION_CONTROL_STATE, 5, 1);
            var start := ClientRun(ActivatedClient(OneSection, [5]),
                [modeReport, Served(Demand([true])), Served(Measure)]);
            var end := ClientStep(start, Served(Demand([true])));
            && BlockTarget(end, 0) == Some(290)
            && end.auto && end.setpoint == [ON]
            && LastBlockValue(end.sent, 0).None? && RemoteState(end, 0) == OFF
  {
    hide SweepBlocks, BuiltCommands, BuiltIndex, UsesPerElementControl, BlockValue, ParentMapOf, SectionIndex;
    var c := ActivatedClient(OneSection, [5]);
    ActivatedMirrored(OneSection, [5]);
    var e1, e2, e3 := Reported(SECTION_CONTROL_STATE, 5, 1), Served(Demand([true])), Served(Measure);
    RunOfThree(c, e1, e2, e3);
    var c1 := ClientStep(c, e1);
    StepMirrors(c, e1);
    StepMirrors(c1, e2);
    var c2 := ClientStep(c1, e2);
    var c3 := ClientStep(c2, e3);
    StepMirrors(c2, e3);
    SweepLastValue(c1, [true], Blocks(c1.n), 0);
    UpdateSectionsFrame(c1, [true]);
    SubscribeKeeps(c2, 0);
    SweepLastValue(c3, [true], Blocks(c3.n), 0);
    UpdateSectionsFrame(c3, [true]);
    OneSectionIndex();
  }

  lemma RunOfTwo(c: Client, e1: ClientEvent, e2: ClientEvent)
    ensures ClientRun(c, [e1, e2]) == ClientStep(ClientStep(c, e1), e2)
  {
    hide ClientStep;
    ClientRunAppend(c, [], e1);
    ClientRunAppend(c, [e1], e2);
    assert [] + [e1] == [e1] && [e1] + [e2] == [e1, e2];
  }

  lemma RunOfThree(c: Client, e1: ClientEvent, e2: ClientEvent, e3: ClientEvent)
    ensures ClientRun(c, [e1, e2, e3]) == ClientStep(ClientStep(ClientStep(c, e1), e2), e3)
  {
    hide ClientStep;
    ClientRunAppend(c, [], e1);
    ClientRunAppend(c, [e1], e2);
    ClientRunAppend(c, [e1, e2], e3);
    assert [] + [e1] == [e1] && [e1] + [e2] == [e1, e2] && [e1, e2] + [e3] == [e1, e2, e3];
  }

  lemma OneSectionIndex()
    ensures 290 in BuiltIndex(map[], OneSection)
  {
    hide BuiltIndex;
    var data := OneSection[2];
    assert data.ProcessData? && data.ddi == 290 && Owns(OneSection, 1, data.id);
    IndexedIffListed(OneSection, 290, false);
  }

  // ---------------------------------------------------------------------------------------------
  // One update sends exactly the changed blocks
  // ---------------------------------------------------------------------------------------------

  predicate CarriesAnyBlock(m: Message) {
    && m.SetValue?
    && (SETPOINT_CONDENSED_FIRST <= m.ddi <= SETPOINT_CONDENSED_LAST
        || ACTUAL_CONDENSED_FIRST <= m.ddi <= ACTUAL_CONDENSED_LAST)
  }

  /** The block a condensed message is about. */
  function BlockOf(m: Message): int
    requires CarriesAnyBlock(m)
  {
    if m.ddi >= SETPOINT_CONDENSED_FIRST then m.ddi - SETPOINT_CONDENSED_FIRST else m.ddi - ACTUAL_CONDENSED_FIRST
  }

  /** The condensed messages among `sent`, in order. */
  function BlockMessages(sent: seq<Message>): seq<Message> {
    if sent == [] then []
    else BlockMessages(sent[..|sent| - 1]) + if CarriesAnyBlock(sent[|sent| - 1]) then [sent[|sent| - 1]] else []
  }

  lemma {:induction false} BlockMessagesConcat(a: seq<Message>, b: seq<Message>)
    ensures BlockMessages(a + b) == BlockMessages(a) + BlockMessages(b)
  {
    if b == [] {
      assert a + b == a;
    } else {
      assert (a + b)[..|a + b| - 1] == a + b[..|b| - 1];
      BlockMessagesConcat(a, b[..|b| - 1]);
    }
  }

  lemma {:induction false} NoBlockMessages(others: seq<Message>)
    requires CarriesNoBlock(others)
    ensures BlockMessages(others) == []
  {
    if others != [] {
      var m := others[|others| - 1];
      if CarriesAnyBlock(m) {
        assert CarriesBlock(m, BlockOf(m));
      }
      NoBlockMessages(others[..|others| - 1]);
    }
  }

  /** What the blocks below `b` should have sent: the changed ones that can be sent, with their new values. */
  function ChangedMessages(c: Client, demand: seq<bool>, b: nat): seq<Message> {
    if b == 0 then []
    else
      ChangedMessages(c, demand, b - 1) +
      if BlockChanged(c.setpoint, demand, b - 1) && BlockTarget(c, b - 1).Some?
      then [BlockMessage(c.(setpoint := Swept(c.setpoint, demand, |c.setpoint|)), b - 1)]
      else []
  }

  lemma FinishedBlockValue(setpoint: seq<nat>, demand: seq<bool>, b: nat)
    ensures BlockValue(Swept(setpoint, demand, SECTIONS_PER_MESSAGE * (b + 1)), b) ==
            BlockValue(Swept(setpoint, demand, |setpoint|), b)
  {
    hide PackFields, DemandedState;
    var now := Swept(setpoint, demand, SECTIONS_PER_MESSAGE * (b + 1));
    var end := Swept(setpoint, demand, |setpoint|);
    assert forall i :: 0 <= i < SECTIONS_PER_MESSAGE ==> Block(now, b)[i] == Block(end, b)[i];
    assert Block(now, b) == Block(end, b);
  }

  lemma {:induction false} SweepMessages(c: Client, demand: seq<bool>, b: nat)
    requires Regular(c) && b <= BLOCK_COUNT
    ensures BlockMessages(SweepBlocks(c, demand, b).sent) == BlockMessages(c.sent) + ChangedMessages(c, demand, b)
  {
    hide SendBlock, BlockValue, Swept, BlockChanged, SweepBlocks, Updated, Regular, BlockMessages, BlockTarget,
         BlockMessage;
    if b == 0 {
      SweepNone(c, demand);
      assert BlockMessages(c.sent) + [] == BlockMessages(c.sent);
    } else {
      var j := b - 1;
      SweepMessages(c, demand, j);
      SweepOne(c, demand, j);
      var updated, end := Updated(c, demand, j), c.(setpoint := Swept(c.setpoint, demand, |c.setpoint|));
      SameTarget(c, updated, j);
      SameTarget(c, end, j);
      if BlockChanged(c.setpoint, demand, j) {
        BlockMessagesOfSend(updated, j);
        if BlockTarget(c, j).Some? {
          SameBlockMessage(c, demand, updated, end, j);
        }
      }
      assert BlockMessages(c.sent) + ChangedMessages(c, demand, j) + [] ==
          BlockMessages(c.sent) + ChangedMessages(c, demand, j);
    }
  }

  /** A block's message is the same right after the block was written and at the end of the sweep. */
  lemma SameBlockMessage(c: Client, demand: seq<bool>, updated: Client, end: Client, b: nat)
    requires BlockTarget(c, b).Some? && SameButSent(c, updated) && SameButSent(c, end)
    requires updated.setpoint == Swept(c.setpoint, demand, SECTIONS_PER_MESSAGE * (b + 1))
    requires end.setpoint == Swept(c.setpoint, demand, |c.setpoint|)
    ensures BlockTarget(updated, b).Some? && BlockTarget(end, b).Some?
            && BlockMessage(updated, b) == BlockMessage(end, b)
  {
    hide BlockValue, Swept, IsDdiSettable;
    FinishedBlockValue(c.setpoint, demand, b);
  }

  lemma BlockMessagesOfSend(c: Client, b: nat)
    requires Regular(c) && b < BLOCK_COUNT
    ensures BlockMessages(SendBlock(c, b).sent) ==
            BlockMessages(c.sent) + if BlockTarget(c, b).Some? then [BlockMessage(c, b)] else []
  {
    hide SendBlock, BlockValue, IsDdiSettable;
    var rest := SendBlockAppends(c, b);
    NoBlockMessages(rest);
    var own := if BlockTarget(c, b).Some? then [BlockMessage(c, b)] else [];
    BlockMessagesConcat(c.sent + own, rest);
    BlockMessagesConcat(c.sent, own);
    assert own != [] ==> own[..|own| - 1] == [];
  }

  /**
   Block `b` is sent under `ddi`: the condensed setpoint (290 and up) if it can be addressed, else the
   condensed actual state (161 and up) if that can be addressed and set.
   */
  ghost predicate IsTarget(c: Client, b: nat, ddi: nat) {
    && ddi in c.ddiElement
    && (ddi == 290 + b || (ddi == 161 + b && 290 + b !in c.ddiElement && CanBeSet(c.pool, ddi)))
  }

  lemma TargetIs(c: Client, b: nat, ddi: nat)
    ensures IsTarget(c, b, ddi) <==> BlockTarget(c, b) == Some(ddi)
  {
    hide IsDdiSettable, CanBeSet;
    SettableIff(c.pool, 161 + b);
  }

  /**
   The message of block `b`, which disagrees with the demand: addressed by the index, it carries the new
   setpoints.
   */
  ghost predicate IsChangedMessage(c: Client, demand: seq<bool>, after: Client, b: nat, m: Message) {
    && Disagrees(c, demand, b)
    && m.SetValue? && IsTarget(c, b, m.ddi) && m.element == c.ddiElement[m.ddi]
    && Carries(m.value, after.setpoint, 16 * b)
  }

  lemma ChangedMessageIs(c: Client, demand: seq<bool>, after: Client, b: nat, m: Message)
    requires WellFormed(c) && WellFormed(after)
    ensures IsChangedMessage(c, demand, after, b, m) <==>
            && b < Blocks(c.n) && Disagrees(c, demand, b) && BlockTarget(c, b).Some?
            && var ddi := BlockTarget(c, b).value;
               m == SetValue(ddi, c.ddiElement[ddi], BlockValue(after.setpoint, b))
  {
    hide BlockValue, Carries, IsDdiSettable, CanBeSet, BlockTarget, IsTarget;
    BlockValueCarries(after.setpoint, b);
    if BlockTarget(c, b).Some? {
      TargetIs(c, b, BlockTarget(c, b).value);
    }
    if m.SetValue? {
      TargetIs(c, b, m.ddi);
      if Carries(m.value, after.setpoint, 16 * b) {
        CarriesOne(m.value, BlockValue(after.setpoint, b), after.setpoint, 16 * b);
      }
    }
  }

  ghost predicate IsNewValue(c: Client, demand: seq<bool>, k: int, m: Message) {
    && 0 <= k
    && BlockChanged(c.setpoint, demand, k) && BlockTarget(c, k).Some?
    && m == BlockMessage(c.(setpoint := Swept(c.setpoint, demand, |c.setpoint|)), k)
  }

  lemma BlockMessageIsAbout(c: Client, b: nat)
    requires b < BLOCK_COUNT && BlockTarget(c, b).Some?
    ensures CarriesAnyBlock(BlockMessage(c, b)) && BlockOf(BlockMessage(c, b)) == b
  {
    hide BlockValue, IsDdiSettable;
  }

  lemma {:induction false} ChangedMessagesShape(c: Client, demand: seq<bool>, b: nat)
    requires b <= BLOCK_COUNT
    ensures var ms := ChangedMessages(c, demand, b);
            && (forall j :: 0 <= j < |ms| ==> CarriesAnyBlock(ms[j]) && 0 <= BlockOf(ms[j]) < b
                                              && IsNewValue(c, demand, BlockOf(ms[j]), ms[j]))
            && (forall j, k :: 0 <= j < k < |ms| ==> BlockOf(ms[j]) < BlockOf(ms[k]))
  {
    hide BlockValue, Swept, BlockChanged, BlockTarget, BlockMessage, IsNewValue, CarriesAnyBlock, BlockOf;
    if b != 0 {
      ChangedMessagesShape(c, demand, b - 1);
      if BlockChanged(c.setpoint, demand, b - 1) && BlockTarget(c, b - 1).Some? {
        NewMessage(c, demand, b - 1);
      } else {
        assert ChangedMessages(c, demand, b) == ChangedMessages(c, demand, b - 1);
      }
    }
  }

  lemma NewMessage(c: Client, demand: seq<bool>, b: nat)
    requires b < BLOCK_COUNT && BlockChanged(c.setpoint, demand, b) && BlockTarget(c, b).Some?
    ensures var end := c.(setpoint := Swept(c.setpoint, demand, |c.setpoint|));
            && BlockTarget(end, b).Some?
            && CarriesAnyBlock(BlockMessage(end, b)) && BlockOf(BlockMessage(end, b)) == b
            && IsNewValue(c, demand, b, BlockMessage(end, b))
            && ChangedMessages(c, demand, b + 1) == ChangedMessages(c, demand, b) + [BlockMessage(end, b)]
  {
    hide BlockValue, Swept, BlockChanged, IsDdiSettable;
    BlockMessageIsAbout(c.(setpoint := Swept(c.setpoint, demand, |c.setpoint|)), b);
  }

  lemma {:induction false} ChangedMessagesComplete(c: Client, demand: seq<bool>, b: nat, k: nat, m: Message)
    requires k < b <= BLOCK_COUNT && IsNewValue(c, demand, k, m)
    ensures m in ChangedMessages(c, demand, b)
  {
    hide BlockValue, Swept, BlockChanged, IsDdiSettable, BlockTarget;
    if k < b - 1 {
      ChangedMessagesComplete(c, demand, b - 1, k, m);
    }
  }

  /**
   One update of a client in automatic mode: the condensed messages it adds are, in ascending block order
   and once each, those of the blocks below the section count in which the demand disagrees with a stored
   setpoint, carrying the new setpoints. The setpoints follow the demand where there is one and keep their
   value elsewhere.
   */
  lemma UpdateSendsExactlyChangedBlocks(c: Client, demand: seq<bool>) returns (added: seq<Message>)
    requires Regular(c) && c.auto && c.n > 0
    ensures var after := UpdateSections(c, demand);
            && BlockMessages(after.sent) == BlockMessages(c.sent) + added
            && |after.setpoint| == c.n
            && (forall i :: 0 <= i < c.n ==>
                 after.setpoint[i] == if i < |demand| then (if demand[i] then 1 else 0) else c.setpoint[i])
            && (forall m :: m in added <==> exists b: nat :: IsChangedMessage(c, demand, after, b, m))
    ensures forall j, k :: 0 <= j < k < |added| ==>
              CarriesAnyBlock(added[j]) && CarriesAnyBlock(added[k]) && BlockOf(added[j]) < BlockOf(added[k])
  {
    hide SweepBlocks, BlockMessages, ChangedMessages, IsChangedMessage, CarriesAnyBlock, Regular, UpdateSections;
    var after := UpdateSections(c, demand);
    UpdatedSetpoints(c, demand);
    added := ChangedMessages(c, demand, Blocks(c.n));
    UpdateMessages(c, demand);
    ChangedMessagesShape(c, demand, Blocks(c.n));
    forall m ensures m in added <==> exists b: nat :: IsChangedMessage(c, demand, after, b, m) {
      if m in added {
        AddedIsChanged(c, demand, m);
      }
      if b: nat :| IsChangedMessage(c, demand, after, b, m) {
        ChangedIsAdded(c, demand, b, m);
      }
    }
  }

  lemma UpdateMessages(c: Client, demand: seq<bool>)
    requires Regular(c) && c.auto && c.n > 0
    ensures Blocks(c.n) <= BLOCK_COUNT
    ensures BlockMessages(UpdateSections(c, demand).sent) ==
            BlockMessages(c.sent) + ChangedMessages(c, demand, Blocks(c.n))
  {
    hide SweepBlocks, BlockMessages, ChangedMessages;
    SweepMessages(c, demand, Blocks(c.n));
  }

  lemma UpdatedSetpoints(c: Client, demand: seq<bool>)
    requires Regular(c) && c.auto && c.n > 0
    ensures var after := UpdateSections(c, demand);
            && after.setpoint == Swept(c.setpoint, demand, |c.setpoint|) && |after.setpoint| == c.n
            && (forall i :: 0 <= i < c.n ==>
                 after.setpoint[i] == if i < |demand| then (if demand[i] then ON else OFF) else c.setpoint[i])
  {
    hide UpdateSections;
    UpdateSectionsFrame(c, demand);
  }

  lemma AddedIsChanged(c: Client, demand: seq<bool>, m: Message)
    requires Regular(c) && c.auto && c.n > 0 && m in ChangedMessages(c, demand, Blocks(c.n))
    ensures exists b: nat :: IsChangedMessage(c, demand, UpdateSections(c, demand), b, m)
  {
    hide UpdateSections, BlockValue, BlockChanged, Disagrees, Swept, ChangedMessages, IsChangedMessage;
    UpdatedSetpoints(c, demand);
    UpdatedWellFormed(c, demand);
    ChangedMessagesShape(c, demand, Blocks(c.n));
    var added := ChangedMessages(c, demand, Blocks(c.n));
    var j :| 0 <= j < |added| && added[j] == m;
    var b := BlockOf(m);
    assert IsNewValue(c, demand, b, m);
    ChangedIsDisagreement(c, demand, b);
    SameTarget(c, c.(setpoint := Swept(c.setpoint, demand, |c.setpoint|)), b);
    ChangedMessageIs(c, demand, UpdateSections(c, demand), b, m);
  }

  lemma UpdatedWellFormed(c: Client, demand: seq<bool>)
    requires Regular(c)
    ensures WellFormed(UpdateSections(c, demand)) && WellFormed(c)
  {
    DemandFrame(c, demand);
  }

  lemma ChangedIsAdded(c: Client, demand: seq<bool>, b: nat, m: Message)
    requires Regular(c) && c.auto && c.n > 0 && IsChangedMessage(c, demand, UpdateSections(c, demand), b, m)
    ensures m in ChangedMessages(c, demand, Blocks(c.n))
  {
    hide UpdateSections, BlockValue, BlockChanged, Disagrees, Swept, ChangedMessages, IsChangedMessage;
    UpdatedSetpoints(c, demand);
    UpdatedWellFormed(c, demand);
    ChangedMessageIs(c, demand, UpdateSections(c, demand), b, m);
    ChangedIsDisagreement(c, demand, b);
    SameTarget(c, c.(setpoint := Swept(c.setpoint, demand, |c.setpoint|)), b);
    assert Blocks(c.n) <= BLOCK_COUNT;
    assert IsNewValue(c, demand, b, m);
    ChangedMessagesComplete(c, demand, Blocks(c.n), b, m);
  }
}
