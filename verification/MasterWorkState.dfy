/**
 The master work state (DDI 289): what is sent over a run alternates; and when, on an implement that takes
 its setpoints condensed or by element, the stored state says whether any setpoint is on.
 */
module MasterWorkState {
  import opened Bits
  import opened DeviceDescriptor
  import opened ElementHierarchy
  import opened MeasurementIndex
  import opened SectionControl
  import opened ServerModel
  import opened SectionRuns
  import opened SetpointDelivery

  /** The master work states sent so far, in order. */
  function WorkValues(sent: seq<Message>): seq<nat> {
    if sent == [] then []
    else
      var m := sent[|sent| - 1];
      WorkValues(sent[..|sent| - 1]) + if m.SetValue? && m.ddi == 289 then [m.value] else []
  }

  lemma {:induction false} WorkValuesConcat(a: seq<Message>, b: seq<Message>)
    ensures WorkValues(a + b) == WorkValues(a) + WorkValues(b)
  {
    if b == [] {
      assert a + b == a;
    } else {
      assert (a + b)[..|a + b| - 1] == a + b[..|b| - 1];
      WorkValuesConcat(a, b[..|b| - 1]);
    }
  }

  lemma {:induction false} NoWorkValues(others: seq<Message>)
    requires forall m :: m in others ==> !(m.SetValue? && m.ddi == SETPOINT_WORK_STATE)
    ensures WorkValues(others) == []
  {
    if others != [] {
      assert others[|others| - 1] in others;
      NoWorkValues(others[..|others| - 1]);
    }
  }

  /** From `before` to `after` no master work state was sent, or one was: the flipped stored state. */
  ghost predicate WorkToggles(before: Client, after: Client) {
    if after.setpointWork == before.setpointWork
    then WorkValues(after.sent) == WorkValues(before.sent)
    else WorkValues(after.sent) == WorkValues(before.sent) + [if after.setpointWork then 1 else 0]
  }

  lemma SendWorkToggles(c: Client)
    ensures WorkToggles(c, SendWorkState(c))
    ensures SETPOINT_WORK_STATE in c.ddiElement ==> SendWorkState(c).setpointWork == AnyOn(c.setpoint)
  {
    hide SendWorkState, AnyOn, WorkValues;
    var rest := SendWorkAppends(c);
    WorkValuesConcat(c.sent, rest);
    WorkValuesOfOne(WorkMessage(c));
    NoWorkValues([]);
  }

  lemma WorkValuesOfOne(m: Message)
    ensures WorkValues([m]) == if m.SetValue? && m.ddi == 289 then [m.value] else []
  {
    assert [m][..0] == [];
  }

  /** Sending block `b` is followed by the master work state: it goes out as a condensed setpoint or by element. */
  predicate UpdatesWork(c: Client, b: nat) {
    290 + b in c.ddiElement || (c.perElement && 161 + b !in c.ddiElement)
  }

  /** Sending a block toggles at most once, and brings the master work state up to date if the client has it. */
  lemma SendBlockToggles(c: Client, b: nat)
    requires Regular(c) && b < BLOCK_COUNT
    ensures WorkToggles(c, SendBlock(c, b))
    ensures SETPOINT_WORK_STATE in c.ddiElement && UpdatesWork(c, b) ==>
              SendBlock(c, b).setpointWork == AnyOn(c.setpoint)
  {
    hide SendWorkState, AnyOn, WorkValues, BlockValue, IsDdiSettable, ElementSetpoints;
    if BlockTarget(c, b).Some? {
      var own := [BlockMessage(c, b)];
      var with := c.(sent := c.sent + own);
      WorkValuesConcat(c.sent, own);
      WorkValuesOfOne(BlockMessage(c, b));
      SendWorkToggles(with);
    } else {
      var elements := ElementSetpoints(c, SECTIONS_PER_MESSAGE * b, SECTIONS_PER_MESSAGE * (b + 1));
      ElementSetpointsShape(c, SECTIONS_PER_MESSAGE * b, SECTIONS_PER_MESSAGE * (b + 1));
      NoWorkValues(elements);
      WorkValuesConcat(c.sent, elements);
      SendWorkToggles(c.(sent := c.sent + elements));
    }
  }

  // ---------------------------------------------------------------------------------------------
  // Alternation
  // ---------------------------------------------------------------------------------------------

  /** The values sent are 1, 0, 1, ... and the stored state is the last of them (false at first). */
  ghost predicate Alternating(c: Client) {
    var values := WorkValues(c.sent);
    && (forall i :: 0 <= i < |values| ==> values[i] == (i + 1) % 2)
    && c.setpointWork == (|values| % 2 == 1)
  }

  lemma ToggleAlternates(before: Client, after: Client)
    requires Alternating(before) && WorkToggles(before, after)
    ensures Alternating(after)
  {
    hide WorkValues;
  }

  lemma {:induction false} SweepAlternates(c: Client, demand: seq<bool>, b: nat)
    requires Regular(c) && Alternating(c) && b <= BLOCK_COUNT
    ensures Alternating(SweepBlocks(c, demand, b))
  {
    hide SendBlock, Swept, BlockChanged, WorkValues, SweepBlocks, Updated, Regular, WorkToggles;
    if b == 0 {
      SweepNone(c, demand);
    } else {
      var j := b - 1;
      SweepAlternates(c, demand, j);
      SweepOne(c, demand, j);
      var updated := Updated(c, demand, j);
      assert Alternating(updated);
      SendBlockToggles(updated, j);
      ToggleAlternates(updated, SendBlock(updated, j));
    }
  }

  lemma StepAlternates(c: Client, e: ClientEvent)
    requires Regular(c) && Alternating(c)
    ensures Alternating(ClientStep(c, e))
  {
    hide UpdateControl, SendGnss, Report, UpdateSections, Subscribe, WorkValues;
    match e {
      case Reported(ddi, element, value) => ReportFrame(c, ddi, element, value);
      case Served(Demand(states)) => DemandAlternates(c, states);
      case Served(Control(enabled)) =>
        var others := ControlAppends(c, enabled);
        OthersKeepWork(c, UpdateControl(c, enabled), others);
      case Served(Gnss(quality)) =>
        var others := GnssAppends(c, quality);
        OthersKeepWork(c, SendGnss(c, quality), others);
      case Served(Measure) => MeasureAlternates(c);
    }
  }

  lemma DemandAlternates(c: Client, states: seq<bool>)
    requires Regular(c) && Alternating(c)
    ensures Alternating(UpdateSections(c, states))
  {
    hide SweepBlocks, Alternating;
    assert Blocks(c.n) <= BLOCK_COUNT;
    SweepAlternates(c, states, Blocks(c.n));
  }

  lemma MeasureAlternates(c: Client)
    requires Alternating(c)
    ensures Alternating(Subscribe(c))
  {
    hide BuiltIndex, BuiltCommands, WorkValues;
    BuiltCommandsSubscribe(c.pool);
    NoWorkValues(BuiltCommands(c.pool));
    WorkValuesConcat(c.sent, BuiltCommands(c.pool));
  }

  lemma OthersKeepWork(c: Client, after: Client, others: seq<Message>)
    requires OnlyOthersSent(c, after, others)
    requires forall m :: m in others ==> !(m.SetValue? && m.ddi == SETPOINT_WORK_STATE)
    ensures WorkValues(after.sent) == WorkValues(c.sent)
  {
    NoWorkValues(others);
    WorkValuesConcat(c.sent, others);
  }

  /** Over every run from an activation the DDI 289 values sent strictly alternate, starting with 1. */
  lemma {:induction false} WorkStateAlternates(pool: Pool, elements: seq<nat>, events: seq<ClientEvent>)
    ensures Alternating(ClientRun(ActivatedClient(pool, elements), events))
  {
    hide ClientStep, Mirrored, Alternating;
    var c := ActivatedClient(pool, elements);
    if events == [] {
      StartsAlternating(pool, elements);
    } else {
      var before := events[..|events| - 1];
      WorkStateAlternates(pool, elements, before);
      ActivatedMirrored(pool, elements);
      RunMirrors(c, before);
      MirroredRegular(ClientRun(c, before));
      StepAlternates(ClientRun(c, before), events[|events| - 1]);
    }
  }

  lemma StartsAlternating(pool: Pool, elements: seq<nat>)
    ensures Alternating(ActivatedClient(pool, elements))
  {
    hide ParentMapOf, SectionIndex, UsesPerElementControl;
  }

  // ---------------------------------------------------------------------------------------------
  // The stored state after every step
  // ---------------------------------------------------------------------------------------------

  /** The implement has the master work state, and each of its blocks is followed by it. */
  ghost predicate WorkFollows(c: Client) {
    && c.subscribed
    && 289 in c.ddiElement
    && forall b :: 0 <= b < Blocks(c.n) ==> UpdatesWork(c, b)
  }

  ghost predicate WorkExact(c: Client) {
    c.setpointWork == AnyOn(c.setpoint)
  }

  /** The event is a demand, in automatic mode, that disagrees with some setpoint. */
  ghost predicate ChangesSome(c: Client, e: ClientEvent) {
    exists b: nat :: Changes(c, e, b)
  }

  /** Some event of the run changes a setpoint. */
  ghost predicate SomeChangedInRun(c: Client, events: seq<ClientEvent>) {
    events != [] &&
    var before, e := events[..|events| - 1], events[|events| - 1];
    SomeChangedInRun(c, before) || ChangesSome(ClientRun(c, before), e)
  }

  ghost predicate SomeBlockChanged(c: Client, demand: seq<bool>, b: nat) {
    exists k: nat :: k < b && BlockChanged(c.setpoint, demand, k)
  }

  /** A changed block brings the stored state up to date, and an unchanged one leaves it and the setpoints alone. */
  lemma {:induction false} SweepWork(c: Client, demand: seq<bool>, b: nat)
    requires Regular(c) && WorkFollows(c) && b <= Blocks(c.n)
    ensures WorkExact(SweepBlocks(c, demand, b)) <==> WorkExact(c) || SomeBlockChanged(c, demand, b)
  {
    hide SendBlock, Swept, BlockChanged, AnyOn, SweepBlocks, Updated;
    assert Blocks(c.n) <= BLOCK_COUNT;
    if b == 0 {
      SweepNone(c, demand);
    } else {
      var j := b - 1;
      SweepWork(c, demand, j);
      SweepOne(c, demand, j);
      assert UpdatesWork(c, j);
      if BlockChanged(c.setpoint, demand, j) {
        SendBlockToggles(Updated(c, demand, j), j);
        SendBlockFrame(Updated(c, demand, j), j);
      } else {
        UnchangedSweep(c.setpoint, demand, j);
      }
    }
  }

  lemma DemandWork(c: Client, states: seq<bool>)
    requires Regular(c) && WorkFollows(c)
    ensures WorkFollows(UpdateSections(c, states))
    ensures WorkExact(UpdateSections(c, states)) <==> WorkExact(c) || ChangesSome(c, Served(Demand(states)))
  {
    hide SweepBlocks, AnyOn, BlockChanged, Disagrees;
    var e := Served(Demand(states));
    forall b: nat
      ensures Changes(c, e, b) <==> c.auto && c.n > 0 && b < Blocks(c.n) && BlockChanged(c.setpoint, states, b)
    {
      ChangedIsDisagreement(c, states, b);
      ChangedIsBelowCount(c, states, b);
    }
    if c.auto && c.n > 0 {
      SweepWork(c, states, Blocks(c.n));
      UpdateSectionsFrame(c, states);
      SameFollows(c, UpdateSections(c, states));
    }
  }

  lemma SameFollows(c: Client, d: Client)
    requires WorkFollows(c)
    requires d.subscribed && d.n == c.n && d.ddiElement == c.ddiElement && d.perElement == c.perElement
    ensures WorkFollows(d)
  {
    forall b | 0 <= b < Blocks(d.n) ensures UpdatesWork(d, b) {
      assert UpdatesWork(c, b);
    }
  }

  lemma StepWork(c: Client, e: ClientEvent)
    requires Regular(c) && WorkFollows(c)
    ensures WorkFollows(ClientStep(c, e))
    ensures WorkExact(ClientStep(c, e)) <==> WorkExact(c) || ChangesSome(c, e)
  {
    hide UpdateControl, SendGnss, Report, UpdateSections, AnyOn, BuiltIndex, BuiltCommands, WorkFollows, Disagrees;
    match e {
      case Reported(ddi, element, value) =>
        ReportFrame(c, ddi, element, value);
        FollowsParts(c, ClientStep(c, e));
      case Served(Demand(states)) => DemandWork(c, states);
      case Served(Control(enabled)) =>
        var others := ControlAppends(c, enabled);
        FollowsParts(c, ClientStep(c, e));
      case Served(Gnss(quality)) =>
        var others := GnssAppends(c, quality);
        FollowsParts(c, ClientStep(c, e));
      case Served(Measure) =>
        FollowsParts(c, c);
    }
  }

  lemma FollowsParts(c: Client, d: Client)
    requires WorkFollows(c)
    ensures c.subscribed
    ensures d.subscribed && d.n == c.n && d.ddiElement == c.ddiElement && d.perElement == c.perElement ==>
            WorkFollows(d)
  {
    hide UpdatesWork;
    if d.subscribed && d.n == c.n && d.ddiElement == c.ddiElement && d.perElement == c.perElement {
      SameFollows(c, d);
    }
  }

  lemma {:induction false} RunWork(c: Client, events: seq<ClientEvent>)
    requires Mirrored(c) && WorkFollows(c)
    ensures WorkFollows(ClientRun(c, events))
    ensures WorkExact(ClientRun(c, events)) <==> WorkExact(c) || SomeChangedInRun(c, events)
  {
    hide ClientStep, Mirrored, WorkFollows, WorkExact, ChangesSome;
    if events != [] {
      var before := events[..|events| - 1];
      RunWork(c, before);
      RunMirrors(c, before);
      MirroredRegular(ClientRun(c, before));
      StepWork(ClientRun(c, before), events[|events| - 1]);
    }
  }

  /** Before the subscription pass no master work state has been sent, so none is stored. */
  lemma {:induction false} NoWorkBeforeSubscription(pool: Pool, elements: seq<nat>, events: seq<ClientEvent>)
    ensures var c := ClientRun(ActivatedClient(pool, elements), events);
            !c.subscribed ==> !c.setpointWork
  {
    hide ClientStep, Mirrored;
    var start := ActivatedClient(pool, elements);
    if events == [] {
      StartsAlternating(pool, elements);
    } else {
      var before := events[..|events| - 1];
      NoWorkBeforeSubscription(pool, elements, before);
      ActivatedMirrored(pool, elements);
      RunMirrors(start, before);
      MirroredRegular(ClientRun(start, before));
      NoWorkStep(ClientRun(start, before), events[|events| - 1]);
    }
  }

  lemma NoWorkStep(c: Client, e: ClientEvent)
    requires Regular(c) && (!c.subscribed ==> !c.setpointWork)
    ensures !ClientStep(c, e).subscribed ==> !ClientStep(c, e).setpointWork
  {
    hide UpdateControl, SendGnss, Report, SweepBlocks, BuiltIndex, BuiltCommands;
    match e {
      case Reported(ddi, element, value) => ReportFrame(c, ddi, element, value);
      case Served(Demand(states)) =>
        SweepFrame(c, states, Blocks(c.n));
        if !c.subscribed {
          UnmappedSweepKeepsWork(c, states, Blocks(c.n));
        }
      case Served(Control(enabled)) => var others := ControlAppends(c, enabled);
      case Served(Gnss(quality)) => var others := GnssAppends(c, quality);
      case Served(Measure) =>
    }
  }

  lemma {:induction false} UnmappedSweepKeepsWork(c: Client, demand: seq<bool>, b: nat)
    requires c.ddiElement == map[]
    ensures SweepBlocks(c, demand, b).setpointWork == c.setpointWork
  {
    hide Swept, BlockChanged, BlockValue, ElementSetpoints, AnyOn, IsDdiSettable;
    if b != 0 {
      UnmappedSweepKeepsWork(c, demand, b - 1);
      SweepFrame(c, demand, b - 1);
    }
  }

  /** The stored state says whether some setpoint is on (1). */
  ghost predicate SaysSomeOn(c: Client) {
    c.setpointWork <==> exists i :: 0 <= i < |c.setpoint| && c.setpoint[i] == 1
  }

  ghost predicate NoneOn(c: Client) {
    forall i :: 0 <= i < |c.setpoint| ==> c.setpoint[i] != 1
  }

  lemma AnyOnIs(c: Client)
    ensures AnyOn(c.setpoint) <==> !NoneOn(c)
    ensures WorkExact(c) <==> SaysSomeOn(c)
  {
  }

  /**
   For an implement that has DDI 289 and takes each block as a condensed setpoint or by element: in every
   state from the subscription pass on, the stored master work state equals "some setpoint is on" if and
   only if no setpoint was on at that pass, or an automatic demand has changed a setpoint since.
   */
  lemma WorkExactIff(pool: Pool, elements: seq<nat>, before: seq<ClientEvent>, c: Client, events: seq<ClientEvent>)
    requires c == ClientRun(ActivatedClient(pool, elements), before) && !c.subscribed && c.n > 0
    requires WorkFollows(Subscribe(c))
    ensures SaysSomeOn(ClientRun(Subscribe(c), events)) <==> NoneOn(c) || SomeChangedInRun(Subscribe(c), events)
  {
    hide Mirrored, WorkFollows, AnyOn, ClientRun, ActivatedClient, BuiltIndex, BuiltCommands, SomeChangedInRun,
         SaysSomeOn, NoneOn;
    ActivatedMirrored(pool, elements);
    RunMirrors(ActivatedClient(pool, elements), before);
    MeasureMirrors(c);
    NoWorkBeforeSubscription(pool, elements, before);
    RunWork(Subscribe(c), events);
    AnyOnIs(c);
    AnyOnIs(ClientRun(Subscribe(c), events));
  }

  /** So it is right after every step of every such run if and only if no setpoint was on at the pass. */
  lemma WorkExactIffOffAtSubscription(pool: Pool, elements: seq<nat>, before: seq<ClientEvent>, c: Client)
    requires c == ClientRun(ActivatedClient(pool, elements), before) && !c.subscribed && c.n > 0
    requires WorkFollows(Subscribe(c))
    ensures (forall events :: SaysSomeOn(ClientRun(Subscribe(c), events))) <==> NoneOn(c)
  {
    hide Subscribe, WorkFollows, SaysSomeOn, NoneOn, ClientRun, ActivatedClient;
    forall events
      ensures SaysSomeOn(ClientRun(Subscribe(c), events)) <==> NoneOn(c) || SomeChangedInRun(Subscribe(c), events)
    {
      WorkExactIff(pool, elements, before, c, events);
    }
    if NoneOn(c) {
      assert forall events :: SaysSomeOn(ClientRun(Subscribe(c), events));
    } else {
      var none: seq<ClientEvent> := [];
      assert !SomeChangedInRun(Subscribe(c), none);
      assert !SaysSomeOn(ClientRun(Subscribe(c), none));
    }
  }

  /** An implement with one section that takes DDI 290 and has DDI 289. */
  const WithWorkState: Pool :=
    [Device(0), Element(1, 5, 0, [2, 3]),
     ProcessData(2, 290, true, true, false), ProcessData(3, 289, true, true, false)]

  /** There are such implements: activated and subscribed, this one is told both values of the first demand. */
  lemma WorkStateIsSent()
    ensures WorkFollows(Subscribe(ActivatedClient(WithWorkState, [5])))
    ensures var start := ClientRun(ActivatedClient(WithWorkState, [5]), [Served(Measure), Served(Control(true))]);
            var end := ClientStep(start, Served(Demand([true])));
            WorkFollows(start) && end.setpoint == [1] && WorkValues(end.sent) == [1] && end.setpointWork
  {
    hide UpdateSections, BuiltIndex, BuiltCommands, UsesPerElementControl, ParentMapOf, SectionIndex, ClientRun,
         WorkValues, AnyOn;
    NoWorkValues([]);
    var c := ActivatedClient(WithWorkState, [5]);
    var e1, e2, e3 := Served(Measure), Served(Control(true)), Served(Demand([true]));
    RunOfTwo(c, e1, e2);
    var start := ClientRun(c, [e1, e2]);
    WithWorkStateIndex();
    var others := ControlAppends(Subscribe(c), true);
    ActivatedMirrored(WithWorkState, [5]);
    RunMirrors(c, [e1, e2]);
    MirroredRegular(start);
    DemandWork(start, [true]);
    UpdatedSetpoints(start, [true]);
    assert Changes(start, e3, 0) by {
      assert [true][0] != (start.setpoint[0] == ON);
    }
    AnyOnIs(UpdateSections(start, [true]));
    BuiltCommandsSubscribe(WithWorkState);
    NoWorkValues(BuiltCommands(WithWorkState));
    WorkValuesConcat([], BuiltCommands(WithWorkState));
    OthersKeepWork(Subscribe(c), start, others);
    WorkStateAlternates(WithWorkState, [5], [e1, e2]);
    DemandAlternates(start, [true]);
    DemandOnce(start, [true]);
  }

  /** A single block sends the master work state at most once. */
  lemma DemandOnce(c: Client, states: seq<bool>)
    requires Regular(c) && c.n == 1 && WorkValues(c.sent) == [] && Alternating(c)
    ensures |WorkValues(UpdateSections(c, states).sent)| <= 1
  {
    hide SendBlock, Swept, BlockChanged, WorkValues;
    SweepNone(c, states);
    SweepOne(c, states, 0);
    if c.auto {
      assert Blocks(c.n) == 1;
      SendBlockToggles(Updated(c, states, 0), 0);
    }
  }

  lemma WithWorkStateIndex()
    ensures 289 in BuiltIndex(map[], WithWorkState) && 290 in BuiltIndex(map[], WithWorkState)
  {
    hide BuiltIndex;
    var pool := WithWorkState;
    assert pool[2].ddi == 290 && Owns(pool, 1, pool[2].id);
    assert pool[3].ddi == 289 && Owns(pool, 1, pool[3].id);
    IndexedToLastListing(pool, 289);
    IndexedToLastListing(pool, 290);
  }

  // ---------------------------------------------------------------------------------------------
  // Implements that are never told
  // ---------------------------------------------------------------------------------------------

  lemma BlockWithoutWork(c: Client, b: nat)
    requires b < BLOCK_COUNT && !UpdatesWork(c, b)
    ensures WorkValues(SendBlock(c, b).sent) == WorkValues(c.sent)
  {
    hide BlockValue, IsDdiSettable, WorkValues;
    if SendBlock(c, b).sent != c.sent {
      var own := SetValue(161 + b, c.ddiElement[161 + b], BlockValue(c.setpoint, b));
      WorkValuesConcat(c.sent, [own]);
      WorkValuesOfOne(own);
      assert WorkValues(c.sent) + [] == WorkValues(c.sent);
    }
  }

  /** Nothing that the master work state would follow can be addressed. */
  ghost predicate NeverFollows(c: Client) {
    !c.perElement && forall ddi: nat :: 290 <= ddi <= 305 ==> ddi !in c.ddiElement
  }

  lemma {:induction false} SweepWithoutWork(c: Client, demand: seq<bool>, b: nat)
    requires Regular(c) && b <= BLOCK_COUNT && NeverFollows(c)
    ensures WorkValues(SweepBlocks(c, demand, b).sent) == WorkValues(c.sent)
  {
    hide SendBlock, Swept, BlockChanged, WorkValues, SweepBlocks, Updated, Regular;
    if b == 0 {
      SweepNone(c, demand);
    } else {
      var j := b - 1;
      SweepWithoutWork(c, demand, j);
      SweepOne(c, demand, j);
      if BlockChanged(c.setpoint, demand, j) {
        BlockWithoutWork(Updated(c, demand, j), j);
      }
    }
  }

  lemma StepWithoutWork(c: Client, e: ClientEvent)
    requires Regular(c) && NeverFollows(c)
    ensures WorkValues(ClientStep(c, e).sent) == WorkValues(c.sent)
  {
    hide UpdateControl, SendGnss, Report, SweepBlocks, BuiltIndex, BuiltCommands, WorkValues, AllFields, NeverFollows;
    match e {
      case Reported(ddi, element, value) => ReportFrame(c, ddi, element, value);
      case Served(Demand(states)) =>
        if c.auto && c.n > 0 {
          SweepWithoutWork(c, states, Blocks(c.n));
        }
      case Served(Control(enabled)) =>
        var others := ControlAppends(c, enabled);
        OthersKeepWork(c, UpdateControl(c, enabled), others);
      case Served(Gnss(quality)) =>
        var others := GnssAppends(c, quality);
        OthersKeepWork(c, SendGnss(c, quality), others);
      case Served(Measure) =>
        BuiltCommandsSubscribe(c.pool);
        NoWorkValues(BuiltCommands(c.pool));
        WorkValuesConcat(c.sent, BuiltCommands(c.pool));
        assert WorkValues(c.sent) + [] == WorkValues(c.sent);
    }
  }

  /**
   An implement that lists no condensed setpoint (290 to 305) and is not controlled by element is never told
   the master work state, even where it lists DDI 289.
   */
  lemma {:induction false} WorkStateIsNotSent(pool: Pool, elements: seq<nat>, events: seq<ClientEvent>)
    requires !UsesPerElementControl(pool) && forall ddi: nat :: 290 <= ddi <= 305 ==> !Listed(pool, ddi)
    ensures WorkValues(ClientRun(ActivatedClient(pool, elements), events).sent) == []
  {
    hide ClientStep, Mirrored, Listed, UsesPerElementControl, BuiltIndex, ParentMapOf, SectionIndex;
    var start := ActivatedClient(pool, elements);
    if events != [] {
      var before := events[..|events| - 1];
      WorkStateIsNotSent(pool, elements, before);
      ActivatedMirrored(pool, elements);
      RunMirrors(start, before);
      MirroredRegular(ClientRun(start, before));
      RunKeepsIndexing(start, before);
      forall ddi: nat | 290 <= ddi <= 305 ensures ddi !in ClientRun(start, before).ddiElement {
        IndexedToLastListing(pool, ddi);
      }
      StepWithoutWork(ClientRun(start, before), events[|events| - 1]);
    }
  }
}
