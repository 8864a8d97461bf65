/**
 Everything a client is sent besides its setpoints: over any run from an activation, the subscriptions of
 the first measurement pass, the control state (DDI 160) and the GNSS quality (DDI 514), and where each
 message goes.
 */
module ControlMessages {
  import opened Bits
  import opened DeviceDescriptor
  import opened ElementHierarchy
  import opened MeasurementIndex
  import opened SectionControl
  import opened ServerModel
  import opened SectionRuns

  // ---------------------------------------------------------------------------------------------
  // What was asked for
  // ---------------------------------------------------------------------------------------------

  /** There was a measurement pass. */
  predicate Measured(events: seq<ClientEvent>) {
    exists i :: 0 <= i < |events| && events[i] == Served(Measure)
  }

  /** The mode asked for or reported last; manual before the first. */
  function LastMode(events: seq<ClientEvent>): bool {
    if events == [] then false
    else
      match events[|events| - 1]
      case Served(Control(enabled)) => enabled
      case Reported(ddi, element, value) => if ddi == 160 then value == 1 else LastMode(events[..|events| - 1])
      case _ => LastMode(events[..|events| - 1])
  }

  /** What one request asks to be sent under this DDI. */
  function Asked(e: ClientEvent, ddi: nat): seq<nat> {
    match e
    case Served(Control(enabled)) => if ddi == 160 then [if enabled then 1 else 0] else []
    case Served(Gnss(quality)) => if ddi == 514 then [quality] else []
    case _ => []
  }

  /** What was asked to be sent under this DDI after the first measurement pass. */
  function AskedSince(events: seq<ClientEvent>, ddi: nat): seq<nat> {
    if events == [] then []
    else
      var before := events[..|events| - 1];
      AskedSince(before, ddi) + if Measured(before) then Asked(events[|events| - 1], ddi) else []
  }

  // ---------------------------------------------------------------------------------------------
  // What was sent
  // ---------------------------------------------------------------------------------------------

  /** The values sent under this DDI, in order. */
  function SentUnder(sent: seq<Message>, ddi: nat): seq<Message> {
    if sent == [] then []
    else
      var m := sent[|sent| - 1];
      SentUnder(sent[..|sent| - 1], ddi) + if m.SetValue? && m.ddi == ddi then [m] else []
  }

  /** The subscriptions sent, in order. */
  function Subscriptions(sent: seq<Message>): seq<Message> {
    if sent == [] then []
    else
      var m := sent[|sent| - 1];
      Subscriptions(sent[..|sent| - 1]) + if m.SetValue? then [] else [m]
  }

  /** These values, sent to this element. */
  function Values(values: seq<nat>, ddi: nat, element: nat): (messages: seq<Message>)
    ensures |messages| == |values|
    ensures forall i :: 0 <= i < |values| ==> messages[i] == SetValue(ddi, element, values[i])
  {
    seq(|values|, i requires 0 <= i < |values| => SetValue(ddi, element, values[i]))
  }

  lemma {:induction false} SentConcat(a: seq<Message>, b: seq<Message>, ddi: nat)
    ensures SentUnder(a + b, ddi) == SentUnder(a, ddi) + SentUnder(b, ddi)
    ensures Subscriptions(a + b) == Subscriptions(a) + Subscriptions(b)
  {
    if b == [] {
      assert a + b == a;
    } else {
      assert (a + b)[..|a + b| - 1] == a + b[..|b| - 1];
      SentConcat(a, b[..|b| - 1], ddi);
    }
  }

  lemma {:induction false} OnlyOtherValues(sent: seq<Message>, ddi: nat)
    requires forall m :: m in sent ==> m.SetValue? && m.ddi != ddi
    ensures SentUnder(sent, ddi) == [] && Subscriptions(sent) == []
  {
    if sent != [] {
      assert sent[|sent| - 1] in sent;
      OnlyOtherValues(sent[..|sent| - 1], ddi);
    }
  }

  lemma {:induction false} OnlySubscriptions(sent: seq<Message>, ddi: nat)
    requires forall m :: m in sent ==> !m.SetValue?
    ensures SentUnder(sent, ddi) == [] && Subscriptions(sent) == sent
  {
    if sent != [] {
      assert sent[|sent| - 1] in sent;
      OnlySubscriptions(sent[..|sent| - 1], ddi);
      assert sent == sent[..|sent| - 1] + [sent[|sent| - 1]];
    }
  }

  lemma OneValue(m: Message, ddi: nat)
    requires m.SetValue?
    ensures SentUnder([m], ddi) == (if m.ddi == ddi then [m] else []) && Subscriptions([m]) == []
  {
    assert [m][..0] == [];
  }

  // ---------------------------------------------------------------------------------------------
  // Where setpoints go
  // ---------------------------------------------------------------------------------------------

  /** Addressed by the index, or to a section's own element (never 0) with control by element. */
  predicate GoesRight(c: Client, m: Message) {
    m.SetValue? &&
    if m.ddi == 141 then c.perElement && m.element != 0 && m.value <= 1
    else m.ddi in c.ddiElement && m.element == c.ddiElement[m.ddi]
  }

  predicate IsSetpointDdi(ddi: nat) {
    ddi == 141 || ddi == 289 || 290 <= ddi <= 305 || 161 <= ddi <= 176
  }

  ghost predicate AllSetpoints(c: Client, messages: seq<Message>) {
    forall m :: m in messages ==> GoesRight(c, m) && IsSetpointDdi(m.ddi)
  }

  /** With control by element setpoints go out as DDI 141. */
  ghost predicate Configured(c: Client) {
    Regular(c) && (c.perElement ==> c.perElementDdi == 141)
  }

  lemma {:induction false} ElementSetpointsGoRight(c: Client, first: nat, last: nat)
    requires c.perElement && c.perElementDdi == 141
    ensures AllSetpoints(c, ElementSetpoints(c, first, last))
  {
    if first < last {
      ElementSetpointsGoRight(c, first, last - 1);
    }
  }

  lemma WorkGoesRight(c: Client) returns (rest: seq<Message>)
    ensures SendWorkState(c).sent == c.sent + rest
    ensures AllSetpoints(c, rest)
  {
    rest := if SendWorkState(c).sent == c.sent then [] else [WorkMessage(c)];
    assert c.sent + [] == c.sent;
  }

  lemma BlockGoesRight(c: Client, b: nat) returns (added: seq<Message>)
    requires Configured(c) && b < BLOCK_COUNT
    ensures SendBlock(c, b).sent == c.sent + added
    ensures AllSetpoints(c, added)
  {
    hide BlockValue, IsDdiSettable, AnyOn, SendWorkState, ElementSetpoints, AllFields;
    if BlockTarget(c, b).Some? {
      var own := [BlockMessage(c, b)];
      var work := WorkGoesRight(c.(sent := c.sent + own));
      assert c.sent + own + work == c.sent + (own + work);
      added := if SETPOINT_CONDENSED_FIRST + b in c.ddiElement then own + work else own;
    } else if ACTUAL_CONDENSED_FIRST + b !in c.ddiElement && c.perElement {
      var elements := ElementSetpoints(c, SECTIONS_PER_MESSAGE * b, SECTIONS_PER_MESSAGE * (b + 1));
      ElementSetpointsGoRight(c, SECTIONS_PER_MESSAGE * b, SECTIONS_PER_MESSAGE * (b + 1));
      var work := WorkGoesRight(c.(sent := c.sent + elements));
      assert c.sent + elements + work == c.sent + (elements + work);
      added := elements + work;
    } else {
      added := [];
      assert c.sent + [] == c.sent;
    }
  }

  lemma {:induction false} SweepGoesRight(c: Client, demand: seq<bool>, b: nat) returns (added: seq<Message>)
    requires Configured(c) && b <= BLOCK_COUNT
    ensures SweepBlocks(c, demand, b).sent == c.sent + added
    ensures AllSetpoints(c, added)
  {
    hide SendBlock, Swept, BlockChanged, SweepBlocks, Updated, Regular;
    if b == 0 {
      SweepNone(c, demand);
      added := [];
      assert c.sent + [] == c.sent;
    } else {
      var j := b - 1;
      var before := SweepGoesRight(c, demand, j);
      SweepOne(c, demand, j);
      if BlockChanged(c.setpoint, demand, j) {
        var more := BlockGoesRight(Updated(c, demand, j), j);
        added := before + more;
        assert c.sent + before + more == c.sent + added;
      } else {
        added := before;
      }
    }
  }

  lemma DemandGoesRight(c: Client, states: seq<bool>) returns (added: seq<Message>)
    requires Configured(c)
    ensures UpdateSections(c, states).sent == c.sent + added
    ensures AllSetpoints(c, added)
  {
    hide SweepBlocks, GoesRight, IsSetpointDdi;
    assert Blocks(c.n) <= BLOCK_COUNT;
    if c.auto && c.n > 0 {
      added := SweepGoesRight(c, states, Blocks(c.n));
    } else {
      added := [];
      assert c.sent + [] == c.sent;
    }
  }

  // ---------------------------------------------------------------------------------------------
  // One step
  // ---------------------------------------------------------------------------------------------

  /** What the step adds. Values of other DDIs than the setpoints are exactly those asked for. */
  lemma StepAdds(c: Client, e: ClientEvent, ddi: nat) returns (added: seq<Message>)
    requires Configured(c) && (ddi == 160 || ddi == 514) && (c.subscribed ==> c.n > 0)
    ensures ClientStep(c, e).sent == c.sent + added
    ensures SentUnder(added, ddi) ==
            if ddi in c.ddiElement then Values(Asked(e, ddi), ddi, c.ddiElement[ddi]) else []
    ensures Subscriptions(added) ==
            if e == Served(Measure) && !c.subscribed && c.n > 0 then BuiltCommands(c.pool) else []
    ensures forall m :: m in added && m.SetValue? ==> GoesRight(c, m)
  {
    hide UpdateSections, UpdateControl, SendGnss, Subscribe, Report, BuiltIndex, BuiltCommands, Regular, SentUnder,
         Subscriptions;
    added := [];
    assert c.sent + [] == c.sent;
    OnlyOtherValues([], ddi);
    match e {
      case Reported(d, element, value) => ReportFrame(c, d, element, value);
      case Served(Demand(states)) =>
        added := DemandGoesRight(c, states);
        SetpointsAreOthers(c, added, ddi);
      case Served(Control(enabled)) => added := ControlAdds(c, enabled, ddi);
      case Served(Gnss(quality)) => added := GnssAdds(c, quality, ddi);
      case Served(Measure) => added := MeasureAdds(c, ddi);
    }
  }

  lemma ControlAdds(c: Client, enabled: bool, ddi: nat) returns (added: seq<Message>)
    requires Regular(c) && (c.subscribed ==> c.n > 0) && (ddi == 160 || ddi == 514)
    ensures UpdateControl(c, enabled).sent == c.sent + added
    ensures SentUnder(added, ddi) ==
            if ddi in c.ddiElement then Values(Asked(Served(Control(enabled)), ddi), ddi, c.ddiElement[ddi]) else []
    ensures Subscriptions(added) == [] && forall m :: m in added ==> GoesRight(c, m)
  {
    hide AllFields, SentUnder, Subscriptions;
    added := if 160 in c.ddiElement then [SetValue(160, c.ddiElement[160], if enabled then 1 else 0)] else [];
    assert c.sent + [] == c.sent;
    OnlyOtherValues([], ddi);
    if 160 in c.ddiElement {
      OneValue(added[0], ddi);
    }
  }

  lemma GnssAdds(c: Client, quality: nat, ddi: nat) returns (added: seq<Message>)
    requires ddi == 160 || ddi == 514
    ensures SendGnss(c, quality).sent == c.sent + added
    ensures SentUnder(added, ddi) ==
            if ddi in c.ddiElement then Values(Asked(Served(Gnss(quality)), ddi), ddi, c.ddiElement[ddi]) else []
    ensures Subscriptions(added) == [] && forall m :: m in added ==> GoesRight(c, m)
  {
    hide SentUnder, Subscriptions;
    added := if 514 in c.ddiElement then [SetValue(514, c.ddiElement[514], quality)] else [];
    assert c.sent + [] == c.sent;
    OnlyOtherValues([], ddi);
    if 514 in c.ddiElement {
      OneValue(added[0], ddi);
    }
  }

  lemma MeasureAdds(c: Client, ddi: nat) returns (added: seq<Message>)
    ensures Subscribe(c).sent == c.sent + added
    ensures SentUnder(added, ddi) == []
    ensures Subscriptions(added) == if !c.subscribed && c.n > 0 then BuiltCommands(c.pool) else []
    ensures forall m :: m in added ==> !m.SetValue?
  {
    hide SentUnder, Subscriptions, BuiltIndex, BuiltCommands;
    added := if !c.subscribed && c.n > 0 then BuiltCommands(c.pool) else [];
    assert c.sent + [] == c.sent;
    BuiltCommandsSubscribe(c.pool);
    OnlySubscriptions(added, ddi);
  }

  lemma SetpointsAreOthers(c: Client, added: seq<Message>, ddi: nat)
    requires AllSetpoints(c, added) && (ddi == 160 || ddi == 514)
    ensures SentUnder(added, ddi) == [] && Subscriptions(added) == []
    ensures forall m :: m in added ==> GoesRight(c, m)
  {
    hide GoesRight;
    forall m | m in added ensures m.SetValue? && m.ddi != ddi {
      assert GoesRight(c, m) && IsSetpointDdi(m.ddi);
      GoesRightIsValue(c, m);
    }
    OnlyOtherValues(added, ddi);
  }

  lemma GoesRightIsValue(c: Client, m: Message)
    requires GoesRight(c, m)
    ensures m.SetValue?
  {
  }

  // ---------------------------------------------------------------------------------------------
  // Runs
  // ---------------------------------------------------------------------------------------------

  /** What a run from an activation with this pool and `n` sections has led to. */
  ghost predicate Delivered(c: Client, pool: Pool, n: nat, events: seq<ClientEvent>, ddi: nat) {
    && Configured(c) && c.pool == pool && c.n == n
    && c.auto == LastMode(events)
    && c.subscribed == (n > 0 && Measured(events))
    && c.ddiElement == (if c.subscribed then BuiltIndex(map[], pool) else map[])
    && Subscriptions(c.sent) == (if c.subscribed then BuiltCommands(pool) else [])
    && SentUnder(c.sent, ddi) ==
       (if n > 0 && ddi in BuiltIndex(map[], pool)
        then Values(AskedSince(events, ddi), ddi, BuiltIndex(map[], pool)[ddi]) else [])
    && forall m :: m in c.sent && m.SetValue? ==> GoesRight(c, m)
  }

  lemma {:induction false} RunDelivers(pool: Pool, elements: seq<nat>, events: seq<ClientEvent>, ddi: nat)
    requires ddi == 160 || ddi == 514
    ensures Delivered(ClientRun(ActivatedClient(pool, elements), events), pool, SectionCount(elements), events, ddi)
  {
    hide ClientStep, Delivered, ActivatedClient;
    if events == [] {
      DeliversAtStart(pool, elements, ddi);
    } else {
      var before, e := events[..|events| - 1], events[|events| - 1];
      RunDelivers(pool, elements, before, ddi);
      StepDelivers(ClientRun(ActivatedClient(pool, elements), before), pool, SectionCount(elements), before, e, ddi);
      assert events == before + [e];
    }
  }

  lemma DeliversAtStart(pool: Pool, elements: seq<nat>, ddi: nat)
    ensures Delivered(ActivatedClient(pool, elements), pool, SectionCount(elements), [], ddi)
  {
    hide ParentMapOf, SectionIndex, UsesPerElementControl, BuiltIndex, BuiltCommands;
    ActivatedMirrored(pool, elements);
    MirroredRegular(ActivatedClient(pool, elements));
  }

  lemma StepDelivers(c: Client, pool: Pool, n: nat, before: seq<ClientEvent>, e: ClientEvent, ddi: nat)
    requires (ddi == 160 || ddi == 514) && Delivered(c, pool, n, before, ddi)
    ensures Delivered(ClientStep(c, e), pool, n, before + [e], ddi)
  {
    hide ClientStep, Regular, BuiltIndex, BuiltCommands, SentUnder, Subscriptions, GoesRight, LastMode, Asked, Values;
    var added := StepAdds(c, e, ddi);
    StepKeepsIndexing(c, e);
    StepMode(c, e, before);
    StepSubscribes(c, e);
    MeasuredNext(before, e);
    StepRegular(c, e);
    SentConcat(c.sent, added, ddi);
    var after := ClientStep(c, e);
    assert (before + [e])[..|before + [e]| - 1] == before;
    assert AskedSince(before + [e], ddi) == AskedSince(before, ddi) + if Measured(before) then Asked(e, ddi) else [];
    if n > 0 && ddi in BuiltIndex(map[], pool) {
      ValuesConcat(AskedSince(before, ddi), if Measured(before) then Asked(e, ddi) else [], ddi,
                   BuiltIndex(map[], pool)[ddi]);
    }
    forall m | m in after.sent && m.SetValue? ensures GoesRight(after, m) {
      assert GoesRight(c, m);
      StaysRight(c, after, m);
    }
  }

  lemma StaysRight(c: Client, after: Client, m: Message)
    requires SameIndexing(c, after) && GoesRight(c, m) && (!c.subscribed ==> c.ddiElement == map[])
    ensures GoesRight(after, m)
  {
    hide BuiltIndex;
  }

  lemma ValuesConcat(a: seq<nat>, b: seq<nat>, ddi: nat, element: nat)
    ensures Values(a + b, ddi, element) == Values(a, ddi, element) + Values(b, ddi, element)
    ensures Values([], ddi, element) == []
  {
  }

  lemma MeasuredNext(before: seq<ClientEvent>, e: ClientEvent)
    ensures Measured(before + [e]) <==> Measured(before) || e == Served(Measure)
  {
    if Measured(before) {
      var i :| 0 <= i < |before| && before[i] == Served(Measure);
      assert (before + [e])[i] == Served(Measure);
    }
    if e == Served(Measure) {
      assert (before + [e])[|before|] == e;
    }
  }

  lemma StepRegular(c: Client, e: ClientEvent)
    requires Configured(c)
    ensures Configured(ClientStep(c, e))
  {
    hide Report, Serve, AllFields, BuiltIndex;
    StepKeepsIndexing(c, e);
    match e {
      case Reported(ddi, element, value) => ReportKeepsWellFormed(c, ddi, element, value);
      case Served(request) => ServeFrame(c, request);
    }
  }

  lemma StepSubscribes(c: Client, e: ClientEvent)
    requires Configured(c)
    ensures ClientStep(c, e).subscribed == (c.subscribed || (c.n > 0 && e == Served(Measure)))
  {
    hide UpdateSections, UpdateControl, SendGnss, Report, BuiltIndex, BuiltCommands, AllFields, CarriesNoBlock;
    match e {
      case Reported(ddi, element, value) => ReportFrame(c, ddi, element, value);
      case Served(Demand(states)) => DemandFrameIndex(c, states);
      case Served(Control(enabled)) => var others := ControlAppends(c, enabled);
      case Served(Gnss(quality)) => var others := GnssAppends(c, quality);
      case Served(Measure) =>
    }
  }

  lemma StepMode(c: Client, e: ClientEvent, before: seq<ClientEvent>)
    requires Configured(c) && c.auto == LastMode(before)
    ensures ClientStep(c, e).auto == LastMode(before + [e])
  {
    hide Serve, Report, AllFields;
    assert (before + [e])[..|before|] == before;
    match e {
      case Reported(ddi, element, value) => ReportFrame(c, ddi, element, value);
      case Served(request) => RequestMode(c, request);
    }
  }

  /** Over any run the automatic flag is the mode asked for or reported last, and off before the first. */
  lemma ModeIsLast(pool: Pool, elements: seq<nat>, events: seq<ClientEvent>)
    ensures ClientRun(ActivatedClient(pool, elements), events).auto == LastMode(events)
  {
    hide ClientRun, ActivatedClient, LastMode;
    RunDelivers(pool, elements, events, 160);
  }

  /**
   The control state over any run. On a client with sections whose pool lists DDI 160, each control request
   after the first measurement pass has sent exactly one message: to the last element that lists the last
   listed object with that DDI, 1 for automatic and 0 for manual. Otherwise nothing was sent under it.
   */
  lemma ControlStateIsSent(pool: Pool, elements: seq<nat>, events: seq<ClientEvent>)
    ensures var sent := SentUnder(ClientRun(ActivatedClient(pool, elements), events).sent, 160);
            if |elements| % 256 > 0 && Listed(pool, 160)
            then exists i, o :: IsLastListing(pool, 160, |pool|, i, o)
                                && sent == Values(AskedSince(events, 160), 160, pool[o].number)
            else sent == []
  {
    hide ClientRun, ActivatedClient, SentUnder, AskedSince, Listed, Values, BuiltIndex, IsLastListing;
    RunDelivers(pool, elements, events, 160);
    IndexedToLastListing(pool, 160);
  }

  /** So the last control state sent is the mode that was asked for last since the pass. */
  lemma LastControlState(pool: Pool, elements: seq<nat>, events: seq<ClientEvent>, enabled: bool)
    requires |elements| % 256 > 0 && Listed(pool, 160) && Measured(events)
    ensures var c := ClientRun(ActivatedClient(pool, elements), events + [Served(Control(enabled))]);
            var sent := SentUnder(c.sent, 160);
            sent != [] && sent[|sent| - 1].SetValue? && sent[|sent| - 1].value == if enabled then 1 else 0
  {
    hide ClientRun, ActivatedClient, SentUnder, Listed, BuiltIndex, IsLastListing;
    var e := Served(Control(enabled));
    ControlStateIsSent(pool, elements, events + [e]);
    assert (events + [e])[..|events + [e]| - 1] == events;
    assert Asked(e, 160) == [if enabled then 1 else 0];
  }

  /** The GNSS quality over any run: each one given after the first measurement pass, to the element in the index. */
  lemma QualityIsSent(pool: Pool, elements: seq<nat>, events: seq<ClientEvent>)
    ensures SentUnder(ClientRun(ActivatedClient(pool, elements), events).sent, 514) ==
            if |elements| % 256 > 0 && 514 in BuiltIndex(map[], pool)
            then Values(AskedSince(events, 514), 514, BuiltIndex(map[], pool)[514]) else []
  {
    hide ClientRun, ActivatedClient, SentUnder, AskedSince, Values, BuiltIndex;
    RunDelivers(pool, elements, events, 514);
  }

  /** Subscriptions are sent once, in the first measurement pass of a client with sections, and never otherwise. */
  lemma SubscribesOnce(pool: Pool, elements: seq<nat>, events: seq<ClientEvent>)
    ensures var c := ClientRun(ActivatedClient(pool, elements), events);
            if |elements| % 256 > 0 && Measured(events)
            then Subscriptions(c.sent) == BuiltCommands(pool) && c.ddiElement == BuiltIndex(map[], pool)
            else Subscriptions(c.sent) == [] && c.ddiElement == map[]
  {
    hide ClientRun, ActivatedClient, Subscriptions, BuiltCommands, BuiltIndex, Measured;
    RunDelivers(pool, elements, events, 160);
  }

  /**
   Over any run every value sent, setpoints included, went to the element that the index has for its DDI;
   only the setpoints of control by element (DDI 141) go to other elements, never to element 0.
   */
  lemma EverythingIsAddressed(pool: Pool, elements: seq<nat>, events: seq<ClientEvent>, m: Message)
    requires m in ClientRun(ActivatedClient(pool, elements), events).sent && m.SetValue?
    ensures if m.ddi == 141 then UsesPerElementControl(pool) && m.element != 0 && m.value <= 1
            else m.ddi in BuiltIndex(map[], pool) && m.element == BuiltIndex(map[], pool)[m.ddi]
  {
    hide ClientRun, SentUnder, Subscriptions, BuiltCommands, BuiltIndex, UsesPerElementControl, ParentMapOf,
         SectionIndex, Mirrored;
    RunDelivers(pool, elements, events, 160);
    var start := ActivatedClient(pool, elements);
    ActivatedMirrored(pool, elements);
    RunKeepsIndexing(start, events);
    assert GoesRight(ClientRun(start, events), m);
  }
}
