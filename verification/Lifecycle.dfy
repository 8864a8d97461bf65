/**
 Which clients are sent anything: over all interleavings of the two threads, only those that were
 activated and not removed since.
 */
module Lifecycle {
  import opened Bits
  import opened DeviceDescriptor
  import opened ElementHierarchy
  import opened MeasurementIndex
  import opened SectionControl
  import opened ServerModel
  import opened SectionRuns

  /** The history of `cf`: its last accepted activation came after its last removal. */
  ghost predicate Active(events: seq<Event>, lib: Library, cf: nat) {
    if events == [] then false
    else
      var before, e := events[..|events| - 1], events[|events| - 1];
      if e == ActivatePool(cf) then
        Active(before, lib, cf) || ActivationResult(Run(NoClients, before, lib), cf, lib).accepted
      else
        !EndsClient(e, cf) && Active(before, lib, cf)
  }

  /** A client that only its own reports brought into being. */
  ghost predicate Idle(c: Client) {
    c.n == 0 && c.ddiElement == map[] && c.sent == [] && c.actual == [] && c.sectionElement == []
  }

  lemma ServeKeepsIdle(c: Client, request: Request)
    requires Idle(c)
    ensures Idle(Serve(c, request))
  {
    hide SweepBlocks, BuiltIndex, BuiltCommands;
  }

  lemma ReportKeepsIdle(c: Client, ddi: nat, element: nat, value: int)
    requires Idle(c)
    ensures Idle(Report(c, ddi, element, value))
  {
    hide ReportFields, ReportWork;
    if ACTUAL_CONDENSED_FIRST <= ddi <= ACTUAL_CONDENSED_LAST {
      ReportFieldsFrame(c, ddi - ACTUAL_CONDENSED_FIRST, element, value, SECTIONS_PER_MESSAGE);
      var r := ReportFields(c, ddi - ACTUAL_CONDENSED_FIRST, element, value, SECTIONS_PER_MESSAGE);
      assert |r.actual| == 0 && |r.sectionElement| == 0 by {
        IdleReport(c, ddi - ACTUAL_CONDENSED_FIRST, element, value);
      }
    } else if ddi == ACTUAL_WORK_STATE {
      IdleWork(c, element, value == 1);
    }
  }

  lemma IdleReport(c: Client, b: nat, element: nat, value: int)
    requires Idle(c)
    ensures var r := ReportFields(c, b, element, value, SECTIONS_PER_MESSAGE);
            |r.actual| == 0 && |r.sectionElement| == 0
  {
  }

  lemma IdleWork(c: Client, element: nat, working: bool)
    requires Idle(c)
    ensures Idle(ReportWork(c, element, working))
  {
  }

  /** Active clients are known to the server, and clients that are not active are idle. */
  lemma {:induction false} OnlyActiveClientsAreInUse(events: seq<Event>, lib: Library, cf: nat)
    ensures var s := Run(NoClients, events, lib);
            && (Active(events, lib, cf) ==> cf in s.clients)
            && (cf in s.clients && !Active(events, lib, cf) ==> Idle(s.clients[cf]))
  {
    hide Serve, Report, Idle, ActivatedClient, Deserialized, HasDevice, FlatSections, EmptyClient;
    if events != [] {
      var before, e := events[..|events| - 1], events[|events| - 1];
      OnlyActiveClientsAreInUse(before, lib, cf);
      var s := Run(NoClients, before, lib);
      EmptyIsIdle();
      if cf in s.clients && Idle(s.clients[cf]) {
        if e.Requested? {
          ServeKeepsIdle(s.clients[cf], e.request);
        } else if e.Value? {
          ReportKeepsIdle(s.clients[cf], e.ddi, e.element, e.value);
        }
      } else if cf !in s.clients && e.Value? {
        ReportKeepsIdle(EmptyClient, e.ddi, e.element, e.value);
      }
    }
  }

  lemma EmptyIsIdle()
    ensures Idle(EmptyClient)
  {
  }

  // ---------------------------------------------------------------------------------------------
  // What one step sends
  // ---------------------------------------------------------------------------------------------

  /** A message that tells the implement which sections to run. */
  predicate IsSetpoint(m: Message) {
    && m.SetValue?
    && (|| SETPOINT_CONDENSED_FIRST <= m.ddi <= SETPOINT_CONDENSED_LAST
        || ACTUAL_CONDENSED_FIRST <= m.ddi <= ACTUAL_CONDENSED_LAST
        || m.ddi == SETPOINT_WORK_STATE || m.ddi == ACTUAL_WORK_STATE)
  }

  predicate IsControl(m: Message) {
    m.SetValue? && m.ddi == SECTION_CONTROL_STATE
  }

  /** What may be sent to a client whose state before the step was `before`. */
  ghost predicate Permitted(before: Client, request: Request, m: Message) {
    && (IsSetpoint(m) ==> request.Demand? && before.auto)
    && (IsControl(m) ==> request.Control?)
    && (!m.SetValue? ==> request.Measure? && !before.subscribed)
    && !Idle(before)
  }

  lemma {:induction false} SweepSendsSetpoints(c: Client, demand: seq<bool>, b: nat)
    requires Regular(c) && b <= BLOCK_COUNT
    ensures var after := SweepBlocks(c, demand, b);
            && |c.sent| <= |after.sent| && after.sent[..|c.sent|] == c.sent
            && forall m :: m in after.sent[|c.sent|..] ==> m.SetValue? && !IsControl(m)
  {
    hide SendBlock, Swept, BlockChanged, SweepBlocks, Updated, Regular, IsControl;
    if b == 0 {
      SweepNone(c, demand);
    } else {
      var j := b - 1;
      SweepSendsSetpoints(c, demand, j);
      SweepOne(c, demand, j);
      if BlockChanged(c.setpoint, demand, j) {
        var added := SendBlockNoControl(Updated(c, demand, j), j);
        assert SweepBlocks(c, demand, b).sent[|c.sent|..] == SweepBlocks(c, demand, j).sent[|c.sent|..] + added;
      }
    }
  }

  lemma SendBlockNoControl(c: Client, b: nat) returns (added: seq<Message>)
    requires Regular(c) && b < BLOCK_COUNT
    ensures SendBlock(c, b).sent == c.sent + added
    ensures forall m :: m in added ==> m.SetValue? && !IsControl(m)
  {
    hide BlockValue, IsDdiSettable, AnyOn, SendWorkState, ElementSetpoints;
    if BlockTarget(c, b).Some? {
      var own := [BlockMessage(c, b)];
      var work := SendWorkAppends(c.(sent := c.sent + own));
      assert c.sent + own + work == c.sent + (own + work);
      added := if SETPOINT_CONDENSED_FIRST + b in c.ddiElement then own + work else own;
    } else {
      var elements := ElementSetpoints(c, SECTIONS_PER_MESSAGE * b, SECTIONS_PER_MESSAGE * (b + 1));
      ElementSetpointsShape(c, SECTIONS_PER_MESSAGE * b, SECTIONS_PER_MESSAGE * (b + 1));
      var work := SendWorkAppends(c.(sent := c.sent + elements));
      assert c.sent + elements + work == c.sent + (elements + work);
      assert c.sent + [] == c.sent;
      added := if ACTUAL_CONDENSED_FIRST + b !in c.ddiElement && c.perElement then elements + work else [];
    }
  }

  lemma ServeSendsPermitted(c: Client, request: Request) returns (added: seq<Message>)
    requires Regular(c)
    ensures Serve(c, request).sent == c.sent + added
    ensures forall m :: m in added ==> Permitted(c, request, m)
  {
    hide SweepBlocks, UpdateControl, SendGnss, BuiltIndex, BuiltCommands, Idle, AllFields;
    added := [];
    assert c.sent + [] == c.sent;
    match request {
      case Demand(states) =>
        if c.auto && c.n > 0 {
          SweepSendsSetpoints(c, states, Blocks(c.n));
          var after := UpdateSections(c, states);
          added := after.sent[|c.sent|..];
          assert after.sent == after.sent[..|c.sent|] + added;
        }
      case Control(enabled) => added := ControlAppends(c, enabled);
      case Gnss(quality) => added := GnssAppends(c, quality);
      case Measure =>
        if !c.subscribed && c.n > 0 {
          BuiltCommandsSubscribe(c.pool);
          added := BuiltCommands(c.pool);
        }
    }
    if Idle(c) {
      ServeKeepsIdle(c, request);
      IdleSent(c, Serve(c, request));
      assert added == [];
    }
  }

  lemma IdleSent(c: Client, d: Client)
    requires Idle(c) && Idle(d)
    ensures c.sent == [] && d.sent == []
  {
  }

  lemma {:induction false} ReachableClientsAreRegular(events: seq<Event>, lib: Library, cf: nat)
    requires cf in Run(NoClients, events, lib).clients
    ensures Mirrored(Run(NoClients, events, lib).clients[cf])
  {
    hide Serve, Report, Mirrored, ActivatedClient, Deserialized, HasDevice, FlatSections, EmptyClient;
    var before, e := events[..|events| - 1], events[|events| - 1];
    var s := Run(NoClients, before, lib);
    if cf in s.clients {
      ReachableClientsAreRegular(before, lib, cf);
      var c := s.clients[cf];
      if e.Requested? {
        StepMirrors(c, Served(e.request));
      } else if e.Value? {
        StepMirrors(c, Reported(e.ddi, e.element, e.value));
      }
    } else if e.Value? {
      EmptyMirrored();
      StepMirrors(EmptyClient, Reported(e.ddi, e.element, e.value));
    }
    if e == ActivatePool(cf) && cf in s.uploads {
      var pool := Deserialized(lib, [], false, s.uploads[cf]).0;
      ActivatedMirrored(pool, FlatSections(lib.geometry(pool)));
    }
  }

  lemma EmptyMirrored()
    ensures Mirrored(EmptyClient)
  {
  }

  /**
   Lifecycle safety. In every run of the server, a step adds messages for a client only if the step is a
   request of the main thread and the client was activated and not deactivated, deleted or timed out
   since; setpoints only in answer to a section demand and while its automatic flag is set, the control
   state only in answer to a control request, subscriptions only in the client's first measurement pass.
   */
  lemma OnlyActiveClientsAreSent(events: seq<Event>, e: Event, lib: Library, cf: nat) returns (added: seq<Message>)
    requires cf in Run(NoClients, events, lib).clients && !EndsClient(e, cf)
    ensures var s := Run(NoClients, events, lib); var after := Step(s, e, lib);
            && cf in after.clients
            && after.clients[cf].sent == s.clients[cf].sent + added
            && (added != [] ==> e.Requested? && Active(events, lib, cf))
            && (forall m :: m in added ==>
                 && (IsSetpoint(m) ==> e.request.Demand? && s.clients[cf].auto)
                 && (IsControl(m) ==> e.request.Control?)
                 && (!m.SetValue? ==> e.request.Measure? && !s.clients[cf].subscribed))
  {
    hide Serve, Report, Idle, Mirrored, ActivatedClient, Deserialized, HasDevice, FlatSections;
    var s := Run(NoClients, events, lib);
    var c := s.clients[cf];
    added := [];
    assert c.sent + [] == c.sent;
    ReachableClientsAreRegular(events, lib, cf);
    OnlyActiveClientsAreInUse(events, lib, cf);
    if e.Requested? {
      assert Regular(c) by { MirroredRegular(c); }
      added := ServeSendsPermitted(c, e.request);
      if added != [] {
        assert added[0] in added && Permitted(c, e.request, added[0]);
      }
    } else if e.Value? {
      ReportFrame(c, e.ddi, e.element, e.value);
    }
  }

  /** The index built by the first measurement pass stays as it is for as long as the client lives. */
  lemma SubscribedForGood(events: seq<Event>, e: Event, lib: Library, cf: nat)
    requires cf in Run(NoClients, events, lib).clients && !EndsClient(e, cf)
    requires Run(NoClients, events, lib).clients[cf].subscribed
    ensures var before := Run(NoClients, events, lib).clients[cf];
            var after := Step(Run(NoClients, events, lib), e, lib);
            cf in after.clients && after.clients[cf].subscribed && after.clients[cf].ddiElement == before.ddiElement
  {
    hide Run, Report, UpdateSections, UpdateControl, SendGnss, BuiltIndex, BuiltCommands, Mirrored, ActivatedClient,
         Deserialized, HasDevice, FlatSections;
    var c := Run(NoClients, events, lib).clients[cf];
    ReachableClientsAreRegular(events, lib, cf);
    MirroredRegular(c);
    if e.Value? {
      ReportFrame(c, e.ddi, e.element, e.value);
    } else if e.Requested? {
      match e.request {
        case Demand(states) => DemandFrameIndex(c, states);
        case Control(enabled) => var others := ControlAppends(c, enabled);
        case Gnss(quality) => var others := GnssAppends(c, quality);
        case Measure =>
      }
    }
  }

  /** A client starts with nothing sent: a step that creates or replaces a client sends nothing to it. */
  lemma NewClientsAreSilent(events: seq<Event>, e: Event, lib: Library, cf: nat)
    requires cf in Step(Run(NoClients, events, lib), e, lib).clients
    requires cf !in Run(NoClients, events, lib).clients
             || (e == ActivatePool(cf) && ActivationResult(Run(NoClients, events, lib), cf, lib).accepted)
    ensures Step(Run(NoClients, events, lib), e, lib).clients[cf].sent == []
  {
    hide Report, Deserialized, HasDevice, FlatSections, ParentMapOf, SectionIndex, UsesPerElementControl, Run, Serve;
    if e.Value? {
      ReportFrame(EmptyClient, e.ddi, e.element, e.value);
    }
  }

  /**
   A turned-down activation leaves every client as it was; it uses up the chunks of the upload it was
   asked about and touches no other upload.
   */
  lemma FailedActivationKeepsClients(s: Server, cf: nat, lib: Library)
    ensures ActivationResult(s, cf, lib).accepted <==>
              && cf in s.uploads
              && Deserialized(lib, [], false, s.uploads[cf]).1
              && HasDevice(Deserialized(lib, [], false, s.uploads[cf]).0)
    ensures !ActivationResult(s, cf, lib).accepted ==> Activate(s, cf, lib).clients == s.clients
    ensures ActivationResult(s, cf, lib).accepted ==> Activate(s, cf, lib).clients - {cf} == s.clients - {cf}
    ensures Activate(s, cf, lib).uploads - {cf} == s.uploads - {cf}
    ensures cf in Activate(s, cf, lib).uploads ==> Activate(s, cf, lib).uploads[cf] == []
  {
    hide Deserialized, HasDevice, FlatSections, ActivatedClient;
  }

  /**
   Activating again without a new upload is always turned down: whatever happens after an activation, as
   long as nothing is stored for this client a further one is refused.
   */
  lemma {:induction false} SecondActivationNeedsNewUpload(s: Server, events: seq<Event>, cf: nat, lib: Library)
    requires forall i :: 0 <= i < |events| ==> !(events[i].Store? && events[i].cf == cf)
    ensures var later := Run(Step(s, ActivatePool(cf), lib), events, lib);
            && (cf in later.uploads ==> later.uploads[cf] == [])
            && !ActivationResult(later, cf, lib).accepted
  {
    hide HasDevice, FlatSections, ActivatedClient, Report, Serve;
    if events != [] {
      SecondActivationNeedsNewUpload(s, events[..|events| - 1], cf, lib);
      assert !(events[|events| - 1].Store? && events[|events| - 1].cf == cf);
    }
  }

  // ---------------------------------------------------------------------------------------------
  // Uploads and activations, in terms of the history alone
  // ---------------------------------------------------------------------------------------------

  /** The chunks stored for `cf` since its upload was last used up; none after its pool was removed. */
  function Uploaded(events: seq<Event>, cf: nat): Option<seq<seq<Byte>>> {
    if events == [] then None
    else
      var before := Uploaded(events[..|events| - 1], cf);
      match events[|events| - 1]
      case Store(x, chunk) => if x == cf then Some((if before.Some? then before.value else []) + [chunk]) else before
      case ActivatePool(x) => if x == cf && before.Some? then Some([]) else before
      case DeactivatePool(x) => if x == cf then None else before
      case DeletePool(x) => if x == cf then None else before
      case _ => before
  }

  /** What the library makes of the chunks: each is fed to the pool that the earlier ones gave. */
  function Fed(lib: Library, chunks: seq<seq<Byte>>): (ReceivedPool, bool) {
    if chunks == [] then ([], false)
    else lib.deserialize(Fed(lib, chunks[..|chunks| - 1]).0, chunks[|chunks| - 1])
  }

  lemma {:induction false} DeserializedAppend(lib: Library, pool: ReceivedPool, ok: bool,
                                              chunks: seq<seq<Byte>>, chunk: seq<Byte>)
    ensures Deserialized(lib, pool, ok, chunks + [chunk]) ==
            lib.deserialize(Deserialized(lib, pool, ok, chunks).0, chunk)
    decreases |chunks|
  {
    if chunks == [] {
      assert [chunk][1..] == [] && chunks + [chunk] == [chunk];
      var (next, result) := lib.deserialize(pool, chunk);
      assert Deserialized(lib, next, result, []) == (next, result);
    } else {
      var (next, result) := lib.deserialize(pool, chunks[0]);
      assert (chunks + [chunk])[1..] == chunks[1..] + [chunk];
      DeserializedAppend(lib, next, result, chunks[1..], chunk);
    }
  }

  lemma {:induction false} DeserializedIsFed(lib: Library, chunks: seq<seq<Byte>>)
    ensures Deserialized(lib, [], false, chunks) == Fed(lib, chunks)
  {
    if chunks != [] {
      var last := |chunks| - 1;
      DeserializedIsFed(lib, chunks[..last]);
      DeserializedAppend(lib, [], false, chunks[..last], chunks[last]);
      assert chunks == chunks[..last] + [chunks[last]];
    }
  }

  lemma {:induction false} UploadsAreHistory(events: seq<Event>, lib: Library, cf: nat)
    ensures var uploads := Run(NoClients, events, lib).uploads;
            Uploaded(events, cf) == if cf in uploads then Some(uploads[cf]) else None
  {
    hide Serve, Report, ActivatedClient, Deserialized, HasDevice, FlatSections, ActivationResult;
    if events != [] {
      UploadsAreHistory(events[..|events| - 1], lib, cf);
    }
  }

  /**
   The answer to an activation after any run, with its error codes: without an upload, with one that the
   library could not read to its last chunk, with a pool that has no device object, and otherwise.
   */
  lemma ActivationOutcome(events: seq<Event>, lib: Library, cf: nat)
    ensures ActivationResult(Run(NoClients, events, lib), cf, lib) ==
            match Uploaded(events, cf)
            case None => Activation(false, OtherError, NoPoolErrors)
            case Some(chunks) =>
              var (pool, readable) := Fed(lib, chunks);
              if !readable then Activation(false, ErrorsInPool, OtherPoolError)
              else if forall i :: 0 <= i < |pool| ==> !pool[i].Device?
              then Activation(false, ErrorsInPool, UnknownReference)
              else Activation(true, NoErrors, NoPoolErrors)
    ensures ActivationResult(Run(NoClients, events, lib), cf, lib).accepted ==>
              var pool := Fed(lib, Uploaded(events, cf).value).0;
              var clients := Run(NoClients, events + [ActivatePool(cf)], lib).clients;
              cf in clients && clients[cf] == ActivatedClient(pool, FlatSections(lib.geometry(pool)))
  {
    hide Deserialized, Fed, ActivatedClient, FlatSections, Uploaded;
    UploadsAreHistory(events, lib, cf);
    if Uploaded(events, cf).Some? {
      DeserializedIsFed(lib, Uploaded(events, cf).value);
    }
    var more := events + [ActivatePool(cf)];
    assert more[..|more| - 1] == events;
  }

  // ---------------------------------------------------------------------------------------------
  // Clients, in terms of the history alone
  // ---------------------------------------------------------------------------------------------

  /**
   The server knows `cf`: since its last removal its activation was accepted, or it reported a section state,
   its mode or an element's work state.
   */
  ghost predicate Known(events: seq<Event>, lib: Library, cf: nat) {
    events != [] &&
    var before := events[..|events| - 1];
    match events[|events| - 1]
    case ActivatePool(x) =>
      Known(before, lib, cf) || (x == cf && ActivationResult(Run(NoClients, before, lib), cf, lib).accepted)
    case DeactivatePool(x) => x != cf && Known(before, lib, cf)
    case DeletePool(x) => x != cf && Known(before, lib, cf)
    case TimeOut(x) => x != cf && Known(before, lib, cf)
    case Value(x, ddi, element, value) =>
      Known(before, lib, cf) || (x == cf && (ddi == 141 || ddi == 160 || 161 <= ddi <= 176))
    case _ => Known(before, lib, cf)
  }

  lemma {:induction false} KnownIff(events: seq<Event>, lib: Library, cf: nat)
    ensures cf in Run(NoClients, events, lib).clients <==> Known(events, lib, cf)
  {
    hide Serve, Report, ActivatedClient, Deserialized, HasDevice, FlatSections, EmptyClient;
    if events != [] {
      KnownIff(events[..|events| - 1], lib, cf);
    }
  }

  /**
   The client started as activated, or, if it was never activated since its last removal, empty; and it is
   what `own`, the last of its own reports and the common requests of the run, have made of it.
   */
  ghost predicate HasHistory(events: seq<Event>, lib: Library, cf: nat,
                             start: Client, own: seq<ClientEvent>, pool: ReceivedPool)
  {
    var clients, all := Run(NoClients, events, lib).clients, Project(events, cf);
    && cf in clients && clients[cf] == ClientRun(start, own)
    && start == (if Active(events, lib, cf) then ActivatedClient(pool, FlatSections(lib.geometry(pool)))
                 else EmptyClient)
    && |own| <= |all| && own == all[|all| - |own|..]
  }

  /** What a client notices of one event. */
  function Noticed(e: Event, cf: nat): seq<ClientEvent> {
    match e
    case Requested(request) => [Served(request)]
    case Value(x, ddi, element, value) => if x == cf then [Reported(ddi, element, value)] else []
    case _ => []
  }

  lemma ProjectNext(events: seq<Event>, cf: nat)
    requires events != []
    ensures Project(events, cf) == Project(events[..|events| - 1], cf) + Noticed(events[|events| - 1], cf)
  {
  }

  /** A client appears by an accepted activation, or by a report of its own. */
  lemma Appears(s: Server, e: Event, lib: Library, cf: nat)
    requires cf !in s.clients && cf in Step(s, e, lib).clients
    ensures || (e == ActivatePool(cf) && ActivationResult(s, cf, lib).accepted)
            || (e.Value? && e.cf == cf && Step(s, e, lib).clients[cf] == Report(EmptyClient, e.ddi, e.element, e.value))
  {
    hide Serve, Report, ActivatedClient, Deserialized, HasDevice, FlatSections, EmptyClient;
  }

  lemma ActivatedBegins(events: seq<Event>, lib: Library, cf: nat)
    returns (start: Client, pool: ReceivedPool)
    requires events != [] && events[|events| - 1] == ActivatePool(cf)
    requires ActivationResult(Run(NoClients, events[..|events| - 1], lib), cf, lib).accepted
    ensures HasHistory(events, lib, cf, start, [], pool)
  {
    hide ActivatedClient, Deserialized, HasDevice, FlatSections, Serve, Report;
    var s := Run(NoClients, events[..|events| - 1], lib);
    pool := Deserialized(lib, [], false, s.uploads[cf]).0;
    start := ActivatedClient(pool, FlatSections(lib.geometry(pool)));
    var all := Project(events, cf);
    assert all[|all|..] == [];
  }

  lemma ReportedBegins(events: seq<Event>, lib: Library, cf: nat)
    returns (own: seq<ClientEvent>)
    requires events != [] && events[|events| - 1].Value? && events[|events| - 1].cf == cf
    requires var s := Run(NoClients, events[..|events| - 1], lib); var e := events[|events| - 1];
             && cf !in s.clients && cf in Step(s, e, lib).clients
             && Step(s, e, lib).clients[cf] == Report(EmptyClient, e.ddi, e.element, e.value)
    ensures HasHistory(events, lib, cf, EmptyClient, own, [])
  {
    hide Step, Report, ActivatedClient, FlatSections, EmptyClient, Project, ActivationResult, Active, ClientRun;
    var before, e := events[..|events| - 1], events[|events| - 1];
    NotYetActive(events, lib, cf);
    own := [Reported(e.ddi, e.element, e.value)];
    FirstStep(EmptyClient, own[0]);
    ProjectNext(events, cf);
    SuffixGrows(Project(before, cf), [], own);
    assert [] + own == own;
  }

  lemma NotYetActive(events: seq<Event>, lib: Library, cf: nat)
    requires events != [] && events[|events| - 1].Value?
    requires cf !in Run(NoClients, events[..|events| - 1], lib).clients
    ensures !Active(events, lib, cf)
  {
    hide Run, ActivationResult;
    OnlyActiveClientsAreInUse(events[..|events| - 1], lib, cf);
  }

  lemma FirstStep(c: Client, e: ClientEvent)
    ensures ClientRun(c, [e]) == ClientStep(c, e)
  {
    hide ClientStep;
    assert [e][..0] == [];
  }

  lemma HistoryBegins(events: seq<Event>, lib: Library, cf: nat)
    returns (start: Client, own: seq<ClientEvent>, pool: ReceivedPool)
    requires events != [] && cf in Run(NoClients, events, lib).clients
    requires var s := Run(NoClients, events[..|events| - 1], lib); var e := events[|events| - 1];
             cf !in s.clients || (e == ActivatePool(cf) && ActivationResult(s, cf, lib).accepted)
    ensures HasHistory(events, lib, cf, start, own, pool)
  {
    hide Step, HasHistory, ActivationResult;
    var s, e := Run(NoClients, events[..|events| - 1], lib), events[|events| - 1];
    if e == ActivatePool(cf) && ActivationResult(s, cf, lib).accepted {
      own := [];
      start, pool := ActivatedBegins(events, lib, cf);
    } else {
      Appears(s, e, lib, cf);
      start, pool := EmptyClient, [];
      own := ReportedBegins(events, lib, cf);
    }
  }

  lemma StepOnClient(s: Server, e: Event, lib: Library, cf: nat)
    requires cf in s.clients && cf in Step(s, e, lib).clients
    requires e == ActivatePool(cf) ==> !ActivationResult(s, cf, lib).accepted
    ensures var c := s.clients[cf]; var own := Noticed(e, cf);
            Step(s, e, lib).clients[cf] == if own == [] then c else ClientStep(c, own[0])
  {
    hide Serve, Report, ActivatedClient, Deserialized, HasDevice, FlatSections, EmptyClient;
    if e.Value? && !CreatesClient(e.ddi) {
      ReportIgnoresOtherDdis(s.clients[cf], e.ddi, e.element, e.value);
    }
  }

  lemma StaysActive(events: seq<Event>, lib: Library, cf: nat)
    requires events != [] && cf in Run(NoClients, events, lib).clients
    requires cf in Run(NoClients, events[..|events| - 1], lib).clients
    requires var e := events[|events| - 1];
             e == ActivatePool(cf) ==> !ActivationResult(Run(NoClients, events[..|events| - 1], lib), cf, lib).accepted
    ensures Active(events, lib, cf) == Active(events[..|events| - 1], lib, cf)
  {
    hide Serve, Report, ActivationResult, ActivatedClient, Activate, EmptyClient;
  }

  /** An event that neither removes nor replaces the client adds what it notices of it to its history. */
  lemma HistoryContinues(events: seq<Event>, lib: Library, cf: nat,
                         start: Client, own: seq<ClientEvent>, pool: ReceivedPool)
    requires events != [] && HasHistory(events[..|events| - 1], lib, cf, start, own, pool)
    requires cf in Run(NoClients, events, lib).clients
    requires var e := events[|events| - 1];
             e == ActivatePool(cf) ==> !ActivationResult(Run(NoClients, events[..|events| - 1], lib), cf, lib).accepted
    ensures HasHistory(events, lib, cf, start, own + Noticed(events[|events| - 1], cf), pool)
  {
    hide Step, ClientStep, ClientRun, Active, Noticed, Project, ActivationResult, ActivatedClient, FlatSections,
         EmptyClient;
    var before, e := events[..|events| - 1], events[|events| - 1];
    var more := Noticed(e, cf);
    StepOnClient(Run(NoClients, before, lib), e, lib, cf);
    StaysActive(events, lib, cf);
    ProjectNext(events, cf);
    SuffixGrows(Project(before, cf), own, more);
    assert own + [] == own;
    NoticesAtMostOne(e, cf);
    if more != [] {
      ClientRunAppend(start, own, more[0]);
      assert more == [more[0]];
    }
  }

  lemma NoticesAtMostOne(e: Event, cf: nat)
    ensures |Noticed(e, cf)| <= 1
  {
  }

  lemma SuffixGrows(all: seq<ClientEvent>, own: seq<ClientEvent>, more: seq<ClientEvent>)
    requires |own| <= |all| && own == all[|all| - |own|..]
    ensures own + more == (all + more)[|all + more| - |own + more|..]
  {
  }

  /** Every client of every reachable state has such a history. */
  lemma {:induction false} ClientHasHistory(events: seq<Event>, lib: Library, cf: nat)
    returns (start: Client, own: seq<ClientEvent>, pool: ReceivedPool)
    requires cf in Run(NoClients, events, lib).clients
    ensures HasHistory(events, lib, cf, start, own, pool)
  {
    hide Step, HasHistory, ActivationResult;
    var before, e := events[..|events| - 1], events[|events| - 1];
    var s := Run(NoClients, before, lib);
    if cf !in s.clients || (e == ActivatePool(cf) && ActivationResult(s, cf, lib).accepted) {
      start, own, pool := HistoryBegins(events, lib, cf);
    } else {
      start, own, pool := ClientHasHistory(before, lib, cf);
      HistoryContinues(events, lib, cf, start, own, pool);
      own := own + Noticed(e, cf);
    }
  }
}
