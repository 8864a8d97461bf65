/**
 `MyTCServer` of src/task_controller.cpp. Every public method runs under `clientsMutex` from start to
 end, so each is one atomic step of the value model in ServerModel.dfy.
 */
module TaskControllerServer {
  import opened Bits
  import opened DeviceDescriptor
  import opened ElementHierarchy
  import opened SectionControl
  import opened ServerModel
  import opened TaskController
  import SectionRuns

  // ---------------------------------------------------------------------------------------------
  // Activating a pool: the parts that only read
  // ---------------------------------------------------------------------------------------------

  method FindDevice(pool: Pool) returns (found: bool)
    ensures found <==> HasDevice(pool)
  {
    for i := 0 to |pool|
      invariant forall k :: 0 <= k < i ==> !pool[k].Device?
    {
      if pool[i].Device? {
        return true;
      }
    }
    return false;
  }

  /** The section elements in the order of the geometry, and the 8-bit count of them. */
  method FlattenGeometry(booms: seq<Boom>) returns (numberOfSections: nat, elements: seq<nat>)
    ensures elements == FlatSections(booms)
    ensures numberOfSections == SectionCount(elements) == |elements| % 256
  {
    numberOfSections, elements := 0, [];
    for b := 0 to |booms|
      invariant elements == FlatSections(booms[..b])
      invariant numberOfSections == |elements| % 256
    {
      var boom := booms[b];
      ghost var before := elements;
      for s := 0 to |boom.subBooms|
        invariant elements == before + SubBoomSections(boom.subBooms[..s])
        invariant numberOfSections == |elements| % 256
      {
        assert boom.subBooms[..s + 1][..s] == boom.subBooms[..s];
        numberOfSections, elements := AppendSections(numberOfSections, elements, boom.subBooms[s].sections);
      }
      assert boom.subBooms[..|boom.subBooms|] == boom.subBooms;
      numberOfSections, elements := AppendSections(numberOfSections, elements, boom.sections);
      assert booms[..b + 1][..b] == booms[..b];
    }
    assert booms[..|booms|] == booms;
  }

  lemma CountWraps(x: nat)
    ensures (x % 256 + 1) % 256 == (x + 1) % 256
  {
  }

  method AppendSections(count: nat, elements: seq<nat>, sections: seq<nat>) returns (newCount: nat, appended: seq<nat>)
    requires count == |elements| % 256
    ensures appended == elements + sections
    ensures newCount == |appended| % 256
  {
    newCount, appended := count, elements;
    for k := 0 to |sections|
      invariant appended == elements + sections[..k]
      invariant newCount == (|elements| + k) % 256
    {
      assert sections[..k + 1] == sections[..k] + [sections[k]];
      CountWraps(|elements| + k);
      newCount := (newCount + 1) % 256;
      appended := appended + [sections[k]];
    }
    assert sections[..|sections|] == sections;
  }

  /** Scans the pool for the section control methods it offers, most modern first. */
  method DetectPerElementControl(pool: Pool) returns (perElement: bool)
    ensures perElement == UsesPerElementControl(pool)
    ensures perElement <==>
            && (forall i :: 0 <= i < |pool| && pool[i].ProcessData? ==> !(290 <= pool[i].ddi <= 305))
            && (forall i :: 0 <= i < |pool| && pool[i].ProcessData? && pool[i].settable ==>
                  !(161 <= pool[i].ddi <= 176))
            && (exists i :: 0 <= i < |pool| && pool[i].ProcessData? && pool[i].settable && pool[i].ddi == 141)
  {
    var hasCondensedSetpoint, hasSettableCondensedActual, hasSettableActualWorkState := false, false, false;
    for i := 0 to |pool|
      invariant hasCondensedSetpoint == HasCondensedSetpoint(pool, i)
      invariant hasSettableCondensedActual == HasSettableCondensedActual(pool, i)
      invariant hasSettableActualWorkState == HasSettableActualWorkState(pool, i)
    {
      if pool[i].ProcessData? {
        var ddi := pool[i].ddi;
        if SETPOINT_CONDENSED_FIRST <= ddi <= SETPOINT_CONDENSED_LAST {
          hasCondensedSetpoint := true;
        }
        if ACTUAL_CONDENSED_FIRST <= ddi <= ACTUAL_CONDENSED_LAST && pool[i].settable {
          hasSettableCondensedActual := true;
        }
        if ddi == ACTUAL_WORK_STATE && pool[i].settable {
          hasSettableActualWorkState := true;
        }
      }
    }
    return !hasCondensedSetpoint && !hasSettableCondensedActual && hasSettableActualWorkState;
  }

  /** Sets up a new client for the pool. */
  method NewClient(pool: ReceivedPool, numberOfSections: nat, elements: seq<nat>) returns (state: ClientState)
    requires numberOfSections == SectionCount(elements)
    ensures fresh(state)
    ensures state.View() == ActivatedClient(pool, elements) && WellFormed(state.View())
  {
    hide ActivatedClient, WellFormed, ParentMapOf, UsesPerElementControl, SectionIndex;
    state := new ClientState();
    state.pool := pool;
    state.elementParents := BuildParentMap(pool);
    var perElement := DetectPerElementControl(pool);
    if perElement {
      state.usesPerElementControl := true;
      state.perElementSetpointDdi := ACTUAL_WORK_STATE;
    }
    state.SetNumberOfSections(numberOfSections);
    MapSections(state, elements);
    ActivatedIs(pool, elements, state.View());
  }

  method MapSections(state: ClientState, elements: seq<nat>)
    requires state.numberOfSections == |state.sectionToElementNumber| <= |elements| && state.elementToSection == map[]
    modifies state`sectionToElementNumber, state`elementToSection
    ensures state.View() == old(state.View()).(sectionElement := elements[..state.numberOfSections],
                                               elementSection := SectionIndex(elements, state.numberOfSections))
  {
    for i := 0 to state.numberOfSections
      invariant |state.sectionToElementNumber| == state.numberOfSections
      invariant state.sectionToElementNumber[..i] == elements[..i]
      invariant state.elementToSection == SectionIndex(elements, i)
    {
      state.SetElementNumberForSection(i, elements[i]);
      assert state.sectionToElementNumber[..i + 1] == elements[..i] + [elements[i]];
    }
    assert state.sectionToElementNumber == elements[..state.numberOfSections];
  }

  lemma ActivatedIs(pool: Pool, elements: seq<nat>, c: Client)
    requires c.n == SectionCount(elements)
    requires c.setpoint == ClientState.Resized([], c.n) && c.actual == ClientState.Resized([], c.n)
    requires c == EmptyClient.(pool := pool, parents := ParentMapOf(pool, |pool|), n := c.n, setpoint := c.setpoint,
                               actual := c.actual, sectionElement := elements[..c.n],
                               elementSection := SectionIndex(elements, c.n), perElement := UsesPerElementControl(pool),
                               perElementDdi := if UsesPerElementControl(pool) then ACTUAL_WORK_STATE else 0)
    ensures c == ActivatedClient(pool, elements) && WellFormed(c)
  {
    hide ParentMapOf, SectionIndex, UsesPerElementControl;
    assert c.setpoint == Zeros(c.n) && c.actual == Zeros(c.n);
  }

  // ---------------------------------------------------------------------------------------------
  // The server
  // ---------------------------------------------------------------------------------------------

  class MyTcServer {
    const library: Library
    var clients: map<nat, ClientState>
    var uploadedPools: map<nat, seq<seq<Byte>>>

    /** Clients are kept by value in the program: no two names share a state. */
    ghost predicate Valid()
      reads this, clients.Values
    {
      && (forall a, b :: a in clients && b in clients && a != b ==> clients[a] != clients[b])
      && (forall a :: a in clients ==> WellFormed(clients[a].View()))
    }

    function Model(): Server
      reads this, clients.Values
    {
      Server(map cf | cf in clients :: clients[cf].View(), uploadedPools)
    }

    constructor (library: Library)
      ensures Valid() && Model() == NoClients && this.library == library
    {
      this.library := library;
      clients, uploadedPools := map[], map[];
    }

    method StoreDeviceDescriptorObjectPool(cf: nat, binaryPool: seq<Byte>)
      requires Valid()
      modifies this`uploadedPools
      ensures Valid() && Model() == StorePool(old(Model()), cf, binaryPool)
    {
      hide WellFormed, ClientState.View;
      if cf !in uploadedPools {
        uploadedPools := uploadedPools[cf := []];
      }
      uploadedPools := uploadedPools[cf := uploadedPools[cf] + [binaryPool]];
    }

    /** Feeds the uploaded chunks to the library and leaves none behind. */
    method DeserializeUpload(cf: nat) returns (pool: ReceivedPool, deserialized: bool)
      requires cf in uploadedPools
      modifies this`uploadedPools
      ensures uploadedPools == old(uploadedPools)[cf := []]
      ensures (pool, deserialized) == Deserialized(library, [], false, old(uploadedPools[cf]))
    {
      pool, deserialized := [], false;
      while uploadedPools[cf] != []
        invariant cf in uploadedPools && uploadedPools == old(uploadedPools)[cf := uploadedPools[cf]]
        invariant Deserialized(library, pool, deserialized, uploadedPools[cf])
               == Deserialized(library, [], false, old(uploadedPools[cf]))
        decreases |uploadedPools[cf]|
      {
        var binaryPool := uploadedPools[cf][0];
        uploadedPools := uploadedPools[cf := uploadedPools[cf][1..]];
        var result := library.deserialize(pool, binaryPool);
        pool, deserialized := result.0, result.1;
      }
    }

    /** The checks that can turn an activation down. The uploaded chunks are used up by them. */
    method ReadUpload(cf: nat) returns (result: Activation, pool: ReceivedPool)
      modifies this`uploadedPools
      ensures uploadedPools == if cf in old(uploadedPools) then old(uploadedPools)[cf := []] else old(uploadedPools)
      ensures result == ActivationResult(old(Model()), cf, library)
      ensures result.accepted ==>
                cf in old(uploadedPools) && pool == Deserialized(library, [], false, old(uploadedPools[cf])).0
    {
      hide ClientState.View, HasDevice, Deserialized;
      pool := [];
      if cf !in uploadedPools {
        result := Activation(false, OtherError, NoPoolErrors);
        return;
      }
      var deserialized;
      pool, deserialized := DeserializeUpload(cf);
      if !deserialized {
        result := Activation(false, ErrorsInPool, OtherPoolError);
        return;
      }
      var hasDevice := FindDevice(pool);
      result := if hasDevice then Activation(true, NoErrors, NoPoolErrors)
                else Activation(false, ErrorsInPool, UnknownReference);
    }

    method ActivateObjectPool(cf: nat) returns (result: Activation)
      requires Valid()
      modifies this
      ensures Valid() && Model() == Activate(old(Model()), cf, library)
      ensures result == ActivationResult(old(Model()), cf, library)
    {
      hide WellFormed, ClientState.View, ActivatedClient, ActivationResult, FlatSections, Deserialized;
      var pool;
      result, pool := ReadUpload(cf);
      if result.accepted {
        var numberOfSections, elements := FlattenGeometry(library.geometry(pool));
        var state := NewClient(pool, numberOfSections, elements);
        clients := clients[cf := state];
      }
    }

    method DeactivateObjectPool(cf: nat)
      requires Valid()
      modifies this
      ensures Valid() && Model() == Deactivate(old(Model()), cf)
    {
      hide WellFormed, ClientState.View;
      clients := clients - {cf};
      uploadedPools := uploadedPools - {cf};
    }

    method DeleteDeviceDescriptorObjectPool(cf: nat)
      requires Valid()
      modifies this
      ensures Valid() && Model() == Deactivate(old(Model()), cf)
    {
      hide WellFormed, ClientState.View;
      clients := clients - {cf};
      uploadedPools := uploadedPools - {cf};
    }

    method OnClientTimeout(cf: nat)
      requires Valid()
      modifies this`clients
      ensures Valid() && Model() == ClientTimeout(old(Model()), cf)
    {
      hide WellFormed, ClientState.View;
      clients := clients - {cf};
    }

    /** `clients[partner]`: a client the server does not know yet is inserted without sections. */
    method Lookup(cf: nat) returns (state: ClientState)
      requires Valid()
      modifies this`clients
      ensures Valid() && cf in clients && state == clients[cf]
      ensures if cf in old(clients) then clients == old(clients)
              else fresh(state) && clients == old(clients)[cf := state] && state.View() == EmptyClient
    {
      if cf !in clients {
        state := new ClientState();
        clients := clients[cf := state];
      } else {
        state := clients[cf];
      }
    }

    method StoreReport(state: ClientState, ddi: nat, elementNumber: nat, value: int)
      requires WellFormed(state.View())
      modifies state
      ensures state.View() == Report(old(state.View()), ddi, elementNumber, value) && WellFormed(state.View())
    {
      hide ReportFields, ReportWork, AllFields;
      if ACTUAL_CONDENSED_FIRST <= ddi <= ACTUAL_CONDENSED_LAST {
        StoreCondensedReport(state, ddi - ACTUAL_CONDENSED_FIRST, elementNumber, value);
      } else if ddi == SECTION_CONTROL_STATE {
        state.isSectionControlEnabled := value == 1;
      } else if ddi == ACTUAL_WORK_STATE {
        StoreWorkReport(state, elementNumber, value == 1);
      }
    }

    method OnValueCommand(cf: nat, ddi: nat, elementNumber: nat, value: int)
      requires Valid()
      modifies this`clients, clients.Values
      ensures Valid() && Model() == ValueCommand(old(Model()), cf, ddi, elementNumber, value)
    {
      hide WellFormed, ClientState.View, Report, EmptyClient;
      if CreatesClient(ddi) {
        var state := Lookup(cf);
        StoreReport(state, ddi, elementNumber, value);
      }
    }

    /** Serves one request of the main thread to one client. */
    method ServeClient(state: ClientState, request: Request)
      requires WellFormed(state.View())
      modifies state
      ensures state.View() == Serve(old(state.View()), request) && WellFormed(state.View())
    {
      hide WellFormed, ClientState.View, UpdateSections, UpdateControl, SendGnss, Subscribe;
      SectionRuns.ServeFrame(state.View(), request);
      match request
      case Demand(states) => UpdateSectionStatesOf(state, states);
      case Control(enabled) => SetSectionControl(state, enabled);
      case Gnss(quality) => SendQuality(state, quality);
      case Measure => RequestMeasurementCommandsOf(state);
    }

    method SetSectionControl(state: ClientState, enabled: bool)
      modifies state`isSectionControlEnabled, state`sent
      ensures state.View() == UpdateControl(old(state.View()), enabled)
    {
      if state.isSectionControlEnabled != enabled {
        state.isSectionControlEnabled := enabled;
      }
      if SECTION_CONTROL_STATE in state.ddiToElementNumber && state.numberOfSections > 0 {
        state.SendSetValue(SECTION_CONTROL_STATE, state.ddiToElementNumber[SECTION_CONTROL_STATE],
                           if enabled then 1 else 0);
      }
    }

    method SendQuality(state: ClientState, quality: nat)
      modifies state`sent
      ensures state.View() == SendGnss(old(state.View()), quality)
    {
      if GNSS_QUALITY in state.ddiToElementNumber {
        state.SendSetValue(GNSS_QUALITY, state.ddiToElementNumber[GNSS_QUALITY], quality);
      }
    }

    /** The loop over the clients that every request of the main thread makes. */
    method ServeClients(request: Request)
      requires Valid()
      modifies clients.Values
      ensures Valid() && Model() == ServeAll(old(Model()), request)
    {
      hide Serve, WellFormed, ClientState.View;
      VisitClients(request);
    }

    method VisitClients(request: Request)
      requires Valid()
      modifies clients.Values
      ensures Valid() && forall cf :: cf in clients ==> clients[cf].View() == Serve(old(clients[cf].View()), request)
    {
      hide Serve, WellFormed, ClientState.View;
      var remaining := clients.Keys;
      while remaining != {}
        invariant Valid() && remaining <= clients.Keys
        invariant forall cf :: cf in clients ==>
          clients[cf].View() == if cf in remaining then old(clients[cf].View())
                                else Serve(old(clients[cf].View()), request)
      {
        var cf :| cf in remaining;
        ServeClient(clients[cf], request);
        remaining := remaining - {cf};
      }
    }

    method UpdateSectionStates(sectionStates: seq<bool>)
      requires Valid()
      modifies clients.Values
      ensures Valid() && Model() == ServeAll(old(Model()), Demand(sectionStates))
    {
      ServeClients(Demand(sectionStates));
    }

    method UpdateSectionControlEnabled(enabled: bool)
      requires Valid()
      modifies clients.Values
      ensures Valid() && Model() == ServeAll(old(Model()), Control(enabled))
    {
      ServeClients(Control(enabled));
    }

    method SendGnssQuality(quality: nat)
      requires Valid()
      modifies clients.Values
      ensures Valid() && Model() == ServeAll(old(Model()), Gnss(quality))
    {
      ServeClients(Gnss(quality));
    }

    method RequestMeasurementCommands()
      requires Valid()
      modifies clients.Values
      ensures Valid() && Model() == ServeAll(old(Model()), Measure)
    {
      ServeClients(Measure);
    }
  }
}
