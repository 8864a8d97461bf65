/**
 The task controller server as a value: its clients, the pools they uploaded, and every entry point
 as one atomic step (each of them holds `clientsMutex` from start to end).
 */
module ServerModel {
  import opened DeviceDescriptor
  import opened ElementHierarchy
  import opened SectionControl

  type Byte = b: nat | b < 256
  type ReceivedPool = pool: Pool | |pool| <= 0xFFFF  // object ids are 16 bits wide

  datatype SubBoom = SubBoom(sections: seq<nat>)
  datatype Boom = Boom(subBooms: seq<SubBoom>, sections: seq<nat>)

  /** The two calls into the ISOBUS library that the server builds on. */
  datatype Library = Library(
    deserialize: (Pool, seq<Byte>) -> (ReceivedPool, bool),
    geometry: Pool -> seq<Boom>)

  /** Clients and uploads are kept per control function, identified by its NAME. */
  datatype Server = Server(clients: map<nat, Client>, uploads: map<nat, seq<seq<Byte>>>)

  datatype ActivationError = NoErrors | ErrorsInPool | OtherError
  datatype PoolError = NoPoolErrors | UnknownReference | OtherPoolError
  datatype Activation = Activation(accepted: bool, error: ActivationError, poolError: PoolError)

  // ---------------------------------------------------------------------------------------------
  // Activating a pool
  // ---------------------------------------------------------------------------------------------

  /** Feeds the chunks to the library in order. The result of the last chunk decides. */
  function Deserialized(lib: Library, pool: ReceivedPool, ok: bool, chunks: seq<seq<Byte>>): (ReceivedPool, bool)
    decreases |chunks|
  {
    if chunks == [] then (pool, ok)
    else
      var (next, result) := lib.deserialize(pool, chunks[0]);
      Deserialized(lib, next, result, chunks[1..])
  }

  predicate HasDevice(pool: Pool) {
    exists i :: 0 <= i < |pool| && pool[i].Device?
  }

  /** Section elements of the sub-booms in order. */
  function SubBoomSections(subBooms: seq<SubBoom>): seq<nat> {
    if subBooms == [] then [] else SubBoomSections(subBooms[..|subBooms| - 1]) + subBooms[|subBooms| - 1].sections
  }

  /** Section elements of the implement, each boom's sub-booms before its own sections. */
  function FlatSections(booms: seq<Boom>): seq<nat> {
    if booms == [] then []
    else
      var last := booms[|booms| - 1];
      FlatSections(booms[..|booms| - 1]) + SubBoomSections(last.subBooms) + last.sections
  }

  lemma {:induction false} SubBoomSectionsConcat(a: seq<SubBoom>, b: seq<SubBoom>)
    ensures SubBoomSections(a + b) == SubBoomSections(a) + SubBoomSections(b)
  {
    if b == [] {
      assert a + b == a;
    } else {
      assert (a + b)[..|a + b| - 1] == a + b[..|b| - 1];
      SubBoomSectionsConcat(a, b[..|b| - 1]);
    }
  }

  lemma {:induction false} FlatSectionsConcat(a: seq<Boom>, b: seq<Boom>)
    ensures FlatSections(a + b) == FlatSections(a) + FlatSections(b)
  {
    hide SubBoomSections;
    if b == [] {
      assert a + b == a;
    } else {
      var last := b[|b| - 1];
      assert (a + b)[..|a + b| - 1] == a + b[..|b| - 1];
      FlatSectionsConcat(a, b[..|b| - 1]);
      var before, own := FlatSections(b[..|b| - 1]), SubBoomSections(last.subBooms) + last.sections;
      assert FlatSections(a) + before + SubBoomSections(last.subBooms) + last.sections ==
             FlatSections(a) + (before + own);
      assert before + SubBoomSections(last.subBooms) + last.sections == before + own;
    }
  }

  /**
   The order of the sections: a geometry split anywhere between booms, or a boom between sub-booms, gives the
   sections of the first part and then those of the second; a boom's own sections follow its sub-booms.
   */
  lemma SectionsAreInOrder(booms: seq<Boom>, moreBooms: seq<Boom>, subs: seq<SubBoom>, moreSubs: seq<SubBoom>,
                           own: seq<nat>)
    ensures FlatSections(booms + moreBooms) == FlatSections(booms) + FlatSections(moreBooms)
    ensures FlatSections([Boom(subs + moreSubs, own)]) ==
            FlatSections([Boom(subs, [])]) + FlatSections([Boom(moreSubs, own)])
    ensures FlatSections([Boom([SubBoom(own)], [])]) == FlatSections([Boom([], own)]) == own
  {
    hide FlatSections, SubBoomSections;
    FlatSectionsConcat(booms, moreBooms);
    SubBoomSectionsConcat(subs, moreSubs);
    OneBoom(subs + moreSubs, own);
    OneBoom(subs, []);
    OneBoom(moreSubs, own);
    OneBoom([SubBoom(own)], []);
    OneBoom([], own);
    OneSubBoom(own);
  }

  lemma OneSubBoom(own: seq<nat>)
    ensures SubBoomSections([]) == [] && SubBoomSections([SubBoom(own)]) == own
  {
    assert [SubBoom(own)][..0] == [];
    assert [] + own == own;
  }

  lemma OneBoom(subs: seq<SubBoom>, own: seq<nat>)
    ensures FlatSections([Boom(subs, own)]) == SubBoomSections(subs) + own
  {
    assert [Boom(subs, own)][..0] == [];
    assert FlatSections([]) == [];
  }

  /** Element number to section index for the first `k` sections; a repeated element keeps its last section. */
  function SectionIndex(elements: seq<nat>, k: nat): map<nat, nat>
    requires k <= |elements|
  {
    if k == 0 then map[] else SectionIndex(elements, k - 1)[elements[k - 1] := k - 1]
  }

  predicate HasCondensedSetpoint(pool: Pool, n: nat)
    requires n <= |pool|
  {
    exists i :: 0 <= i < n && pool[i].ProcessData? && SETPOINT_CONDENSED_FIRST <= pool[i].ddi <= SETPOINT_CONDENSED_LAST
  }

  predicate HasSettableCondensedActual(pool: Pool, n: nat)
    requires n <= |pool|
  {
    exists i :: 0 <= i < n && pool[i].ProcessData? && pool[i].settable
                && ACTUAL_CONDENSED_FIRST <= pool[i].ddi <= ACTUAL_CONDENSED_LAST
  }

  predicate HasSettableActualWorkState(pool: Pool, n: nat)
    requires n <= |pool|
  {
    exists i :: 0 <= i < n && pool[i].ProcessData? && pool[i].settable && pool[i].ddi == ACTUAL_WORK_STATE
  }

  predicate UsesPerElementControl(pool: Pool) {
    && !HasCondensedSetpoint(pool, |pool|)
    && !HasSettableCondensedActual(pool, |pool|)
    && HasSettableActualWorkState(pool, |pool|)
  }

  function Zeros(n: nat): (z: seq<nat>)
    ensures |z| == n && forall i :: 0 <= i < n ==> z[i] == 0
  {
    seq<nat>(n, _ => 0)
  }

  /** The 8-bit section counter wraps. */
  function SectionCount(elements: seq<nat>): (n: nat)
    ensures n < 256 && n <= |elements|
  {
    |elements| % 256
  }

  /** A freshly activated client for the given pool and section elements. */
  function ActivatedClient(pool: Pool, elements: seq<nat>): Client {
    var n := SectionCount(elements);
    var perElement := UsesPerElementControl(pool);
    EmptyClient.(
      pool := pool,
      parents := ParentMapOf(pool, |pool|),
      n := n,
      setpoint := Zeros(n),
      actual := Zeros(n),
      sectionElement := elements[..n],
      elementSection := SectionIndex(elements, n),
      perElement := perElement,
      perElementDdi := if perElement then ACTUAL_WORK_STATE else 0)
  }

  function ActivationResult(s: Server, cf: nat, lib: Library): Activation {
    if cf !in s.uploads then Activation(false, OtherError, NoPoolErrors)
    else
      var (pool, ok) := Deserialized(lib, [], false, s.uploads[cf]);
      if !ok then Activation(false, ErrorsInPool, OtherPoolError)
      else if !HasDevice(pool) then Activation(false, ErrorsInPool, UnknownReference)
      else Activation(true, NoErrors, NoPoolErrors)
  }

  /** The uploaded chunks are used up whether or not the activation succeeds. */
  function Activate(s: Server, cf: nat, lib: Library): Server {
    if cf !in s.uploads then s
    else
      var drained := s.(uploads := s.uploads[cf := []]);
      var (pool, ok) := Deserialized(lib, [], false, s.uploads[cf]);
      if ActivationResult(s, cf, lib).accepted
      then drained.(clients := s.clients[cf := ActivatedClient(pool, FlatSections(lib.geometry(pool)))])
      else drained
  }

  // ---------------------------------------------------------------------------------------------
  // The other entry points
  // ---------------------------------------------------------------------------------------------

  function StorePool(s: Server, cf: nat, chunk: seq<Byte>): Server {
    s.(uploads := s.uploads[cf := (if cf in s.uploads then s.uploads[cf] else []) + [chunk]])
  }

  function Deactivate(s: Server, cf: nat): Server {
    Server(s.clients - {cf}, s.uploads - {cf})
  }

  function ClientTimeout(s: Server, cf: nat): Server {
    s.(clients := s.clients - {cf})
  }

  function ValueCommand(s: Server, cf: nat, ddi: nat, element: nat, value: int): Server {
    if !CreatesClient(ddi) then s
    else s.(clients := s.clients[cf :=
        Report(if cf in s.clients then s.clients[cf] else EmptyClient, ddi, element, value)])
  }

  /** What the main thread asks of every client. */
  datatype Request =
    | Demand(states: seq<bool>)
    | Control(enabled: bool)
    | Gnss(quality: nat)
    | Measure

  function Serve(c: Client, r: Request): Client {
    match r
    case Demand(states) => UpdateSections(c, states)
    case Control(enabled) => UpdateControl(c, enabled)
    case Gnss(quality) => SendGnss(c, quality)
    case Measure => Subscribe(c)
  }

  function ServeAll(s: Server, r: Request): Server {
    s.(clients := map cf | cf in s.clients :: Serve(s.clients[cf], r))
  }

  // ---------------------------------------------------------------------------------------------
  // Runs
  // ---------------------------------------------------------------------------------------------

  datatype Event =
    | Store(cf: nat, chunk: seq<Byte>)
    | ActivatePool(cf: nat)
    | DeactivatePool(cf: nat)
    | DeletePool(cf: nat)
    | TimeOut(cf: nat)
    | Value(cf: nat, ddi: nat, element: nat, value: int)
    | Requested(request: Request)

  function Step(s: Server, e: Event, lib: Library): Server {
    match e
    case Store(cf, chunk) => StorePool(s, cf, chunk)
    case ActivatePool(cf) => Activate(s, cf, lib)
    case DeactivatePool(cf) => Deactivate(s, cf)
    case DeletePool(cf) => Deactivate(s, cf)
    case TimeOut(cf) => ClientTimeout(s, cf)
    case Value(cf, ddi, element, value) => ValueCommand(s, cf, ddi, element, value)
    case Requested(request) => ServeAll(s, request)
  }

  /** The server after a run of events, in whatever order the two threads took the mutex. */
  function Run(s: Server, events: seq<Event>, lib: Library): Server {
    if events == [] then s else Step(Run(s, events[..|events| - 1], lib), events[|events| - 1], lib)
  }

  const NoClients := Server(map[], map[])
}
