/**
 The parts of `Application` (src/app.cpp) that serve section control: the packet handler, the heartbeat
 and the check for implements that work without demand. Time is an input.
 */
module Application {
  import opened DeviceDescriptor
  import opened SectionControl
  import opened ServerModel
  import opened TaskController
  import opened TaskControllerServer
  import opened Heartbeat
  import opened ClosedLoop
  import opened DemandMonitor

  const SECTION_DEMAND_TIMEOUT_MS := 2000

  /** What is kept about one client between checks. */
  function Tracked(tracked: map<nat, Episode>, name: nat): Option<Episode> {
    if name in tracked then Some(tracked[name]) else None
  }

  /** Everything said about one client so far. */
  function Said(said: map<nat, seq<Notice>>, name: nat): seq<Notice> {
    if name in said then said[name] else []
  }

  lemma OnBitsAre(c: Client)
    requires WellFormed(c)
    ensures |OnBits(c)| == c.n
    ensures true in OnBits(c) <==> exists i :: 0 <= i < c.n && ActualState(c, i) == 1
  {
    hide ActualState;
    var bits := OnBits(c);
    if true in bits {
      var i :| 0 <= i < |bits| && bits[i];
      assert ActualState(c, i) == 1;
    }
    if i :| 0 <= i < c.n && ActualState(c, i) == 1 {
      assert bits[i];
    }
  }

  class App {
    const tcServer: MyTcServer
    var sectionDemand: seq<bool>
    var lastSectionDemandMs: nat
    var sectionDemandArriving: bool
    var arrivalLog: seq<bool>                // logged changes of "demand is arriving"
    var workingWithoutDemand: map<nat, Episode>
    var said: map<nat, seq<Notice>>          // logged notices, per client

    constructor (tcServer: MyTcServer)
      ensures this.tcServer == tcServer && sectionDemand == [] && lastSectionDemandMs == 0
      ensures !sectionDemandArriving && arrivalLog == [] && workingWithoutDemand == map[] && said == map[]
    {
      this.tcServer := tcServer;
      sectionDemand, lastSectionDemandMs, sectionDemandArriving, arrivalLog := [], 0, false, [];
      workingWithoutDemand, said := map[], map[];
    }

    /** The packet handler: section demands and control packets of AgOpenGPS reach every client, nothing else does. */
    method HandlePacket(src: Byte, pgn: Byte, data: seq<Byte>, nowMs: nat)
      requires tcServer.Valid()
      modifies this`sectionDemand, this`lastSectionDemandMs, tcServer.clients.Values
      ensures tcServer.Valid()
      ensures var request := PacketRequest(src, pgn, data);
              && tcServer.Model() == (if request.Some? then ServeAll(old(tcServer.Model()), request.value)
                  else old(tcServer.Model()))
              && (if request.Some? && request.value.Demand?
                  then sectionDemand == request.value.states && lastSectionDemandMs == nowMs
                  else sectionDemand == old(sectionDemand) && lastSectionDemandMs == old(lastSectionDemandMs))
    {
      hide ServeAll, WellFormed, DemandBits, MyTcServer.Valid, MyTcServer.Model;
      if src != AOG_SOURCE {
        return;
      }
      if pgn == PGN_SECTIONS && |data| >= DEMAND_BYTES {
        var sectionStates := UnpackDemand(data);
        lastSectionDemandMs := nowMs;
        if sectionStates != sectionDemand {
          sectionDemand := sectionStates;
        }
        tcServer.UpdateSectionStates(sectionStates);
      } else if pgn == PGN_CONTROL && data != [] {
        tcServer.UpdateSectionControlEnabled(data[0] == 1);
      }
    }

    /** One heartbeat per client with sections; if there is none, perhaps an empty one as a sign of life. */
    method Heartbeats(heartbeatEnabled: bool) returns (payloads: map<nat, seq<nat>>, beacon: bool)
      requires tcServer.Valid()
      ensures forall cf :: cf in payloads <==> cf in tcServer.clients && tcServer.clients[cf].numberOfSections > 0
      ensures forall cf :: cf in payloads ==> IsHeartbeat(tcServer.clients[cf].View(), payloads[cf])
      ensures beacon <==> heartbeatEnabled && payloads == map[]
    {
      hide IsHeartbeat, WellFormed, ClientState.View;
      payloads := map[];
      var remaining := tcServer.clients.Keys;
      while remaining != {}
        invariant remaining <= tcServer.clients.Keys
        invariant forall cf :: cf in payloads <==>
            cf in tcServer.clients && cf !in remaining && tcServer.clients[cf].numberOfSections > 0
        invariant forall cf :: cf in payloads ==> IsHeartbeat(tcServer.clients[cf].View(), payloads[cf])
      {
        var cf :| cf in remaining;
        remaining := remaining - {cf};
        if tcServer.clients[cf].numberOfSections > 0 {
          var data := HeartbeatPayload(tcServer.clients[cf]);
          payloads := payloads[cf := data];
        }
      }
      beacon := heartbeatEnabled && payloads == map[];
    }

    /** Which sections a client shows as on, and whether AgOpenGPS demands any of them. */
    method Observe(state: ClientState, arriving: bool) returns (actual: seq<bool>, demanded: bool)
      requires WellFormed(state.View())
      ensures actual == OnBits(state.View())
      ensures demanded <==> arriving && exists i :: 0 <= i < |actual| && i < |sectionDemand| && sectionDemand[i]
    {
      actual, demanded := [], false;
      for i := 0 to state.numberOfSections
        invariant actual == OnBits(state.View())[..i]
        invariant demanded <==> arriving && exists k :: 0 <= k < i && k < |sectionDemand| && sectionDemand[k]
      {
        var shown := state.GetSectionActualState(i);
        actual := actual + [shown == ON];
        demanded := demanded || (arriving && i < |sectionDemand| && sectionDemand[i]);
      }
    }

    /** In automatic mode, some section is shown as on, and none of its sections is demanded. */
    ghost predicate WorksUnasked(state: ClientState, arriving: bool)
      reads this`sectionDemand, state
      requires WellFormed(state.View())
    {
      && state.isSectionControlEnabled
      && (exists i :: 0 <= i < state.numberOfSections && ActualState(state.View(), i) == 1)
      && !(arriving && exists i :: 0 <= i < state.numberOfSections && i < |sectionDemand| && sectionDemand[i])
    }

    /** The check of one client. */
    method CheckOne(name: nat, state: ClientState, arriving: bool, nowMs: nat)
      requires WellFormed(state.View())
      modifies this`workingWithoutDemand, this`said
      ensures var sample := Sample(WorksUnasked(state, arriving), nowMs);
              var (after, more) := CheckClient(Tracked(old(workingWithoutDemand), name), sample);
              && Tracked(workingWithoutDemand, name) == after
              && Said(said, name) == Said(old(said), name) + more
      ensures forall other :: other != name ==>
                Tracked(workingWithoutDemand, other) == Tracked(old(workingWithoutDemand), other)
                    && Said(said, other) == Said(old(said), other)
    {
      hide OnBits, WellFormed, CheckClient, Tracked, Said, ActualState;
      OnBitsAre(state.View());
      var actual, demanded := Observe(state, arriving);
      var working := true in actual;
      var unasked := state.isSectionControlEnabled && working && !demanded;
      assert unasked == WorksUnasked(state, arriving);
      Track(name, unasked, nowMs);
      assert unasked == WorksUnasked(state, arriving);
    }

    /** Keeps the client's episode and says what there is to say. */
    method Track(name: nat, unasked: bool, nowMs: nat)
      modifies this`workingWithoutDemand, this`said
      ensures var (after, more) := CheckClient(Tracked(old(workingWithoutDemand), name), Sample(unasked, nowMs));
              && Tracked(workingWithoutDemand, name) == after
              && Said(said, name) == Said(old(said), name) + more
      ensures forall other :: other != name ==>
                Tracked(workingWithoutDemand, other) == Tracked(old(workingWithoutDemand), other)
                    && Said(said, other) == Said(old(said), other)
    {
      if !unasked {
        if name in workingWithoutDemand {
          if workingWithoutDemand[name].warned {
            said := said[name := Said(said, name) + [FollowsAgain]];
          }
          workingWithoutDemand := workingWithoutDemand - {name};
        }
        return;
      }
      if name !in workingWithoutDemand {
        workingWithoutDemand := workingWithoutDemand[name := Episode(nowMs, false)];
      }
      var tracked := workingWithoutDemand[name];
      if !tracked.warned && Elapsed(nowMs, tracked.sinceMs) >= WORKING_WITHOUT_DEMAND_WARNING_MS {
        workingWithoutDemand := workingWithoutDemand[name := tracked.(warned := true)];
        said := said[name := Said(said, name) + [Warning]];
      }
    }

    /**
     Demand is arriving if the last one, received at `received` (not at a time whose low 32 bits are 0), is
     less than two seconds old.
     */
    lemma ArrivingIff(received: nat, now: nat)
      requires received <= now < received + 0x1_0000_0000
      requires lastSectionDemandMs == received % 0x1_0000_0000
      ensures Arriving(now % 0x1_0000_0000) <==> received % 0x1_0000_0000 != 0 && now - received < 2000
    {
      ElapsedIsDifference(now, received);
    }

    /** Demand is arriving if there was one and it is less than two seconds old. */
    function Arriving(readMs: nat): bool
      reads this
    {
      lastSectionDemandMs != 0 && Elapsed(readMs, lastSectionDemandMs) < SECTION_DEMAND_TIMEOUT_MS
    }

    /** One round over all clients. Clients that are absent keep their episode. */
    method CheckSectionDemand(readMs: nat, nowMs: nat)
      requires tcServer.Valid()
      modifies this`sectionDemandArriving, this`arrivalLog, this`workingWithoutDemand, this`said
      ensures sectionDemandArriving == Arriving(readMs)
      ensures arrivalLog == if Arriving(readMs) == old(sectionDemandArriving) then old(arrivalLog)
          else old(arrivalLog) + [Arriving(readMs)]
      ensures forall name :: name in tcServer.clients ==> CheckedOnce(tcServer.clients[name], Arriving(readMs), nowMs,
                Tracked(old(workingWithoutDemand), name), Said(old(said), name),
                Tracked(workingWithoutDemand, name), Said(said, name))
      ensures forall name :: name !in tcServer.clients ==>
                Tracked(workingWithoutDemand, name) == Tracked(old(workingWithoutDemand), name)
                    && Said(said, name) == Said(old(said), name)
    {
      hide WellFormed, ClientState.View, OnBits, CheckClient, Tracked, Said, App.WorksUnasked;
      var arriving := Arriving(readMs);
      if arriving != sectionDemandArriving {
        sectionDemandArriving := arriving;
        arrivalLog := arrivalLog + [arriving];
      }
      var remaining := tcServer.clients.Keys;
      while remaining != {}
        invariant remaining <= tcServer.clients.Keys && sectionDemandArriving == arriving
        invariant arrivalLog == if arriving == old(sectionDemandArriving) then old(arrivalLog)
            else old(arrivalLog) + [arriving]
        invariant forall name :: name in tcServer.clients && name !in remaining ==>
          CheckedOnce(tcServer.clients[name], arriving, nowMs,
                      Tracked(old(workingWithoutDemand), name), Said(old(said), name),
                      Tracked(workingWithoutDemand, name), Said(said, name))
        invariant forall name :: name in remaining || name !in tcServer.clients ==>
          Tracked(workingWithoutDemand, name) == Tracked(old(workingWithoutDemand), name)
              && Said(said, name) == Said(old(said), name)
      {
        var name :| name in remaining;
        CheckOne(name, tcServer.clients[name], arriving, nowMs);
        remaining := remaining - {name};
      }
    }

    /** One check of a client took `tracked` to `after` and added to what was said. */
    ghost predicate CheckedOnce(state: ClientState, arriving: bool, nowMs: nat,
                                tracked: Option<Episode>, saidBefore: seq<Notice>,
                                after: Option<Episode>, saidAfter: seq<Notice>)
      reads this`sectionDemand, state
      requires WellFormed(state.View())
    {
      var sample := Sample(WorksUnasked(state, arriving), nowMs);
      (after, saidAfter) == (CheckClient(tracked, sample).0, saidBefore + CheckClient(tracked, sample).1)
    }
  }
}
