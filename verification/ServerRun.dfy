/**
 * The running server refines the step machine: every method call is a step, so
 * whatever runs keep, the objects keep.
 */
module ServerRuns {
  import opened Common
  import opened TunerModel
  import opened TunerDevices
  import opened AllocatorModel
  import opened AllocatorSafety
  import opened SessionServers

  // ---------------------------------------------------------------- 16-bit identifiers

  /** Identifiers in tables and requests are 16 bits wide. */
  predicate NarrowEvent(e: Event) {
    match e
    case Pat(_, serviceId, _) => Fits16(serviceId)
    case Sdt(_, serviceId, onid) => Fits16(serviceId) && Fits16(onid)
    case Add(onid, channelId, _, _, _) => Fits16(onid) && Fits16(channelId)
    case _ => true
  }

  ghost predicate Narrow(s: Sys) {
    forall k :: 0 <= k < |s.tuners| ==> IdsFit(s.tuners[k].freqs)
  }

  ghost predicate SameFreqs(s: Sys, s': Sys) {
    |s'.tuners| == |s.tuners| && forall k :: 0 <= k < |s.tuners| ==> s'.tuners[k].freqs == s.tuners[k].freqs
  }

  lemma AddKeepsFreqs(s: Sys, onid: nat, channelId: nat, dest: Dest, newId: nat, tuned: bool)
    ensures SameFreqs(s, AddNew(s, onid, channelId, dest, newId, tuned).0)
  {
    hide Servable, WithoutLive, PickTuner, Tune, AddPids, AddPid;
    var pick := PickTuner(s.tuners, onid, channelId, 0);
    if pick.Fresh? {
      var t := s.tuners[pick.tuner];
      TuneFrame(t.(state := Busy, refcnt := t.refcnt + 1), pick.chan.entry, tuned);
    }
  }

  lemma {:induction false} ReapKeepsFreqs(s: Sys, i: nat)
    requires i <= |s.sessions|
    ensures SameFreqs(s, Reap(s, i))
    decreases |s.sessions| - i
  {
    hide RemovePids;
    if i < |s.sessions| {
      if s.sessions[i].dests == [] && s.sessions[i].tuner < |s.tuners| {
        ReapKeepsFreqs(RemoveSession(s, i), i);
      } else {
        ReapKeepsFreqs(s, i + 1);
      }
    }
  }

  lemma TunerStepNarrow(t: Tuner, e: Event)
    requires IdsFit(t.freqs) && NarrowEvent(e) && TunerEvent(e) && TunerAfter(t, e).Some?
    ensures IdsFit(TunerAfter(t, e).value.freqs)
  {
    hide AddPids, Tune;
    if e.Scan? && t.scanId < |t.freqs| {
      TuneFrame(t, t.scanId, e.tuned);
    } else if e.StartTuner? && t.kind != OtherKind {
      TuneFrame(t.(state := if e.threadRuns then Idle else Failed), 0, e.tuned);
    }
  }

  lemma StepKeepsNarrow(s: Sys, e: Event)
    requires Narrow(s) && NarrowEvent(e) && Enabled(s, e)
    ensures Narrow(Apply(s, e))
  {
    hide AddNew, Reap, IdsFit, TunerAfter, RemovePids;
    if e.Add? {
      AddKeepsFreqs(s, e.onid, e.channelId, e.dest, e.newId, e.tuned);
    } else if e.ReapEmpty? {
      ReapKeepsFreqs(s, 0);
    } else if TunerEvent(e) {
      TunerStepNarrow(s.tuners[e.tuner], e);
    }
  }

  // ---------------------------------------------------------------- packets

  /** No packet is filtered for nobody: apart from the base PIDs, a PID a tuner
      passes is wanted by a live session on that tuner. */
  lemma FilteredIsWanted(s: Sys, k: nat, p: nat)
    requires Reachable(s) && k < |s.tuners| && p in PidSet(s.tuners[k].pids) && p !in BASE_PIDS
    ensures exists i :: 0 <= i < |s.sessions| && s.sessions[i].tuner == k
                        && Points(s.tuners, s.sessions[i]) && Wants(s, i, p)
  {
    hide Reachable, PidSet, TunerOk, RefCounted, ServedOnce;
    ReachableInv(s);
    assert NoLeftovers(s, k);
    var i :| 0 <= i < |s.sessions| && s.sessions[i].tuner == k && p in SessionPids(s.tuners[k], s.sessions[i]);
    assert OnFrequency(s.tuners, s.sessions[i]);
    assert Points(s.tuners, s.sessions[i]) && Wants(s, i, p);
  }

  /** The tables every session gets, its program map and its streams; with 16-bit
      PIDs nothing else. */
  lemma WantsExact(s: Sys, i: nat, pid: nat)
    requires i < |s.sessions| && Points(s.tuners, s.sessions[i]) && Fits16(pid)
    requires var x := s.sessions[i];
             Fits16(s.tuners[x.tuner].freqs[x.chan.entry].channels[x.chan.pos].pmtPid)
    ensures var x := s.sessions[i];
            Wants(s, i, pid) <==>
            pid == 0 || pid == 16 || pid == 17 || pid == 18 || pid in x.pids
            || pid == s.tuners[x.tuner].freqs[x.chan.entry].channels[x.chan.pos].pmtPid
  {
  }

  // ---------------------------------------------------------------- one step

  /** A turn of a tuner's own thread. */
  method TunerTurn(d: TunerDevice, e: Event)
    requires d.Valid() && TunerEvent(e) && TunerAfter(d.Value(), e).Some?
    modifies d, d.pids
    ensures TunerAfter(old(d.Value()), e) == Some(d.Value())
  {
    match e {
      case Load(_, frequency, polarity) => d.AddInitialData(frequency, polarity);
      case StartTuner(_, threadRuns, tuned) => d.Start(threadRuns, tuned);
      case Scan(_, tuned) => d.ScanTick(tuned);
      case Sync(_) => d.ReadSync();
      case Pat(_, serviceId, pmtPid) => d.AddPAT(serviceId, pmtPid);
      case Sdt(_, serviceId, onid) => d.AddSDT(serviceId, onid);
      case Nit(_, frequency, polarity) => d.AddSatelliteFrequency(frequency, polarity);
    }
  }

  lemma InvLinks(s: Sys)
    requires Inv(s)
    ensures Linked(s)
  {
  }

  /** A step that is some tuner's turn. */
  method DeviceStep(server: SessionServer, e: Event)
    requires server.Valid() && Inv(server.Value())
    requires TunerEvent(e) && Enabled(server.Value(), e)
    modifies server.tuners, set d | d in server.tuners :: d.pids
    ensures server.Valid() && server.Value() == Apply(old(server.Value()), e)
  {
    hide Inv, Linked, TunerAfter;
    ghost var s := server.Value();
    TunerTurn(server.tuners[e.tuner], e);
    assert Values(server.tuners) == s.tuners[e.tuner := server.tuners[e.tuner].Value()];
    StepKeepsInv(s, e);
    InvLinks(Apply(s, e));
  }

  /** Every call is a step of the machine, and keeps its invariant. */
  method Step(server: SessionServer, e: Event)
    requires server.Valid() && Inv(server.Value()) && Narrow(server.Value())
    requires NarrowEvent(e) && Enabled(server.Value(), e)
    modifies server, server.tuners, set d | d in server.tuners :: d.pids
    ensures server.Valid() && server.Value() == Apply(old(server.Value()), e)
    ensures Inv(server.Value()) && Narrow(server.Value())
  {
    hide Inv, Linked, IdsFit;
    StepKeepsInv(server.Value(), e);
    StepKeepsNarrow(server.Value(), e);
    match e {
      case Add(onid, channelId, dest, newId, tuned) => var _ := server.AddSession(onid, channelId, dest, newId, tuned);
      case ProgramMap(i, pids) => server.ProcessPmt(i, pids);
      case StopSession(id) => var _ := server.StopSession(id);
      case ReapEmpty => server.ReapPass();
      case Expire(i, which) => server.MarkExpired(i, which);
      case Retire(i) => server.RetireExpired(i);
      case _ => DeviceStep(server, e);
    }
  }

  // ---------------------------------------------------------------- whole runs

  ghost predicate Runnable(s: Sys, es: seq<Event>)
    decreases |es|
  {
    es != [] ==> NarrowEvent(es[0]) && Enabled(s, es[0]) && Runnable(Apply(s, es[0]), es[1..])
  }

  method RunAll(server: SessionServer, es: seq<Event>)
    requires server.Valid() && Inv(server.Value()) && Narrow(server.Value())
    requires Runnable(server.Value(), es)
    modifies server, server.tuners, set d | d in server.tuners :: d.pids
    ensures server.Valid() && Run(old(server.Value()), es, server.Value())
    ensures Inv(server.Value())
    decreases |es|
  {
    hide Inv, Apply, Enabled, Narrow;
    if es != [] {
      Step(server, es[0]);
      RunAll(server, es[1..]);
    }
  }

  /** From power on, whatever the server is made to do, it is in a reachable state. */
  method Serve(kinds: seq<Kind>, es: seq<Event>) returns (server: SessionServer)
    requires |kinds| == MAX_DVB_DEVICES
    requires forall s :: Initial(s) && (forall k :: 0 <= k < |kinds| ==> s.tuners[k].kind == kinds[k]) ==>
               Runnable(s, es)
    ensures server.Valid() && Reachable(server.Value()) && Inv(server.Value())
  {
    hide Inv, Run, Runnable, Linked;
    server := new SessionServer(kinds);
    ghost var s := server.Value();
    InitialInv(s);
    RunAll(server, es);
    assert Run(s, es, server.Value());
  }
}
