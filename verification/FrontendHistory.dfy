/**
 * What the frontend hardware was asked and what it answered, over whole runs:
 * when it is where the program believes it to be, and which tables are stale.
 */
module FrontendHistory {
  import opened Common
  import opened TunerModel
  import opened AllocatorModel
  import opened AllocatorSafety
  import AllocatorTheorems

  // ---------------------------------------------------------------- where the hardware is

  /** In every reachable state the hardware is on the current entry's frequency if
      and only if its last accepted call was for that frequency; so always when the
      last retune was accepted. */
  lemma HardwareStandsExactly(s: Sys, k: nat)
    requires Reachable(s) && k < |s.tuners| && s.tuners[k].curr.Some?
    ensures var t := s.tuners[k];
            && t.curr.value < |t.freqs| && t.calls != []
            && var wanted := FrontendFrequency(t.kind, t.freqs[t.curr.value].frequency);
               && LastAsked(t.calls) == wanted
               && (HardwareStands(t) <==> LeftOn(t.calls, wanted))
               && (t.calls[|t.calls| - 1].accepted ==> HardwareStands(t))
  {
    hide Reachable, Inv, NoPidTwice;
    ReachableInv(s);
    TunersOk(s, k);
    var t := s.tuners[k];
    assert InBand(t.kind, t.freqs[t.curr.value].frequency);
    if t.kind == Satellite {
      IntermediateOutOfBand(t.freqs[t.curr.value].frequency);
    }
    LastAcceptedExact(t.calls, t.feFreq);
  }

  /** A live session's tuner is on the session's frequency if and only if the last
      call its hardware accepted was for that frequency. */
  lemma HardwareServesExactly(s: Sys, i: nat)
    requires Reachable(s) && i < |s.sessions|
    ensures s.sessions[i].tuner < |s.tuners|
    ensures var x, t := s.sessions[i], s.tuners[s.sessions[i].tuner];
            && x.chan.entry < |t.freqs|
            && var wanted := FrontendFrequency(t.kind, t.freqs[x.chan.entry].frequency);
               t.hwFreq == wanted <==> LeftOn(t.calls, wanted)
  {
    hide Reachable, LeftOn;
    AllocatorTheorems.SessionsStayOnFrequency(s, i);
    HardwareStandsExactly(s, s.sessions[i].tuner);
  }

  /** A refused terrestrial scan turn sticks: the program believes to be on the
      entry, so a session that claims the tuner for it asks nothing of the
      hardware, whatever it would have answered. */
  lemma RefusalSticks(t: Tuner, r: ChanRef, tuned: bool)
    requires TunerOk(t) && t.kind == Terrestrial && t.state == Idle && t.scanId < |t.freqs|
    requires Retunes(t, t.scanId) && r.entry == t.scanId
    ensures var t1 := ScanTick(t, false);
            var t2 := Claimed(t1, r, tuned);
            && t1.curr == Some(r.entry) && !Retunes(t1, r.entry)
            && t2.curr == t1.curr && t2.calls == t1.calls && t2.sequence == t1.sequence
            && t2.hwFreq == t.hwFreq
            && (HardwareStands(t2) <==> t.hwFreq == t.freqs[r.entry].frequency)
  {
    hide NoPidTwice, AddPids, PidSet;
    TuneReaches(t, t.scanId, false);
    assert InBand(t.kind, t.freqs[t.scanId].frequency);
  }

  lemma {:induction false} RunExtended(s0: Sys, es: seq<Event>, s: Sys, e: Event)
    requires Run(s0, es, s) && Enabled(s, e)
    ensures Run(s0, es + [e], Apply(s, e))
    decreases |es|
  {
    hide Enabled, Apply;
    if es == [] {
      assert [e][1..] == [] && es + [e] == [e];
    } else {
      RunExtended(Apply(s0, es[0]), es[1..], s, e);
      assert (es + [e])[1..] == es[1..] + [e];
    }
  }

  lemma ReachableStep(s: Sys, e: Event)
    requires Reachable(s) && Enabled(s, e)
    ensures Reachable(Apply(s, e))
  {
    hide Initial, Enabled, Apply;
    var s0, es :| Initial(s0) && Run(s0, es, s);
    RunExtended(s0, es, s, e);
    assert Run(s0, es + [e], Apply(s, e));
  }

  // ---------------------------------------------------------------- an input that fools a session

  const FIRST: int := 474_000_000
  const SECOND: int := 482_000_000

  function Listed(channels: seq<Channel>): seq<Frequency> {
    [Frequency(0, FIRST, 'T', channels), Frequency(1, SECOND, 'T', [])]
  }

  /** A terrestrial tuner with both frequencies, set to one of them. */
  ghost predicate SetTo(t: Tuner, entry: nat, hwFreq: int, channels: seq<Channel>) {
    && t.kind == Terrestrial && t.freqs == Listed(channels) && t.curr == Some(entry) && entry < 2
    && t.feFreq == t.freqs[entry].frequency && t.hwFreq == hwFreq && t.refcnt == 0 && t.state == Idle
  }

  lemma PowerOn() returns (s: Sys)
    ensures Reachable(s) && Initial(s) && s.tuners[0].kind == Terrestrial
  {
    var t := Tuner(Terrestrial, [], None, 0, 0, [], EmptyTable(), NotStarted, 0, 0, 0, 0);
    s := Sys([t, t, t, t, t, t, t, t], []);
    assert Initial(s) && Run(s, [], s);
  }

  lemma Started() returns (s: Sys)
    ensures Reachable(s) && |s.tuners| == MAX_DVB_DEVICES && s.sessions == []
    ensures SetTo(s.tuners[0], 0, FIRST, []) && s.tuners[0].scanId == 0
  {
    hide AddPids, Reachable;
    s := PowerOn();
    var events := [Load(0, FIRST, 'T'), Load(0, SECOND, 'T'), StartTuner(0, true, true)];
    ReachableStep(s, events[0]);
    s := Apply(s, events[0]);
    ReachableStep(s, events[1]);
    s := Apply(s, events[1]);
    assert s.tuners[0].freqs == Listed([]);
    ReachableStep(s, events[2]);
    s := Apply(s, events[2]);
  }

  /** The reader takes in the tables of the first frequency: it carries program
      (1, 1). */
  lemma TablesRead() returns (s: Sys)
    ensures Reachable(s) && |s.tuners| == MAX_DVB_DEVICES && s.sessions == []
    ensures SetTo(s.tuners[0], 0, FIRST, [Channel(1, 1, 100)]) && s.tuners[0].scanId == 0
  {
    hide AddPids, Reachable;
    s := Started();
    ReachableStep(s, Sync(0));
    s := Apply(s, Sync(0));
    ReachableStep(s, Pat(0, 1, 100));
    assert AddService([], 1, 100) == [Channel(0, 1, 100)];
    assert Listed([])[0 := Listed([])[0].(channels := [Channel(0, 1, 100)])] == Listed([Channel(0, 1, 100)]);
    s := Apply(s, Pat(0, 1, 100));
    assert s.tuners[0].freqs == Listed([Channel(0, 1, 100)]);
    ReachableStep(s, Sdt(0, 1, 1));
    assert DescribeService([Channel(0, 1, 100)], 1, 1) == [Channel(1, 1, 100)];
    assert Listed([Channel(0, 1, 100)])[0 := Frequency(0, FIRST, 'T', [Channel(1, 1, 100)])]
        == Listed([Channel(1, 1, 100)]);
    s := Apply(s, Sdt(0, 1, 1));
    assert s.tuners[0].freqs == Listed([Channel(1, 1, 100)]);
  }

  /** The scan moves on to the second frequency and around. */
  lemma ScanRound() returns (s: Sys)
    ensures Reachable(s) && |s.tuners| == MAX_DVB_DEVICES && s.sessions == []
    ensures SetTo(s.tuners[0], 1, SECOND, [Channel(1, 1, 100)]) && s.tuners[0].scanId == 0
  {
    hide AddPids, Reachable;
    s := TablesRead();
    ReachableStep(s, Scan(0, true));
    s := Apply(s, Scan(0, true));
    ReachableStep(s, Scan(0, true));
    s := Apply(s, Scan(0, true));
    ReachableStep(s, Scan(0, true));
    s := Apply(s, Scan(0, true));
  }

  /** A concrete run: the scan comes round to the first frequency, the frontend
      refuses, and a request for a program found there starts a session that asks
      nothing of the hardware, which is still on the second frequency. */
  lemma SessionWithoutHardware() returns (s: Sys)
    ensures Reachable(s) && |s.sessions| == 1 && s.sessions[0].tuner == 0 && s.sessions[0].chan.entry == 0
    ensures |s.tuners| == MAX_DVB_DEVICES && |s.tuners[0].freqs| > 0
    ensures s.tuners[0].freqs[0].frequency == FIRST && s.tuners[0].hwFreq == SECOND
    ensures !HardwareStands(s.tuners[0])
  {
    hide AddPids, Reachable;
    s := ScanRound();
    ReachableStep(s, Scan(0, false));
    s := Apply(s, Scan(0, false));
    assert s.tuners[0].freqs == Listed([Channel(1, 1, 100)]);
    var r := Add(1, 1, Dest(1, Plain, false), 7, true);
    var cs := [Channel(1, 1, 100)];
    assert Listed(cs)[0].channels == cs;
    assert Carries(cs[0], 1, 1) && CarrierIn(cs, 1, 1) == 0;
    assert EntryCarrying(s.tuners[0].freqs, 1, 1) == 0;
    CountedIffFound(s.tuners[0].freqs, 1, 1);
    assert Servable(s.tuners, 1, 1);
    assert PickTuner(s.tuners, 1, 1, 0) == Fresh(0, ChanRef(0, 0));
    ReachableStep(s, r);
    s := Apply(s, r);
  }

  // ---------------------------------------------------------------- stale tables

  lemma AddCalls(s: Sys, onid: nat, channelId: nat, dest: Dest, newId: nat, tuned: bool, k: nat)
    requires k < |s.tuners|
    ensures var s' := AddNew(s, onid, channelId, dest, newId, tuned).0;
            && |s'.tuners| == |s.tuners| && s'.tuners[k].lastSequence == s.tuners[k].lastSequence
            && s.tuners[k].calls <= s'.tuners[k].calls
  {
    hide Servable, PickTuner, SessionFor, WithoutLive;
    var pick := PickTuner(s.tuners, onid, channelId, 0);
    if pick.Fresh? {
      var t := s.tuners[pick.tuner];
      TuneFrame(t.(state := Busy, refcnt := t.refcnt + 1), pick.chan.entry, tuned);
    }
  }

  lemma {:induction false} ReapCalls(s: Sys, i: nat, k: nat)
    requires Inv(s) && i <= |s.sessions| && k < |s.tuners|
    ensures |Reap(s, i).tuners| == |s.tuners|
    ensures Reap(s, i).tuners[k].lastSequence == s.tuners[k].lastSequence
    ensures Reap(s, i).tuners[k].calls == s.tuners[k].calls
    decreases |s.sessions| - i
  {
    hide Inv;
    if i < |s.sessions| {
      RemovalKeepsInv(s, i);
      RemovalShortens(s, i);
      if s.sessions[i].dests == [] {
        ReapCalls(RemoveSession(s, i), i, k);
      } else {
        ReapCalls(s, i + 1, k);
      }
    }
  }

  /** A step adds to the calls and, unless the reader notices, leaves the sequence
      number it last saw alone. */
  lemma CallsGrow(s: Sys, e: Event, k: nat)
    requires Inv(s) && Enabled(s, e) && k < |s.tuners|
    ensures |Apply(s, e).tuners| == |s.tuners|
    ensures s.tuners[k].calls <= Apply(s, e).tuners[k].calls
    ensures e != Sync(k) ==> Apply(s, e).tuners[k].lastSequence == s.tuners[k].lastSequence
  {
    hide Inv, Reap, Filter;
    match e {
      case Add(onid, channelId, dest, newId, tuned) => AddCalls(s, onid, channelId, dest, newId, tuned, k);
      case ReapEmpty => ReapCalls(s, 0, k);
      case Scan(j, tuned) =>
        if j == k && s.tuners[k].scanId < |s.tuners[k].freqs| {
          TuneFrame(s.tuners[k], s.tuners[k].scanId, tuned);
        }
      case StartTuner(j, _, tuned) =>
        if s.tuners[j].freqs != [] {
          TuneFrame(s.tuners[j].(state := Idle), 0, tuned);
          TuneFrame(s.tuners[j].(state := Failed), 0, tuned);
        }
      case _ =>
    }
  }

  /** Noticing brings the reader in step and does nothing else. */
  lemma SyncCatchesUp(s: Sys, k: nat)
    requires k < |s.tuners|
    ensures Enabled(s, Sync(k))
    ensures var s', t := Apply(s, Sync(k)), s.tuners[k];
            && s'.sessions == s.sessions && |s'.tuners| == |s.tuners|
            && s'.tuners[k] == t.(lastSequence := t.sequence)
            && forall j :: 0 <= j < |s.tuners| && j != k ==> s'.tuners[j] == s.tuners[j]
  {
  }

  lemma SequenceCountsCalls(s: Sys, k: nat)
    requires Inv(s) && k < |s.tuners|
    ensures s.tuners[k].sequence == Wrap32(|s.tuners[k].calls|)
  {
    hide NoPidTwice, EntriesOk;
    assert TunerOk(s.tuners[k]);
  }

  /** Until the reader notices, it is in step with the tuner exactly when the number
      of retunes since is a multiple of 2^32. */
  lemma {:induction false} OutOfStep(s: Sys, es: seq<Event>, s': Sys, k: nat)
    requires Inv(s) && Run(s, es, s') && k < |s.tuners| && Sync(k) !in es
    ensures k < |s'.tuners| && s.tuners[k].calls <= s'.tuners[k].calls
    ensures s'.tuners[k].lastSequence == s.tuners[k].lastSequence
    ensures s.tuners[k].lastSequence == s.tuners[k].sequence ==>
              (s'.tuners[k].lastSequence == s'.tuners[k].sequence <==>
               Wrap32(|s'.tuners[k].calls| - |s.tuners[k].calls|) == 0)
    decreases |es|
  {
    hide Inv, Apply, Enabled;
    RunKeepsInv(s, es, s');
    SequenceCountsCalls(s, k);
    if es != [] {
      CallsGrow(s, es[0], k);
      StepKeepsInv(s, es[0]);
      OutOfStep(Apply(s, es[0]), es[1..], s', k);
      SequenceCountsCalls(s', k);
    }
  }

  /** While a reader that was in step has not noticed the retunes since, between 1
      and 2^32 - 1 of them, no table changes anything. */
  lemma StaleTablesIgnored(s: Sys, es: seq<Event>, s': Sys, k: nat, table: Event)
    requires Reachable(s) && Run(s, es, s') && k < |s.tuners| && Sync(k) !in es
    requires s.tuners[k].lastSequence == s.tuners[k].sequence
    requires table.Pat? || table.Sdt? || table.Nit?
    requires table.tuner == k && Enabled(s', table)
    ensures k < |s'.tuners| && |s.tuners[k].calls| <= |s'.tuners[k].calls|
    ensures 0 < |s'.tuners[k].calls| - |s.tuners[k].calls| < 0x1_0000_0000 ==> Apply(s', table) == s'
  {
    hide Reachable, Inv, Run;
    ReachableInv(s);
    OutOfStep(s, es, s', k);
    if 0 < |s'.tuners[k].calls| - |s.tuners[k].calls| < 0x1_0000_0000 {
      assert s'.tuners[k := s'.tuners[k]] == s'.tuners;
    }
  }
}
