/**
 * A tuner as the object the program updates in place. Every method is tied to
 * the function on values of the same step.
 */
module TunerDevices {
  import opened Common
  import opened TunerModel

  /** The low 16 bits of a number, as the lookups compare them. */
  function Low16(n: int): nat {
    n % 0x1_0000
  }

  predicate Carries16(c: Channel, onid: int, serviceId: int) {
    Low16(c.onid) == Low16(onid) && Low16(c.serviceId) == Low16(serviceId)
  }

  predicate Fits16(n: int) {
    0 <= n < 0x1_0000
  }

  /** All identifiers are as wide as the tables that carry them. */
  ghost predicate IdsFit(freqs: seq<Frequency>) {
    forall i, j :: 0 <= i < |freqs| && 0 <= j < |freqs[i].channels| ==>
      Fits16(freqs[i].channels[j].onid) && Fits16(freqs[i].channels[j].serviceId)
  }

  /** The place `r` is the first one whose channel satisfies the lookup. */
  ghost predicate FirstPlace(freqs: seq<Frequency>, onid: int, serviceId: int, r: Option<ChanRef>) {
    match r
    case None =>
      forall i, j :: 0 <= i < |freqs| && 0 <= j < |freqs[i].channels| ==>
        !Carries16(freqs[i].channels[j], onid, serviceId)
    case Some(p) =>
      && p.entry < |freqs| && p.pos < |freqs[p.entry].channels|
      && Carries16(freqs[p.entry].channels[p.pos], onid, serviceId)
      && (forall i, j :: 0 <= i < p.entry && 0 <= j < |freqs[i].channels| ==>
            !Carries16(freqs[i].channels[j], onid, serviceId))
      && forall j :: 0 <= j < p.pos ==> !Carries16(freqs[p.entry].channels[j], onid, serviceId)
  }

  /** On 16-bit identifiers the truncating lookup is the plain one. */
  lemma FirstPlaceIsChannelOf(freqs: seq<Frequency>, onid: int, serviceId: int, r: Option<ChanRef>)
    requires FirstPlace(freqs, onid, serviceId, r)
    requires IdsFit(freqs) && Fits16(onid) && Fits16(serviceId)
    ensures r == ChannelOf(freqs, onid, serviceId)
  {
    var f := EntryCarrying(freqs, onid, serviceId);
    if f < |freqs| {
      var j := CarrierIn(freqs[f].channels, onid, serviceId);
      assert Carries(freqs[f].channels[j], onid, serviceId);
      assert Carries16(freqs[f].channels[j], onid, serviceId);
    }
    if r.Some? {
      var p := r.value;
      assert Carries(freqs[p.entry].channels[p.pos], onid, serviceId);
      assert CarrierIn(freqs[p.entry].channels, onid, serviceId) < |freqs[p.entry].channels|;
    }
  }

  lemma AddPidsStep(pids: seq<int>, news: seq<int>, p: int)
    ensures AddPids(pids, news + [p]) == AddPid(AddPids(pids, news), p)
  {
    assert (news + [p])[..|news + [p]| - 1] == news;
  }

  lemma RemovePidsStep(pids: seq<int>, olds: seq<int>, p: int)
    ensures RemovePids(pids, olds + [p]) == RemovePid(RemovePids(pids, olds), p)
  {
    assert (olds + [p])[..|olds + [p]| - 1] == olds;
  }

  lemma TuneIgnoresScan(t: Tuner, i: nat, id: nat, accepted: bool)
    requires i < |t.freqs|
    ensures Tune(t.(scanId := id), i, accepted) == Tune(t, i, accepted).(scanId := id)
    ensures Retunes(t.(scanId := id), i) == Retunes(t, i)
  {
  }

  class TunerDevice {
    const kind: Kind
    const pids: array<int>
    var freqs: seq<Frequency>
    var curr: Option<nat>
    var feFreq: int
    ghost var hwFreq: int
    ghost var calls: seq<Call>
    var state: TunerState
    var refcnt: int
    var sequence: nat
    var lastSequence: nat
    var scanId: nat

    ghost predicate Valid() {
      pids.Length == MAX_FILTER_PID
    }

    ghost function Value(): (t: Tuner)
      reads this, pids
    {
      Tuner(kind, freqs, curr, feFreq, hwFreq, calls, pids[..], state, refcnt, sequence, lastSequence, scanId)
    }

    constructor (kind: Kind)
      ensures Valid() && fresh(pids) && FreshTuner(Value()) && this.kind == kind
    {
      this.kind := kind;
      pids := new int[MAX_FILTER_PID](_ => NO_PID);
      freqs, curr, feFreq, state, refcnt := [], None, 0, NotStarted, 0;
      sequence, lastSequence, scanId := 0, 0, 0;
      hwFreq, calls := 0, [];
    }

    // ---------------------------------------------------------------- filter table

    /** Finds the PID, else a free slot. */
    method AddPidToDemux(pid: int) returns (rc: int)
      requires Valid()
      modifies pids
      ensures pids[..] == AddPid(old(pids[..]), pid)
      ensures rc == if pid in old(pids[..]) || NO_PID in old(pids[..]) then 1 else -1
    {
      for pos := 0 to MAX_FILTER_PID
        invariant pid !in pids[..pos]
      {
        if pids[pos] == pid {
          assert pids[..][pos] == pid;
          return 1;
        }
      }
      var hit := -1;
      for pos := 0 to MAX_FILTER_PID
        invariant hit == -1 && NO_PID !in pids[..pos]
      {
        if pids[pos] == NO_PID {
          hit := pos;
          break;
        }
      }
      ghost var was := pids[..];
      assert was == pids[..MAX_FILTER_PID];
      if hit == -1 {
        return -1;
      }
      assert was[hit] == NO_PID;
      pids[hit] := pid;
      rc := 1;
    }

    method RemovePidFromDemux(pid: int)
      requires Valid()
      modifies pids
      ensures pids[..] == RemovePid(old(pids[..]), pid)
    {
      for pos := 0 to MAX_FILTER_PID
        invariant pids[..] == old(pids[..]) && pid !in pids[..pos]
      {
        if pids[pos] == pid {
          pids[pos] := NO_PID;
          return;
        }
      }
      assert pids[..] == pids[..MAX_FILTER_PID];
    }

    /** Stops every filter. */
    method ClearFilters()
      requires Valid()
      modifies pids
      ensures pids[..] == EmptyTable()
    {
      for pos := 0 to MAX_FILTER_PID
        invariant forall k :: 0 <= k < pos ==> pids[k] == NO_PID
      {
        pids[pos] := NO_PID;
      }
    }

    method AddFilters(news: seq<int>)
      requires Valid()
      modifies pids
      ensures pids[..] == AddPids(old(pids[..]), news)
    {
      for k := 0 to |news|
        invariant pids[..] == AddPids(old(pids[..]), news[..k])
      {
        var _ := AddPidToDemux(news[k]);
        AddPidsStep(old(pids[..]), news[..k], news[k]);
        assert news[..k] + [news[k]] == news[..k + 1];
      }
      assert news[..|news|] == news;
    }

    // ---------------------------------------------------------------- tuning

    /** The frontend is asked for `frequency` and answers. */
    ghost method AskFrontend(frequency: int, accepted: bool)
      modifies this`hwFreq, this`calls
      ensures hwFreq == if accepted then frequency else old(hwFreq)
      ensures calls == old(calls) + [Call(frequency, accepted)]
    {
      hwFreq := if accepted then frequency else hwFreq;
      calls := calls + [Call(frequency, accepted)];
    }

    /** The frontend's answer is `accepted`; without a retune there is none. */
    method DvbtTune(i: nat, accepted: bool) returns (ok: bool)
      requires Valid() && kind == Terrestrial && i < |freqs|
      modifies this`curr, this`feFreq, this`hwFreq, this`calls, this`sequence, pids
      ensures Value() == Tune(old(Value()), i, accepted)
      ensures ok <==> accepted || !Retunes(old(Value()), i)
    {
      var frequency := Wrap32(freqs[i].frequency);
      ok := true;
      if frequency != feFreq {
        ClearFilters();
        feFreq := frequency;
        ok := accepted;
        AskFrontend(feFreq, accepted);
        sequence := Wrap32(sequence + 1);
        curr := Some(i);
      }
    }

    /** The same over the converter's intermediate frequency. */
    method DvbsTune(i: nat, accepted: bool) returns (ok: bool)
      requires Valid() && kind == Satellite && i < |freqs|
      modifies this`curr, this`feFreq, this`hwFreq, this`calls, this`sequence, pids
      ensures Value() == Tune(old(Value()), i, accepted)
      ensures ok <==> accepted || !Retunes(old(Value()), i)
    {
      var frequency := Wrap32(freqs[i].frequency);
      ok := true;
      if frequency != feFreq {
        ClearFilters();
        if frequency < SLOF {
          feFreq := Wrap32(frequency - LOF1);
        } else {
          feFreq := Wrap32(frequency - LOF2);
        }
        ok := accepted;
        AskFrontend(feFreq, accepted);
        sequence := Wrap32(sequence + 1);
        curr := Some(i);
      }
    }

    /** The entry at position `id`, if the list is that long. */
    method GetInitialTuning(id: nat) returns (entry: Option<nat>)
      ensures entry == if id < |freqs| then Some(id) else None
    {
      var last := 0;
      while last < |freqs|
        invariant last <= |freqs| && last <= id
      {
        if last == id {
          return Some(last);
        }
        last := last + 1;
      }
      entry := None;
    }

    method AddBasePids()
      requires Valid()
      modifies pids
      ensures Value() == old(Value()).(pids := AddPids(old(Value()).pids, BASE_PIDS))
    {
      AddFilters(BASE_PIDS);
    }

    method ScanTick(accepted: bool)
      requires Valid()
      modifies this, pids
      ensures Value() == TunerModel.ScanTick(old(Value()), accepted)
    {
      hide AddPids, Tune, Retunes;
      ghost var t := Value();
      if kind == Terrestrial && state == Idle {
        var entry := GetInitialTuning(scanId);
        if entry.Some? {
          scanId := scanId + 1;
          var _ := DvbtTune(entry.value, accepted);
          TuneIgnoresScan(t, entry.value, t.scanId + 1, accepted);
          TuneFrame(t, entry.value, accepted);
          if state == Idle {
            AddBasePids();
          }
        } else {
          scanId := 0;
        }
      } else if kind == Satellite && state == Idle {
        var entry := GetInitialTuning(scanId);
        if entry.Some? {
          scanId := scanId + 1;
          var ok := DvbsTune(entry.value, accepted);
          TuneIgnoresScan(t, entry.value, t.scanId + 1, accepted);
          TuneFrame(t, entry.value, accepted);
          if ok && state == Idle {
            AddBasePids();
          }
        } else {
          scanId := 0;
        }
      }
    }

    method Start(threadRuns: bool, accepted: bool)
      requires Valid() && (kind == OtherKind || freqs != [])
      modifies this, pids
      ensures Value() == TunerModel.Start(old(Value()), threadRuns, accepted)
    {
      state := if threadRuns then Idle else Failed;
      var entry := GetInitialTuning(0);
      if kind == Terrestrial {
        var _ := DvbtTune(entry.value, accepted);
      } else if kind == Satellite {
        var _ := DvbsTune(entry.value, accepted);
      }
      AddBasePids();
    }

    // ---------------------------------------------------------------- growing the lists

    /** Searches the list, counting; a new entry is numbered by the count. */
    method AddInitialData(frequency: int, polarity: char)
      modifies this`freqs
      ensures freqs == AddEntry(kind, old(freqs), frequency, polarity)
    {
      var id := 0;
      var hit := false;
      var wanted := Frequency(0, frequency, polarity, []);
      while id < |freqs|
        invariant id <= |freqs| && !hit
        invariant forall k :: 0 <= k < id ==> !SameEntry(kind, freqs[k], wanted)
      {
        if SameEntry(kind, freqs[id], wanted) {
          hit := true;
          break;
        }
        id := id + 1;
      }
      if !hit {
        freqs := freqs + [Frequency(id, frequency, polarity, [])];
      }
    }

    method AddSatelliteFrequency(frequency: int, polarity: char)
      requires kind == Satellite
      modifies this`freqs
      ensures Value() == TunerModel.AddSatelliteFrequency(old(Value()), frequency, polarity)
    {
      if lastSequence != sequence {
        return;
      }
      AddInitialData(frequency, polarity);
    }

    /** The position of a service in the current entry. */
    method SeekService(serviceId: nat) returns (at: nat)
      requires curr.Some? && curr.value < |freqs|
      ensures at == ServiceOf(freqs[curr.value].channels, serviceId)
    {
      var cs := freqs[curr.value].channels;
      at := 0;
      while at < |cs|
        invariant at <= |cs|
        invariant forall k :: 0 <= k < at ==> cs[k].serviceId != serviceId
      {
        if cs[at].serviceId == serviceId {
          return;
        }
        at := at + 1;
      }
    }

    method AddPAT(serviceId: nat, pmtPid: int)
      requires curr.Some? && curr.value < |freqs|
      modifies this`freqs
      ensures Value() == TunerModel.AddPAT(old(Value()), serviceId, pmtPid)
    {
      if lastSequence != sequence || serviceId == 0 {
        return;
      }
      var cs := freqs[curr.value].channels;
      var at := SeekService(serviceId);
      if at == |cs| {
        freqs := freqs[curr.value := freqs[curr.value].(channels := cs + [Channel(0, serviceId, pmtPid)])];
      }
    }

    method AddSDT(serviceId: nat, onid: nat)
      requires curr.Some? && curr.value < |freqs|
      modifies this`freqs
      ensures Value() == TunerModel.AddSDT(old(Value()), serviceId, onid)
    {
      if lastSequence != sequence {
        return;
      }
      var cs := freqs[curr.value].channels;
      var at := SeekService(serviceId);
      if at < |cs| {
        freqs := freqs[curr.value := freqs[curr.value].(channels := cs[at := cs[at].(onid := onid)])];
      }
    }

    /** Reading the stream notices a retune. */
    method ReadSync()
      modifies this`lastSequence
      ensures Value() == old(Value()).(lastSequence := sequence)
    {
      if lastSequence != sequence {
        lastSequence := sequence;
      }
    }

    // ---------------------------------------------------------------- lookups

    /** One less than the number of matches. */
    method IsProgramValid(onid: int, serviceId: int) returns (hit: int)
      ensures hit + 1 == Matches(freqs, onid, serviceId)
    {
      hit := -1;
      for i := 0 to |freqs|
        invariant hit + 1 == Matches(freqs[..i], onid, serviceId)
      {
        var cs := freqs[i].channels;
        ghost var before := hit;
        for j := 0 to |cs|
          invariant hit == before + MatchesIn(cs[..j], onid, serviceId)
        {
          assert cs[..j + 1][..j] == cs[..j];
          if cs[j].onid == onid && cs[j].serviceId == serviceId {
            hit := hit + 1;
          }
        }
        assert cs[..|cs|] == cs;
        assert freqs[..i + 1][..i] == freqs[..i];
      }
      assert freqs[..|freqs|] == freqs;
    }

    method SeekChannel(onid: int, serviceId: int) returns (r: Option<ChanRef>)
      ensures FirstPlace(freqs, onid, serviceId, r)
    {
      for i := 0 to |freqs|
        invariant forall k, j :: 0 <= k < i && 0 <= j < |freqs[k].channels| ==>
          !Carries16(freqs[k].channels[j], onid, serviceId)
      {
        var cs := freqs[i].channels;
        for j := 0 to |cs|
          invariant forall k :: 0 <= k < j ==> !Carries16(cs[k], onid, serviceId)
        {
          if Low16(cs[j].onid) == Low16(onid) && Low16(cs[j].serviceId) == Low16(serviceId) {
            return Some(ChanRef(i, j));
          }
        }
      }
      r := None;
    }

    method GetChannelByNumber(onid: int, serviceId: int) returns (r: Option<ChanRef>)
      ensures FirstPlace(freqs, onid, serviceId, r)
      ensures IdsFit(freqs) && Fits16(onid) && Fits16(serviceId) ==> r == ChannelOf(freqs, onid, serviceId)
    {
      r := SeekChannel(onid, serviceId);
      if IdsFit(freqs) && Fits16(onid) && Fits16(serviceId) {
        FirstPlaceIsChannelOf(freqs, onid, serviceId, r);
      }
    }

    /** The entry of the first channel that matches. */
    method GetFrequencyForTuner(onid: int, serviceId: int) returns (entry: Option<nat>)
      ensures entry.Some? ==> exists j :: FirstPlace(freqs, onid, serviceId, Some(ChanRef(entry.value, j)))
      ensures entry.None? ==> FirstPlace(freqs, onid, serviceId, None)
      ensures IdsFit(freqs) && Fits16(onid) && Fits16(serviceId) ==>
                entry == if ChannelOf(freqs, onid, serviceId).Some?
                         then Some(ChannelOf(freqs, onid, serviceId).value.entry) else None
    {
      var r := SeekChannel(onid, serviceId);
      entry := if r.Some? then Some(r.value.entry) else None;
      if r.Some? {
        assert r == Some(ChanRef(r.value.entry, r.value.pos));
      }
      if IdsFit(freqs) && Fits16(onid) && Fits16(serviceId) {
        FirstPlaceIsChannelOf(freqs, onid, serviceId, r);
      }
    }
  }

  lemma OnlyChannel(onid: int, serviceId: int, c: Channel)
    requires Carries16(c, onid, serviceId)
    ensures var freqs := [Frequency(0, 1, 'H', [c])];
            && (Matches(freqs, onid, serviceId) > 0 <==> Carries(c, onid, serviceId))
            && FirstPlace(freqs, onid, serviceId, Some(ChanRef(0, 0)))
  {
    var freqs := [Frequency(0, 1, 'H', [c])];
    assert MatchesIn([c][..0], onid, serviceId) == 0;
    assert Matches(freqs[..0], onid, serviceId) == 0;
  }

  /** Beyond 16 bits the exact count and the truncating lookup disagree. */
  lemma LookupsTruncate()
    ensures var freqs := [Frequency(0, 1, 'H', [Channel(1, 2, 3)])];
            && Matches(freqs, 0x1_0001, 2) == 0
            && FirstPlace(freqs, 0x1_0001, 2, Some(ChanRef(0, 0)))
  {
    OnlyChannel(0x1_0001, 2, Channel(1, 2, 3));
  }

  /** A request is counted exactly when it is found, in whatever lists of 16-bit
      identifiers, if and only if both its identifiers are 16 bits wide. */
  lemma LookupsExact(onid: nat, serviceId: nat)
    ensures (forall freqs, r :: IdsFit(freqs) && FirstPlace(freqs, onid, serviceId, r) ==>
               (Matches(freqs, onid, serviceId) > 0 <==> r.Some?))
            <==> Fits16(onid) && Fits16(serviceId)
  {
    hide FirstPlace, Matches;
    if Fits16(onid) && Fits16(serviceId) {
      forall freqs, r | IdsFit(freqs) && FirstPlace(freqs, onid, serviceId, r)
        ensures Matches(freqs, onid, serviceId) > 0 <==> r.Some?
      {
        FirstPlaceIsChannelOf(freqs, onid, serviceId, r);
        CountedIffFound(freqs, onid, serviceId);
      }
    } else {
      var c := Channel(Low16(onid), Low16(serviceId), 0);
      OnlyChannel(onid, serviceId, c);
      var freqs := [Frequency(0, 1, 'H', [c])];
      assert IdsFit(freqs) && FirstPlace(freqs, onid, serviceId, Some(ChanRef(0, 0)));
    }
  }
}
