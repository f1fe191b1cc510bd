/**
 * What a tuner's tables hold after each update, entry by entry.
 */
module TunerTables {
  import opened Common
  import opened TunerModel

  // ---------------------------------------------------------------- frequencies

  /** A frequency is added at the end, numbered by its place, exactly if no entry has
      it; a satellite entry counts only with the same polarity. */
  lemma EntryAddedExactly(kind: Kind, freqs: seq<Frequency>, frequency: int, polarity: char)
    requires kind != OtherKind
    ensures var known := exists i :: 0 <= i < |freqs| && freqs[i].frequency == frequency
                                     && (kind == Satellite ==> freqs[i].polarity == polarity);
            AddEntry(kind, freqs, frequency, polarity) ==
            if known then freqs else freqs + [Frequency(|freqs|, frequency, polarity, [])]
  {
    var wanted := Frequency(0, frequency, polarity, []);
    var at := EntryOf(kind, freqs, wanted);
    if at < |freqs| {
      assert SameEntry(kind, freqs[at], wanted);
    } else {
      forall i | 0 <= i < |freqs|
        ensures !(freqs[i].frequency == frequency && (kind == Satellite ==> freqs[i].polarity == polarity))
      {
        assert !SameEntry(kind, freqs[i], wanted);
      }
    }
  }

  /** A converter's intermediate frequency is the broadcast frequency less the local
      oscillator that belongs to its half of the band. */
  lemma ConverterExact(frequency: int)
    requires InBand(Satellite, frequency)
    ensures frequency < 11_700_000 ==> Intermediate(frequency) + 9_750_000 == frequency
    ensures frequency >= 11_700_000 ==> Intermediate(frequency) + 10_600_000 == frequency
  {
  }

  // ---------------------------------------------------------------- channels

  lemma ServiceAddedExactly(cs: seq<Channel>, serviceId: nat, pmtPid: int)
    ensures AddService(cs, serviceId, pmtPid) ==
            if serviceId == 0 || exists i :: 0 <= i < |cs| && cs[i].serviceId == serviceId then cs
            else cs + [Channel(0, serviceId, pmtPid)]
  {
    var at := ServiceOf(cs, serviceId);
    if at < |cs| {
      assert cs[at].serviceId == serviceId;
    }
  }

  /** Only the channel described gets the network id. */
  lemma ServiceDescribedExactly(cs: seq<Channel>, serviceId: nat, onid: nat, i: nat)
    requires ChannelsOk(cs) && i < |cs|
    ensures |DescribeService(cs, serviceId, onid)| == |cs|
    ensures DescribeService(cs, serviceId, onid)[i] ==
            if cs[i].serviceId == serviceId then Channel(onid, serviceId, cs[i].pmtPid) else cs[i]
  {
  }

  /** Table data in step goes to the current entry and to no other. */
  lemma TablesTouchCurrent(t: Tuner, serviceId: nat, pmtPid: int, onid: nat, i: nat)
    requires t.curr.Some? && t.curr.value < |t.freqs| && i < |t.freqs| && t.lastSequence == t.sequence
    ensures var p, d := AddPAT(t, serviceId, pmtPid), AddSDT(t, serviceId, onid);
            && p == t.(freqs := p.freqs) && d == t.(freqs := d.freqs) && |p.freqs| == |d.freqs| == |t.freqs|
            && var cs := t.freqs[i].channels;
               if t.curr == Some(i) then
                 && p.freqs[i] == t.freqs[i].(channels := AddService(cs, serviceId, pmtPid))
                 && d.freqs[i] == t.freqs[i].(channels := DescribeService(cs, serviceId, onid))
               else p.freqs[i] == d.freqs[i] == t.freqs[i]
  {
    hide AddService, DescribeService;
  }

  /** A network table in step adds a satellite entry, out of step nothing. */
  lemma NetworkTableExactly(t: Tuner, frequency: int, polarity: char)
    ensures var known := exists i :: 0 <= i < |t.freqs| && t.freqs[i].frequency == frequency
                                     && t.freqs[i].polarity == polarity;
            AddSatelliteFrequency(t, frequency, polarity) ==
            if known || t.lastSequence != t.sequence then t
            else t.(freqs := t.freqs + [Frequency(|t.freqs|, frequency, polarity, [])])
  {
    EntryAddedExactly(Satellite, t.freqs, frequency, polarity);
  }

  // ---------------------------------------------------------------- counting

  /** The places at which a program is found. */
  ghost function Places(freqs: seq<Frequency>, onid: int, serviceId: int): set<ChanRef> {
    set f: nat, c: nat | f < |freqs| && c < |freqs[f].channels|
      && freqs[f].channels[c].onid == onid && freqs[f].channels[c].serviceId == serviceId :: ChanRef(f, c)
  }

  ghost function PlacesIn(f: nat, cs: seq<Channel>, onid: int, serviceId: int): set<ChanRef> {
    set c: nat | c < |cs| && cs[c].onid == onid && cs[c].serviceId == serviceId :: ChanRef(f, c)
  }

  lemma {:induction false} MatchesInArePlaces(f: nat, cs: seq<Channel>, onid: int, serviceId: int)
    ensures MatchesIn(cs, onid, serviceId) == |PlacesIn(f, cs, onid, serviceId)|
  {
    if cs == [] {
      assert PlacesIn(f, cs, onid, serviceId) == {};
    } else {
      var n: nat := |cs| - 1;
      MatchesInArePlaces(f, cs[..n], onid, serviceId);
      var before := PlacesIn(f, cs[..n], onid, serviceId);
      if Carries(cs[n], onid, serviceId) {
        assert PlacesIn(f, cs, onid, serviceId) == before + {ChanRef(f, n)};
      } else {
        assert PlacesIn(f, cs, onid, serviceId) == before;
      }
    }
  }

  /** The count is the number of places. */
  lemma {:induction false} MatchesArePlaces(freqs: seq<Frequency>, onid: int, serviceId: int)
    ensures Matches(freqs, onid, serviceId) == |Places(freqs, onid, serviceId)|
  {
    if freqs == [] {
      assert Places(freqs, onid, serviceId) == {};
    } else {
      var n: nat := |freqs| - 1;
      MatchesArePlaces(freqs[..n], onid, serviceId);
      MatchesInArePlaces(n, freqs[n].channels, onid, serviceId);
      var before, here := Places(freqs[..n], onid, serviceId), PlacesIn(n, freqs[n].channels, onid, serviceId);
      assert Places(freqs, onid, serviceId) == before + here;
      assert before !! here;
    }
  }

  // ---------------------------------------------------------------- filters

  /** A scan turn that was not refused filters the tables every tuner reads, as far as
      the filter table has room. */
  lemma ScanFiltersTables(t: Tuner, tuned: bool, p: int)
    requires TunerOk(t) && t.kind != OtherKind && t.state == Idle && t.scanId < |t.freqs|
    requires t.kind == Satellite ==> tuned
    requires p in {0, 1, 0x10, 0x11, 0x12}
    ensures var pids := ScanTick(t, tuned).pids; p in PidSet(pids) || NO_PID !in pids
  {
    hide PidSet, NoPidTwice, AddPids, EntriesOk, HistoryOk, Tune;
    TuneOk(t, t.scanId, tuned);
    AddPidsComplete(Tune(t, t.scanId, tuned).pids, BASE_PIDS, p);
  }

  /** A tuner starts on its first entry with exactly those tables filtered. */
  lemma StartExact(t: Tuner, threadRuns: bool, tuned: bool)
    requires TunerOk(t) && t.state == NotStarted && t.kind != OtherKind && t.freqs != []
    ensures var t' := Start(t, threadRuns, tuned);
            && t'.state == (if threadRuns then Idle else Failed) && t'.curr == Some(0)
            && t'.freqs == t.freqs && t'.refcnt == t.refcnt && t'.scanId == t.scanId
            && PidSet(t'.pids) == {0, 1, 0x10, 0x11, 0x12}
  {
    hide PidSet, NoPidTwice, AddPids;
    EmptyTableTakes(BASE_PIDS);
    assert InBand(t.kind, t.freqs[0].frequency);
    assert (set p | p in BASE_PIDS) == {0, 1, 0x10, 0x11, 0x12};
  }
}
