/**
 * A tuner as a value: its demultiplexer filter table, its frequency list with
 * the channels found there, what it is tuned to, and the idle scan.
 */
module TunerModel {
  import opened Common

  const MAX_FILTER_PID: nat := 32
  const NO_PID: int := 65535

  // Local oscillator frequencies of the satellite converter, in kHz.

  const SLOF: int := 11_700_000
  const LOF1: int := 9_750_000
  const LOF2: int := 10_600_000

  // ---------------------------------------------------------------- filter table

  /** The first slot holding `x`, or the table size. */
  function SlotOf(pids: seq<int>, x: int): (i: nat)
    ensures i <= |pids|
    ensures i < |pids| ==> pids[i] == x
    ensures forall j :: 0 <= j < i ==> pids[j] != x
  {
    if pids == [] || pids[0] == x then 0 else 1 + SlotOf(pids[1..], x)
  }

  function AddPid(pids: seq<int>, pid: int): (r: seq<int>)
    ensures |r| == |pids|
  {
    if SlotOf(pids, pid) < |pids| then pids
    else
      var free := SlotOf(pids, NO_PID);
      if free < |pids| then pids[free := pid] else pids
  }

  function RemovePid(pids: seq<int>, pid: int): (r: seq<int>)
    ensures |r| == |pids|
  {
    var i := SlotOf(pids, pid);
    if i < |pids| then pids[i := NO_PID] else pids
  }

  function EmptyTable(): (r: seq<int>)
    ensures |r| == MAX_FILTER_PID && forall i :: 0 <= i < |r| ==> r[i] == NO_PID
  {
    seq(MAX_FILTER_PID, _ => NO_PID)
  }

  /** The filtered PIDs as a set. */
  function PidSet(pids: seq<int>): set<int> {
    set i | 0 <= i < |pids| && pids[i] != NO_PID :: pids[i]
  }

  /** No PID is filtered twice. */
  ghost predicate NoPidTwice(pids: seq<int>) {
    forall i, j :: 0 <= i < j < |pids| && pids[i] != NO_PID ==> pids[i] != pids[j]
  }

  /** The table is full exactly when the set has as many members as slots. */
  lemma {:induction false} FullTable(pids: seq<int>)
    requires NoPidTwice(pids)
    ensures |PidSet(pids)| <= |pids|
    ensures NO_PID !in pids <==> |PidSet(pids)| == |pids|
  {
    if pids != [] {
      var n := |pids| - 1;
      assert pids == pids[..n] + [pids[n]];
      FullTable(pids[..n]);
      if pids[n] == NO_PID {
        assert PidSet(pids) == PidSet(pids[..n]);
      } else {
        assert PidSet(pids) == PidSet(pids[..n]) + {pids[n]};
        assert pids[n] !in PidSet(pids[..n]);
      }
    }
  }

  /** Adding refines insertion into a set of bounded size. */
  lemma AddPidRefines(pids: seq<int>, pid: int)
    requires NoPidTwice(pids)
    ensures NoPidTwice(AddPid(pids, pid))
    ensures PidSet(AddPid(pids, pid)) ==
            if pid == NO_PID || (pid !in PidSet(pids) && |PidSet(pids)| == |pids|) then PidSet(pids)
            else PidSet(pids) + {pid}
  {
    FullTable(pids);
    var at, free := SlotOf(pids, pid), SlotOf(pids, NO_PID);
    assert at < |pids| ==> pids[at] == pid;
    if at == |pids| && free < |pids| {
      var r := pids[free := pid];
      assert r[free] == pid;
      forall x | x in PidSet(pids)
        ensures x in PidSet(r)
      {
        var i :| 0 <= i < |pids| && pids[i] != NO_PID && pids[i] == x;
        assert r[i] == x;
      }
    }
  }

  /** Removing refines deletion. */
  lemma RemovePidRefines(pids: seq<int>, pid: int)
    requires NoPidTwice(pids)
    ensures NoPidTwice(RemovePid(pids, pid))
    ensures PidSet(RemovePid(pids, pid)) == PidSet(pids) - {pid}
  {
    var i, r := SlotOf(pids, pid), RemovePid(pids, pid);
    forall x | x in PidSet(pids) && x != pid
      ensures x in PidSet(r)
    {
      var k :| 0 <= k < |pids| && pids[k] != NO_PID && pids[k] == x;
      assert r[k] == x;
    }
  }

  lemma EmptyTableFiltersNothing()
    ensures |EmptyTable()| == MAX_FILTER_PID && NoPidTwice(EmptyTable()) && PidSet(EmptyTable()) == {}
  {
  }

  function AddPids(pids: seq<int>, news: seq<int>): (r: seq<int>)
    ensures |r| == |pids|
  {
    if news == [] then pids else AddPid(AddPids(pids, news[..|news| - 1]), news[|news| - 1])
  }

  function RemovePids(pids: seq<int>, olds: seq<int>): (r: seq<int>)
    ensures |r| == |pids|
  {
    if olds == [] then pids else RemovePid(RemovePids(pids, olds[..|olds| - 1]), olds[|olds| - 1])
  }

  lemma {:induction false} AddPidsBounds(pids: seq<int>, news: seq<int>)
    requires NoPidTwice(pids)
    ensures NoPidTwice(AddPids(pids, news))
    ensures PidSet(pids) <= PidSet(AddPids(pids, news))
    ensures forall p :: p in PidSet(AddPids(pids, news)) ==> p in PidSet(pids) || p in news
  {
    hide PidSet, NoPidTwice, AddPid;
    if news != [] {
      AddPidsBounds(pids, news[..|news| - 1]);
      AddPidRefines(AddPids(pids, news[..|news| - 1]), news[|news| - 1]);
    }
  }

  /** One addition: the PID is filtered or the table is full, and so for all PIDs
      for which this held before. */
  lemma AddPidComplete(pids: seq<int>, q: int, p: int)
    requires NoPidTwice(pids) && p != NO_PID
    requires p == q || p in PidSet(pids) || NO_PID !in pids
    ensures p in PidSet(AddPid(pids, q)) || NO_PID !in AddPid(pids, q)
  {
    hide PidSet, NoPidTwice;
    AddPidRefines(pids, q);
    FullTable(pids);
    if p != q && p !in PidSet(pids) {
      assert SlotOf(pids, NO_PID) == |pids|;
    }
    if p == q && |PidSet(pids)| == |pids| {
      assert SlotOf(pids, NO_PID) == |pids|;
    }
  }

  /** Whatever is added ends up filtered, unless the table is full. */
  lemma {:induction false} AddPidsComplete(pids: seq<int>, news: seq<int>, p: int)
    requires NoPidTwice(pids) && p in news && p != NO_PID
    ensures p in PidSet(AddPids(pids, news)) || NO_PID !in AddPids(pids, news)
  {
    hide PidSet, NoPidTwice, AddPid;
    var some, q := news[..|news| - 1], news[|news| - 1];
    AddPidsBounds(pids, some);
    if p != q {
      AddPidsComplete(pids, some, p);
    }
    AddPidComplete(AddPids(pids, some), q, p);
  }

  lemma {:induction false} RemovePidsExact(pids: seq<int>, olds: seq<int>)
    requires NoPidTwice(pids)
    ensures NoPidTwice(RemovePids(pids, olds))
    ensures PidSet(RemovePids(pids, olds)) == PidSet(pids) - (set p | p in olds)
  {
    hide PidSet, NoPidTwice, RemovePid;
    if olds != [] {
      RemovePidsExact(pids, olds[..|olds| - 1]);
      RemovePidRefines(RemovePids(pids, olds[..|olds| - 1]), olds[|olds| - 1]);
    }
  }

  lemma SubsetSize(a: set<int>, b: set<int>)
    requires a <= b
    ensures |a| <= |b|
  {
    assert b == a + (b - a);
  }

  lemma {:induction false} MembersBounded(s: seq<int>)
    ensures |set p | p in s| <= |s|
  {
    if s != [] {
      var n := |s| - 1;
      MembersBounded(s[..n]);
      assert (set p | p in s) == (set p | p in s[..n]) + {s[n]};
    }
  }

  /** While there is room, adding PIDs is exactly set union. */
  lemma {:induction false} AddPidsExact(pids: seq<int>, news: seq<int>)
    requires NoPidTwice(pids) && NO_PID !in news
    requires |PidSet(pids) + set p | p in news| <= |pids|
    ensures PidSet(AddPids(pids, news)) == PidSet(pids) + set p | p in news
  {
    hide PidSet, NoPidTwice, AddPid;
    if news == [] {
      assert PidSet(pids) + (set p | p in news) == PidSet(pids);
    } else {
      var some, p := news[..|news| - 1], news[|news| - 1];
      var before, all := PidSet(pids) + (set q | q in some), PidSet(pids) + set q | q in news;
      assert all == before + {p};
      SubsetSize(before, all);
      AddPidsExact(pids, some);
      AddPidsBounds(pids, some);
      AddPidRefines(AddPids(pids, some), p);
    }
  }

  /** A cleared table takes a short list of PIDs as it is. */
  lemma EmptyTableTakes(news: seq<int>)
    requires |news| <= MAX_FILTER_PID && NO_PID !in news
    ensures PidSet(AddPids(EmptyTable(), news)) == set p | p in news
  {
    hide PidSet, NoPidTwice, AddPids;
    EmptyTableFiltersNothing();
    MembersBounded(news);
    assert PidSet(EmptyTable()) + (set p | p in news) == set p | p in news;
    AddPidsExact(EmptyTable(), news);
  }

  // ---------------------------------------------------------------- frequencies and channels

  datatype Kind = Terrestrial | Satellite | OtherKind

  datatype Channel = Channel(onid: nat, serviceId: nat, pmtPid: int)

  datatype Frequency = Frequency(id: nat, frequency: int, polarity: char, channels: seq<Channel>)

  /** The comparison functions of the two delivery systems. */
  predicate SameEntry(kind: Kind, a: Frequency, b: Frequency) {
    match kind
    case Terrestrial => a.frequency == b.frequency
    case Satellite => a.frequency == b.frequency && a.polarity == b.polarity
    case OtherKind => false
  }

  ghost predicate DistinctEntries(kind: Kind, freqs: seq<Frequency>) {
    forall i, j :: 0 <= i < j < |freqs| ==> !SameEntry(kind, freqs[i], freqs[j])
  }

  /** Position of the first entry equal to `f`, or the length. */
  function EntryOf(kind: Kind, freqs: seq<Frequency>, f: Frequency): (i: nat)
    ensures i <= |freqs|
    ensures i < |freqs| ==> SameEntry(kind, freqs[i], f)
    ensures forall j :: 0 <= j < i ==> !SameEntry(kind, freqs[j], f)
  {
    if freqs == [] || SameEntry(kind, freqs[0], f) then 0 else 1 + EntryOf(kind, freqs[1..], f)
  }

  /** A new entry goes to the end and is numbered by its position. */
  function AddEntry(kind: Kind, freqs: seq<Frequency>, frequency: int, polarity: char): seq<Frequency> {
    if EntryOf(kind, freqs, Frequency(0, frequency, polarity, [])) < |freqs| then freqs
    else freqs + [Frequency(|freqs|, frequency, polarity, [])]
  }

  /** Position of the first channel with that service id, or the length. */
  function ServiceOf(cs: seq<Channel>, serviceId: nat): (i: nat)
    ensures i <= |cs|
    ensures i < |cs| ==> cs[i].serviceId == serviceId
    ensures forall j :: 0 <= j < i ==> cs[j].serviceId != serviceId
  {
    if cs == [] || cs[0].serviceId == serviceId then 0 else 1 + ServiceOf(cs[1..], serviceId)
  }

  function AddService(cs: seq<Channel>, serviceId: nat, pmtPid: int): seq<Channel> {
    if serviceId == 0 || ServiceOf(cs, serviceId) < |cs| then cs
    else cs + [Channel(0, serviceId, pmtPid)]
  }

  function DescribeService(cs: seq<Channel>, serviceId: nat, onid: nat): seq<Channel> {
    var i := ServiceOf(cs, serviceId);
    if i < |cs| then cs[i := cs[i].(onid := onid)] else cs
  }

  ghost predicate ChannelsOk(cs: seq<Channel>) {
    && (forall i :: 0 <= i < |cs| ==> cs[i].serviceId != 0)
    && (forall i, j :: 0 <= i < j < |cs| ==> cs[i].serviceId != cs[j].serviceId)
  }

  /** Channels stay where they are and keep service and program map PID. */
  ghost predicate ChannelsGrow(cs: seq<Channel>, cs': seq<Channel>) {
    |cs| <= |cs'| && forall i :: 0 <= i < |cs| ==> cs'[i].serviceId == cs[i].serviceId && cs'[i].pmtPid == cs[i].pmtPid
  }

  lemma ServicesStayDistinct(cs: seq<Channel>, serviceId: nat, pmtPid: int, onid: nat)
    requires ChannelsOk(cs)
    ensures ChannelsOk(AddService(cs, serviceId, pmtPid)) && ChannelsGrow(cs, AddService(cs, serviceId, pmtPid))
    ensures ChannelsOk(DescribeService(cs, serviceId, onid)) && ChannelsGrow(cs, DescribeService(cs, serviceId, onid))
  {
  }

  // ---------------------------------------------------------------- looking channels up

  predicate Carries(c: Channel, onid: int, serviceId: int) {
    c.onid == onid && c.serviceId == serviceId
  }

  function CarrierIn(cs: seq<Channel>, onid: int, serviceId: int): (i: nat)
    ensures i <= |cs|
    ensures i < |cs| ==> Carries(cs[i], onid, serviceId)
    ensures forall j :: 0 <= j < i ==> !Carries(cs[j], onid, serviceId)
  {
    if cs == [] || Carries(cs[0], onid, serviceId) then 0 else 1 + CarrierIn(cs[1..], onid, serviceId)
  }

  /** The first entry that carries the program, or the length. */
  function EntryCarrying(freqs: seq<Frequency>, onid: int, serviceId: int): (f: nat)
    ensures f <= |freqs|
    ensures f < |freqs| ==> CarrierIn(freqs[f].channels, onid, serviceId) < |freqs[f].channels|
    ensures forall j :: 0 <= j < f ==> CarrierIn(freqs[j].channels, onid, serviceId) == |freqs[j].channels|
  {
    if freqs == [] || CarrierIn(freqs[0].channels, onid, serviceId) < |freqs[0].channels| then 0
    else 1 + EntryCarrying(freqs[1..], onid, serviceId)
  }

  /** A channel is a place: an entry and a position in its channel list. */
  datatype ChanRef = ChanRef(entry: nat, pos: nat)

  function ChannelOf(freqs: seq<Frequency>, onid: int, serviceId: int): (r: Option<ChanRef>)
    ensures r.Some? ==> r.value.entry < |freqs| && r.value.pos < |freqs[r.value.entry].channels|
  {
    var f := EntryCarrying(freqs, onid, serviceId);
    if f < |freqs| then Some(ChanRef(f, CarrierIn(freqs[f].channels, onid, serviceId))) else None
  }

  function MatchesIn(cs: seq<Channel>, onid: int, serviceId: int): nat {
    if cs == [] then 0
    else MatchesIn(cs[..|cs| - 1], onid, serviceId) + (if Carries(cs[|cs| - 1], onid, serviceId) then 1 else 0)
  }

  /** How often a program is found in the nested lists. */
  function Matches(freqs: seq<Frequency>, onid: int, serviceId: int): nat {
    if freqs == [] then 0
    else Matches(freqs[..|freqs| - 1], onid, serviceId) + MatchesIn(freqs[|freqs| - 1].channels, onid, serviceId)
  }

  lemma {:induction false} MatchesInPositive(cs: seq<Channel>, onid: int, serviceId: int)
    ensures MatchesIn(cs, onid, serviceId) > 0 <==> CarrierIn(cs, onid, serviceId) < |cs|
  {
    if cs != [] {
      var n := |cs| - 1;
      MatchesInPositive(cs[..n], onid, serviceId);
      var a, b := CarrierIn(cs, onid, serviceId), CarrierIn(cs[..n], onid, serviceId);
      assert b < n ==> Carries(cs[b], onid, serviceId);
      assert a < n ==> Carries(cs[..n][a], onid, serviceId);
    }
  }

  /** A program is counted exactly when it can be looked up, and the channel found
      belongs to the entry found. */
  lemma {:induction false} CountedIffFound(freqs: seq<Frequency>, onid: int, serviceId: int)
    ensures Matches(freqs, onid, serviceId) > 0 <==> ChannelOf(freqs, onid, serviceId).Some?
    ensures EntryCarrying(freqs, onid, serviceId) < |freqs| <==> ChannelOf(freqs, onid, serviceId).Some?
    ensures ChannelOf(freqs, onid, serviceId).Some? ==>
              var r := ChannelOf(freqs, onid, serviceId).value;
              && r.entry == EntryCarrying(freqs, onid, serviceId) < |freqs|
              && r.pos < |freqs[r.entry].channels|
              && Carries(freqs[r.entry].channels[r.pos], onid, serviceId)
  {
    if freqs != [] {
      var n := |freqs| - 1;
      CountedIffFound(freqs[..n], onid, serviceId);
      MatchesInPositive(freqs[n].channels, onid, serviceId);
      var a, b := EntryCarrying(freqs, onid, serviceId), EntryCarrying(freqs[..n], onid, serviceId);
      assert b < n ==> CarrierIn(freqs[b].channels, onid, serviceId) < |freqs[b].channels|;
      assert a < n ==> CarrierIn(freqs[..n][a].channels, onid, serviceId) < |freqs[..n][a].channels|;
    }
  }

  // ---------------------------------------------------------------- the tuner

  datatype TunerState = NotStarted | Idle | Scanning | Busy | Failed

  /** One request to the frontend hardware and its answer. */
  datatype Call = Call(frequency: int, accepted: bool)

  /** `feFreq` is the parameter block the program keeps; `hwFreq` is what the
      hardware is really on and `calls` all it was asked, which the program does
      not look at. */
  datatype Tuner = Tuner(kind: Kind, freqs: seq<Frequency>, curr: Option<nat>, feFreq: int, hwFreq: int,
                         calls: seq<Call>, pids: seq<int>, state: TunerState, refcnt: int, sequence: nat,
                         lastSequence: nat, scanId: nat)

  function Wrap32(n: int): nat {
    n % 0x1_0000_0000
  }

  /** What the frontend is set to for a satellite frequency: the converter's
      intermediate frequency, below or above the switching frequency. */
  function Intermediate(frequency: int): int {
    if frequency < SLOF then Wrap32(frequency - LOF1) else Wrap32(frequency - LOF2)
  }

  /** What the frontend of a tuner on an entry is set to. */
  function FrontendFrequency(kind: Kind, frequency: int): int {
    if kind == Satellite then Intermediate(frequency) else frequency
  }

  /** Sets the frontend to entry `i` unless it seems to be there already. The
      parameter block changes before the hardware is asked; the hardware moves only
      if it accepts. */
  function Tune(t: Tuner, i: nat, accepted: bool): Tuner
    requires i < |t.freqs|
  {
    var frequency := Wrap32(t.freqs[i].frequency);
    var asked := FrontendFrequency(t.kind, frequency);
    if t.kind == OtherKind || frequency == t.feFreq then t
    else t.(pids := EmptyTable(), sequence := Wrap32(t.sequence + 1), curr := Some(i),
            feFreq := asked, hwFreq := if accepted then asked else t.hwFreq,
            calls := t.calls + [Call(asked, accepted)])
  }

  /** Whether tuning to entry `i` makes a call to the frontend. */
  predicate Retunes(t: Tuner, i: nat)
    requires i < |t.freqs|
  {
    t.kind != OtherKind && Wrap32(t.freqs[i].frequency) != t.feFreq
  }

  const BASE_PIDS: seq<int> := [0, 1, 0x10, 0x11, 0x12]

  /** One turn of the idle scan: the next entry, or back to the start. A failed
      satellite retune skips the filters. */
  function ScanTick(t: Tuner, tuned: bool): Tuner {
    if t.kind == OtherKind || t.state != Idle then t
    else if t.scanId < |t.freqs| then
      var t1 := Tune(t, t.scanId, tuned).(scanId := t.scanId + 1);
      if t.kind == Satellite && Retunes(t, t.scanId) && !tuned then t1
      else t1.(pids := AddPids(t1.pids, BASE_PIDS))
    else t.(scanId := 0)
  }

  /** The hardware thread starts; the tuner is set to its first entry. */
  function Start(t: Tuner, threadRuns: bool, tuned: bool): Tuner
    requires t.kind == OtherKind || t.freqs != []
  {
    var t1 := t.(state := if threadRuns then Idle else Failed);
    var t2 := if t.kind == OtherKind then t1 else Tune(t1, 0, tuned);
    t2.(pids := AddPids(t2.pids, BASE_PIDS))
  }

  function WithChannels(t: Tuner, cs: seq<Channel>): Tuner
    requires t.curr.Some? && t.curr.value < |t.freqs|
  {
    t.(freqs := t.freqs[t.curr.value := t.freqs[t.curr.value].(channels := cs)])
  }

  function CurrentChannels(t: Tuner): seq<Channel>
    requires t.curr.Some? && t.curr.value < |t.freqs|
  {
    t.freqs[t.curr.value].channels
  }

  /** Table data that arrived before the last retune is ignored. */
  function AddPAT(t: Tuner, serviceId: nat, pmtPid: int): Tuner
    requires t.curr.Some? && t.curr.value < |t.freqs|
  {
    if t.lastSequence != t.sequence then t
    else WithChannels(t, AddService(CurrentChannels(t), serviceId, pmtPid))
  }

  function AddSDT(t: Tuner, serviceId: nat, onid: nat): Tuner
    requires t.curr.Some? && t.curr.value < |t.freqs|
  {
    if t.lastSequence != t.sequence then t
    else WithChannels(t, DescribeService(CurrentChannels(t), serviceId, onid))
  }

  function AddSatelliteFrequency(t: Tuner, frequency: int, polarity: char): Tuner {
    if t.lastSequence != t.sequence then t
    else t.(freqs := AddEntry(Satellite, t.freqs, frequency, polarity))
  }

  lemma {:induction false} ServiceListed(cs: seq<Channel>, serviceId: nat, pmtPid: int)
    requires serviceId != 0
    ensures var cs' := AddService(cs, serviceId, pmtPid); ServiceOf(cs', serviceId) < |cs'|
    ensures ServiceOf(cs, serviceId) == |cs| ==> AddService(cs, serviceId, pmtPid)[|cs|].pmtPid == pmtPid
  {
    var cs' := AddService(cs, serviceId, pmtPid);
    assert ServiceOf(cs, serviceId) == |cs| ==> cs'[|cs|].serviceId == serviceId;
  }

  lemma {:induction false} MatchesOf(freqs: seq<Frequency>, onid: int, serviceId: int, f: nat, c: nat)
    requires f < |freqs| && c < |freqs[f].channels| && Carries(freqs[f].channels[c], onid, serviceId)
    ensures ChannelOf(freqs, onid, serviceId).Some?
  {
    assert CarrierIn(freqs[f].channels, onid, serviceId) <= c;
  }

  /** A program can be served once the program table and then the service table of
      its entry have arrived; tables from before a retune change nothing. */
  lemma TablesMakeServable(t: Tuner, serviceId: nat, pmtPid: int, onid: nat)
    requires t.curr.Some? && t.curr.value < |t.freqs| && serviceId != 0
    ensures var t' := AddSDT(AddPAT(t, serviceId, pmtPid), serviceId, onid);
            if t.lastSequence == t.sequence then Matches(t'.freqs, onid, serviceId) > 0 else t' == t
  {
    hide ServiceOf, ChannelOf, Matches;
    var t1 := AddPAT(t, serviceId, pmtPid);
    var t' := AddSDT(t1, serviceId, onid);
    if t.lastSequence == t.sequence {
      ServiceListed(CurrentChannels(t), serviceId, pmtPid);
      var c := ServiceOf(CurrentChannels(t1), serviceId);
      assert Carries(CurrentChannels(t')[c], onid, serviceId);
      MatchesOf(t'.freqs, onid, serviceId, t.curr.value, c);
      CountedIffFound(t'.freqs, onid, serviceId);
    }
  }

  /** A tuner at power on: nothing loaded, nothing tuned. */
  predicate FreshTuner(t: Tuner) {
    t == Tuner(t.kind, [], None, 0, 0, [], EmptyTable(), NotStarted, 0, 0, 0, 0)
  }

  // ---------------------------------------------------------------- what every tuner keeps

  /** The frequencies each delivery system uses, in Hz and in kHz. */
  predicate InBand(kind: Kind, frequency: int) {
    match kind
    case Terrestrial => 0 < frequency < 0x1_0000_0000
    case Satellite => 10_700_000 <= frequency <= 12_750_000
    case OtherKind => false
  }

  ghost predicate EntriesOk(kind: Kind, freqs: seq<Frequency>) {
    && DistinctEntries(kind, freqs)
    && forall i :: 0 <= i < |freqs| ==>
         freqs[i].id == i && InBand(kind, freqs[i].frequency) && ChannelsOk(freqs[i].channels)
  }

  /** The parameter block agrees with `curr`. */
  predicate FrontendOk(t: Tuner) {
    && (t.curr.Some? ==> t.curr.value < |t.freqs|)
    && t.feFreq == if t.curr.Some? && t.curr.value < |t.freqs|
                   then FrontendFrequency(t.kind, t.freqs[t.curr.value].frequency) else 0
  }

  /** The frequency last asked for, or 0. */
  function LastAsked(calls: seq<Call>): int {
    if calls == [] then 0 else calls[|calls| - 1].frequency
  }

  /** The frequency of the last call that was accepted, or 0. */
  function LastAccepted(calls: seq<Call>): int {
    if calls == [] then 0
    else if calls[|calls| - 1].accepted then calls[|calls| - 1].frequency
    else LastAccepted(calls[..|calls| - 1])
  }

  /** What the program and the hardware remember of the calls. */
  ghost predicate HistoryOk(t: Tuner) {
    && t.feFreq == LastAsked(t.calls) && t.hwFreq == LastAccepted(t.calls) && t.sequence == Wrap32(|t.calls|)
    && forall i :: 0 <= i < |t.calls| ==> t.calls[i].frequency > 0
  }

  ghost predicate TunerOk(t: Tuner) {
    && |t.pids| == MAX_FILTER_PID && NoPidTwice(t.pids)
    && EntriesOk(t.kind, t.freqs) && (t.kind == OtherKind ==> t.freqs == [])
    && FrontendOk(t) && HistoryOk(t) && t.scanId <= |t.freqs|
    && (t.state == NotStarted ==> t.curr == None && t.scanId == 0)
    && (t.state in {Idle, Busy} && t.kind != OtherKind ==> t.curr.Some?)
    && (t.state !in {Idle, Busy} ==> forall i :: 0 <= i < |t.freqs| ==> t.freqs[i].channels == [])
  }

  /** An intermediate frequency is never the frequency of an entry. */
  lemma IntermediateOutOfBand(frequency: int)
    requires InBand(Satellite, frequency)
    ensures 950_000 <= Intermediate(frequency) <= 2_150_000
    ensures !InBand(Satellite, Intermediate(frequency))
  {
  }

  // ---------------------------------------------------------------- when the shortcut is right

  /** Exactly when tuning a satellite tuner gets there: the shortcut is fooled by
      an entry whose frequency is the intermediate frequency of the one it is on. */
  lemma ShortcutExact(t: Tuner, i: nat, accepted: bool)
    requires t.kind == Satellite && FrontendOk(t) && i < |t.freqs|
    requires forall j :: 0 <= j < |t.freqs| ==> 0 < t.freqs[j].frequency < 0x1_0000_0000
    ensures Tune(t, i, accepted).curr == Some(i) <==>
            t.curr == None || t.curr == Some(i)
            || t.freqs[i].frequency != Intermediate(t.freqs[t.curr.value].frequency)
  {
  }

  /** No entry's frequency is the intermediate frequency of another entry. */
  ghost predicate NoImages(freqs: seq<Frequency>) {
    forall a, b :: 0 <= a < |freqs| && 0 <= b < |freqs| && a != b ==>
      freqs[b].frequency != Intermediate(freqs[a].frequency)
  }

  predicate Within(order: seq<(nat, bool)>, n: nat) {
    forall j :: 0 <= j < |order| ==> order[j].0 < n
  }

  /** Tunes to one entry after the other, each with the frontend's answer. */
  function TuneAll(t: Tuner, order: seq<(nat, bool)>): (r: Tuner)
    requires Within(order, |t.freqs|)
    ensures r.freqs == t.freqs && r.kind == t.kind
  {
    if order == [] then t
    else
      var n := |order| - 1;
      Tune(TuneAll(t, order[..n]), order[n].0, order[n].1)
  }

  lemma {:induction false} TuneAllConsistent(t: Tuner, order: seq<(nat, bool)>)
    requires FrontendOk(t) && Within(order, |t.freqs|)
    requires t.kind == Satellite
    requires forall j :: 0 <= j < |t.freqs| ==> 0 < t.freqs[j].frequency < 0x1_0000_0000
    ensures FrontendOk(TuneAll(t, order))
  {
    if order != [] {
      TuneAllConsistent(t, order[..|order| - 1]);
    }
  }

  /** Every tune, in every order, reaches its entry. */
  ghost predicate AlwaysReaches(t: Tuner) {
    forall order, i, accepted :: Within(order, |t.freqs|) && 0 <= i < |t.freqs| ==>
      Tune(TuneAll(t, order), i, accepted).curr == Some(i)
  }

  /** A satellite list never fools the shortcut if and only if no entry's frequency
      is the intermediate frequency of another. */
  lemma ShortcutExactForList(t: Tuner)
    requires t.kind == Satellite && FrontendOk(t) && t.curr == None
    requires forall j :: 0 <= j < |t.freqs| ==> 0 < t.freqs[j].frequency < 0x1_0000_0000
    ensures AlwaysReaches(t) <==> NoImages(t.freqs)
  {
    hide Intermediate;
    if NoImages(t.freqs) {
      forall order: seq<(nat, bool)>, i: nat, accepted: bool | Within(order, |t.freqs|) && 0 <= i < |t.freqs|
        ensures Tune(TuneAll(t, order), i, accepted).curr == Some(i)
      {
        TuneAllConsistent(t, order);
        ShortcutExact(TuneAll(t, order), i, accepted);
      }
    } else {
      var a, b :| 0 <= a < |t.freqs| && 0 <= b < |t.freqs| && a != b &&
                  t.freqs[b].frequency == Intermediate(t.freqs[a].frequency);
      var order := [(a as nat, true)];
      assert order[..0] == [] && TuneAll(t, []) == t;
      TuneAllConsistent(t, order);
      ShortcutExact(TuneAll(t, order), b, true);
      assert Tune(TuneAll(t, order), b, true).curr != Some(b);
    }
  }

  /** In the satellite band there are no images. */
  lemma BandHasNoImages(freqs: seq<Frequency>)
    requires forall j :: 0 <= j < |freqs| ==> InBand(Satellite, freqs[j].frequency)
    ensures NoImages(freqs)
  {
    forall a, b | 0 <= a < |freqs| && 0 <= b < |freqs|
      ensures freqs[b].frequency != Intermediate(freqs[a].frequency)
    {
      IntermediateOutOfBand(freqs[a].frequency);
    }
  }

  /** Outside the satellite band the shortcut is fooled: an entry's frequency can
      equal the intermediate frequency of another. */
  lemma ShortcutNeedsTheBand(first: bool, second: bool)
    ensures var t := Tuner(Satellite, [Frequency(0, 10_750_000, 'H', []), Frequency(1, 1_000_000, 'H', [])],
                           None, 0, 0, [], EmptyTable(), Idle, 0, 0, 0, 0);
            Tune(Tune(t, 0, first), 1, second).curr == Some(0)
  {
  }

  /** The program's view always gets there: the shortcut for a frontend already on
      the frequency never leaves `curr` or the parameter block behind. */
  lemma TuneReaches(t: Tuner, i: nat, accepted: bool)
    requires EntriesOk(t.kind, t.freqs) && FrontendOk(t) && t.kind != OtherKind && i < |t.freqs|
    ensures Tune(t, i, accepted).curr == Some(i) && FrontendOk(Tune(t, i, accepted))
    ensures Tune(t, i, accepted).feFreq == FrontendFrequency(t.kind, t.freqs[i].frequency)
    ensures t.kind == Satellite ==> 950_000 <= Tune(t, i, accepted).feFreq <= 2_150_000
  {
    assert InBand(t.kind, t.freqs[i].frequency);
    if t.kind == Satellite {
      IntermediateOutOfBand(t.freqs[i].frequency);
      BandHasNoImages(t.freqs);
      ShortcutExact(t, i, accepted);
    } else if !Retunes(t, i) && t.curr != Some(i) {
      assert SameEntry(t.kind, t.freqs[i], t.freqs[t.curr.value]);
    }
  }

  // ---------------------------------------------------------------- where the hardware is

  /** When a tune asks the hardware: a satellite tuner always, a terrestrial one
      exactly when it believes to be on another frequency, refused or not. */
  lemma WhenTuneCalls(t: Tuner, i: nat)
    requires EntriesOk(t.kind, t.freqs) && FrontendOk(t) && t.kind != OtherKind && i < |t.freqs|
    ensures t.kind == Satellite ==> Retunes(t, i)
    ensures t.kind == Terrestrial ==> (Retunes(t, i) <==> t.curr != Some(i))
    ensures t.kind == Terrestrial ==> (Retunes(t, i) <==> t.freqs[i].frequency != t.feFreq)
  {
    assert InBand(t.kind, t.freqs[i].frequency);
    if t.curr.Some? {
      assert InBand(t.kind, t.freqs[t.curr.value].frequency);
      if t.kind == Satellite {
        IntermediateOutOfBand(t.freqs[t.curr.value].frequency);
      } else if !Retunes(t, i) && t.curr != Some(i) {
        assert SameEntry(t.kind, t.freqs[i], t.freqs[t.curr.value]);
      }
    }
  }

  /** The hardware is on the frequency of the current entry. */
  predicate HardwareStands(t: Tuner) {
    t.curr.Some? && t.curr.value < |t.freqs|
    && t.hwFreq == FrontendFrequency(t.kind, t.freqs[t.curr.value].frequency)
  }

  /** Exactly when a tune leaves the hardware on its entry's frequency: it was asked
      and accepted, or it was there before. */
  lemma TuneMovesHardware(t: Tuner, i: nat, accepted: bool)
    requires EntriesOk(t.kind, t.freqs) && FrontendOk(t) && t.kind != OtherKind && i < |t.freqs|
    ensures HardwareStands(Tune(t, i, accepted)) <==>
            (Retunes(t, i) && accepted) || t.hwFreq == FrontendFrequency(t.kind, t.freqs[i].frequency)
  {
    hide FrontendOk;
    TuneReaches(t, i, accepted);
    assert InBand(t.kind, t.freqs[i].frequency);
  }

  /** The hardware accepted `frequency` and has refused everything since. */
  ghost predicate LeftOn(calls: seq<Call>, frequency: int) {
    exists j :: 0 <= j < |calls| && calls[j].accepted && calls[j].frequency == frequency
                && forall m :: j < m < |calls| ==> !calls[m].accepted
  }

  lemma LeftOnStep(calls: seq<Call>, frequency: int)
    requires calls != []
    ensures var last, before := calls[|calls| - 1], calls[..|calls| - 1];
            LeftOn(calls, frequency) <==>
            if last.accepted then last.frequency == frequency else LeftOn(before, frequency)
  {
    var n := |calls| - 1;
    var before := calls[..n];
    if calls[n].accepted {
      assert calls[n].frequency == frequency ==> LeftOn(calls, frequency);
    } else {
      if LeftOn(before, frequency) {
        var j :| 0 <= j < n && before[j].accepted && before[j].frequency == frequency
                 && forall m :: j < m < n ==> !before[m].accepted;
        assert calls[j] == before[j] && forall m :: j < m < n ==> calls[m] == before[m];
      }
      if LeftOn(calls, frequency) {
        var j :| 0 <= j <= n && calls[j].accepted && calls[j].frequency == frequency
                 && forall m :: j < m <= n ==> !calls[m].accepted;
        assert before[j] == calls[j] && forall m :: j < m < n ==> before[m] == calls[m];
      }
    }
  }

  /** The last accepted frequency is the one accepted and left alone since. */
  lemma {:induction false} LastAcceptedExact(calls: seq<Call>, frequency: int)
    requires frequency != 0
    ensures LastAccepted(calls) == frequency <==> LeftOn(calls, frequency)
  {
    if calls != [] {
      hide LeftOn;
      LeftOnStep(calls, frequency);
      LastAcceptedExact(calls[..|calls| - 1], frequency);
    }
  }

  lemma HistoryTuned(t: Tuner, i: nat, accepted: bool)
    requires EntriesOk(t.kind, t.freqs) && HistoryOk(t) && i < |t.freqs|
    ensures HistoryOk(Tune(t, i, accepted))
  {
    assert InBand(t.kind, t.freqs[i].frequency);
    if t.kind == Satellite {
      IntermediateOutOfBand(t.freqs[i].frequency);
    }
    if Retunes(t, i) {
      assert (t.calls + [Call(0, accepted)])[..|t.calls|] == t.calls;
      var calls := Tune(t, i, accepted).calls;
      assert calls[..|calls| - 1] == t.calls;
    }
  }

  lemma TuneOk(t: Tuner, i: nat, accepted: bool)
    requires TunerOk(t) && t.kind != OtherKind && i < |t.freqs|
    requires t.state in {Idle, Busy}
    ensures TunerOk(Tune(t, i, accepted)) && Tune(t, i, accepted).curr == Some(i)
    ensures PidSet(Tune(t, i, accepted).pids) <= PidSet(t.pids)
  {
    hide EntriesOk, NoPidTwice, PidSet;
    TuneReaches(t, i, accepted);
    HistoryTuned(t, i, accepted);
    EmptyTableFiltersNothing();
  }

  lemma EntryAdded(kind: Kind, freqs: seq<Frequency>, frequency: int, polarity: char)
    requires EntriesOk(kind, freqs) && InBand(kind, frequency)
    ensures EntriesOk(kind, AddEntry(kind, freqs, frequency, polarity))
    ensures freqs <= AddEntry(kind, freqs, frequency, polarity)
  {
  }

  // ---------------------------------------------------------------- what a step may change

  /** Entries keep their place and identity, and only gain channels. */
  ghost predicate FreqsGrow(freqs: seq<Frequency>, freqs': seq<Frequency>) {
    && |freqs| <= |freqs'|
    && forall i :: 0 <= i < |freqs| ==>
         freqs'[i].frequency == freqs[i].frequency && ChannelsGrow(freqs[i].channels, freqs'[i].channels)
  }

  /** A step of the tuner's own thread: it leaves the users of a referenced tuner
      where they are and filters nothing new but the base PIDs. */
  ghost predicate Keeps(t: Tuner, t': Tuner) {
    && t'.kind == t.kind && t'.refcnt == t.refcnt && (t'.state == Busy <==> t.state == Busy)
    && (t.state == Busy ==> t'.curr == t.curr)
    && FreqsGrow(t.freqs, t'.freqs)
    && forall p :: p in PidSet(t'.pids) ==> p in PidSet(t.pids) || p in BASE_PIDS
  }

  lemma BaseAdded(t: Tuner)
    requires TunerOk(t)
    ensures TunerOk(t.(pids := AddPids(t.pids, BASE_PIDS))) && Keeps(t, t.(pids := AddPids(t.pids, BASE_PIDS)))
  {
    hide EntriesOk, NoPidTwice, PidSet, AddPids;
    AddPidsBounds(t.pids, BASE_PIDS);
  }

  lemma KeepsChain(a: Tuner, b: Tuner, c: Tuner)
    requires Keeps(a, b) && Keeps(b, c)
    ensures Keeps(a, c)
  {
    hide PidSet;
  }

  lemma FrontendIgnoresScan(t: Tuner, id: nat)
    ensures FrontendOk(t.(scanId := id)) == FrontendOk(t) && HistoryOk(t.(scanId := id)) == HistoryOk(t)
  {
  }

  lemma TuneFrame(t: Tuner, i: nat, accepted: bool)
    requires i < |t.freqs|
    ensures var t' := Tune(t, i, accepted);
            && t'.kind == t.kind && t'.refcnt == t.refcnt && t'.state == t.state
            && t'.freqs == t.freqs && t'.scanId == t.scanId
            && t'.lastSequence == t.lastSequence && t.calls <= t'.calls
  {
  }

  lemma ScanKeeps(t: Tuner, tuned: bool)
    requires TunerOk(t)
    ensures TunerOk(ScanTick(t, tuned)) && Keeps(t, ScanTick(t, tuned))
    ensures t.state == Busy ==> ScanTick(t, tuned) == t
  {
    hide EntriesOk, NoPidTwice, PidSet, FrontendOk, AddPids, Tune;
    FrontendIgnoresScan(t, 0);
    if t.kind != OtherKind && t.state == Idle && t.scanId < |t.freqs| {
      TuneOk(t, t.scanId, tuned);
      TuneFrame(t, t.scanId, tuned);
      var t1 := Tune(t, t.scanId, tuned).(scanId := t.scanId + 1);
      FrontendIgnoresScan(Tune(t, t.scanId, tuned), t.scanId + 1);
      BaseAdded(t1);
      KeepsChain(t, t1, t1.(pids := AddPids(t1.pids, BASE_PIDS)));
    }
  }

  /** After the scan moved the frontend, exactly the base PIDs are filtered. */
  lemma ScanFilters(t: Tuner, tuned: bool)
    requires t.kind != OtherKind && t.state == Idle && t.scanId < |t.freqs| && Retunes(t, t.scanId)
    ensures PidSet(ScanTick(t, tuned).pids) ==
            if t.kind == Satellite && !tuned then {} else {0, 1, 0x10, 0x11, 0x12}
  {
    hide PidSet, AddPids;
    EmptyTableFiltersNothing();
    EmptyTableTakes(BASE_PIDS);
    assert (set p | p in BASE_PIDS) == {0, 1, 0x10, 0x11, 0x12};
  }

  lemma TunePids(t: Tuner, i: nat, accepted: bool)
    requires i < |t.freqs| && |t.pids| == MAX_FILTER_PID && NoPidTwice(t.pids)
    ensures |Tune(t, i, accepted).pids| == MAX_FILTER_PID && NoPidTwice(Tune(t, i, accepted).pids)
    ensures PidSet(Tune(t, i, accepted).pids) <= PidSet(t.pids)
  {
    EmptyTableFiltersNothing();
  }

  lemma StartKeeps(t: Tuner, threadRuns: bool, tuned: bool)
    requires TunerOk(t) && t.state == NotStarted && (t.kind == OtherKind || t.freqs != [])
    ensures TunerOk(Start(t, threadRuns, tuned)) && Keeps(t, Start(t, threadRuns, tuned))
  {
    hide EntriesOk, NoPidTwice, PidSet, AddPids, Tune;
    var t1 := t.(state := if threadRuns then Idle else Failed);
    if t.kind == OtherKind {
      BaseAdded(t1);
    } else {
      TuneReaches(t1, 0, tuned);
      HistoryTuned(t1, 0, tuned);
      TuneFrame(t1, 0, tuned);
      TunePids(t1, 0, tuned);
      BaseAdded(Tune(t1, 0, tuned));
      KeepsChain(t, Tune(t1, 0, tuned), Start(t, threadRuns, tuned));
    }
  }

  lemma SyncKeeps(t: Tuner)
    requires TunerOk(t)
    ensures TunerOk(t.(lastSequence := t.sequence)) && Keeps(t, t.(lastSequence := t.sequence))
  {
    hide EntriesOk, NoPidTwice, PidSet;
  }

  lemma EntriesWithChannels(kind: Kind, freqs: seq<Frequency>, c: nat, cs: seq<Channel>)
    requires EntriesOk(kind, freqs) && c < |freqs| && ChannelsOk(cs)
    ensures EntriesOk(kind, freqs[c := freqs[c].(channels := cs)])
  {
    hide ChannelsOk;
  }

  lemma ChannelsKeep(t: Tuner, cs: seq<Channel>)
    requires TunerOk(t) && t.curr.Some? && t.state in {Idle, Busy}
    requires ChannelsOk(cs) && ChannelsGrow(CurrentChannels(t), cs)
    ensures TunerOk(WithChannels(t, cs)) && Keeps(t, WithChannels(t, cs))
  {
    hide NoPidTwice, PidSet, ChannelsOk;
    EntriesWithChannels(t.kind, t.freqs, t.curr.value, cs);
  }

  lemma CurrentOk(t: Tuner)
    requires TunerOk(t) && t.curr.Some?
    ensures t.curr.value < |t.freqs| && ChannelsOk(CurrentChannels(t))
  {
  }

  lemma KeepsItself(t: Tuner)
    ensures Keeps(t, t)
  {
  }

  lemma TablesKeep(t: Tuner, serviceId: nat, pmtPid: int, onid: nat)
    requires TunerOk(t) && t.curr.Some? && t.state in {Idle, Busy}
    ensures TunerOk(AddPAT(t, serviceId, pmtPid)) && Keeps(t, AddPAT(t, serviceId, pmtPid))
    ensures TunerOk(AddSDT(t, serviceId, onid)) && Keeps(t, AddSDT(t, serviceId, onid))
  {
    hide TunerOk, Keeps, AddService, DescribeService, WithChannels, ChannelsOk, ChannelsGrow;
    CurrentOk(t);
    ServicesStayDistinct(CurrentChannels(t), serviceId, pmtPid, onid);
    ChannelsKeep(t, AddService(CurrentChannels(t), serviceId, pmtPid));
    ChannelsKeep(t, DescribeService(CurrentChannels(t), serviceId, onid));
    KeepsItself(t);
  }

  /** Loading and discovery add entries at the end. */
  lemma EntryKeeps(t: Tuner, frequency: int, polarity: char)
    requires TunerOk(t) && InBand(t.kind, frequency)
    ensures var t' := t.(freqs := AddEntry(t.kind, t.freqs, frequency, polarity)); TunerOk(t') && Keeps(t, t')
  {
    hide NoPidTwice, PidSet, EntriesOk;
    EntryAdded(t.kind, t.freqs, frequency, polarity);
    var freqs' := AddEntry(t.kind, t.freqs, frequency, polarity);
    assert forall i :: 0 <= i < |t.freqs| ==> freqs'[i] == t.freqs[i];
  }
}
