/**
 * The allocator as the program runs it: eight tuner objects and a list of live
 * sessions, changed in place. Every method is tied to the step on values.
 */
module SessionServers {
  import opened Common
  import opened TunerModel
  import opened TunerDevices
  import opened AllocatorModel
  import AllocatorSafety

  /** The tuners as values. */
  ghost function Values(ds: seq<TunerDevice>): (r: seq<Tuner>)
    reads ds, set d | d in ds :: d.pids
    ensures |r| == |ds|
    ensures forall k :: 0 <= k < |ds| ==> r[k] == ds[k].Value()
  {
    if ds == [] then [] else Values(ds[..|ds| - 1]) + [ds[|ds| - 1].Value()]
  }

  ghost predicate Separate(ds: seq<TunerDevice>) {
    && (forall k :: 0 <= k < |ds| ==> ds[k].Valid())
    && forall j, k :: 0 <= j < k < |ds| ==> ds[j] != ds[k] && ds[j].pids != ds[k].pids
  }

  /** The channel a session points at exists. */
  ghost predicate Points(tuners: seq<Tuner>, x: Session) {
    && x.tuner < |tuners| && x.chan.entry < |tuners[x.tuner].freqs|
    && x.chan.pos < |tuners[x.tuner].freqs[x.chan.entry].channels|
  }

  ghost predicate Linked(s: Sys) {
    forall i :: 0 <= i < |s.sessions| ==> Points(s.tuners, s.sessions[i])
  }

  // ---------------------------------------------------------------- one tuner at a time

  lemma NoTune(t: Tuner, i: nat, tuned: bool)
    requires t.kind == OtherKind && i < |t.freqs|
    ensures Tune(t, i, tuned) == t
  {
  }

  method Claim(d: TunerDevice, r: ChanRef, tuned: bool)
    requires d.Valid() && r.entry < |d.freqs| && r.pos < |d.freqs[r.entry].channels|
    modifies d, d.pids
    ensures d.Value() == Claimed(old(d.Value()), r, tuned)
  {
    hide AddPids, Tune;
    ghost var t := d.Value();
    d.state := Busy;
    d.refcnt := d.refcnt + 1;
    ghost var t0 := d.Value();
    TuneFrame(t0, r.entry, tuned);
    if d.kind == Satellite {
      var _ := d.DvbsTune(r.entry, tuned);
    } else if d.kind == Terrestrial {
      var _ := d.DvbtTune(r.entry, tuned);
    } else {
      NoTune(t0, r.entry, tuned);
    }
    d.AddFilters([0, 0x10, 0x11, 0x12, d.freqs[r.entry].channels[r.pos].pmtPid]);
  }

  method Join(d: TunerDevice, r: ChanRef)
    requires d.Valid() && r.entry < |d.freqs| && r.pos < |d.freqs[r.entry].channels|
    modifies d, d.pids
    ensures d.Value() == Joined(old(d.Value()), r)
  {
    d.refcnt := d.refcnt + 1;
    var _ := d.AddPidToDemux(d.freqs[r.entry].channels[r.pos].pmtPid);
  }

  /** The entry and the channel of a program, each by its own search. */
  method LookUp(d: TunerDevice, onid: nat, channelId: nat) returns (db: Option<nat>, chan: Option<ChanRef>)
    requires IdsFit(d.freqs) && Fits16(onid) && Fits16(channelId)
    ensures chan == ChannelOf(d.freqs, onid, channelId)
    ensures db == if chan.Some? then Some(chan.value.entry) else None
  {
    hide IdsFit, FirstPlace, ChannelOf;
    db := d.GetFrequencyForTuner(onid, channelId);
    chan := d.GetChannelByNumber(onid, channelId);
  }

  /** Zero when a tuner already stands on the entry's frequency, else negative. */
  function Compare(d: TunerDevice, entry: nat): (rc: int)
    requires entry < |d.freqs|
    reads d, d.pids
    ensures rc >= 0 <==> OnEntry(d.Value(), entry)
  {
    if d.curr.Some? && d.curr.value < |d.freqs| && SameEntry(d.kind, d.freqs[entry], d.freqs[d.curr.value]) then 0
    else -1
  }

  /** Takes a session's PIDs off its tuner and drops the reference. */
  method Release(d: TunerDevice, x: Session)
    requires d.Valid() && x.chan.entry < |d.freqs| && x.chan.pos < |d.freqs[x.chan.entry].channels|
    modifies d, d.pids
    ensures d.Value() == Released(old(d.Value()), x)
  {
    ghost var t := d.Value();
    d.RemovePidFromDemux(d.freqs[x.chan.entry].channels[x.chan.pos].pmtPid);
    RemovePidsStep(t.pids, [], PmtPid(t, x.chan));
    assert [] + [PmtPid(t, x.chan)] == SessionPids(t, x)[..1];
    for z := 0 to |x.pids|
      invariant d.Value() == t.(pids := RemovePids(t.pids, SessionPids(t, x)[..z + 1]))
    {
      d.RemovePidFromDemux(x.pids[z]);
      RemovePidsStep(t.pids, SessionPids(t, x)[..z + 1], x.pids[z]);
      assert SessionPids(t, x)[..z + 1] + [x.pids[z]] == SessionPids(t, x)[..z + 2];
    }
    assert SessionPids(t, x)[..|x.pids| + 1] == SessionPids(t, x);
    d.refcnt := d.refcnt - 1;
    if d.refcnt <= 0 {
      d.state := Idle;
    }
  }

  // ---------------------------------------------------------------- destination lists

  lemma PruneStart(dests: seq<Dest>, keep: Dest -> bool)
    ensures Filter(dests[..0], keep) == [] && Filter(dests[..0], keep) + dests[0..] == dests
  {
  }

  lemma PruneStep(dests: seq<Dest>, keep: Dest -> bool, seen: nat)
    requires seen < |dests|
    ensures Filter(dests[..seen + 1], keep) ==
            Filter(dests[..seen], keep) + if keep(dests[seen]) then [dests[seen]] else []
    ensures Filter(dests[..seen], keep) + dests[seen..] ==
            Filter(dests[..seen], keep) + [dests[seen]] + dests[seen + 1..]
  {
    assert dests[..seen + 1][..seen] == dests[..seen];
  }

  /** Walks a destination list and unlinks what should not stay. */
  method Prune(dests: seq<Dest>, keep: Dest -> bool) returns (left: seq<Dest>)
    ensures left == Filter(dests, keep)
  {
    hide Filter;
    left := dests;
    var at := 0;
    ghost var seen := 0;
    PruneStart(dests, keep);
    while at < |left|
      invariant seen <= |dests|
      invariant at == |Filter(dests[..seen], keep)|
      invariant left == Filter(dests[..seen], keep) + dests[seen..]
      decreases |left| - at
    {
      PruneStep(dests, keep, seen);
      if !keep(left[at]) {
        left := left[..at] + left[at + 1..];
      } else {
        at := at + 1;
      }
      seen := seen + 1;
    }
    assert dests[..|dests|] == dests;
  }

  lemma CloseTypeStep(sessions: seq<Session>, i: nat, kind: DestKind, left: seq<Dest>)
    requires i < |sessions| && left == Filter(sessions[i].dests, OtherThan(kind))
    ensures var r := CloseType(sessions[..i], kind);
            && |r| == i
            && (r + sessions[i..])[i := sessions[i].(dests := left)]
               == CloseType(sessions[..i + 1], kind) + sessions[i + 1..]
  {
    assert sessions[..i + 1][..i] == sessions[..i];
  }

  lemma CloseTypeKeeps(sessions: seq<Session>, kind: DestKind)
    ensures AllocatorSafety.SameButDests(sessions, CloseType(sessions, kind))
  {
  }

  // ---------------------------------------------------------------- program maps

  lemma {:induction false} NewPidsGrow(known: seq<int>, pids: seq<int>, k: nat)
    requires k <= |pids|
    ensures |NewPids(known, pids[..k])| <= |NewPids(known, pids)|
    decreases |pids|
  {
    if k < |pids| {
      NewPidsGrow(known, pids[..|pids| - 1], k);
      assert pids[..|pids| - 1][..k] == pids[..k];
    } else {
      assert pids[..k] == pids;
    }
  }

  lemma NewPidsStep(known: seq<int>, pids: seq<int>, p: int)
    ensures NewPids(known, pids + [p]) == NewPids(known, pids) + NewPids(known + NewPids(known, pids), [p])
  {
    assert (pids + [p])[..|pids + [p]| - 1] == pids;
    assert [p][..0] == [];
    assert NewPids(known + NewPids(known, pids), []) == [];
  }

  lemma AddPidsTogether(pids: seq<int>, a: seq<int>, b: seq<int>)
    requires |b| <= 1
    ensures AddPids(AddPids(pids, a), b) == AddPids(pids, a + b)
  {
    if b == [] {
      assert a + b == a;
    } else {
      AddPidsStep(pids, a, b[0]);
      AddPidsStep(AddPids(pids, a), [], b[0]);
      assert [] + [b[0]] == b;
    }
  }

  lemma OneNewPid(known: seq<int>, p: int)
    ensures NewPids(known, [p]) == if p in known then [] else [p]
  {
    assert [p][..0] == [];
    assert NewPids(known, []) == [];
  }

  lemma AddMapStep(s: Sys, i: nat, pids: seq<int>, p: int)
    requires i < |s.sessions| && s.sessions[i].tuner < |s.tuners|
    ensures AddMap(s, i, pids + [p]) == AddMap(AddMap(s, i, pids), i, [p])
  {
    hide NewPids, AddPids;
    var x := s.sessions[i];
    var t := s.tuners[x.tuner];
    var news := NewPids(x.pids, pids);
    var more := NewPids(x.pids + news, [p]);
    NewPidsStep(x.pids, pids, p);
    assert |more| <= 1 by { OneNewPid(x.pids + news, p); }
    AddPidsTogether(t.pids, news, more);
    assert x.pids + news + more == x.pids + (news + more);
    var mid := AddMap(s, i, pids);
    assert mid.tuners[x.tuner := mid.tuners[x.tuner].(pids := AddPids(t.pids, news + more))]
        == s.tuners[x.tuner := t.(pids := AddPids(t.pids, news + more))];
  }

  lemma MapKeepsCount(s: Sys, i: nat, pids: seq<int>)
    requires i < |s.sessions| && s.sessions[i].tuner < |s.tuners|
    ensures |AddMap(s, i, pids).sessions| == |s.sessions|
  {
  }

  lemma NoNewPids(s: Sys, i: nat)
    requires i < |s.sessions| && s.sessions[i].tuner < |s.tuners|
    ensures AddMap(s, i, []) == s
  {
    var x := s.sessions[i];
    assert x.pids + [] == x.pids;
    assert s.tuners[x.tuner := s.tuners[x.tuner]] == s.tuners;
    assert s.sessions[i := x] == s.sessions;
  }

  lemma AddMapOfOne(s: Sys, i: nat, pid: int)
    requires i < |s.sessions| && s.sessions[i].tuner < |s.tuners|
    ensures var x, t := s.sessions[i], s.tuners[s.sessions[i].tuner];
            AddMap(s, i, [pid]) ==
            if pid in x.pids then s
            else Sys(s.tuners[x.tuner := t.(pids := AddPid(t.pids, pid))],
                     s.sessions[i := x.(pids := x.pids + [pid])])
  {
    OneNewPid(s.sessions[i].pids, pid);
    NoNewPids(s, i);
    AddPidsStep(s.tuners[s.sessions[i].tuner].pids, [], pid);
    assert [] + [pid] == [pid];
  }

  /** While a map that fits is read, the list is never full, or the PID is known. */
  lemma RoomForNext(s: Sys, i: nat, pids: seq<int>, k: nat)
    requires i < |s.sessions| && s.sessions[i].tuner < |s.tuners| && k < |pids|
    requires |s.sessions[i].pids + NewPids(s.sessions[i].pids, pids)| <= MAX_SESSION_PIDS
    ensures var x := AddMap(s, i, pids[..k]).sessions[i]; pids[k] in x.pids || |x.pids| < MAX_SESSION_PIDS
  {
    var known := s.sessions[i].pids;
    NewPidsGrow(known, pids, k + 1);
    assert pids[..k + 1] == pids[..k] + [pids[k]];
    NewPidsStep(known, pids[..k], pids[k]);
    OneNewPid(known + NewPids(known, pids[..k]), pids[k]);
  }

  // ---------------------------------------------------------------- the server

  /** The packets a session is after. */
  ghost predicate Wants(s: Sys, i: nat, pid: nat)
    requires i < |s.sessions| && Points(s.tuners, s.sessions[i])
  {
    var x := s.sessions[i];
    pid in {0, 0x10, 0x11, 0x12} || Low16(PmtPid(s.tuners[x.tuner], x.chan)) == Low16(pid) || pid in x.pids
  }

  lemma {:induction false} PickPoints(tuners: seq<Tuner>, onid: int, channelId: int, k: nat)
    requires k <= |tuners|
    ensures var p := PickTuner(tuners, onid, channelId, k);
            !p.NoTuner? ==> p.chan.pos < |tuners[p.tuner].freqs[p.chan.entry].channels|
    decreases |tuners| - k
  {
    if k < |tuners| {
      PickPoints(tuners, onid, channelId, k + 1);
    }
  }

  lemma LinkedAfterPlace(s: Sys, pick: Pick, onid: nat, channelId: nat, dest: Dest, newId: nat, tuned: bool)
    requires Linked(s) && pick == PickTuner(s.tuners, onid, channelId, 0) && !pick.NoTuner?
    ensures Linked(Place(s, pick, onid, channelId, dest, newId, tuned))
  {
    PickPoints(s.tuners, onid, channelId, 0);
    if pick.Fresh? {
      TuneFrame(s.tuners[pick.tuner].(state := Busy, refcnt := s.tuners[pick.tuner].refcnt + 1), pick.chan.entry, tuned);
    }
  }

  lemma PointsAt(s: Sys, i: nat)
    requires Linked(s) && i < |s.sessions|
    ensures Points(s.tuners, s.sessions[i])
  {
  }

  /** Destinations do not matter to where sessions point. */
  lemma LinkedWithDests(s: Sys, sessions: seq<Session>)
    requires Linked(s) && AllocatorSafety.SameButDests(s.sessions, sessions)
    ensures Linked(s.(sessions := sessions))
  {
  }

  lemma LinkedAfterRemoval(s: Sys, i: nat)
    requires Linked(s) && i < |s.sessions| && s.sessions[i].tuner < |s.tuners|
    ensures Linked(RemoveSession(s, i))
  {
  }

  lemma LinkedAfterMap(s: Sys, i: nat, pids: seq<int>)
    requires Linked(s) && i < |s.sessions| && s.sessions[i].tuner < |s.tuners|
    ensures Linked(AddMap(s, i, pids))
  {
  }

  class SessionServer {
    const tuners: seq<TunerDevice>
    var sessions: seq<Session>

    ghost predicate Valid()
      reads this, tuners, set d | d in tuners :: d.pids
    {
      |tuners| == MAX_DVB_DEVICES && Separate(tuners) && Linked(Value())
    }

    ghost function Value(): Sys
      reads this, tuners, set d | d in tuners :: d.pids
    {
      Sys(Values(tuners), sessions)
    }

    constructor (kinds: seq<Kind>)
      requires |kinds| == MAX_DVB_DEVICES
      ensures Valid() && fresh(tuners) && fresh(set d | d in tuners :: d.pids) && Initial(Value())
      ensures forall k :: 0 <= k < |tuners| ==> tuners[k].kind == kinds[k]
    {
      var ds := [];
      for k := 0 to |kinds|
        invariant |ds| == k && Separate(ds) && fresh(ds) && fresh(set d | d in ds :: d.pids)
        invariant forall j :: 0 <= j < k ==> FreshTuner(ds[j].Value()) && ds[j].kind == kinds[j]
      {
        var d := new TunerDevice(kinds[k]);
        ds := ds + [d];
      }
      tuners, sessions := ds, [];
    }

    method LetGo(k: nat, x: Session)
      requires k < |tuners| && Separate(tuners)
      requires x.chan.entry < |tuners[k].freqs| && x.chan.pos < |tuners[k].freqs[x.chan.entry].channels|
      modifies tuners[k], tuners[k].pids
      ensures Values(tuners) == old(Values(tuners))[k := Released(old(tuners[k].Value()), x)]
    {
      hide Released;
      ghost var ts := Values(tuners);
      Release(tuners[k], x);
      assert Values(tuners) == ts[k := tuners[k].Value()];
    }

    /** Drops session `i` and its hold on the tuner. */
    method EndSession(i: nat)
      requires Valid() && i < |sessions|
      modifies this, tuners, set d | d in tuners :: d.pids
      ensures Valid() && Value() == RemoveSession(old(Value()), i)
    {
      hide Released, Linked;
      ghost var s := Value();
      var x := sessions[i];
      PointsAt(s, i);
      LetGo(x.tuner, x);
      sessions := sessions[..i] + sessions[i + 1..];
      LinkedAfterRemoval(s, i);
    }

    /** Stops a session by its number. */
    method StopSession(id: nat) returns (rc: int)
      requires Valid()
      modifies this, tuners, set d | d in tuners :: d.pids
      ensures Valid() && Value() == Stop(old(Value()), id)
      ensures rc == if exists x :: x in old(sessions) && x.id == id then 0 else -1
    {
      for i := 0 to |sessions|
        invariant Valid() && Value() == old(Value())
        invariant forall k :: 0 <= k < i ==> sessions[k].id != id
      {
        if sessions[i].id == id {
          FirstById(sessions, id, i);
          assert Points(Value().tuners, sessions[i]);
          EndSession(i);
          return 0;
        }
      }
      rc := -1;
    }

    /** One pass of the session thread: sessions without destinations end. */
    method ReapPass()
      requires Valid()
      modifies this, tuners, set d | d in tuners :: d.pids
      ensures Valid() && Value() == Reap(old(Value()), 0)
    {
      hide Separate, Values, RemoveSession, Linked;
      var at := 0;
      while at < |sessions|
        invariant Valid() && at <= |sessions|
        invariant Reap(old(Value()), 0) == Reap(Value(), at)
        decreases |sessions| - at
      {
        if |sessions[at].dests| == 0 {
          PointsAt(Value(), at);
          AllocatorSafety.RemovalShortens(Value(), at);
          EndSession(at);
        } else {
          at := at + 1;
        }
      }
    }

    /** Closes every destination of a kind, in every session. */
    method StopType(kind: DestKind)
      requires Valid()
      modifies this`sessions
      ensures Valid() && Value() == old(Value()).(sessions := CloseType(old(sessions), kind))
    {
      hide Linked, Values, Separate, OtherThan, CloseType, Filter, OfKind;
      ghost var was := sessions;
      for i := 0 to |sessions|
        invariant |sessions| == |was|
        invariant sessions == CloseType(was[..i], kind) + was[i..]
      {
        assert sessions[i] == was[i];
        var left := Prune(sessions[i].dests, OtherThan(kind));
        CloseTypeStep(was, i, kind, left);
        sessions := sessions[i := sessions[i].(dests := left)];
      }
      assert was[..|was|] == was;
      CloseTypeKeeps(was, kind);
      LinkedWithDests(old(Value()), sessions);
    }

    /** Unlinks the expired destinations of a session. */
    method RetireExpired(i: nat)
      requires Valid() && i < |sessions|
      modifies this`sessions
      ensures Valid()
      ensures Value() == old(Value()).(sessions := old(sessions)[i := Retired(old(sessions)[i])])
    {
      hide Linked, Values, Separate;
      var left := Prune(sessions[i].dests, NotExpired());
      sessions := sessions[i := sessions[i].(dests := left)];
      LinkedWithDests(old(Value()), sessions);
    }

    /** Somebody else is done with a destination. */
    method MarkExpired(i: nat, which: nat)
      requires Valid() && i < |sessions| && which < |sessions[i].dests|
      modifies this`sessions
      ensures Valid() && Value() == Apply(old(Value()), Expire(i, which))
    {
      hide Linked, Values, Separate;
      var ds := sessions[i].dests;
      sessions := sessions[i := sessions[i].(dests := ds[which := ds[which].(expired := true)])];
      LinkedWithDests(old(Value()), sessions);
    }

    /** Adds a PID to a session unless the session lists it. */
    method AddSessionPid(i: nat, pid: int)
      requires Valid() && i < |sessions|
      requires pid in sessions[i].pids || |sessions[i].pids| < MAX_SESSION_PIDS
      modifies this, tuners, set d | d in tuners :: d.pids
      ensures Valid() && Value() == AddMap(old(Value()), i, [pid])
    {
      hide AddMap, Linked;
      ghost var s := Value();
      var x := sessions[i];
      PointsAt(s, i);
      AddMapOfOne(s, i, pid);
      for z := 0 to |x.pids|
        invariant forall k :: 0 <= k < z ==> x.pids[k] != pid
      {
        if x.pids[z] == pid {
          return;
        }
      }
      var d := tuners[x.tuner];
      var _ := d.AddPidToDemux(pid);
      sessions := sessions[i := x.(pids := x.pids + [pid])];
      assert Values(tuners) == s.tuners[x.tuner := d.Value()];
      LinkedAfterMap(s, i, [pid]);
    }

    /** A program map names the session's streams. */
    method ProcessPmt(i: nat, pids: seq<int>)
      requires Valid() && i < |sessions|
      requires |sessions[i].pids + NewPids(sessions[i].pids, pids)| <= MAX_SESSION_PIDS
      modifies this, tuners, set d | d in tuners :: d.pids
      ensures Valid() && Value() == AddMap(old(Value()), i, pids)
    {
      hide NewPids, AddMap, Linked, Separate, Values;
      ghost var s := Value();
      PointsAt(s, i);
      NoNewPids(s, i);
      for k := 0 to |pids|
        invariant Valid() && i < |sessions| && Value() == AddMap(s, i, pids[..k])
      {
        RoomForNext(s, i, pids, k);
        AddSessionPid(i, pids[k]);
        AddMapStep(s, i, pids[..k], pids[k]);
        assert pids[..k] + [pids[k]] == pids[..k + 1];
        MapKeepsCount(s, i, pids[..k + 1]);
      }
      assert pids[..|pids|] == pids;
    }

    /** Whether any tuner has found the program. */
    method CanServe(onid: nat, channelId: nat) returns (served: bool)
      requires Valid()
      ensures served == Servable(Value().tuners, onid, channelId)
    {
      served := false;
      for k := 0 to |tuners|
        invariant forall j :: 0 <= j < k ==> Matches(Value().tuners[j].freqs, onid, channelId) == 0
      {
        var ok := tuners[k].IsProgramValid(onid, channelId);
        assert Value().tuners[k].freqs == tuners[k].freqs;
        if ok >= 0 {
          return true;
        }
      }
    }

    /** The session of a program, if there is one. */
    method FindSession(onid: nat, channelId: nat) returns (at: nat)
      ensures at == SessionFor(sessions, onid, channelId)
    {
      at := 0;
      while at < |sessions|
        invariant at <= |sessions|
        invariant forall k :: 0 <= k < at ==> sessions[k].onid != onid || sessions[k].channelId != channelId
      {
        if sessions[at].onid == onid && sessions[at].channelId == channelId {
          return;
        }
        at := at + 1;
      }
    }

    method TakeFree(k: nat, r: ChanRef, tuned: bool)
      requires k < |tuners| && Separate(tuners)
      requires r.entry < |tuners[k].freqs| && r.pos < |tuners[k].freqs[r.entry].channels|
      modifies tuners[k], tuners[k].pids
      ensures Values(tuners) == old(Values(tuners))[k := Claimed(old(tuners[k].Value()), r, tuned)]
    {
      hide Claimed;
      ghost var ts := Values(tuners);
      Claim(tuners[k], r, tuned);
      assert Values(tuners) == ts[k := tuners[k].Value()];
    }

    method Share(k: nat, r: ChanRef)
      requires k < |tuners| && Separate(tuners)
      requires r.entry < |tuners[k].freqs| && r.pos < |tuners[k].freqs[r.entry].channels|
      modifies tuners[k], tuners[k].pids
      ensures Values(tuners) == old(Values(tuners))[k := Joined(old(tuners[k].Value()), r)]
    {
      hide Joined;
      ghost var ts := Values(tuners);
      Join(tuners[k], r);
      assert Values(tuners) == ts[k := tuners[k].Value()];
    }

    /** Walks the tuners in order and claims or joins the first that will do. */
    method Allocate(onid: nat, channelId: nat, tuned: bool) returns (pick: Pick)
      requires Valid() && Fits16(onid) && Fits16(channelId)
      requires forall k :: 0 <= k < |tuners| ==> IdsFit(tuners[k].freqs)
      modifies tuners, set d | d in tuners :: d.pids
      ensures pick == PickTuner(old(Value()).tuners, onid, channelId, 0)
      ensures pick.NoTuner? ==> Value() == old(Value())
      ensures !pick.NoTuner? ==>
                && pick.tuner < |tuners| && pick.chan.entry < |old(Value()).tuners[pick.tuner].freqs|
                && Values(tuners) == old(Value()).tuners[pick.tuner :=
                     if pick.Fresh? then Claimed(old(Value()).tuners[pick.tuner], pick.chan, tuned)
                     else Joined(old(Value()).tuners[pick.tuner], pick.chan)]
    {
      hide Claimed, Joined, ChannelOf, IdsFit, Linked, OnEntry, Separate, Values;
      ghost var s := Value();
      for k := 0 to |tuners|
        invariant Value() == s
        invariant PickTuner(s.tuners, onid, channelId, 0) == PickTuner(s.tuners, onid, channelId, k)
      {
        var d := tuners[k];
        assert s.tuners[k] == d.Value();
        var db, chan := LookUp(d, onid, channelId);
        if db.None? || chan.None? {
          continue;
        }
        if d.refcnt == 0 {
          TakeFree(k, chan.value, tuned);
          return Fresh(k, chan.value);
        } else if Compare(d, db.value) >= 0 {
          Share(k, chan.value);
          return Shared(k, chan.value);
        }
      }
      pick := NoTuner;
    }

    /** Live output of a kind stops before it starts again. */
    method ClearLive(dest: Dest)
      requires Valid()
      modifies this`sessions
      ensures Valid()
      ensures Value() == old(Value()).(sessions := WithoutLive(old(sessions), dest))
    {
      hide Linked, Values, Separate, CloseType;
      if dest.kind == Live {
        StopType(Live);
      }
      if dest.kind == Live2 {
        StopType(Live2);
      }
    }

    /** A new session on the first tuner that will do. */
    method StartSession(onid: nat, channelId: nat, dest: Dest, newId: nat, tuned: bool) returns (pick: Pick)
      requires Valid() && Fits16(onid) && Fits16(channelId)
      requires forall k :: 0 <= k < |tuners| ==> IdsFit(tuners[k].freqs)
      modifies this, tuners, set d | d in tuners :: d.pids
      ensures Valid() && pick == PickTuner(old(Value()).tuners, onid, channelId, 0)
      ensures Value() == Place(old(Value()), pick, onid, channelId, dest, newId, tuned)
    {
      hide Linked, PickTuner, Values, Claimed, Joined, IdsFit;
      ghost var s := Value();
      pick := Allocate(onid, channelId, tuned);
      if pick.NoTuner? {
        return;
      }
      sessions := sessions + [Session(newId, pick.tuner, onid, channelId, pick.chan, [], [dest])];
      assert Value() == Place(s, pick, onid, channelId, dest, newId, tuned);
      LinkedAfterPlace(s, pick, onid, channelId, dest, newId, tuned);
    }

    /** Starts a session, or adds the destination to the one there is. */
    method AddSession(onid: nat, channelId: nat, dest: Dest, newId: nat, tuned: bool) returns (rc: nat)
      requires Valid() && Fits16(onid) && Fits16(channelId)
      requires forall k :: 0 <= k < |tuners| ==> IdsFit(tuners[k].freqs)
      modifies this, tuners, set d | d in tuners :: d.pids
      ensures Valid()
      ensures (Value(), rc) == AddNew(old(Value()), onid, channelId, dest, newId, tuned)
    {
      hide Linked, PickTuner, Place, Values, Separate, WithoutLive, Servable, IdsFit;
      var served := CanServe(onid, channelId);
      if !served {
        return 0;
      }
      ClearLive(dest);
      var at := FindSession(onid, channelId);
      if at < |sessions| {
        ghost var s := Value();
        rc := sessions[at].id;
        sessions := sessions[at := sessions[at].(dests := sessions[at].dests + [dest])];
        LinkedWithDests(s, sessions);
      } else {
        var pick := StartSession(onid, channelId, dest, newId, tuned);
        rc := if pick.NoTuner? then 0 else newId;
      }
    }

    /** Whether a session takes packets of that PID. */
    method IsPidMine(i: nat, pid: nat) returns (rc: int)
      requires Valid() && i < |sessions|
      ensures rc == if Wants(Value(), i, pid) then 0 else -1
    {
      var x := sessions[i];
      PointsAt(Value(), i);
      rc := if pid == 0 || pid == 0x10 || pid == 0x11 || pid == 0x12 then 0 else -1;
      if Low16(tuners[x.tuner].freqs[x.chan.entry].channels[x.chan.pos].pmtPid) == Low16(pid) {
        rc := 0;
      }
      if rc == -1 {
        for a := 0 to |x.pids|
          invariant rc == -1 && pid !in x.pids[..a]
        {
          if x.pids[a] == pid {
            rc := 0;
            break;
          }
        }
      }
    }

    /** Hands a packet of tuner `k` round: the sessions that receive it. */
    method Recipients(k: nat, pid: nat) returns (takers: seq<nat>)
      requires Valid() && k < |tuners|
      ensures forall i: nat :: i in takers <==>
                && i < |sessions| && sessions[i].tuner == k
                && Points(Value().tuners, sessions[i]) && Wants(Value(), i, pid)
      ensures forall i, j :: 0 <= i < j < |takers| ==> takers[i] < takers[j]
    {
      hide Wants, Values;
      takers := [];
      for at := 0 to |sessions|
        invariant forall i: nat :: i in takers <==>
          i < at && sessions[i].tuner == k && Points(Value().tuners, sessions[i]) && Wants(Value(), i, pid)
        invariant forall i, j :: 0 <= i < j < |takers| ==> takers[i] < takers[j]
      {
        PointsAt(Value(), at);
        if sessions[at].tuner != k {
          continue;
        }
        var mine := IsPidMine(at, pid);
        if mine < 0 {
          continue;
        }
        assert forall i :: 0 <= i < |takers| ==> takers[i] in takers;
        takers := takers + [at];
      }
    }
  }
}
