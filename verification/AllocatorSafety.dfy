/**
 * What every run of the allocator keeps: sessions stay on their frequency,
 * reference counts are conserved, programs are not served twice, and the filter
 * tables hold nothing without an owner.
 */
module AllocatorSafety {
  import opened Common
  import opened TunerModel
  import opened AllocatorModel

  // ---------------------------------------------------------------- the invariant

  /** The sessions bound to tuner `k`. */
  function UsersOf(sessions: seq<Session>, k: nat): (n: nat)
    ensures n <= |sessions|
  {
    if sessions == [] then 0
    else UsersOf(sessions[..|sessions| - 1], k) + (if sessions[|sessions| - 1].tuner == k then 1 else 0)
  }

  /** The session's channel is in the channel list of the entry its tuner is set
      to, and it is the channel the session was asked for. */
  ghost predicate OnFrequency(tuners: seq<Tuner>, x: Session) {
    && x.tuner < |tuners|
    && var t := tuners[x.tuner];
       && t.kind != OtherKind && t.curr == Some(x.chan.entry) && x.chan.entry < |t.freqs|
       && x.chan.pos < |t.freqs[x.chan.entry].channels|
       && t.freqs[x.chan.entry].channels[x.chan.pos].serviceId == x.channelId
  }

  /** `p` belongs to a live session on tuner `k`. */
  ghost predicate Owned(s: Sys, k: nat, p: int)
    requires k < |s.tuners|
  {
    exists i :: 0 <= i < |s.sessions| && s.sessions[i].tuner == k && p in SessionPids(s.tuners[k], s.sessions[i])
  }

  /** Tuner `k` filters base PIDs and the PIDs of its sessions, nothing else. */
  ghost predicate NoLeftovers(s: Sys, k: nat)
    requires k < |s.tuners|
  {
    forall p :: p in PidSet(s.tuners[k].pids) ==> p in BASE_PIDS || Owned(s, k, p)
  }

  ghost predicate ServedOnce(sessions: seq<Session>) {
    forall i, j :: 0 <= i < j < |sessions| ==>
      sessions[i].onid != sessions[j].onid || sessions[i].channelId != sessions[j].channelId
  }

  ghost predicate RefCounted(s: Sys, k: nat)
    requires k < |s.tuners|
  {
    var t := s.tuners[k];
    t.refcnt == UsersOf(s.sessions, k) && (t.state == Busy <==> t.refcnt > 0)
  }

  ghost predicate Inv(s: Sys) {
    && |s.tuners| == MAX_DVB_DEVICES
    && (forall k :: 0 <= k < |s.tuners| ==> TunerOk(s.tuners[k]) && RefCounted(s, k) && NoLeftovers(s, k))
    && (forall i :: 0 <= i < |s.sessions| ==>
          OnFrequency(s.tuners, s.sessions[i]) && |s.sessions[i].pids| <= MAX_SESSION_PIDS)
    && ServedOnce(s.sessions)
  }

  // ---------------------------------------------------------------- counting users

  lemma {:induction false} UserCounts(sessions: seq<Session>, i: nat)
    requires i < |sessions|
    ensures UsersOf(sessions, sessions[i].tuner) > 0
  {
    var n := |sessions| - 1;
    if i < n {
      assert sessions[..n][i] == sessions[i];
      UserCounts(sessions[..n], i);
    }
  }

  lemma {:induction false} UsersWithout(sessions: seq<Session>, i: nat, k: nat)
    requires i < |sessions|
    ensures UsersOf(sessions[..i] + sessions[i + 1..], k) ==
            UsersOf(sessions, k) - (if sessions[i].tuner == k then 1 else 0)
  {
    var n := |sessions| - 1;
    var w := sessions[..i] + sessions[i + 1..];
    if i == n {
      assert w == sessions[..n];
    } else {
      assert w[..|w| - 1] == sessions[..n][..i] + sessions[..n][i + 1..];
      assert w[|w| - 1] == sessions[n];
      UsersWithout(sessions[..n], i, k);
    }
  }

  lemma {:induction false} UsersSame(a: seq<Session>, b: seq<Session>, k: nat)
    requires |a| == |b| && forall i :: 0 <= i < |a| ==> a[i].tuner == b[i].tuner
    ensures UsersOf(a, k) == UsersOf(b, k)
  {
    if a != [] {
      UsersSame(a[..|a| - 1], b[..|b| - 1], k);
    }
  }

  lemma UsersExtended(sessions: seq<Session>, x: Session, k: nat)
    ensures UsersOf(sessions + [x], k) == UsersOf(sessions, k) + (if x.tuner == k then 1 else 0)
  {
    assert (sessions + [x])[..|sessions|] == sessions;
  }

  // ---------------------------------------------------------------- steps of a tuner's own thread

  /** A session is not disturbed by what its tuner's thread may do. */
  lemma StaysOnFrequency(t: Tuner, t': Tuner, tuners: seq<Tuner>, k: nat, x: Session)
    requires k < |tuners| && tuners[k] == t && Keeps(t, t') && TunerOk(t')
    requires OnFrequency(tuners, x) && (x.tuner == k ==> t.state == Busy)
    ensures OnFrequency(tuners[k := t'], x)
    ensures x.tuner == k ==> SessionPids(t', x) == SessionPids(t, x)
  {
    hide PidSet, TunerOk;
    if x.tuner == k {
      assert ChannelsGrow(t.freqs[x.chan.entry].channels, t'.freqs[x.chan.entry].channels);
    }
  }

  lemma TunerStepKeepsInv(s: Sys, k: nat, t': Tuner)
    requires Inv(s) && k < |s.tuners| && TunerOk(t') && Keeps(s.tuners[k], t')
    ensures Inv(s.(tuners := s.tuners[k := t']))
  {
    hide PidSet, TunerOk, SessionPids, FreqsGrow, ServedOnce;
    var t, s' := s.tuners[k], s.(tuners := s.tuners[k := t']);
    forall i | 0 <= i < |s.sessions|
      ensures OnFrequency(s'.tuners, s.sessions[i])
      ensures s.sessions[i].tuner == k ==> SessionPids(t', s.sessions[i]) == SessionPids(t, s.sessions[i])
    {
      UserCounts(s.sessions, i);
      assert RefCounted(s, s.sessions[i].tuner);
      StaysOnFrequency(t, t', s.tuners, k, s.sessions[i]);
    }
    forall j | 0 <= j < |s'.tuners|
      ensures TunerOk(s'.tuners[j]) && RefCounted(s', j) && NoLeftovers(s', j)
    {
      assert RefCounted(s, j) && NoLeftovers(s, j);
      forall p | p in PidSet(s'.tuners[j].pids) && p !in BASE_PIDS
        ensures Owned(s', j, p)
      {
        assert Owned(s, j, p);
        var i :| 0 <= i < |s.sessions| && s.sessions[i].tuner == j && p in SessionPids(s.tuners[j], s.sessions[i]);
        assert p in SessionPids(s'.tuners[j], s'.sessions[i]);
      }
    }
  }

  lemma TunerAfterKeeps(t: Tuner, e: Event)
    requires TunerOk(t) && TunerAfter(t, e).Some?
    ensures TunerOk(TunerAfter(t, e).value) && Keeps(t, TunerAfter(t, e).value)
  {
    hide TunerOk, Keeps, Start, ScanTick, AddEntry, AddPAT, AddSDT;
    match e {
      case Load(_, frequency, polarity) => EntryKeeps(t, frequency, polarity);
      case StartTuner(_, threadRuns, tuned) => StartKeeps(t, threadRuns, tuned);
      case Scan(_, tuned) => ScanKeeps(t, tuned);
      case Sync(_) => SyncKeeps(t);
      case Pat(_, serviceId, pmtPid) => TablesKeep(t, serviceId, pmtPid, 0);
      case Sdt(_, serviceId, onid) => TablesKeep(t, serviceId, 0, onid);
      case Nit(_, frequency, polarity) =>
        KeepsItself(t);
        EntryKeeps(t, frequency, polarity);
      case _ =>
    }
  }

  // ---------------------------------------------------------------- steps that touch only destinations

  /** Sessions that differ in their destinations alone. */
  ghost predicate SameButDests(a: seq<Session>, b: seq<Session>) {
    |a| == |b| && forall i :: 0 <= i < |a| ==> b[i] == a[i].(dests := b[i].dests)
  }

  lemma DestsKeepInv(s: Sys, sessions: seq<Session>)
    requires Inv(s) && SameButDests(s.sessions, sessions)
    ensures Inv(s.(sessions := sessions))
  {
    hide PidSet, TunerOk;
    var s' := s.(sessions := sessions);
    forall k | 0 <= k < |s.tuners|
      ensures RefCounted(s', k) && NoLeftovers(s', k)
    {
      UsersSame(s.sessions, sessions, k);
      assert RefCounted(s, k) && NoLeftovers(s, k);
      forall p | Owned(s, k, p)
        ensures Owned(s', k, p)
      {
        var i :| 0 <= i < |s.sessions| && s.sessions[i].tuner == k && p in SessionPids(s.tuners[k], s.sessions[i]);
        assert p in SessionPids(s.tuners[k], sessions[i]);
      }
    }
  }

  // ---------------------------------------------------------------- starting a session

  /** What placing a new session does to its tuner. */
  ghost predicate Takes(t: Tuner, t': Tuner, x: Session) {
    && t'.kind == t.kind && t'.freqs == t.freqs && t'.refcnt == t.refcnt + 1 && t'.state == Busy
    && (t.state == Busy ==> t'.curr == t.curr)
    && (forall p :: p in PidSet(t'.pids) ==> p in PidSet(t.pids) || p in BASE_PIDS || p == PmtPid(t', x.chan))
  }

  /** The new session owns the one PID that is new. */
  lemma AddedOwners(s: Sys, k: nat, t': Tuner, x: Session, j: nat)
    requires k < |s.tuners| && j < |s.tuners| && Takes(s.tuners[k], t', x) && x.tuner == k
    requires NoLeftovers(s, j)
    ensures NoLeftovers(Sys(s.tuners[k := t'], s.sessions + [x]), j)
  {
    hide PidSet;
    var s' := Sys(s.tuners[k := t'], s.sessions + [x]);
    forall p | p in PidSet(s'.tuners[j].pids) && p !in BASE_PIDS
      ensures Owned(s', j, p)
    {
      if j == k && p == PmtPid(t', x.chan) {
        assert s'.sessions[|s.sessions|] == x && p in SessionPids(t', x);
      } else {
        assert Owned(s, j, p);
        var i :| 0 <= i < |s.sessions| && s.sessions[i].tuner == j && p in SessionPids(s.tuners[j], s.sessions[i]);
        assert s'.sessions[i] == s.sessions[i] && p in SessionPids(s'.tuners[j], s'.sessions[i]);
      }
    }
  }

  lemma SessionAddedKeepsInv(s: Sys, k: nat, t': Tuner, x: Session)
    requires Inv(s) && k < |s.tuners| && TunerOk(t') && Takes(s.tuners[k], t', x)
    requires x.tuner == k && OnFrequency(s.tuners[k := t'], x) && x.pids == []
    requires SessionFor(s.sessions, x.onid, x.channelId) == |s.sessions|
    ensures Inv(Sys(s.tuners[k := t'], s.sessions + [x]))
  {
    hide PidSet, TunerOk, SessionFor, NoLeftovers;
    var t, s' := s.tuners[k], Sys(s.tuners[k := t'], s.sessions + [x]);
    forall i | 0 <= i < |s.sessions|
      ensures OnFrequency(s'.tuners, s.sessions[i])
    {
      UserCounts(s.sessions, i);
      assert RefCounted(s, s.sessions[i].tuner);
    }
    forall j | 0 <= j < |s'.tuners|
      ensures TunerOk(s'.tuners[j]) && RefCounted(s', j) && NoLeftovers(s', j)
    {
      UsersExtended(s.sessions, x, j);
      assert RefCounted(s, j);
      AddedOwners(s, k, t', x, j);
    }
  }

  /** A tuner that knows a program has found it after it was started. */
  lemma LookupMeansRunning(t: Tuner, onid: int, channelId: int)
    requires TunerOk(t) && ChannelOf(t.freqs, onid, channelId).Some?
    ensures t.state in {Idle, Busy} && t.kind != OtherKind
    ensures var r := ChannelOf(t.freqs, onid, channelId).value;
            && r.entry < |t.freqs| && r.pos < |t.freqs[r.entry].channels|
            && t.freqs[r.entry].channels[r.pos].serviceId == channelId
  {
    hide EntriesOk, NoPidTwice, FrontendOk;
    CountedIffFound(t.freqs, onid, channelId);
  }

  lemma PmtPidFrame(t: Tuner, t': Tuner, r: ChanRef)
    requires t.freqs == t'.freqs
    ensures PmtPid(t, r) == PmtPid(t', r)
  {
  }

  lemma ClaimTakes(t: Tuner, r: ChanRef, x: Session, tuned: bool)
    requires TunerOk(t) && t.kind != OtherKind && t.state in {Idle, Busy} && r.entry < |t.freqs|
    requires t.refcnt >= 0 && t.state == Idle && x.chan == r
    ensures var t' := Claimed(t, r, tuned); TunerOk(t') && Takes(t, t', x) && t'.curr == Some(r.entry)
  {
    hide EntriesOk, NoPidTwice, PidSet, Tune, AddPids, PmtPid;
    var t0 := t.(state := Busy, refcnt := t.refcnt + 1);
    TuneOk(t0, r.entry, tuned);
    TuneFrame(t0, r.entry, tuned);
    var t1 := Tune(t0, r.entry, tuned);
    var news := [0, 0x10, 0x11, 0x12, PmtPid(t1, r)];
    AddPidsBounds(t1.pids, news);
    PmtPidFrame(t1, Claimed(t, r, tuned), r);
  }

  lemma JoinTakes(t: Tuner, r: ChanRef, x: Session)
    requires TunerOk(t) && t.state == Busy && OnEntry(t, r.entry) && x.chan == r
    ensures var t' := Joined(t, r); TunerOk(t') && Takes(t, t', x) && t'.curr == Some(r.entry)
  {
    hide NoPidTwice, PidSet, AddPid;
    AddPidRefines(t.pids, PmtPid(t, r));
    PmtPidFrame(t, Joined(t, r), r);
  }

  /** The tuner picked knows the program and is free, or stands on its entry. */
  lemma {:induction false} PickSound(tuners: seq<Tuner>, onid: int, channelId: int, k: nat)
    requires k <= |tuners|
    ensures var p := PickTuner(tuners, onid, channelId, k);
            !p.NoTuner? ==>
              && ChannelOf(tuners[p.tuner].freqs, onid, channelId) == Some(p.chan)
              && (p.Fresh? ==> tuners[p.tuner].refcnt == 0)
              && (p.Shared? ==> tuners[p.tuner].refcnt != 0 && OnEntry(tuners[p.tuner], p.chan.entry))
    decreases |tuners| - k
  {
    hide ChannelOf, OnEntry;
    if k < |tuners| {
      PickSound(tuners, onid, channelId, k + 1);
    }
  }

  /** A request fails for want of a tuner only if every tuner that knows the
      program is busy elsewhere. */
  lemma {:induction false} PickComplete(tuners: seq<Tuner>, onid: int, channelId: int, k: nat, j: nat)
    requires k <= j < |tuners| && PickTuner(tuners, onid, channelId, k) == NoTuner
    requires ChannelOf(tuners[j].freqs, onid, channelId).Some?
    ensures tuners[j].refcnt != 0 && !OnEntry(tuners[j], ChannelOf(tuners[j].freqs, onid, channelId).value.entry)
    decreases j - k
  {
    hide ChannelOf, OnEntry;
    if k < j {
      PickComplete(tuners, onid, channelId, k + 1, j);
    }
  }

  lemma WithoutLiveDests(sessions: seq<Session>, dest: Dest)
    ensures SameButDests(sessions, WithoutLive(sessions, dest))
  {
  }

  lemma PlacementKeepsInv(s: Sys, onid: nat, channelId: nat, dest: Dest, newId: nat, tuned: bool)
    requires Inv(s) && SessionFor(s.sessions, onid, channelId) == |s.sessions|
    ensures Inv(Place(s, PickTuner(s.tuners, onid, channelId, 0), onid, channelId, dest, newId, tuned))
  {
    hide PickTuner, ChannelOf, Claimed, Joined, SessionFor, NoLeftovers, TunerOk;
    var pick := PickTuner(s.tuners, onid, channelId, 0);
    PickSound(s.tuners, onid, channelId, 0);
    if !pick.NoTuner? {
      var k, r := pick.tuner, pick.chan;
      var t, x := s.tuners[k], Session(newId, k, onid, channelId, r, [], [dest]);
      assert RefCounted(s, k);
      LookupMeansRunning(t, onid, channelId);
      if pick.Fresh? {
        ClaimTakes(t, r, x, tuned);
        SessionAddedKeepsInv(s, k, Claimed(t, r, tuned), x);
      } else {
        JoinTakes(t, r, x);
        SessionAddedKeepsInv(s, k, Joined(t, r), x);
      }
    }
  }

  lemma AddKeepsInv(s: Sys, onid: nat, channelId: nat, dest: Dest, newId: nat, tuned: bool)
    requires Inv(s)
    ensures Inv(AddNew(s, onid, channelId, dest, newId, tuned).0)
  {
    hide Inv, PickTuner, Place, Servable, SessionFor, WithoutLive;
    if Servable(s.tuners, onid, channelId) {
      var s1 := s.(sessions := WithoutLive(s.sessions, dest));
      WithoutLiveDests(s.sessions, dest);
      DestsKeepInv(s, s1.sessions);
      var i := SessionFor(s1.sessions, onid, channelId);
      if i < |s1.sessions| {
        var x := s1.sessions[i];
        DestsKeepInv(s1, s1.sessions[i := x.(dests := x.dests + [dest])]);
      } else {
        PlacementKeepsInv(s1, onid, channelId, dest, newId, tuned);
      }
    }
  }

  // ---------------------------------------------------------------- ending a session

  lemma ReleaseOk(t: Tuner, x: Session)
    requires TunerOk(t) && t.state == Busy
    ensures TunerOk(Released(t, x)) && Released(t, x).freqs == t.freqs
    ensures PidSet(Released(t, x).pids) == PidSet(t.pids) - (set p | p in SessionPids(t, x))
  {
    hide NoPidTwice, PidSet, RemovePids, SessionPids, EntriesOk;
    RemovePidsExact(t.pids, SessionPids(t, x));
  }

  /** A PID that survives the removal belongs to another session. */
  lemma StillOwned(s: Sys, i: nat, j: nat, p: int)
    requires i < |s.sessions| && s.sessions[i].tuner < |s.tuners| && j < |s.tuners|
    requires Owned(s, j, p)
    requires j == s.sessions[i].tuner ==> p !in SessionPids(s.tuners[j], s.sessions[i])
    ensures Owned(RemoveSession(s, i), j, p)
  {
    hide RemovePids;
    var s' := RemoveSession(s, i);
    var n :| 0 <= n < |s.sessions| && s.sessions[n].tuner == j && p in SessionPids(s.tuners[j], s.sessions[n]);
    var n' := if n < i then n else n - 1;
    assert s'.sessions[n'] == s.sessions[n];
    PmtPidFrame(s.tuners[j], s'.tuners[j], s.sessions[n].chan);
    assert SessionPids(s'.tuners[j], s'.sessions[n']) == SessionPids(s.tuners[j], s.sessions[n]);
  }

  lemma ServedWithout(sessions: seq<Session>, i: nat)
    requires ServedOnce(sessions) && i < |sessions|
    ensures ServedOnce(sessions[..i] + sessions[i + 1..])
  {
  }

  lemma RemovalKeepsInv(s: Sys, i: nat)
    requires Inv(s) && i < |s.sessions|
    ensures s.sessions[i].tuner < |s.tuners| && Inv(RemoveSession(s, i))
  {
    hide PidSet, TunerOk, SessionPids;
    var x := s.sessions[i];
    assert OnFrequency(s.tuners, x);
    var k, s' := x.tuner, RemoveSession(s, i);
    var t := s.tuners[k];
    assert RefCounted(s, k);
    UserCounts(s.sessions, i);
    ReleaseOk(t, x);
    forall j | 0 <= j < |s'.tuners|
      ensures TunerOk(s'.tuners[j]) && RefCounted(s', j) && NoLeftovers(s', j)
    {
      UsersWithout(s.sessions, i, j);
      assert RefCounted(s, j) && NoLeftovers(s, j);
      forall p | p in PidSet(s'.tuners[j].pids) && p !in BASE_PIDS
        ensures Owned(s', j, p)
      {
        StillOwned(s, i, j, p);
      }
    }
    forall n | 0 <= n < |s'.sessions|
      ensures OnFrequency(s'.tuners, s'.sessions[n]) && |s'.sessions[n].pids| <= MAX_SESSION_PIDS
    {
      assert s'.sessions[n] == s.sessions[if n < i then n else n + 1];
    }
    ServedWithout(s.sessions, i);
  }

  lemma RemovalShortens(s: Sys, i: nat)
    requires i < |s.sessions| && s.sessions[i].tuner < |s.tuners|
    ensures |RemoveSession(s, i).sessions| == |s.sessions| - 1
  {
  }

  lemma {:induction false} ReapKeepsInv(s: Sys, i: nat)
    requires Inv(s) && i <= |s.sessions|
    ensures Inv(Reap(s, i))
    decreases |s.sessions| - i
  {
    hide Inv, RemoveSession;
    if i < |s.sessions| {
      RemovalKeepsInv(s, i);
      RemovalShortens(s, i);
      if s.sessions[i].dests == [] {
        ReapKeepsInv(RemoveSession(s, i), i);
      } else {
        ReapKeepsInv(s, i + 1);
      }
    }
  }

  // ---------------------------------------------------------------- program maps

  lemma FilterOk(t: Tuner, news: seq<int>)
    requires TunerOk(t)
    ensures TunerOk(t.(pids := AddPids(t.pids, news)))
    ensures forall p :: p in PidSet(AddPids(t.pids, news)) ==> p in PidSet(t.pids) || p in news
  {
    hide NoPidTwice, PidSet, AddPids, EntriesOk;
    AddPidsBounds(t.pids, news);
  }

  /** A program map adds filters and owners for them. */
  lemma MapOwners(s: Sys, i: nat, pids: seq<int>, j: nat)
    requires Inv(s) && Enabled(s, ProgramMap(i, pids)) && j < |s.tuners|
    ensures NoLeftovers(AddMap(s, i, pids), j)
  {
    hide PidSet, TunerOk, NewPids, OnFrequency, AddPids, ServedOnce, RefCounted;
    var x := s.sessions[i];
    var k, news, s' := x.tuner, NewPids(x.pids, pids), AddMap(s, i, pids);
    assert TunerOk(s.tuners[k]) && NoLeftovers(s, j);
    FilterOk(s.tuners[k], news);
    forall p | p in PidSet(s'.tuners[j].pids) && p !in BASE_PIDS
      ensures Owned(s', j, p)
    {
      if j == k && p in news {
        assert p in SessionPids(s'.tuners[j], s'.sessions[i]);
      } else {
        assert Owned(s, j, p);
        var n :| 0 <= n < |s.sessions| && s.sessions[n].tuner == j && p in SessionPids(s.tuners[j], s.sessions[n]);
        assert p in SessionPids(s'.tuners[j], s'.sessions[n]);
      }
    }
  }

  lemma MapKeepsInv(s: Sys, i: nat, pids: seq<int>)
    requires Inv(s) && Enabled(s, ProgramMap(i, pids))
    ensures Inv(AddMap(s, i, pids))
  {
    hide PidSet, TunerOk, NewPids, NoLeftovers, AddPids;
    var s', k := AddMap(s, i, pids), s.sessions[i].tuner;
    FilterOk(s.tuners[k], NewPids(s.sessions[i].pids, pids));
    forall j | 0 <= j < |s'.tuners|
      ensures TunerOk(s'.tuners[j]) && RefCounted(s', j) && NoLeftovers(s', j)
    {
      assert RefCounted(s, j);
      UsersSame(s.sessions, s'.sessions, j);
      MapOwners(s, i, pids, j);
    }
  }

  // ---------------------------------------------------------------- every step, every run

  lemma RetiredDests(x: Session)
    ensures Retired(x) == x.(dests := Retired(x).dests)
  {
  }

  lemma TunersOk(s: Sys, k: nat)
    requires Inv(s) && k < |s.tuners|
    ensures TunerOk(s.tuners[k])
  {
  }

  lemma StepKeepsInv(s: Sys, e: Event)
    requires Inv(s) && Enabled(s, e)
    ensures Inv(Apply(s, e))
  {
    hide Inv, AddNew, AddMap, Reap, RemoveSession, TunerAfter, Retired;
    match e {
      case Add(onid, channelId, dest, newId, tuned) => AddKeepsInv(s, onid, channelId, dest, newId, tuned);
      case ProgramMap(i, pids) => MapKeepsInv(s, i, pids);
      case StopSession(id) =>
        var i := SessionById(s.sessions, id);
        if i < |s.sessions| {
          RemovalKeepsInv(s, i);
        }
      case ReapEmpty => ReapKeepsInv(s, 0);
      case Expire(i, j) =>
        DestsKeepInv(s, Apply(s, e).sessions);
      case Retire(i) =>
        RetiredDests(s.sessions[i]);
        DestsKeepInv(s, Apply(s, e).sessions);
      case _ =>
        TunersOk(s, e.tuner);
        TunerAfterKeeps(s.tuners[e.tuner], e);
        TunerStepKeepsInv(s, e.tuner, TunerAfter(s.tuners[e.tuner], e).value);
    }
  }

  lemma InitialInv(s: Sys)
    requires Initial(s)
    ensures Inv(s)
  {
    EmptyTableFiltersNothing();
  }

  lemma {:induction false} RunKeepsInv(s: Sys, es: seq<Event>, s': Sys)
    requires Inv(s) && Run(s, es, s')
    ensures Inv(s')
    decreases |es|
  {
    hide Inv, Apply, Enabled;
    if es != [] {
      StepKeepsInv(s, es[0]);
      RunKeepsInv(Apply(s, es[0]), es[1..], s');
    }
  }

  lemma ReachableInv(s: Sys)
    requires Reachable(s)
    ensures Inv(s)
  {
    hide Inv, Initial, Run;
    var s0, es :| Initial(s0) && Run(s0, es, s);
    InitialInv(s0);
    RunKeepsInv(s0, es, s);
  }
}
