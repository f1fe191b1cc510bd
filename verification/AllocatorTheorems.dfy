/**
 * What the invariant means to a user of the program, in every reachable state;
 * what one request undoes of another; and what the idle scan covers.
 */
module AllocatorTheorems {
  import opened Common
  import opened TunerModel
  import opened AllocatorModel
  import opened AllocatorSafety

  // ---------------------------------------------------------------- safety in every reachable state

  /** A live session's channel is on the entry its tuner is set to, and the program
      last asked the frontend for that entry's frequency. */
  lemma SessionsStayOnFrequency(s: Sys, i: nat)
    requires Reachable(s) && i < |s.sessions|
    ensures var x := s.sessions[i];
            && OnFrequency(s.tuners, x)
            && var t := s.tuners[x.tuner];
               t.state == Busy && t.feFreq == FrontendFrequency(t.kind, t.freqs[x.chan.entry].frequency)
  {
    hide NoPidTwice, EntriesOk, NoLeftovers, Reachable;
    ReachableInv(s);
    UserCounts(s.sessions, i);
    assert RefCounted(s, s.sessions[i].tuner) && TunerOk(s.tuners[s.sessions[i].tuner]);
  }

  /** The idle scan does nothing at all to a tuner that serves a session. */
  lemma ScanSparesSessions(s: Sys, i: nat, tuned: bool)
    requires Reachable(s) && i < |s.sessions|
    ensures var e := Scan(s.sessions[i].tuner, tuned); Enabled(s, e) && Apply(s, e) == s
  {
    hide ScanTick, Inv, TunerOk, Keeps, Reachable;
    SessionsStayOnFrequency(s, i);
    ReachableInv(s);
    var k := s.sessions[i].tuner;
    TunersOk(s, k);
    ScanKeeps(s.tuners[k], tuned);
    assert s.tuners[k := s.tuners[k]] == s.tuners;
  }

  lemma {:induction false} NoUsers(sessions: seq<Session>, k: nat)
    requires forall i :: 0 <= i < |sessions| ==> sessions[i].tuner != k
    ensures UsersOf(sessions, k) == 0
  {
    if sessions != [] {
      NoUsers(sessions[..|sessions| - 1], k);
    }
  }

  /** Conservation: a tuner's reference count is the number of live sessions on
      it, and it is busy exactly while there are any. */
  lemma ReferencesConserved(s: Sys, k: nat)
    requires Reachable(s) && k < |s.tuners|
    ensures s.tuners[k].refcnt == UsersOf(s.sessions, k)
    ensures s.tuners[k].state == Busy <==> exists i :: 0 <= i < |s.sessions| && s.sessions[i].tuner == k
  {
    hide Reachable, TunerOk, NoLeftovers;
    ReachableInv(s);
    assert RefCounted(s, k);
    if i :| 0 <= i < |s.sessions| && s.sessions[i].tuner == k {
      UserCounts(s.sessions, i);
    } else {
      NoUsers(s.sessions, k);
    }
  }

  /** No program is served by two live sessions. */
  lemma OneSessionPerProgram(s: Sys, i: nat, j: nat)
    requires Reachable(s) && i < j < |s.sessions|
    ensures s.sessions[i].onid != s.sessions[j].onid || s.sessions[i].channelId != s.sessions[j].channelId
  {
    hide Reachable, TunerOk, NoLeftovers, RefCounted, OnFrequency;
    ReachableInv(s);
  }

  /** The filter table holds no PID twice, and every PID in it is a base PID or
      belongs to a live session on that tuner. */
  lemma FiltersAreOwned(s: Sys, k: nat, p: int)
    requires Reachable(s) && k < |s.tuners| && p in PidSet(s.tuners[k].pids)
    ensures NoPidTwice(s.tuners[k].pids) && |s.tuners[k].pids| == MAX_FILTER_PID
    ensures p in BASE_PIDS || Owned(s, k, p)
  {
    hide Reachable, RefCounted, OnFrequency, NoPidTwice, PidSet;
    ReachableInv(s);
    assert TunerOk(s.tuners[k]) && NoLeftovers(s, k);
  }

  /** The frequency list has distinct keys, numbered by position, and services
      are distinct within an entry. */
  lemma FrequenciesAreKeyed(s: Sys, k: nat)
    requires Reachable(s) && k < |s.tuners|
    ensures DistinctEntries(s.tuners[k].kind, s.tuners[k].freqs)
    ensures forall i :: 0 <= i < |s.tuners[k].freqs| ==>
              s.tuners[k].freqs[i].id == i && ChannelsOk(s.tuners[k].freqs[i].channels)
  {
    hide Reachable, RefCounted, OnFrequency, NoPidTwice, PidSet, NoLeftovers, DistinctEntries, ChannelsOk;
    ReachableInv(s);
    assert TunerOk(s.tuners[k]);
  }

  // ---------------------------------------------------------------- what a request does

  /** What a request leaves of a session's destinations: live output of the same
      kind is closed first. */
  function Spared(x: Session, dest: Dest): Session {
    if dest.kind == Plain then x else OfKind(x, dest.kind)
  }

  lemma {:induction false} SameProgram(a: seq<Session>, b: seq<Session>, onid: nat, channelId: nat)
    requires SameButDests(a, b)
    ensures SessionFor(a, onid, channelId) == SessionFor(b, onid, channelId)
  {
    if a != [] {
      SameProgram(a[1..], b[1..], onid, channelId);
    }
  }

  lemma {:induction false} WithoutLiveFor(sessions: seq<Session>, dest: Dest, onid: nat, channelId: nat)
    ensures SessionFor(WithoutLive(sessions, dest), onid, channelId) == SessionFor(sessions, onid, channelId)
    ensures forall i :: 0 <= i < |sessions| ==> WithoutLive(sessions, dest)[i] == Spared(sessions[i], dest)
  {
    SameProgram(sessions, WithoutLive(sessions, dest), onid, channelId);
  }

  /** Asking again for a program that is being served adds the destination to its
      session and, but for live output that restarts, changes nothing else. */
  lemma RepeatOnlyAddsDestination(s: Sys, onid: nat, channelId: nat, dest: Dest, newId: nat, tuned: bool)
    requires Servable(s.tuners, onid, channelId)
    requires SessionFor(s.sessions, onid, channelId) < |s.sessions|
    ensures var i := SessionFor(s.sessions, onid, channelId);
            var (s', rc) := AddNew(s, onid, channelId, dest, newId, tuned);
            && rc == s.sessions[i].id && s'.tuners == s.tuners && |s'.sessions| == |s.sessions|
            && s'.sessions[i] == s.sessions[i].(dests := Spared(s.sessions[i], dest).dests + [dest])
            && forall j :: 0 <= j < |s.sessions| && j != i ==> s'.sessions[j] == Spared(s.sessions[j], dest)
  {
    hide Servable, SessionFor, WithoutLive;
    WithoutLiveFor(s.sessions, dest, onid, channelId);
  }

  lemma {:induction false} FilteredHold<T>(s: seq<T>, p: T -> bool)
    ensures forall i :: 0 <= i < |Filter(s, p)| ==> p(Filter(s, p)[i])
  {
    if s != [] {
      FilteredHold(s[..|s| - 1], p);
    }
  }

  /** A live output is the only one of its kind once its request was served. */
  lemma OnlyLiveOutput(s: Sys, onid: nat, channelId: nat, dest: Dest, newId: nat, tuned: bool, i: nat, j: nat)
    requires dest.kind != Plain && Servable(s.tuners, onid, channelId)
    requires var s' := AddNew(s, onid, channelId, dest, newId, tuned).0; i < |s'.sessions| && j < |s'.sessions[i].dests|
    ensures var d := AddNew(s, onid, channelId, dest, newId, tuned).0.sessions[i].dests[j];
            d.kind == dest.kind ==> d == dest
  {
    hide Servable, SessionFor, WithoutLive, PickTuner, Claimed, Joined;
    WithoutLiveFor(s.sessions, dest, onid, channelId);
    var s1 := s.(sessions := WithoutLive(s.sessions, dest));
    if i < |s1.sessions| {
      assert s1.sessions[i] == OfKind(s.sessions[i], dest.kind);
      FilteredHold(s.sessions[i].dests, OtherThan(dest.kind));
    }
  }

  /** A destination that expired is gone after the next delivery; the others that
      have not expired stay, in order. */
  lemma ExpiredLeaves(s: Sys, i: nat, j: nat)
    requires i < |s.sessions| && j < |s.sessions[i].dests|
    ensures var ds := s.sessions[i].dests;
            Apply(Apply(s, Expire(i, j)), Retire(i)) ==
            s.(sessions := s.sessions[i := s.sessions[i].(dests :=
              Filter(ds[..j], NotExpired()) + Filter(ds[j + 1..], NotExpired()))])
  {
    hide Filter;
    var ds := s.sessions[i].dests;
    var gone := ds[j].(expired := true);
    assert ds[j := gone] == ds[..j] + [gone] + ds[j + 1..];
    FilterConcat(ds[..j] + [gone], ds[j + 1..], NotExpired());
    FilterConcat(ds[..j], [gone], NotExpired());
    FilterOne(gone, NotExpired());
    assert Filter(ds[..j], NotExpired()) + [] == Filter(ds[..j], NotExpired());
    assert s.sessions[i := s.sessions[i].(dests := ds[j := gone])][i].dests == ds[j := gone];
  }

  /** A session claims an idle tuner for itself: once the frontend has moved,
      exactly its tables and its program map are filtered. */
  lemma ClaimFilters(t: Tuner, r: ChanRef, tuned: bool)
    requires r.entry < |t.freqs| && Retunes(t, r.entry) && PmtPid(t, r) != NO_PID
    ensures PidSet(Claimed(t, r, tuned).pids) == {0, 0x10, 0x11, 0x12, PmtPid(t, r)}
  {
    hide PidSet, AddPids, PmtPid;
    var t1 := Tune(t.(state := Busy, refcnt := t.refcnt + 1), r.entry, tuned);
    PmtPidFrame(t, t1, r);
    var news := [0, 0x10, 0x11, 0x12, PmtPid(t, r)];
    EmptyTableTakes(news);
    assert (set p | p in news) == {0, 0x10, 0x11, 0x12, PmtPid(t, r)};
  }

  lemma PlacedTuner(t: Tuner, pick: Pick, tuned: bool)
    requires !pick.NoTuner? && pick.chan.entry < |t.freqs|
    ensures pick.Fresh? ==> Claimed(t, pick.chan, tuned).refcnt == t.refcnt + 1
    ensures pick.Shared? ==> Joined(t, pick.chan).refcnt == t.refcnt + 1 && Joined(t, pick.chan).curr == t.curr
  {
    TuneFrame(t.(state := Busy, refcnt := t.refcnt + 1), pick.chan.entry, tuned);
  }

  /** A new session appears on exactly one tuner, the first that is free or that
      already stands on the program's entry. Live output restarts even when no
      tuner is left. */
  lemma NewSessionPlaced(s: Sys, onid: nat, channelId: nat, dest: Dest, newId: nat, tuned: bool)
    requires Reachable(s) && Servable(s.tuners, onid, channelId)
    requires SessionFor(s.sessions, onid, channelId) == |s.sessions|
    ensures var pick := PickTuner(s.tuners, onid, channelId, 0);
            var (s', rc) := AddNew(s, onid, channelId, dest, newId, tuned);
            && |s.sessions| <= |s'.sessions|
            && (forall i :: 0 <= i < |s.sessions| ==> s'.sessions[i] == Spared(s.sessions[i], dest))
            && if pick.NoTuner? then
                 && s'.tuners == s.tuners && |s'.sessions| == |s.sessions| && rc == 0
                 && forall k :: 0 <= k < |s.tuners| && Matches(s.tuners[k].freqs, onid, channelId) > 0 ==>
                      && s.tuners[k].state == Busy
                      && !OnEntry(s.tuners[k], EntryCarrying(s.tuners[k].freqs, onid, channelId))
               else
                 && rc == newId && |s'.sessions| == |s.sessions| + 1
                 && s'.sessions[|s.sessions|] == Session(newId, pick.tuner, onid, channelId, pick.chan, [], [dest])
                 && s'.tuners[pick.tuner].refcnt == s.tuners[pick.tuner].refcnt + 1
                 && (s.tuners[pick.tuner].state == Busy ==> s'.tuners[pick.tuner].curr == s.tuners[pick.tuner].curr)
                 && forall k :: 0 <= k < |s.tuners| && k != pick.tuner ==> s'.tuners[k] == s.tuners[k]
  {
    hide Reachable, PickTuner, ChannelOf, SessionFor, Servable, OnEntry, NoLeftovers, OnFrequency, Claimed, Joined,
      WithoutLive;
    ReachableInv(s);
    WithoutLiveFor(s.sessions, dest, onid, channelId);
    var pick := PickTuner(s.tuners, onid, channelId, 0);
    if pick.NoTuner? {
      forall k | 0 <= k < |s.tuners| && Matches(s.tuners[k].freqs, onid, channelId) > 0
        ensures s.tuners[k].state == Busy
        ensures !OnEntry(s.tuners[k], EntryCarrying(s.tuners[k].freqs, onid, channelId))
      {
        CountedIffFound(s.tuners[k].freqs, onid, channelId);
        PickComplete(s.tuners, onid, channelId, 0, k);
        assert RefCounted(s, k);
      }
    } else {
      PickSound(s.tuners, onid, channelId, 0);
      assert RefCounted(s, pick.tuner);
      PlacedTuner(s.tuners[pick.tuner], pick, tuned);
    }
  }

  lemma PlacedTunerOf(s: Sys, onid: nat, channelId: nat, dest: Dest, newId: nat, tuned: bool)
    requires Servable(s.tuners, onid, channelId) && SessionFor(s.sessions, onid, channelId) == |s.sessions|
    ensures |AddNew(s, onid, channelId, dest, newId, tuned).0.tuners| == |s.tuners|
    ensures var pick := PickTuner(s.tuners, onid, channelId, 0);
            !pick.NoTuner? ==>
              AddNew(s, onid, channelId, dest, newId, tuned).0.tuners[pick.tuner] ==
              if pick.Fresh? then Claimed(s.tuners[pick.tuner], pick.chan, tuned)
              else Joined(s.tuners[pick.tuner], pick.chan)
  {
    hide PickTuner, Servable, SessionFor, WithoutLive, Claimed, Joined;
    WithoutLiveFor(s.sessions, dest, onid, channelId);
  }

  lemma {:induction false} SameIds(a: seq<Session>, b: seq<Session>, id: nat)
    requires |a| == |b| && forall i :: 0 <= i < |a| ==> a[i].id == b[i].id
    ensures SessionById(a, id) == SessionById(b, id)
  {
    if a != [] {
      SameIds(a[1..], b[1..], id);
    }
  }

  lemma PlacedState(t: Tuner, pick: Pick, tuned: bool)
    requires !pick.NoTuner? && pick.chan.entry < |t.freqs|
    ensures pick.Fresh? ==> Claimed(t, pick.chan, tuned).state == Busy
    ensures pick.Shared? ==> Joined(t, pick.chan).state == t.state
  {
    TuneFrame(t.(state := Busy, refcnt := t.refcnt + 1), pick.chan.entry, tuned);
  }

  lemma ReleasedCounts(t: Tuner, x: Session)
    ensures Released(t, x).refcnt == t.refcnt - 1
    ensures Released(t, x).state == if t.refcnt <= 1 then Idle else t.state
  {
  }

  lemma {:induction false} LastById(sessions: seq<Session>, x: Session)
    requires SessionById(sessions, x.id) == |sessions|
    ensures SessionById(sessions + [x], x.id) == |sessions|
  {
    if sessions != [] {
      assert (sessions + [x])[1..] == sessions[1..] + [x];
      LastById(sessions[1..], x);
    }
  }

  /** Stopping the session a request started restores the sessions (but for live
      output that was closed), the reference counts and who is busy. */
  lemma StopUndoesAdd(s: Sys, onid: nat, channelId: nat, dest: Dest, newId: nat, tuned: bool)
    requires Reachable(s) && Servable(s.tuners, onid, channelId)
    requires SessionFor(s.sessions, onid, channelId) == |s.sessions|
    requires SessionById(s.sessions, newId) == |s.sessions|
    requires !PickTuner(s.tuners, onid, channelId, 0).NoTuner?
    ensures var s' := Stop(AddNew(s, onid, channelId, dest, newId, tuned).0, newId);
            && |s'.sessions| == |s.sessions| && |s'.tuners| == |s.tuners|
            && (forall i :: 0 <= i < |s.sessions| ==> s'.sessions[i] == Spared(s.sessions[i], dest))
            && forall k :: 0 <= k < |s.tuners| ==>
                 s'.tuners[k].refcnt == s.tuners[k].refcnt && s'.tuners[k].state == s.tuners[k].state
  {
    hide Reachable, PickTuner, ChannelOf, SessionFor, Servable, NoLeftovers, OnFrequency, Released, SessionById, AddNew;
    ReachableInv(s);
    NewSessionPlaced(s, onid, channelId, dest, newId, tuned);
    PlacedTunerOf(s, onid, channelId, dest, newId, tuned);
    var pick, s1 := PickTuner(s.tuners, onid, channelId, 0), AddNew(s, onid, channelId, dest, newId, tuned).0;
    var k, n := pick.tuner, |s.sessions|;
    PickSound(s.tuners, onid, channelId, 0);
    assert RefCounted(s, k) && TunerOk(s.tuners[k]);
    LookupMeansRunning(s.tuners[k], onid, channelId);
    SameIds(s.sessions, s1.sessions[..n], newId);
    LastById(s1.sessions[..n], s1.sessions[n]);
    assert s1.sessions == s1.sessions[..n] + [s1.sessions[n]];
    ReleasedCounts(s1.tuners[k], s1.sessions[n]);
    PlacedState(s.tuners[k], pick, tuned);
    assert s1.sessions[..n] + s1.sessions[n + 1..] == s1.sessions[..n];
  }

  // ---------------------------------------------------------------- program maps

  lemma {:induction false} NewPidsExact(known: seq<int>, pids: seq<int>, p: int)
    ensures p in NewPids(known, pids) <==> p in pids && p !in known
  {
    if pids != [] {
      var n := |pids| - 1;
      NewPidsExact(known, pids[..n], p);
      assert p in pids <==> p in pids[..n] || p == pids[n];
    }
  }

  /** A program map makes the session list all its streams, after those it listed
      before; while the table has room exactly the new ones join the filters. */
  lemma MapFiltersStreams(s: Sys, i: nat, pids: seq<int>)
    requires Reachable(s) && Enabled(s, ProgramMap(i, pids)) && NO_PID !in pids
    requires |PidSet(s.tuners[s.sessions[i].tuner].pids) + set p | p in pids| <= MAX_FILTER_PID
    ensures var s', x := Apply(s, ProgramMap(i, pids)), s.sessions[i];
            && x.pids <= s'.sessions[i].pids
            && (forall p :: p in s'.sessions[i].pids <==> p in x.pids || p in pids)
            && PidSet(s'.tuners[x.tuner].pids) ==
               PidSet(s.tuners[x.tuner].pids) + set p | p in pids && p !in x.pids
  {
    hide Reachable, PidSet, NoPidTwice, AddPids, NewPids, EntriesOk, OnFrequency, RefCounted, NoLeftovers, ServedOnce;
    ReachableInv(s);
    var x := s.sessions[i];
    var t, news := s.tuners[x.tuner], NewPids(x.pids, pids);
    TunersOk(s, x.tuner);
    forall p
      ensures p in news <==> p in pids && p !in x.pids
    {
      NewPidsExact(x.pids, pids, p);
    }
    assert (set p | p in news) == set p | p in pids && p !in x.pids;
    SubsetSize(PidSet(t.pids) + (set p | p in news), PidSet(t.pids) + set p | p in pids);
    AddPidsExact(t.pids, news);
  }

  // ---------------------------------------------------------------- reaping

  /** A pass of the session thread keeps exactly the sessions that still have a
      destination, in their order. */
  lemma {:induction false} ReapKeepsTheServed(s: Sys, i: nat)
    requires Inv(s) && i <= |s.sessions|
    ensures Reap(s, i).sessions == s.sessions[..i] + Filter(s.sessions[i..], (x: Session) => x.dests != [])
    decreases |s.sessions| - i
  {
    hide Inv, Filter;
    var p := (x: Session) => x.dests != [];
    if i < |s.sessions| {
      var x, rest := s.sessions[i], s.sessions[i + 1..];
      assert s.sessions[i..] == [x] + rest;
      FilterConcat([x], rest, p);
      FilterOne(x, p);
      RemovalKeepsInv(s, i);
      RemovalShortens(s, i);
      if x.dests == [] {
        var s1 := RemoveSession(s, i);
        ReapKeepsTheServed(s1, i);
        assert s1.sessions[..i] == s.sessions[..i] && s1.sessions[i..] == rest;
        assert [] + Filter(rest, p) == Filter(rest, p);
      } else {
        ReapKeepsTheServed(s, i + 1);
        assert s.sessions[..i + 1] + Filter(rest, p) == s.sessions[..i] + ([x] + Filter(rest, p));
      }
    } else {
      FilterNone(p);
      assert s.sessions[..i] + [] == s.sessions && s.sessions[i..] == [];
    }
  }

  // ---------------------------------------------------------------- the idle scan

  predicate IdleTick(s: Sys, e: Event, k: nat)
    requires k < |s.tuners|
  {
    e.Scan? && e.tuner == k && s.tuners[k].kind != OtherKind && s.tuners[k].state == Idle
  }

  /** The tick tunes to the next entry. */
  predicate Advances(s: Sys, e: Event, k: nat)
    requires k < |s.tuners|
  {
    IdleTick(s, e, k) && s.tuners[k].scanId < |s.tuners[k].freqs|
  }

  /** The entries tuner `k` is set to after each turn of its scan that found one, in
      order. */
  function Scanned(s: Sys, es: seq<Event>, k: nat): seq<nat>
    requires k < |s.tuners|
    decreases |es|
  {
    if es == [] || !Enabled(s, es[0]) then []
    else
      var s1 := Apply(s, es[0]);
      (if Advances(s, es[0], k) && k < |s1.tuners| && s1.tuners[k].curr.Some? then [s1.tuners[k].curr.value] else [])
      + (if k < |s1.tuners| then Scanned(s1, es[1..], k) else [])
  }

  /** The tick finds no further entry and starts over. */
  predicate WrapsAround(s: Sys, e: Event, k: nat)
    requires k < |s.tuners|
  {
    IdleTick(s, e, k) && s.tuners[k].scanId >= |s.tuners[k].freqs|
  }

  ghost predicate NoWrap(s: Sys, es: seq<Event>, k: nat)
    requires k < |s.tuners|
    decreases |es|
  {
    es == [] || (Enabled(s, es[0]) && !WrapsAround(s, es[0], k) &&
                 k < |Apply(s, es[0]).tuners| && NoWrap(Apply(s, es[0]), es[1..], k))
  }

  function UpTo(a: nat, b: nat): seq<nat>
    requires a <= b
  {
    seq(b - a, i => a + i)
  }

  lemma AddScanPlace(s: Sys, onid: nat, channelId: nat, dest: Dest, newId: nat, tuned: bool, k: nat)
    requires k < |s.tuners|
    ensures var s' := AddNew(s, onid, channelId, dest, newId, tuned).0;
            |s'.tuners| == |s.tuners| && s'.tuners[k].scanId == s.tuners[k].scanId
  {
    hide Servable, PickTuner, SessionFor, WithoutLive;
    var pick := PickTuner(s.tuners, onid, channelId, 0);
    if pick.Fresh? {
      var t := s.tuners[pick.tuner];
      TuneFrame(t.(state := Busy, refcnt := t.refcnt + 1), pick.chan.entry, tuned);
    }
  }

  lemma {:induction false} ReapScanPlace(s: Sys, i: nat, k: nat)
    requires Inv(s) && i <= |s.sessions| && k < |s.tuners|
    ensures |Reap(s, i).tuners| == |s.tuners| && Reap(s, i).tuners[k].scanId == s.tuners[k].scanId
    decreases |s.sessions| - i
  {
    hide Inv;
    if i < |s.sessions| {
      RemovalKeepsInv(s, i);
      RemovalShortens(s, i);
      if s.sessions[i].dests == [] {
        ReapScanPlace(RemoveSession(s, i), i, k);
      } else {
        ReapScanPlace(s, i + 1, k);
      }
    }
  }

  /** Only the tuner's own idle ticks move its place in the list. */
  lemma ScanPlace(s: Sys, e: Event, k: nat)
    requires Inv(s) && Enabled(s, e) && k < |s.tuners|
    ensures |Apply(s, e).tuners| == |s.tuners|
    ensures Apply(s, e).tuners[k].scanId ==
            if Advances(s, e, k) then s.tuners[k].scanId + 1
            else if WrapsAround(s, e, k) then 0
            else s.tuners[k].scanId
  {
    hide Inv, Reap, Filter;
    match e {
      case Add(onid, channelId, dest, newId, tuned) => AddScanPlace(s, onid, channelId, dest, newId, tuned, k);
      case ReapEmpty => ReapScanPlace(s, 0, k);
      case Scan(j, tuned) =>
        if j == k && s.tuners[k].scanId < |s.tuners[k].freqs| {
          TuneFrame(s.tuners[k], s.tuners[k].scanId, tuned);
        }
      case StartTuner(j, _, tuned) =>
        if s.tuners[j].freqs != [] {
          TuneFrame(s.tuners[j].(state := Idle), 0, tuned);
          TuneFrame(s.tuners[j].(state := Failed), 0, tuned);
        }
      case _ =>
    }
  }

  /** A turn that finds an entry leaves the tuner set to it. */
  lemma ScanTunesTo(s: Sys, e: Event, k: nat)
    requires Inv(s) && Enabled(s, e) && k < |s.tuners| && Advances(s, e, k)
    ensures var t, t' := s.tuners[k], Apply(s, e).tuners[k];
            && t'.curr == Some(t.scanId) && t'.freqs == t.freqs
            && t'.feFreq == FrontendFrequency(t.kind, t.freqs[t.scanId].frequency)
  {
    hide Inv, AddPids, EntriesOk, NoPidTwice;
    TunersOk(s, k);
    TuneReaches(s.tuners[k], s.tuners[k].scanId, e.tuned);
    TuneFrame(s.tuners[k], s.tuners[k].scanId, e.tuned);
  }

  lemma ScanInList(s: Sys, k: nat)
    requires Inv(s) && k < |s.tuners|
    ensures s.tuners[k].scanId <= |s.tuners[k].freqs|
  {
    assert TunerOk(s.tuners[k]);
  }

  /** Between two wrap-arounds the scan tunes to every entry once, in ascending
      order, however the list grows meanwhile and whatever else happens. */
  lemma {:induction false} ScanAscends(s: Sys, es: seq<Event>, s': Sys, k: nat)
    requires Inv(s) && Run(s, es, s') && k < |s.tuners| && NoWrap(s, es, k)
    ensures k < |s'.tuners| && s.tuners[k].scanId <= s'.tuners[k].scanId <= |s'.tuners[k].freqs|
    ensures Scanned(s, es, k) == UpTo(s.tuners[k].scanId, s'.tuners[k].scanId)
    decreases |es|
  {
    hide Inv, Apply, Enabled, Advances, WrapsAround;
    if es == [] {
      ScanInList(s, k);
    } else {
      if Advances(s, es[0], k) {
        ScanTunesTo(s, es[0], k);
      }
      ScanPlace(s, es[0], k);
      StepKeepsInv(s, es[0]);
      ScanAscends(Apply(s, es[0]), es[1..], s', k);
    }
  }

  /** A full round: from the start of the list to the tick that wraps around. */
  lemma ScanCoversTheList(s: Sys, es: seq<Event>, s': Sys, k: nat, wrap: Event)
    requires Reachable(s) && Run(s, es, s') && k < |s.tuners| && NoWrap(s, es, k)
    requires s.tuners[k].scanId == 0
    ensures k < |s'.tuners|
    ensures WrapsAround(s', wrap, k) ==> Scanned(s, es, k) == UpTo(0, |s'.tuners[k].freqs|)
  {
    hide Inv, Reachable, Run, NoWrap, Scanned;
    ReachableInv(s);
    ScanAscends(s, es, s', k);
  }
}
