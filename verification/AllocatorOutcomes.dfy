/**
 * What a client of the allocator sees: when a request is served and by whom, what
 * stopping a session takes away, which destinations survive, and what is filtered
 * for a session.
 */
module AllocatorOutcomes {
  import opened Common
  import opened TunerModel
  import opened AllocatorModel
  import opened AllocatorSafety
  import opened AllocatorTheorems

  // ---------------------------------------------------------------- requests

  /** Tuner `t` has found the program. */
  predicate Knows(t: Tuner, onid: nat, channelId: nat) {
    exists f, c :: 0 <= f < |t.freqs| && 0 <= c < |t.freqs[f].channels|
                   && t.freqs[f].channels[c].onid == onid && t.freqs[f].channels[c].serviceId == channelId
  }

  /** It is unused, or set to the first entry that carries the program. */
  predicate CanTake(t: Tuner, onid: nat, channelId: nat) {
    t.refcnt == 0 || t.curr == Some(EntryCarrying(t.freqs, onid, channelId))
  }

  predicate Serves(x: Session, onid: nat, channelId: nat) {
    x.onid == onid && x.channelId == channelId
  }

  lemma KnowsMatches(t: Tuner, onid: nat, channelId: nat)
    ensures Knows(t, onid, channelId) <==> Matches(t.freqs, onid, channelId) > 0
    ensures Knows(t, onid, channelId) <==> ChannelOf(t.freqs, onid, channelId).Some?
  {
    hide Matches;
    CountedIffFound(t.freqs, onid, channelId);
    if ChannelOf(t.freqs, onid, channelId).Some? {
      var r := ChannelOf(t.freqs, onid, channelId).value;
      assert Carries(t.freqs[r.entry].channels[r.pos], onid, channelId);
    }
    if Knows(t, onid, channelId) {
      var f, c :| 0 <= f < |t.freqs| && 0 <= c < |t.freqs[f].channels|
                  && t.freqs[f].channels[c].onid == onid && t.freqs[f].channels[c].serviceId == channelId;
      MatchesOf(t.freqs, onid, channelId, f, c);
    }
  }

  lemma ServableMeans(tuners: seq<Tuner>, onid: nat, channelId: nat)
    ensures Servable(tuners, onid, channelId) <==> exists k :: 0 <= k < |tuners| && Knows(tuners[k], onid, channelId)
  {
    hide Matches, Knows;
    forall k | 0 <= k < |tuners|
      ensures Knows(tuners[k], onid, channelId) <==> Matches(tuners[k].freqs, onid, channelId) > 0
    {
      KnowsMatches(tuners[k], onid, channelId);
    }
  }

  /** A program no tuner has found is refused and nothing changes. */
  lemma UnknownRefused(s: Sys, onid: nat, channelId: nat, dest: Dest, newId: nat, tuned: bool)
    requires forall k :: 0 <= k < |s.tuners| ==> !Knows(s.tuners[k], onid, channelId)
    ensures AddNew(s, onid, channelId, dest, newId, tuned) == (s, 0)
  {
    hide Servable, Knows;
    ServableMeans(s.tuners, onid, channelId);
  }

  /** A program that is being served is extended, on whichever tuner it was found. */
  lemma ServedExtended(s: Sys, onid: nat, channelId: nat, dest: Dest, newId: nat, tuned: bool, i: nat, k: nat)
    requires Reachable(s) && i < |s.sessions| && Serves(s.sessions[i], onid, channelId)
    requires k < |s.tuners| && Knows(s.tuners[k], onid, channelId)
    ensures var (s', rc) := AddNew(s, onid, channelId, dest, newId, tuned);
            && rc == s.sessions[i].id && s'.tuners == s.tuners && |s'.sessions| == |s.sessions|
            && s'.sessions[i].dests != [] && s'.sessions[i].dests[|s'.sessions[i].dests| - 1] == dest
  {
    hide Reachable, Servable, Knows, AddNew, Spared;
    ServableMeans(s.tuners, onid, channelId);
    var at := SessionFor(s.sessions, onid, channelId);
    if at != i {
      OneSessionPerProgram(s, if at < i then at else i, if at < i then i else at);
    }
    RepeatOnlyAddsDestination(s, onid, channelId, dest, newId, tuned);
  }

  /** Entries are told apart by their keys. */
  lemma EntryIsItself(t: Tuner, e: nat)
    requires TunerOk(t) && t.kind != OtherKind && e < |t.freqs|
    ensures OnEntry(t, e) <==> t.curr == Some(e)
  {
  }

  /** A tuner that knows the program cannot take it exactly if it is busy elsewhere. */
  lemma TakenOrElsewhere(s: Sys, k: nat, onid: nat, channelId: nat)
    requires Reachable(s) && k < |s.tuners| && Knows(s.tuners[k], onid, channelId)
    ensures var t := s.tuners[k];
            CanTake(t, onid, channelId) <==>
            !(t.state == Busy && !OnEntry(t, EntryCarrying(t.freqs, onid, channelId)))
    ensures Matches(s.tuners[k].freqs, onid, channelId) > 0
  {
    hide Reachable, Knows, Matches, NoPidTwice, NoLeftovers, ServedOnce, OnFrequency;
    ReachableInv(s);
    assert RefCounted(s, k) && TunerOk(s.tuners[k]);
    KnowsMatches(s.tuners[k], onid, channelId);
    LookupMeansRunning(s.tuners[k], onid, channelId);
    var t := s.tuners[k];
    var e := EntryCarrying(t.freqs, onid, channelId);
    CountedIffFound(t.freqs, onid, channelId);
    EntryIsItself(t, e);
  }

  lemma PickCanTake(s: Sys, onid: nat, channelId: nat)
    requires Reachable(s) && !PickTuner(s.tuners, onid, channelId, 0).NoTuner?
    ensures var k := PickTuner(s.tuners, onid, channelId, 0).tuner;
            Knows(s.tuners[k], onid, channelId) && CanTake(s.tuners[k], onid, channelId)
  {
    hide Reachable, Knows, PickTuner, NoLeftovers, RefCounted, OnFrequency, NoPidTwice, ServedOnce;
    ReachableInv(s);
    var p := PickTuner(s.tuners, onid, channelId, 0);
    PickSound(s.tuners, onid, channelId, 0);
    KnowsMatches(s.tuners[p.tuner], onid, channelId);
    LookupMeansRunning(s.tuners[p.tuner], onid, channelId);
    EntryIsItself(s.tuners[p.tuner], p.chan.entry);
  }

  /** A new program is started exactly when some tuner that has found it can take it. */
  lemma NewProgramStarted(s: Sys, onid: nat, channelId: nat, dest: Dest, newId: nat, tuned: bool)
    requires Reachable(s) && forall i :: 0 <= i < |s.sessions| ==> !Serves(s.sessions[i], onid, channelId)
    ensures var (s', rc) := AddNew(s, onid, channelId, dest, newId, tuned);
            if exists k :: 0 <= k < |s.tuners| && Knows(s.tuners[k], onid, channelId)
                           && CanTake(s.tuners[k], onid, channelId)
            then rc == newId && |s'.sessions| == |s.sessions| + 1
                 && Serves(s'.sessions[|s.sessions|], onid, channelId)
                 && s'.sessions[|s.sessions|].dests == [dest] && s'.sessions[|s.sessions|].pids == []
            else rc == 0 && |s'.sessions| == |s.sessions| && s'.tuners == s.tuners
  {
    hide Reachable, Servable, Knows, AddNew, Spared, CanTake, PickTuner, Matches;
    var at := SessionFor(s.sessions, onid, channelId);
    assert at == |s.sessions|;
    ServableMeans(s.tuners, onid, channelId);
    if Servable(s.tuners, onid, channelId) {
      NewSessionPlaced(s, onid, channelId, dest, newId, tuned);
      forall k | 0 <= k < |s.tuners| && Knows(s.tuners[k], onid, channelId)
        ensures CanTake(s.tuners[k], onid, channelId) <==>
                !(s.tuners[k].state == Busy && !OnEntry(s.tuners[k], EntryCarrying(s.tuners[k].freqs, onid, channelId)))
        ensures Matches(s.tuners[k].freqs, onid, channelId) > 0
      {
        TakenOrElsewhere(s, k, onid, channelId);
      }
      if !PickTuner(s.tuners, onid, channelId, 0).NoTuner? {
        PickCanTake(s, onid, channelId);
      }
    } else {
      UnknownRefused(s, onid, channelId, dest, newId, tuned);
    }
  }

  lemma TakenFilters(t: Tuner, pick: Pick, tuned: bool)
    requires TunerOk(t) && !pick.NoTuner? && t.kind != OtherKind && t.state in {Idle, Busy}
    requires pick.chan.entry < |t.freqs| && pick.chan.pos < |t.freqs[pick.chan.entry].channels|
    requires pick.Shared? ==> OnEntry(t, pick.chan.entry)
    ensures var t' := if pick.Fresh? then Claimed(t, pick.chan, tuned) else Joined(t, pick.chan);
            var pmt := t.freqs[pick.chan.entry].channels[pick.chan.pos].pmtPid;
            && t'.freqs == t.freqs && t'.curr == Some(pick.chan.entry)
            && (pmt != NO_PID ==> pmt in PidSet(t'.pids) || NO_PID !in t'.pids)
            && (pick.Shared? ==> PidSet(t.pids) <= PidSet(t'.pids) <= PidSet(t.pids) + {pmt})
  {
    hide PidSet, NoPidTwice, AddPids, AddPid, Tune, EntriesOk;
    var pmt := t.freqs[pick.chan.entry].channels[pick.chan.pos].pmtPid;
    if pick.Fresh? {
      var t0 := t.(state := Busy, refcnt := t.refcnt + 1);
      TuneOk(t0, pick.chan.entry, tuned);
      TuneFrame(t0, pick.chan.entry, tuned);
      if pmt != NO_PID {
        AddPidsComplete(Tune(t0, pick.chan.entry, tuned).pids, [0, 0x10, 0x11, 0x12, pmt], pmt);
      }
    } else {
      EntryIsItself(t, pick.chan.entry);
      AddPidRefines(t.pids, pmt);
      if pmt != NO_PID {
        AddPidComplete(t.pids, pmt, pmt);
      }
    }
  }

  /** Tuners in front of the one picked do not know the program or are busy elsewhere. */
  lemma {:induction false} PickFirst(tuners: seq<Tuner>, onid: int, channelId: int, k: nat, j: nat)
    requires k <= j < |tuners| && !PickTuner(tuners, onid, channelId, k).NoTuner?
    requires j < PickTuner(tuners, onid, channelId, k).tuner
    ensures ChannelOf(tuners[j].freqs, onid, channelId).Some? ==>
              tuners[j].refcnt != 0 && !OnEntry(tuners[j], ChannelOf(tuners[j].freqs, onid, channelId).value.entry)
    decreases j - k
  {
    hide ChannelOf, OnEntry;
    if k < j {
      PickFirst(tuners, onid, channelId, k + 1, j);
    }
  }

  lemma EarlierCannot(s: Sys, onid: nat, channelId: nat, k: nat)
    requires Reachable(s) && !PickTuner(s.tuners, onid, channelId, 0).NoTuner?
    requires k < PickTuner(s.tuners, onid, channelId, 0).tuner
    ensures !(Knows(s.tuners[k], onid, channelId) && CanTake(s.tuners[k], onid, channelId))
  {
    hide Reachable, Knows, PickTuner, NoLeftovers, RefCounted, OnFrequency, NoPidTwice, ServedOnce;
    ReachableInv(s);
    PickFirst(s.tuners, onid, channelId, 0, k);
    if Knows(s.tuners[k], onid, channelId) {
      KnowsMatches(s.tuners[k], onid, channelId);
      LookupMeansRunning(s.tuners[k], onid, channelId);
      CountedIffFound(s.tuners[k].freqs, onid, channelId);
      EntryIsItself(s.tuners[k], EntryCarrying(s.tuners[k].freqs, onid, channelId));
    }
  }

  /** The session started takes the first tuner that can, plays the channel asked
      for, and has its program map filtered unless the tuner's table is full. */
  lemma NewSessionTuned(s: Sys, onid: nat, channelId: nat, dest: Dest, newId: nat, tuned: bool)
    requires Reachable(s) && |AddNew(s, onid, channelId, dest, newId, tuned).0.sessions| == |s.sessions| + 1
    ensures var s' := AddNew(s, onid, channelId, dest, newId, tuned).0;
            var x := s'.sessions[|s.sessions|];
            && x.tuner < |s'.tuners| && x.chan.entry < |s'.tuners[x.tuner].freqs|
            && x.chan.pos < |s'.tuners[x.tuner].freqs[x.chan.entry].channels|
            && var t' := s'.tuners[x.tuner];
               var c := t'.freqs[x.chan.entry].channels[x.chan.pos];
               && t'.curr == Some(x.chan.entry)
               && c.onid == onid && c.serviceId == channelId
               && (c.pmtPid != NO_PID ==> c.pmtPid in PidSet(t'.pids) || NO_PID !in t'.pids)
               && (s.tuners[x.tuner].refcnt != 0 ==>
                     PidSet(s.tuners[x.tuner].pids) <= PidSet(t'.pids) <= PidSet(s.tuners[x.tuner].pids) + {c.pmtPid})
               && (forall k :: 0 <= k < x.tuner ==>
                     !(Knows(s.tuners[k], onid, channelId) && CanTake(s.tuners[k], onid, channelId)))
  {
    hide Reachable, PidSet, NoPidTwice, Knows, CanTake, Servable, AddPids, AddPid, Tune, EntriesOk, HistoryOk, PickTuner,
      SessionFor, WithoutLive, NoLeftovers, RefCounted, OnFrequency, Inv;
    var s1 := s.(sessions := WithoutLive(s.sessions, dest));
    assert |s1.sessions| == |s.sessions|;
    var pick := PickTuner(s.tuners, onid, channelId, 0);
    PickSound(s.tuners, onid, channelId, 0);
    ReachableInv(s);
    TunersOk(s, pick.tuner);
    var t := s.tuners[pick.tuner];
    CountedIffFound(t.freqs, onid, channelId);
    LookupMeansRunning(t, onid, channelId);
    TakenFilters(t, pick, tuned);
    forall k | 0 <= k < pick.tuner
      ensures !(Knows(s.tuners[k], onid, channelId) && CanTake(s.tuners[k], onid, channelId))
    {
      EarlierCannot(s, onid, channelId, k);
    }
  }

  // ---------------------------------------------------------------- stopping

  /** Nobody else uses the session's tuner exactly if its user count is one. */
  lemma LastUser(sessions: seq<Session>, i: nat)
    requires i < |sessions|
    ensures UsersOf(sessions, sessions[i].tuner) == 1 <==>
            forall j :: 0 <= j < |sessions| && j != i ==> sessions[j].tuner != sessions[i].tuner
  {
    hide UsersOf;
    var k, others := sessions[i].tuner, sessions[..i] + sessions[i + 1..];
    UsersWithout(sessions, i, k);
    if forall j :: 0 <= j < |sessions| && j != i ==> sessions[j].tuner != k {
      NoUsers(others, k);
    } else {
      var j :| 0 <= j < |sessions| && j != i && sessions[j].tuner == k;
      var at := if j < i then j else j - 1;
      assert others[at] == sessions[j];
      UserCounts(others, at);
    }
  }

  /** Stopping an id ends the first session that has it, wherever it is in the list,
      and takes from its tuner exactly that session's PIDs and reference. */
  lemma StopExact(s: Sys, id: nat, i: nat)
    requires Reachable(s) && i < |s.sessions| && s.sessions[i].id == id
    requires forall j :: 0 <= j < i ==> s.sessions[j].id != id
    ensures var s', x := Stop(s, id), s.sessions[i];
            && s'.sessions == s.sessions[..i] + s.sessions[i + 1..]
            && x.tuner < |s.tuners| == |s'.tuners|
            && x.chan.entry < |s.tuners[x.tuner].freqs|
            && x.chan.pos < |s.tuners[x.tuner].freqs[x.chan.entry].channels|
            && var t, t' := s.tuners[x.tuner], s'.tuners[x.tuner];
               var pmt := t.freqs[x.chan.entry].channels[x.chan.pos].pmtPid;
               && t'.refcnt == t.refcnt - 1
               && (t'.state == Idle <==> forall j :: 0 <= j < |s.sessions| && j != i ==> s.sessions[j].tuner != x.tuner)
               && PidSet(t'.pids) == PidSet(t.pids) - {pmt} - (set p | p in x.pids)
               && t'.freqs == t.freqs && t'.curr == t.curr && t'.calls == t.calls
               && forall k :: 0 <= k < |s.tuners| && k != x.tuner ==> s'.tuners[k] == s.tuners[k]
  {
    hide Reachable, PidSet, NoPidTwice, RemovePids, SessionById, NoLeftovers, EntriesOk, HistoryOk, UsersOf;
    ReachableInv(s);
    FirstById(s.sessions, id, i);
    var x := s.sessions[i];
    var t := s.tuners[x.tuner];
    assert OnFrequency(s.tuners, x) && TunerOk(t) && RefCounted(s, x.tuner);
    RemovePidsExact(t.pids, SessionPids(t, x));
    var pmt := t.freqs[x.chan.entry].channels[x.chan.pos].pmtPid;
    assert (set p | p in SessionPids(t, x)) == {pmt} + set p | p in x.pids;
    LastUser(s.sessions, i);
    UserCounts(s.sessions, i);
  }

  lemma {:induction false} NobodyWithId(sessions: seq<Session>, id: nat)
    requires forall j :: 0 <= j < |sessions| ==> sessions[j].id != id
    ensures SessionById(sessions, id) == |sessions|
  {
    if sessions != [] {
      NobodyWithId(sessions[1..], id);
    }
  }

  /** An id no session has changes nothing. */
  lemma StopUnknown(s: Sys, id: nat)
    requires forall j :: 0 <= j < |s.sessions| ==> s.sessions[j].id != id
    ensures Stop(s, id) == s
  {
    NobodyWithId(s.sessions, id);
  }

  // ---------------------------------------------------------------- reaping

  /** Session `j` or a later one has nobody left to serve on tuner `k` and lists `p`. */
  ghost predicate Ended(s: Sys, j: nat, k: nat, p: int)
    requires k < |s.tuners|
  {
    exists i :: j <= i < |s.sessions| && s.sessions[i].dests == [] && s.sessions[i].tuner == k
                && p in SessionPids(s.tuners[k], s.sessions[i])
  }

  lemma NoneEnded(s: Sys, k: nat, p: int)
    requires k < |s.tuners|
    ensures !Ended(s, |s.sessions|, k, p)
  {
  }

  lemma ServedStays(s: Sys, j: nat, k: nat, p: int)
    requires j < |s.sessions| && k < |s.tuners| && s.sessions[j].dests != []
    ensures Ended(s, j, k, p) <==> Ended(s, j + 1, k, p)
  {
    hide SessionPids;
  }

  lemma EndedWithout(s: Sys, j: nat, k: nat, p: int)
    requires j < |s.sessions| && k < |s.tuners| && s.sessions[j].dests == [] && s.sessions[j].tuner < |s.tuners|
    ensures Ended(s, j, k, p) <==>
            Ended(RemoveSession(s, j), j, k, p)
            || (s.sessions[j].tuner == k && p in SessionPids(s.tuners[k], s.sessions[j]))
  {
    hide RemovePids;
    var s1 := RemoveSession(s, j);
    assert forall y :: SessionPids(s1.tuners[k], y) == SessionPids(s.tuners[k], y);
    if i :| j < i < |s.sessions| && s.sessions[i].dests == [] && s.sessions[i].tuner == k
            && p in SessionPids(s.tuners[k], s.sessions[i]) {
      assert s1.sessions[i - 1] == s.sessions[i];
    }
    if i :| j <= i < |s1.sessions| && s1.sessions[i].dests == [] && s1.sessions[i].tuner == k
            && p in SessionPids(s1.tuners[k], s1.sessions[i]) {
      assert s1.sessions[i] == s.sessions[i + 1];
    }
  }

  lemma RemovalFilters(s: Sys, j: nat, k: nat, p: int)
    requires Inv(s) && j < |s.sessions| && k < |s.tuners| && s.sessions[j].dests == []
    requires s.sessions[j].tuner < |s.tuners|
    ensures var s1 := RemoveSession(s, j);
            && |s1.tuners| == |s.tuners|
            && s1.tuners[k].freqs == s.tuners[k].freqs && s1.tuners[k].curr == s.tuners[k].curr
            && (p in PidSet(s1.tuners[k].pids) && !Ended(s1, j, k, p) <==>
                p in PidSet(s.tuners[k].pids) && !Ended(s, j, k, p))
  {
    hide PidSet, NoPidTwice, RemovePids, SessionPids, NoLeftovers, RefCounted, OnFrequency, EntriesOk, HistoryOk;
    var x, s1 := s.sessions[j], RemoveSession(s, j);
    var t := s.tuners[x.tuner];
    assert TunerOk(t);
    RemovePidsExact(t.pids, SessionPids(t, x));
    EndedWithout(s, j, k, p);
  }

  /** A pass takes from each tuner exactly the PIDs of the sessions it ends. */
  lemma {:induction false} ReapFilters(s: Sys, j: nat, k: nat, p: int)
    requires Inv(s) && j <= |s.sessions| && k < |s.tuners|
    ensures var s' := Reap(s, j);
            && |s'.tuners| == |s.tuners|
            && s'.tuners[k].freqs == s.tuners[k].freqs && s'.tuners[k].curr == s.tuners[k].curr
            && (p in PidSet(s'.tuners[k].pids) <==> p in PidSet(s.tuners[k].pids) && !Ended(s, j, k, p))
    decreases |s.sessions| - j
  {
    hide Inv, PidSet, RemoveSession, Ended, SessionPids;
    if j == |s.sessions| {
      NoneEnded(s, k, p);
    } else {
      RemovalKeepsInv(s, j);
      RemovalShortens(s, j);
      if s.sessions[j].dests == [] {
        RemovalFilters(s, j, k, p);
        ReapFilters(RemoveSession(s, j), j, k, p);
      } else {
        ReapFilters(s, j + 1, k, p);
        ServedStays(s, j, k, p);
      }
    }
  }

  // ---------------------------------------------------------------- destinations

  /** Closing a kind of output leaves the other destinations of every session, in
      order, and of the closed kind none. */
  lemma CloseTypeExact(sessions: seq<Session>, kind: DestKind, i: nat, d: Dest)
    requires i < |sessions|
    ensures var x, x' := sessions[i], CloseType(sessions, kind)[i];
            && x' == x.(dests := x'.dests) && Subsequence(x'.dests, x.dests)
            && multiset(x'.dests)[d] == if d.kind == kind then 0 else multiset(x.dests)[d]
  {
    FilterInOrder(sessions[i].dests, OtherThan(kind));
    FilterMultiset(sessions[i].dests, OtherThan(kind), d);
  }

  lemma {:induction false} WholeInOrder<T>(s: seq<T>)
    ensures Subsequence(s, s)
  {
    if s != [] {
      WholeInOrder(s[..|s| - 1]);
    }
  }

  /** A request for live output does this to its kind, any other nothing. */
  lemma SparedExact(x: Session, dest: Dest, d: Dest)
    ensures var x' := Spared(x, dest);
            && x' == x.(dests := x'.dests) && Subsequence(x'.dests, x.dests)
            && multiset(x'.dests)[d] == if dest.kind != Plain && d.kind == dest.kind then 0 else multiset(x.dests)[d]
  {
    FilterInOrder(x.dests, OtherThan(dest.kind));
    FilterMultiset(x.dests, OtherThan(dest.kind), d);
    WholeInOrder(x.dests);
  }

  /** Retiring leaves the destinations that have not expired, in order. */
  lemma RetireExact(s: Sys, i: nat, d: Dest)
    requires i < |s.sessions|
    ensures var s', x := Apply(s, Retire(i)), s.sessions[i];
            && |s'.sessions| == |s.sessions| && s'.tuners == s.tuners
            && (forall j :: 0 <= j < |s.sessions| && j != i ==> s'.sessions[j] == s.sessions[j])
            && s'.sessions[i] == x.(dests := s'.sessions[i].dests)
            && Subsequence(s'.sessions[i].dests, x.dests)
            && multiset(s'.sessions[i].dests)[d] == if d.expired then 0 else multiset(x.dests)[d]
  {
    FilterInOrder(s.sessions[i].dests, NotExpired());
    FilterMultiset(s.sessions[i].dests, NotExpired(), d);
  }

  // ---------------------------------------------------------------- program maps

  ghost predicate Single(pids: seq<int>) {
    forall i, j :: 0 <= i < j < |pids| ==> pids[i] != pids[j]
  }

  /** A session lists no PID twice, however often maps repeat them. */
  lemma {:induction false} NewPidsSingle(known: seq<int>, pids: seq<int>)
    requires Single(known)
    ensures Single(known + NewPids(known, pids))
  {
    if pids == [] {
      assert known + [] == known;
    } else {
      var n := |pids| - 1;
      NewPidsSingle(known, pids[..n]);
      var all := known + NewPids(known, pids[..n]);
      if pids[n] !in all {
        assert known + (NewPids(known, pids[..n]) + [pids[n]]) == all + [pids[n]];
      }
    }
  }
}
