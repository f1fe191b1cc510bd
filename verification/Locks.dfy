/**
 * Lock nesting. Each activity of the program is written down as the blocks of
 * code it runs under its mutexes; any number of threads run any activities
 * interleaved; no reachable state has a circular wait.
 */
module Locks {
  import opened Common

  datatype Lock =
    | Users | Commands | Sessions
    | Frequencies(tuner: nat) | Channels(tuner: nat, entry: nat) | Tuner(tuner: nat)
    | Destinations(session: nat) | SessionBuffer(session: nat) | DestBuffer(dest: nat)

  function Rank(l: Lock): nat {
    match l
    case Users => 0
    case Commands => 1
    case Sessions => 2
    case Frequencies(_) => 3
    case Destinations(_) => 3
    case Channels(_, _) => 4
    case Tuner(_) => 4
    case SessionBuffer(_) => 4
    case DestBuffer(_) => 4
  }

  /** Code that runs while `lock` is held. */
  datatype Block = Hold(lock: Lock, body: seq<Block>)

  // ---------------------------------------------------------------- the program's activities

  /** A list operation, or a loop over a list that locks nothing else. */
  function Touch(l: Lock): seq<Block> {
    [Hold(l, [])]
  }

  /** `n` times the tuner mutex: filter changes. */
  function Filters(tuner: nat, n: nat): seq<Block> {
    if n == 0 then [] else Filters(tuner, n - 1) + Touch(Tuner(tuner))
  }

  /** The channel lists of the first `entries` frequencies, one after the other. */
  function EachChannelList(tuner: nat, entries: nat): seq<Block> {
    if entries == 0 then [] else EachChannelList(tuner, entries - 1) + Touch(Channels(tuner, entries - 1))
  }

  /** Walks the channels of a tuner: both lookups, the validity check, printing. */
  function WalkChannels(tuner: nat, entries: nat): seq<Block> {
    [Hold(Frequencies(tuner), EachChannelList(tuner, entries))]
  }

  function WalkTuners(entries: seq<nat>): seq<Block> {
    if entries == [] then []
    else WalkTuners(entries[..|entries| - 1]) + WalkChannels(|entries| - 1, entries[|entries| - 1])
  }

  function EachDestinationList(sessions: seq<nat>): seq<Block> {
    if sessions == [] then []
    else EachDestinationList(sessions[..|sessions| - 1]) + Touch(Destinations(sessions[|sessions| - 1]))
  }

  /** Walks the sessions and, inside, their destination lists. */
  function WalkSessions(sessions: seq<nat>): seq<Block> {
    [Hold(Sessions, EachDestinationList(sessions))]
  }

  function EachDestBuffer(dests: seq<nat>): seq<Block> {
    if dests == [] then []
    else EachDestBuffer(dests[..|dests| - 1]) + Touch(DestBuffer(dests[|dests| - 1]))
  }

  /** A packet handed to the sessions of a tuner: filters for the streams a new
      program map announces, then the session's buffer. */
  datatype Delivery = Delivery(session: nat, newPids: nat)

  function EachDelivery(tuner: nat, ds: seq<Delivery>): seq<Block> {
    if ds == [] then []
    else
      var d := ds[|ds| - 1];
      EachDelivery(tuner, ds[..|ds| - 1]) + Filters(tuner, d.newPids) + Touch(SessionBuffer(d.session))
  }

  function WritePacket(tuner: nat, ds: seq<Delivery>): seq<Block> {
    [Hold(Sessions, EachDelivery(tuner, ds))]
  }

  /** One attempt to place a new session on a tuner: two lookups, the tune, the
      filters. */
  function TryTuner(tuner: nat, entries: nat, filters: nat): seq<Block> {
    WalkChannels(tuner, entries) + WalkChannels(tuner, entries) + Touch(Tuner(tuner)) + Filters(tuner, filters)
  }

  function TryTuners(entries: seq<nat>, filters: nat): seq<Block> {
    if entries == [] then []
    else
      TryTuners(entries[..|entries| - 1], filters) +
      TryTuner(|entries| - 1, entries[|entries| - 1], filters)
  }

  function AddSession(entries: seq<nat>, sessions: seq<nat>, s: nat): seq<Block> {
    WalkTuners(entries) + WalkSessions(sessions) + Touch(Sessions) + TryTuners(entries, 5)
    + Touch(Destinations(s)) + Touch(Sessions)
  }

  function StopSession(s: nat): seq<Block> {
    Touch(Sessions) + Touch(Destinations(s))
  }

  /** What a telnet command may do. */
  datatype Command =
    | CheckChannel(entries: seq<nat>)
    | StartSession(entries: seq<nat>, sessions: seq<nat>, s: nat)
    | StopCommand(s: nat)
    | ShowSessions(sessions: seq<nat>)
    | ShowChannels(entries: seq<nat>)
    | Quiet

  function CommandBody(c: Command): seq<Block> {
    match c
    case CheckChannel(entries) => WalkTuners(entries)
    case StartSession(entries, sessions, s) => AddSession(entries, sessions, s)
    case StopCommand(s) => StopSession(s)
    case ShowSessions(sessions) => WalkSessions(sessions)
    case ShowChannels(entries) => WalkTuners(entries)
    case Quiet => []
  }

  datatype Activity =
    | TelnetConnect
    | TelnetHelp
    | TelnetCommand(command: Command)
    | RegisterCommand
    | WebStart(entries: seq<nat>, sessions: seq<nat>, s: nat)
    | WebRead(dest: nat)
    | ReapSessions(sessions: seq<nat>)
    | DrainSession(session: nat, dests: seq<nat>)
    | ScanTick(tuner: nat)
    | ReadTables(tuner: nat, entry: nat)
    | ReadPacket(tuner: nat, deliveries: seq<Delivery>)

  function Body(a: Activity): seq<Block> {
    match a
    case TelnetConnect => Touch(Users) + Touch(Users)
    case TelnetHelp => [Hold(Users, Touch(Commands) + Touch(Commands))]
    case TelnetCommand(c) => [Hold(Users, [Hold(Commands, CommandBody(c))])]
    case RegisterCommand => Touch(Commands)
    case WebStart(entries, sessions, s) => AddSession(entries, sessions, s)
    case WebRead(dest) => Touch(DestBuffer(dest))
    case ReapSessions(sessions) => WalkSessions(sessions)
    case DrainSession(session, dests) =>
      Touch(SessionBuffer(session)) + [Hold(Destinations(session), EachDestBuffer(dests))]
    case ScanTick(tuner) => Touch(Frequencies(tuner)) + Touch(Tuner(tuner)) + Filters(tuner, 5)
    case ReadTables(tuner, entry) =>
      Touch(Channels(tuner, entry)) + Touch(Channels(tuner, entry)) +
      Touch(Frequencies(tuner)) + Touch(Frequencies(tuner))
    case ReadPacket(tuner, ds) => WritePacket(tuner, ds)
  }

  // ---------------------------------------------------------------- the nesting discipline

  /** Every block locks above `floor`, and nested blocks above their own lock. */
  ghost predicate Ordered(bs: seq<Block>, floor: int) {
    forall i :: 0 <= i < |bs| ==> Rank(bs[i].lock) > floor && Ordered(bs[i].body, Rank(bs[i].lock))
  }

  lemma OrderedConcat(a: seq<Block>, b: seq<Block>, floor: int)
    requires Ordered(a, floor) && Ordered(b, floor)
    ensures Ordered(a + b, floor)
  {
  }

  lemma OrderedTouch(l: Lock, floor: int)
    requires Rank(l) > floor
    ensures Ordered(Touch(l), floor)
  {
  }

  lemma {:induction false} OrderedFilters(tuner: nat, n: nat, floor: int)
    requires floor < 4
    ensures Ordered(Filters(tuner, n), floor)
  {
    if n > 0 {
      OrderedFilters(tuner, n - 1, floor);
      OrderedConcat(Filters(tuner, n - 1), Touch(Tuner(tuner)), floor);
    }
  }

  lemma {:induction false} OrderedChannels(tuner: nat, entries: nat)
    ensures Ordered(EachChannelList(tuner, entries), 3)
  {
    if entries > 0 {
      OrderedChannels(tuner, entries - 1);
      OrderedConcat(EachChannelList(tuner, entries - 1), Touch(Channels(tuner, entries - 1)), 3);
    }
  }

  lemma OrderedWalk(tuner: nat, entries: nat, floor: int)
    requires floor < 3
    ensures Ordered(WalkChannels(tuner, entries), floor)
  {
    OrderedChannels(tuner, entries);
  }

  lemma {:induction false} OrderedWalks(entries: seq<nat>, floor: int)
    requires floor < 3
    ensures Ordered(WalkTuners(entries), floor)
  {
    if entries != [] {
      var n := |entries| - 1;
      OrderedWalks(entries[..n], floor);
      OrderedWalk(n, entries[n], floor);
      OrderedConcat(WalkTuners(entries[..n]), WalkChannels(n, entries[n]), floor);
    }
  }

  lemma {:induction false} OrderedDestinations(sessions: seq<nat>)
    ensures Ordered(EachDestinationList(sessions), 2)
  {
    if sessions != [] {
      var n := |sessions| - 1;
      OrderedDestinations(sessions[..n]);
      OrderedConcat(EachDestinationList(sessions[..n]), Touch(Destinations(sessions[n])), 2);
    }
  }

  lemma OrderedSessions(sessions: seq<nat>, floor: int)
    requires floor < 2
    ensures Ordered(WalkSessions(sessions), floor)
  {
    OrderedDestinations(sessions);
  }

  lemma {:induction false} OrderedBuffers(dests: seq<nat>)
    ensures Ordered(EachDestBuffer(dests), 3)
  {
    if dests != [] {
      var n := |dests| - 1;
      OrderedBuffers(dests[..n]);
      OrderedConcat(EachDestBuffer(dests[..n]), Touch(DestBuffer(dests[n])), 3);
    }
  }

  lemma {:induction false} OrderedDeliveries(tuner: nat, ds: seq<Delivery>)
    ensures Ordered(EachDelivery(tuner, ds), 2)
  {
    if ds != [] {
      var n := |ds| - 1;
      OrderedDeliveries(tuner, ds[..n]);
      OrderedFilters(tuner, ds[n].newPids, 2);
      OrderedConcat(EachDelivery(tuner, ds[..n]), Filters(tuner, ds[n].newPids), 2);
      OrderedConcat(EachDelivery(tuner, ds[..n]) + Filters(tuner, ds[n].newPids),
                    Touch(SessionBuffer(ds[n].session)), 2);
    }
  }

  lemma OrderedTry(tuner: nat, entries: nat, filters: nat, floor: int)
    requires floor < 3
    ensures Ordered(TryTuner(tuner, entries, filters), floor)
  {
    var w := WalkChannels(tuner, entries);
    OrderedWalk(tuner, entries, floor);
    OrderedConcat(w, w, floor);
    OrderedConcat(w + w, Touch(Tuner(tuner)), floor);
    OrderedFilters(tuner, filters, floor);
    OrderedConcat(w + w + Touch(Tuner(tuner)), Filters(tuner, filters), floor);
  }

  lemma {:induction false} OrderedTries(entries: seq<nat>, filters: nat, floor: int)
    requires floor < 3
    ensures Ordered(TryTuners(entries, filters), floor)
  {
    if entries != [] {
      var n := |entries| - 1;
      OrderedTries(entries[..n], filters, floor);
      OrderedTry(n, entries[n], filters, floor);
      OrderedConcat(TryTuners(entries[..n], filters), TryTuner(n, entries[n], filters), floor);
    }
  }

  lemma OrderedAdd(entries: seq<nat>, sessions: seq<nat>, s: nat, floor: int)
    requires floor < 2
    ensures Ordered(AddSession(entries, sessions, s), floor)
  {
    hide WalkTuners, WalkSessions, TryTuners, Ordered;
    var a, b, c := WalkTuners(entries), WalkSessions(sessions), TryTuners(entries, 5);
    OrderedWalks(entries, floor);
    OrderedSessions(sessions, floor);
    OrderedTries(entries, 5, floor);
    OrderedTouch(Sessions, floor);
    OrderedTouch(Destinations(s), floor);
    OrderedConcat(a, b, floor);
    OrderedConcat(a + b, Touch(Sessions), floor);
    OrderedConcat(a + b + Touch(Sessions), c, floor);
    OrderedConcat(a + b + Touch(Sessions) + c, Touch(Destinations(s)), floor);
    OrderedConcat(a + b + Touch(Sessions) + c + Touch(Destinations(s)), Touch(Sessions), floor);
  }

  lemma OrderedCommand(c: Command)
    ensures Ordered(CommandBody(c), 1)
  {
    match c {
      case CheckChannel(entries) => OrderedWalks(entries, 1);
      case StartSession(entries, sessions, s) => OrderedAdd(entries, sessions, s, 1);
      case StopCommand(s) =>
      case ShowSessions(sessions) => OrderedSessions(sessions, 1);
      case ShowChannels(entries) => OrderedWalks(entries, 1);
      case Quiet =>
    }
  }

  lemma OrderedNest(l: Lock, body: seq<Block>, floor: int)
    requires Rank(l) > floor && Ordered(body, Rank(l))
    ensures Ordered([Hold(l, body)], floor)
  {
  }

  lemma OrderedTelnet(c: Command)
    ensures Ordered(Body(TelnetCommand(c)), -1)
  {
    hide Ordered, CommandBody;
    OrderedCommand(c);
    OrderedNest(Commands, CommandBody(c), 0);
    OrderedNest(Users, [Hold(Commands, CommandBody(c))], -1);
  }

  lemma OrderedDrain(session: nat, dests: seq<nat>)
    ensures Ordered(Body(DrainSession(session, dests)), -1)
  {
    hide Ordered, EachDestBuffer;
    OrderedTouch(SessionBuffer(session), -1);
    OrderedBuffers(dests);
    OrderedNest(Destinations(session), EachDestBuffer(dests), -1);
    OrderedConcat(Touch(SessionBuffer(session)), [Hold(Destinations(session), EachDestBuffer(dests))], -1);
  }

  lemma OrderedScan(tuner: nat)
    ensures Ordered(Body(ScanTick(tuner)), -1)
  {
    OrderedFilters(tuner, 5, -1);
    OrderedConcat(Touch(Frequencies(tuner)) + Touch(Tuner(tuner)), Filters(tuner, 5), -1);
  }

  lemma OrderedHelp()
    ensures Ordered(Body(TelnetHelp), -1)
  {
    OrderedConcat(Touch(Commands), Touch(Commands), 0);
    OrderedNest(Users, Touch(Commands) + Touch(Commands), -1);
  }

  /** Every activity acquires its locks in the documented order. */
  lemma ActivityOrdered(a: Activity)
    ensures Ordered(Body(a), -1)
  {
    match a {
      case TelnetConnect =>
      case TelnetHelp => hide Ordered; OrderedHelp();
      case TelnetCommand(c) => hide Ordered; OrderedTelnet(c);
      case RegisterCommand =>
      case WebStart(entries, sessions, s) => hide Ordered; OrderedAdd(entries, sessions, s, -1);
      case WebRead(dest) =>
      case ReapSessions(sessions) => hide Ordered; OrderedSessions(sessions, -1);
      case DrainSession(session, dests) => hide Ordered; OrderedDrain(session, dests);
      case ScanTick(tuner) => hide Ordered; OrderedScan(tuner);
      case ReadTables(tuner, entry) =>
      case ReadPacket(tuner, ds) =>
        hide Ordered;
        OrderedDeliveries(tuner, ds);
        OrderedNest(Sessions, EachDelivery(tuner, ds), -1);
    }
  }

  // ---------------------------------------------------------------- threads

  /** One level of nesting: the lock held there (none at the bottom) and the
      blocks still to run inside it. */
  datatype Frame = Frame(lock: Option<Lock>, todo: seq<Block>)

  /** A thread is its stack of open blocks, outermost first. */
  type Thread = seq<Frame>
  const IDLE: Thread := [Frame(None, [])]

  function Top(t: Thread): Frame
    requires t != []
  {
    t[|t| - 1]
  }

  /** The lock a thread acquires next. */
  function Wanted(t: Thread): Option<Lock> {
    if t != [] && Top(t).todo != [] then Some(Top(t).todo[0].lock) else None
  }

  predicate Holds(t: Thread, l: Lock) {
    exists i :: 0 <= i < |t| && t[i].lock == Some(l)
  }

  type State = seq<Thread>

  datatype Event = Begin(thread: nat, activity: Activity) | Acquire(thread: nat) | Release(thread: nat)

  predicate Free(s: State, l: Lock) {
    forall i :: 0 <= i < |s| ==> !Holds(s[i], l)
  }

  predicate Enabled(s: State, e: Event) {
    && e.thread < |s| && s[e.thread] != []
    && var t := s[e.thread];
       match e
       case Begin(_, _) => |t| == 1 && Top(t).todo == []
       case Acquire(_) => Wanted(t).Some? && Free(s, Wanted(t).value)
       case Release(_) => |t| > 1 && Top(t).todo == []
  }

  /** Opening the next block. */
  function Pushed(t: Thread): Thread
    requires Wanted(t).Some?
  {
    var b := Top(t).todo[0];
    t[..|t| - 1] + [Top(t).(todo := Top(t).todo[1..]), Frame(Some(b.lock), b.body)]
  }

  function Apply(s: State, e: Event): State
    requires Enabled(s, e)
  {
    var t := s[e.thread];
    match e
    case Begin(i, a) => s[i := [Frame(None, Body(a))]]
    case Acquire(i) => s[i := Pushed(t)]
    case Release(i) => s[i := t[..|t| - 1]]
  }

  ghost predicate Run(s: State, es: seq<Event>, s': State)
    decreases |es|
  {
    if es == [] then s == s' else Enabled(s, es[0]) && Run(Apply(s, es[0]), es[1..], s')
  }

  // ---------------------------------------------------------------- the invariant

  function FrameRank(f: Frame): int {
    if f.lock.Some? then Rank(f.lock.value) else -1
  }

  /** Locks climb up the stack, and what is left to do climbs further. */
  ghost predicate ThreadOk(t: Thread) {
    && t != []
    && (forall i :: 0 <= i < |t| ==> (t[i].lock.None? <==> i == 0))
    && (forall i, j :: 0 <= i < j < |t| ==> FrameRank(t[i]) < FrameRank(t[j]))
    && (forall i :: 0 <= i < |t| ==> Ordered(t[i].todo, FrameRank(t[i])))
  }

  /** A mutex has at most one holder. */
  ghost predicate Exclusive(s: State) {
    forall i, j, l :: 0 <= i < j < |s| && Holds(s[i], l) ==> !Holds(s[j], l)
  }

  ghost predicate Inv(s: State) {
    (forall i :: 0 <= i < |s| ==> ThreadOk(s[i])) && Exclusive(s)
  }

  lemma PushedOk(t: Thread)
    requires ThreadOk(t) && Wanted(t).Some?
    ensures ThreadOk(Pushed(t))
    ensures forall l :: Holds(Pushed(t), l) <==> Holds(t, l) || Wanted(t) == Some(l)
  {
    var n, p := |t| - 1, Pushed(t);
    var b := Top(t).todo[0];
    assert Ordered(Top(t).todo, FrameRank(t[n]));
    assert forall i :: 0 <= i < n ==> p[i] == t[i];
    assert p[n].lock == t[n].lock && p[n + 1].lock == Some(b.lock);
    forall l
      ensures Holds(p, l) <==> Holds(t, l) || b.lock == l
    {
      if Holds(t, l) {
        var i :| 0 <= i < |t| && t[i].lock == Some(l);
        assert p[i].lock == Some(l);
      }
      if b.lock == l {
        assert p[n + 1].lock == Some(l);
      }
    }
  }

  lemma PoppedOk(t: Thread)
    requires ThreadOk(t) && |t| > 1
    ensures ThreadOk(t[..|t| - 1])
    ensures forall l :: Holds(t[..|t| - 1], l) ==> Holds(t, l)
  {
    var p := t[..|t| - 1];
    forall l | Holds(p, l)
      ensures Holds(t, l)
    {
      var i :| 0 <= i < |p| && p[i].lock == Some(l);
      assert t[i].lock == Some(l);
    }
  }

  lemma StepKeepsInv(s: State, e: Event)
    requires Inv(s) && Enabled(s, e)
    ensures Inv(Apply(s, e)) && |Apply(s, e)| == |s|
  {
    hide Ordered, Body, Pushed;
    var t := s[e.thread];
    match e {
      case Begin(_, a) =>
        ActivityOrdered(a);
      case Acquire(_) =>
        PushedOk(t);
      case Release(_) =>
        PoppedOk(t);
    }
  }

  lemma {:induction false} RunKeepsInv(s: State, es: seq<Event>, s': State)
    requires Inv(s) && Run(s, es, s')
    ensures Inv(s') && |s'| == |s|
    decreases |es|
  {
    if es != [] {
      StepKeepsInv(s, es[0]);
      RunKeepsInv(Apply(s, es[0]), es[1..], s');
    }
  }

  ghost predicate Initial(s: State) {
    forall i :: 0 <= i < |s| ==> s[i] == IDLE
  }

  ghost predicate Reachable(s: State) {
    exists s0, es :: Initial(s0) && Run(s0, es, s)
  }

  lemma ReachableInv(s: State)
    requires Reachable(s)
    ensures Inv(s)
  {
    var s0, es :| Initial(s0) && Run(s0, es, s);
    RunKeepsInv(s0, es, s);
  }

  // ---------------------------------------------------------------- no circular wait

  /** Thread `i` waits for a mutex that thread `j` holds. */
  predicate WaitsFor(s: State, i: int, j: int) {
    && 0 <= i < |s| && 0 <= j < |s|
    && Wanted(s[i]).Some? && Holds(s[j], Wanted(s[i]).value)
  }

  /** Waiting climbs in rank; in particular no thread waits for itself. */
  lemma WaitingClimbs(s: State, i: int, j: int)
    requires Inv(s) && WaitsFor(s, i, j)
    ensures i != j
    ensures Wanted(s[j]).Some? ==> Rank(Wanted(s[i]).value) < Rank(Wanted(s[j]).value)
  {
    var l, t := Wanted(s[i]).value, s[j];
    var k :| 0 <= k < |t| && t[k].lock == Some(l);
    if Wanted(t).Some? {
      var n := |t| - 1;
      assert Ordered(t[n].todo, FrameRank(t[n]));
      assert FrameRank(t[k]) <= FrameRank(t[n]);
    }
  }

  /** A circular wait: each thread of the ring waits for the next. */
  ghost predicate CircularWait(s: State, ring: seq<int>) {
    && ring != []
    && forall k :: 0 <= k < |ring| ==> WaitsFor(s, ring[k], ring[if k + 1 < |ring| then k + 1 else 0])
  }

  lemma {:induction false} RingClimbs(s: State, ring: seq<int>, k: nat)
    requires Inv(s) && CircularWait(s, ring) && k < |ring|
    ensures WaitsFor(s, ring[0], ring[if 1 < |ring| then 1 else 0])
    ensures WaitsFor(s, ring[k], ring[if k + 1 < |ring| then k + 1 else 0])
    ensures Rank(Wanted(s[ring[0]]).value) + k <= Rank(Wanted(s[ring[k]]).value)
  {
    if k > 0 {
      RingClimbs(s, ring, k - 1);
      WaitingClimbs(s, ring[k - 1], ring[k]);
    }
  }

  /** No reachable state has a circular lock wait, whatever runs on however many
      threads. */
  lemma NoCircularWait(s: State, ring: seq<int>)
    requires Reachable(s)
    ensures !CircularWait(s, ring)
  {
    ReachableInv(s);
    if CircularWait(s, ring) {
      var n := |ring| - 1;
      RingClimbs(s, ring, n);
      WaitingClimbs(s, ring[n], ring[0]);
    }
  }

  /** Of the threads `0..n` that wait for a lock, one whose lock ranks highest. */
  lemma {:induction false} HighestWanted(s: State, n: nat) returns (m: Option<nat>)
    requires n <= |s|
    ensures m.None? ==> forall i :: 0 <= i < n ==> Wanted(s[i]).None?
    ensures m.Some? ==> m.value < n && Wanted(s[m.value]).Some?
                        && forall i :: 0 <= i < n && Wanted(s[i]).Some? ==>
                             Rank(Wanted(s[i]).value) <= Rank(Wanted(s[m.value]).value)
  {
    if n == 0 {
      m := None;
    } else {
      m := HighestWanted(s, n - 1);
      if Wanted(s[n - 1]).Some?
         && (m.None? || Rank(Wanted(s[n - 1]).value) > Rank(Wanted(s[m.value]).value)) {
        m := Some(n - 1);
      }
    }
  }

  lemma Resting(t: Thread)
    requires ThreadOk(t) && Wanted(t).None? && |t| == 1
    ensures t == IDLE
  {
    assert t[0].lock == None;
  }

  /** The highest-ranked waiter gets its lock, or the lock's holder can go on. */
  lemma HighestIsNext(s: State, m: nat)
    requires Inv(s) && m < |s| && Wanted(s[m]).Some?
    requires forall j :: 0 <= j < |s| && Wanted(s[j]).Some? ==>
               Rank(Wanted(s[j]).value) <= Rank(Wanted(s[m]).value)
    ensures exists e: Event :: !e.Begin? && Enabled(s, e)
  {
    hide Ordered;
    assert ThreadOk(s[m]);
    if Free(s, Wanted(s[m]).value) {
      assert Enabled(s, Acquire(m));
    } else {
      var j :| 0 <= j < |s| && Holds(s[j], Wanted(s[m]).value);
      WaitingClimbs(s, m, j);
      assert ThreadOk(s[j]);
      assert Enabled(s, Release(j));
    }
  }

  /** While any thread is inside an activity, some thread inside one can go on: it
      can take the lock it wants or give one back. */
  lemma AlwaysProgress(s: State, i: nat)
    requires Reachable(s) && i < |s| && s[i] != IDLE
    ensures exists e: Event :: !e.Begin? && Enabled(s, e)
  {
    hide Ordered;
    ReachableInv(s);
    var m := HighestWanted(s, |s|);
    if m.None? {
      if |s[i]| == 1 {
        Resting(s[i]);
      }
      assert Enabled(s, Release(i));
    } else {
      HighestIsNext(s, m.value);
    }
  }
}
