/**
 * The tuner and session allocator as a step machine: eight tuners, the list of
 * live sessions, and every step that changes them.
 */
module AllocatorModel {
  import opened Common
  import opened TunerModel

  const MAX_DVB_DEVICES: nat := 8
  const MAX_SESSION_PIDS: nat := 32

  // ---------------------------------------------------------------- state

  datatype DestKind = Plain | Live | Live2

  datatype Dest = Dest(id: int, kind: DestKind, expired: bool)

  datatype Session = Session(id: nat, tuner: nat, onid: nat, channelId: nat, chan: ChanRef,
                             pids: seq<int>, dests: seq<Dest>)

  datatype Sys = Sys(tuners: seq<Tuner>, sessions: seq<Session>)

  // ---------------------------------------------------------------- sessions and destinations

  /** The program map PID of a channel. */
  function PmtPid(t: Tuner, r: ChanRef): int {
    if r.entry < |t.freqs| && r.pos < |t.freqs[r.entry].channels| then t.freqs[r.entry].channels[r.pos].pmtPid
    else NO_PID
  }

  function SessionPids(t: Tuner, x: Session): seq<int> {
    [PmtPid(t, x.chan)] + x.pids
  }

  function OtherThan(kind: DestKind): Dest -> bool {
    (d: Dest) => d.kind != kind
  }

  function OfKind(x: Session, kind: DestKind): Session {
    x.(dests := Filter(x.dests, OtherThan(kind)))
  }

  /** Closes all destinations of one kind, in every session. */
  function CloseType(sessions: seq<Session>, kind: DestKind): (r: seq<Session>)
    ensures |r| == |sessions|
    ensures forall i :: 0 <= i < |r| ==> r[i] == OfKind(sessions[i], kind)
  {
    if sessions == [] then []
    else CloseType(sessions[..|sessions| - 1], kind) + [OfKind(sessions[|sessions| - 1], kind)]
  }

  function NotExpired(): Dest -> bool {
    (d: Dest) => !d.expired
  }

  /** Retires the expired destinations of a session. */
  function Retired(x: Session): Session {
    x.(dests := Filter(x.dests, NotExpired()))
  }

  /** The first session of a program, or the length. */
  function SessionFor(sessions: seq<Session>, onid: nat, channelId: nat): (i: nat)
    ensures i <= |sessions|
    ensures i < |sessions| ==> sessions[i].onid == onid && sessions[i].channelId == channelId
    ensures forall j :: 0 <= j < i ==> sessions[j].onid != onid || sessions[j].channelId != channelId
  {
    if sessions == [] || (sessions[0].onid == onid && sessions[0].channelId == channelId) then 0
    else 1 + SessionFor(sessions[1..], onid, channelId)
  }

  /** The first session with that id, or the length. */
  function SessionById(sessions: seq<Session>, id: nat): (i: nat)
    ensures i <= |sessions|
    ensures i < |sessions| ==> sessions[i].id == id
  {
    if sessions == [] || sessions[0].id == id then 0 else 1 + SessionById(sessions[1..], id)
  }

  lemma {:induction false} FirstById(sessions: seq<Session>, id: nat, i: nat)
    requires i < |sessions| && sessions[i].id == id
    requires forall k :: 0 <= k < i ==> sessions[k].id != id
    ensures SessionById(sessions, id) == i
  {
    if i > 0 {
      FirstById(sessions[1..], id, i - 1);
    }
  }

  // ---------------------------------------------------------------- adding a session

  datatype Pick = NoTuner | Fresh(tuner: nat, chan: ChanRef) | Shared(tuner: nat, chan: ChanRef)

  /** Whether a busy tuner already stands on the entry that carries the program. */
  predicate OnEntry(t: Tuner, entry: nat) {
    t.curr.Some? && t.curr.value < |t.freqs| && entry < |t.freqs|
    && SameEntry(t.kind, t.freqs[entry], t.freqs[t.curr.value])
  }

  /** The first tuner from `k` on that is free, or busy on the right frequency. */
  function PickTuner(tuners: seq<Tuner>, onid: int, channelId: int, k: nat): (r: Pick)
    requires k <= |tuners|
    ensures !r.NoTuner? ==> k <= r.tuner < |tuners| && r.chan.entry < |tuners[r.tuner].freqs|
    decreases |tuners| - k
  {
    if k == |tuners| then NoTuner
    else
      match ChannelOf(tuners[k].freqs, onid, channelId)
      case None => PickTuner(tuners, onid, channelId, k + 1)
      case Some(r) =>
        if tuners[k].refcnt == 0 then Fresh(k, r)
        else if OnEntry(tuners[k], r.entry) then Shared(k, r)
        else PickTuner(tuners, onid, channelId, k + 1)
  }

  /** Some tuner has found the program. */
  predicate Servable(tuners: seq<Tuner>, onid: int, channelId: int) {
    exists k :: 0 <= k < |tuners| && Matches(tuners[k].freqs, onid, channelId) > 0
  }

  /** A free tuner is claimed, tuned and given its filters. */
  function Claimed(t: Tuner, r: ChanRef, tuned: bool): Tuner
    requires r.entry < |t.freqs|
  {
    var t1 := Tune(t.(state := Busy, refcnt := t.refcnt + 1), r.entry, tuned);
    t1.(pids := AddPids(t1.pids, [0, 0x10, 0x11, 0x12, PmtPid(t1, r)]))
  }

  function Joined(t: Tuner, r: ChanRef): Tuner {
    t.(refcnt := t.refcnt + 1, pids := AddPid(t.pids, PmtPid(t, r)))
  }

  /** Stops live output of a kind before it starts again. */
  function WithoutLive(sessions: seq<Session>, dest: Dest): (r: seq<Session>)
    ensures |r| == |sessions|
  {
    if dest.kind == Plain then sessions else CloseType(sessions, dest.kind)
  }

  /** The new session on the tuner that was picked for it. */
  function Place(s: Sys, pick: Pick, onid: nat, channelId: nat, dest: Dest, newId: nat, tuned: bool): Sys
    requires !pick.NoTuner? ==> pick.tuner < |s.tuners| && pick.chan.entry < |s.tuners[pick.tuner].freqs|
  {
    if pick.NoTuner? then s
    else
      var t := s.tuners[pick.tuner];
      Sys(s.tuners[pick.tuner := if pick.Fresh? then Claimed(t, pick.chan, tuned) else Joined(t, pick.chan)],
          s.sessions + [Session(newId, pick.tuner, onid, channelId, pick.chan, [], [dest])])
  }

  /** Starts a session or extends the one there is; the number returned is the
      session's id, 0 for failure. */
  function AddNew(s: Sys, onid: nat, channelId: nat, dest: Dest, newId: nat, tuned: bool): (Sys, nat)
  {
    if !Servable(s.tuners, onid, channelId) then (s, 0)
    else
      var s1 := s.(sessions := WithoutLive(s.sessions, dest));
      var i := SessionFor(s1.sessions, onid, channelId);
      if i < |s1.sessions| then
        var x := s1.sessions[i];
        (s1.(sessions := s1.sessions[i := x.(dests := x.dests + [dest])]), x.id)
      else
        var pick := PickTuner(s1.tuners, onid, channelId, 0);
        (Place(s1, pick, onid, channelId, dest, newId, tuned), if pick.NoTuner? then 0 else newId)
  }

  // ---------------------------------------------------------------- ending sessions

  /** The tuner of an ended session: its PIDs go, and the last user frees it. */
  function Released(t: Tuner, x: Session): Tuner {
    t.(pids := RemovePids(t.pids, SessionPids(t, x)), refcnt := t.refcnt - 1,
       state := if t.refcnt - 1 <= 0 then Idle else t.state)
  }

  function RemoveSession(s: Sys, i: nat): Sys
    requires i < |s.sessions| && s.sessions[i].tuner < |s.tuners|
  {
    var x := s.sessions[i];
    Sys(s.tuners[x.tuner := Released(s.tuners[x.tuner], x)], s.sessions[..i] + s.sessions[i + 1..])
  }

  function Stop(s: Sys, id: nat): Sys {
    var i := SessionById(s.sessions, id);
    if i < |s.sessions| && s.sessions[i].tuner < |s.tuners| then RemoveSession(s, i) else s
  }

  /** One pass of the session thread from session `i` on. */
  function Reap(s: Sys, i: nat): Sys
    requires i <= |s.sessions|
    decreases |s.sessions| - i
  {
    if i == |s.sessions| then s
    else if s.sessions[i].dests == [] && s.sessions[i].tuner < |s.tuners| then Reap(RemoveSession(s, i), i)
    else Reap(s, i + 1)
  }

  // ---------------------------------------------------------------- program maps

  /** The PIDs of a program map that a session does not list yet, in order. */
  function NewPids(known: seq<int>, pids: seq<int>): seq<int> {
    if pids == [] then []
    else
      var before, p := NewPids(known, pids[..|pids| - 1]), pids[|pids| - 1];
      if p in known || p in before then before else before + [p]
  }

  function AddMap(s: Sys, i: nat, pids: seq<int>): Sys
    requires i < |s.sessions| && s.sessions[i].tuner < |s.tuners|
  {
    var x := s.sessions[i];
    var news, t := NewPids(x.pids, pids), s.tuners[x.tuner];
    Sys(s.tuners[x.tuner := t.(pids := AddPids(t.pids, news))], s.sessions[i := x.(pids := x.pids + news)])
  }

  // ---------------------------------------------------------------- steps

  datatype Event =
    | Load(tuner: nat, frequency: int, polarity: char)
    | StartTuner(tuner: nat, threadRuns: bool, tuned: bool)
    | Scan(tuner: nat, tuned: bool)
    | Sync(tuner: nat)
    | Pat(tuner: nat, serviceId: nat, pmtPid: int)
    | Sdt(tuner: nat, serviceId: nat, onid: nat)
    | Nit(tuner: nat, frequency: int, polarity: char)
    | Add(onid: nat, channelId: nat, dest: Dest, newId: nat, tuned: bool)
    | ProgramMap(session: nat, pids: seq<int>)
    | StopSession(id: nat)
    | ReapEmpty
    | Expire(session: nat, which: nat)
    | Retire(session: nat)

  /** The hardware thread runs and the tuner stands somewhere. */
  predicate Receives(t: Tuner) {
    t.state in {Idle, Busy} && t.curr.Some? && t.curr.value < |t.freqs|
  }

  /** The tuner a step of a tuner's own thread leads to. */
  function TunerAfter(t: Tuner, e: Event): Option<Tuner> {
    match e
    case Load(_, frequency, polarity) =>
      if t.state == NotStarted && InBand(t.kind, frequency)
      then Some(t.(freqs := AddEntry(t.kind, t.freqs, frequency, polarity))) else None
    case StartTuner(_, threadRuns, tuned) =>
      if t.state == NotStarted && (t.kind == OtherKind || t.freqs != []) then Some(Start(t, threadRuns, tuned)) else None
    case Scan(_, tuned) => Some(ScanTick(t, tuned))
    case Sync(_) => Some(t.(lastSequence := t.sequence))
    case Pat(_, serviceId, pmtPid) =>
      if Receives(t) then Some(AddPAT(t, serviceId, pmtPid)) else None
    case Sdt(_, serviceId, onid) =>
      if Receives(t) then Some(AddSDT(t, serviceId, onid)) else None
    case Nit(_, frequency, polarity) =>
      if Receives(t) && t.kind == Satellite && InBand(Satellite, frequency)
      then Some(AddSatelliteFrequency(t, frequency, polarity)) else None
    case _ => None
  }

  predicate TunerEvent(e: Event) {
    e.Load? || e.StartTuner? || e.Scan? || e.Sync? || e.Pat? || e.Sdt? || e.Nit?
  }

  predicate Enabled(s: Sys, e: Event) {
    match e
    case Add(_, _, _, _, _) => true
    case ProgramMap(i, pids) =>
      && i < |s.sessions| && s.sessions[i].tuner < |s.tuners|
      && |s.sessions[i].pids + NewPids(s.sessions[i].pids, pids)| <= MAX_SESSION_PIDS
    case StopSession(_) => true
    case ReapEmpty => true
    case Expire(i, j) => i < |s.sessions| && j < |s.sessions[i].dests|
    case Retire(i) => i < |s.sessions|
    case _ => e.tuner < |s.tuners| && TunerAfter(s.tuners[e.tuner], e).Some?
  }

  function Apply(s: Sys, e: Event): Sys
    requires Enabled(s, e)
  {
    match e
    case Add(onid, channelId, dest, newId, tuned) => AddNew(s, onid, channelId, dest, newId, tuned).0
    case ProgramMap(i, pids) => AddMap(s, i, pids)
    case StopSession(id) => Stop(s, id)
    case ReapEmpty => Reap(s, 0)
    case Expire(i, j) =>
      var x := s.sessions[i];
      s.(sessions := s.sessions[i := x.(dests := x.dests[j := x.dests[j].(expired := true)])])
    case Retire(i) => s.(sessions := s.sessions[i := Retired(s.sessions[i])])
    case _ => s.(tuners := s.tuners[e.tuner := TunerAfter(s.tuners[e.tuner], e).value])
  }

  ghost predicate Run(s: Sys, es: seq<Event>, s': Sys)
    decreases |es|
  {
    if es == [] then s == s' else Enabled(s, es[0]) && Run(Apply(s, es[0]), es[1..], s')
  }

  /** Power on: fresh tuners and no sessions. */
  ghost predicate Initial(s: Sys) {
    |s.tuners| == MAX_DVB_DEVICES && s.sessions == []
    && forall k :: 0 <= k < |s.tuners| ==> FreshTuner(s.tuners[k])
  }

  ghost predicate Reachable(s: Sys) {
    exists s0, es :: Initial(s0) && Run(s0, es, s)
  }
}
