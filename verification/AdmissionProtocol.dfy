/** Competing `review --pool` launchers on one host as a transition system: they share the
    lease file, the clock, the process table and the census of live reviewers, may die
    between any two steps, and may find their lease reclaimed at any time. */
module AdmissionProtocol {
  import opened Text
  import opened AdmissionLease
  import Capacity

  type Token = string

  /** Where a launcher stands. A token is what it will present to update and release. */
  datatype Stage =
    | Claimed(token: Token)     // lease written, not yet read back
    | Holding(token: Token)     // read back; the census has not been taken
    | Admitted(token: Token)    // the census admitted one more reviewer
    | Cleared(token: Token)     // the spawn phase is on record; the agent may be started
    | Started(token: Token)     // the agent start was issued
    | Idle                      // nothing held: not begun, refused, or finished

  /** A live process, with the instant and TTL it wrote into its own lease. */
  datatype Launcher = Launcher(pid: int, stage: Stage, taken: int, ttl: int) {
    predicate HasToken() { !stage.Idle? }

    predicate Owns(token: Token) { HasToken() && stage.token == token }

    /** Age within the effective TTL of the lease this process wrote. */
    predicate Within(now: int) { !Lease("", pid, taken, ttl, "").Expired(now) }

    function Deadline(): int { taken + Lease("", pid, taken, ttl, "").EffectiveTTL() }
  }

  /** Memory of the host and the cost the fleet configured for one reviewer. */
  datatype Host = Host(memTotal: int, perReviewer: int, floor: int, pct: Option<int>) {
    function Limit(): (limit: int)
      requires memTotal <= Capacity.MAX_MIB
      ensures limit >= 1
    {
      Capacity.DerivedReviewLimit(memTotal, perReviewer, pct)
    }
  }

  /** `listed` counts reviewers in the census; `inFlight` maps each started reviewer not
      yet listed (named by the token it was started under) to the end of that lease. */
  datatype State = State(
    file: File, now: int, live: map<nat, Launcher>, listed: nat,
    inFlight: map<Token, int>, used: set<Token>)

  datatype Step =
    | Arrive(p: nat, pid: int)                                     // a launcher process begins
    | Acquire(p: nat, token: Token, ttl: int, probe: Liveness)     // holdAdmissionLease
    | ReadBack(p: nat)                                             // the lease is re-read without the lock
    | Census(p: nat, o: Capacity.Observation)                      // observe, derive the limit, decide
    | Advance(p: nat, phase: string)                               // updateAdmissionLeasePhase
    | Spawn(p: nat)                                                // start the review agent
    | Retire(p: nat, locked: bool)                                 // deferred release on the way out
    | Crash(p: nat)
    | Listed(token: Token)                                         // a started reviewer appears in the census
    | Abandoned(token: Token)                                      // the start failed; nothing will appear
    | Leave                                                        // a listed reviewer is gone
    | Tick(to: int)

  predicate At(s: State, p: nat) { p in s.live }

  function Move(s: State, p: nat, stage: Stage): State
    requires At(s, p)
  {
    s.(live := s.live[p := s.live[p].(stage := stage)])
  }

  /** A kernel probe reports death only of a pid that no live process has. */
  ghost predicate ProbeHonest(s: State, r: Lease, probe: Liveness) {
    probe == Dead ==> forall q :: q in s.live ==> s.live[q].pid != r.pid
  }

  ghost predicate Next(h: Host, s: State, step: Step, s': State)
    requires h.memTotal <= Capacity.MAX_MIB
  {
    match step
    case Arrive(p, pid) =>
      && !At(s, p) && (forall q :: q in s.live ==> s.live[q].pid != pid)
      && s' == s.(live := s.live[p := Launcher(pid, Idle, s.now, 0)])
    case Acquire(p, token, ttl, probe) =>
      && At(s, p) && s.live[p].stage.Idle? && token !in s.used
      && (s.file.Held? ==> ProbeHonest(s, s.file.lease, probe))
      && var (file, held) := Hold(s.file, token, s.live[p].pid, s.now, ttl, probe);
      var me := if held then Launcher(s.live[p].pid, Claimed(token), s.now, ttl) else s.live[p];
      s' == s.(file := file, live := s.live[p := me], used := s.used + {token})
    case ReadBack(p) =>
      && At(s, p) && s.live[p].stage.Claimed?
      && (|| s' == Move(s, p, Idle)     // unreadable, or another process wrote it: give up
          || (s.file.Held? && s.file.lease.pid == s.live[p].pid
              && s' == Move(s, p, Holding(s.file.lease.token))))
    case Census(p, o) =>
      && At(s, p) && s.live[p].stage.Holding?
      && (o.agentsListed ==> o.reviewers == s.listed)
      && (o.memTotal == h.memTotal || o.memTotal <= 0)
      && var limit := Capacity.DerivedReviewLimit(if o.memTotal <= 0 then o.memTotal else h.memTotal, h.perReviewer, h.pct);
      var token := s.live[p].stage.token;
      if Capacity.Decide(o, limit, h.perReviewer, h.floor).admit
      then s' == Move(s, p, Admitted(token))
      else s' == Move(s, p, Idle).(file := Release(s.file, token))
    case Advance(p, phase) =>
      && At(s, p) && s.live[p].stage.Admitted?
      && var token := s.live[p].stage.token;
      var (file, ok) := Update(s.file, token, phase);
      var stage := if phase == PHASE_SPAWN then Cleared(token) else Admitted(token);
      if ok then s' == Move(s, p, stage).(file := file)
      else s' == Move(s, p, Idle).(file := Release(s.file, token))
    case Spawn(p) =>
      && At(s, p) && s.live[p].stage.Cleared?
      && var token := s.live[p].stage.token;
      s' == Move(s, p, Started(token)).(inFlight := s.inFlight[token := s.live[p].Deadline()])
    case Retire(p, locked) =>
      && At(s, p) && s.live[p].HasToken()
      && var token := s.live[p].stage.token;
      && (s.live[p].stage.Started? ==> token !in s.inFlight)
      && s' == Move(s, p, Idle).(file := if locked then Release(s.file, token) else s.file)
    case Crash(p) =>
      At(s, p) && s' == s.(live := s.live - {p})
    case Listed(token) =>
      token in s.inFlight && s' == s.(listed := s.listed + 1, inFlight := s.inFlight - {token})
    case Abandoned(token) =>
      token in s.inFlight && s' == s.(inFlight := s.inFlight - {token})
    case Leave =>
      s.listed > 0 && s' == s.(listed := s.listed - 1)
    case Tick(to) =>
      s.now <= to && s' == s.(now := to)
  }

  /** Any earlier lease file is allowed, readable or not; nothing is in flight and the
      census is within the cap. */
  ghost predicate Init(h: Host, s: State)
    requires h.memTotal <= Capacity.MAX_MIB
  {
    && s.live == map[] && s.inFlight == map[] && s.listed <= h.Limit()
    && (s.file.Held? ==> s.file.lease.token in s.used)
  }

  /** The two ways a launch can outlive its lease: the agent is started after the lease was
      lost, or the lease is taken over while a reviewer started under it is not listed. */
  ghost predicate Overruns(s: State, step: Step) {
    match step
    case Spawn(p) => At(s, p) && !(s.file.Held? && s.live[p].Owns(s.file.lease.token))
    case Acquire(p, token, ttl, probe) =>
      s.file.Held? && s.file.lease.token in s.inFlight && Reclaimable(s.file.lease, s.now, probe)
    case _ => false
  }

  /** What the TTL is sized for: the agent is started while the launcher's own lease has
      not expired, and a started reviewer is listed (or has failed) before it does. */
  ghost predicate Timely(s: State, step: Step) {
    match step
    case Spawn(p) => At(s, p) ==> s.live[p].Within(s.now)
    case Tick(to) => forall t :: t in s.inFlight ==> to <= s.inFlight[t]
    case _ => true
  }

  ghost predicate IsRun(h: Host, states: seq<State>, steps: seq<Step>)
    requires h.memTotal <= Capacity.MAX_MIB
  {
    && |states| == |steps| + 1 && Init(h, states[0])
    && forall i :: 0 <= i < |steps| ==> Next(h, states[i], steps[i], states[i + 1])
  }

  ghost predicate NoneOverruns(states: seq<State>, steps: seq<Step>, n: nat) {
    n <= |steps| && |states| == |steps| + 1 && forall i :: 0 <= i < n ==> !Overruns(states[i], steps[i])
  }

  ghost predicate AllTimely(states: seq<State>, steps: seq<Step>) {
    |states| == |steps| + 1 && forall i :: 0 <= i < |steps| ==> Timely(states[i], steps[i])
  }

  // ----- invariants -----

  ghost predicate PidsDistinct(s: State) {
    forall p, q :: p in s.live && q in s.live && p != q ==> s.live[p].pid != s.live[q].pid
  }

  ghost predicate TokensDistinct(s: State) {
    forall p, q :: p in s.live && q in s.live && p != q && s.live[p].HasToken() ==>
      !s.live[q].Owns(s.live[p].stage.token)
  }

  ghost predicate TokensUsed(s: State) {
    && (forall p :: p in s.live && s.live[p].HasToken() ==> s.live[p].stage.token in s.used)
    && (s.file.Held? ==> s.file.lease.token in s.used)
    && (forall t :: t in s.inFlight ==> t in s.used)
  }

  /** Processes are told apart by pid and by token, and tokens are never reused. */
  ghost predicate Identities(s: State) {
    PidsDistinct(s) && TokensDistinct(s) && TokensUsed(s)
  }

  /** The stored record is exactly the one this process wrote, up to its phase. */
  ghost predicate StoredIs(file: File, l: Launcher) {
    && file.Held? && l.Owns(file.lease.token)
    && file.lease.pid == l.pid && file.lease.taken == l.taken && file.lease.ttl == l.ttl
  }

  /** A live process within its TTL still has the lease it wrote. */
  ghost predicate Possession(s: State) {
    forall p :: p in s.live && s.live[p].HasToken() && s.live[p].Within(s.now) ==> StoredIs(s.file, s.live[p])
  }

  /** A stored record with the token or the pid of a live holder is that process's own. */
  ghost predicate TokensAgree(s: State) {
    forall p :: p in s.live && s.live[p].HasToken() && s.file.Held?
                && (s.live[p].Owns(s.file.lease.token) || s.live[p].pid == s.file.lease.pid) ==>
      StoredIs(s.file, s.live[p])
  }

  /** The lease of a reviewer in flight is stored and past early reclaim. */
  ghost predicate FlightsCovered(s: State) {
    forall t :: t in s.inFlight ==>
      && s.file.Held? && s.file.lease.token == t && s.file.lease.phase == PHASE_SPAWN
      && s.inFlight[t] == s.file.lease.taken + s.file.lease.EffectiveTTL()
      && forall p :: p in s.live && s.live[p].Owns(t) ==> s.live[p].stage.Started?
  }

  /** A cleared process whose lease is stored has recorded the spawn phase. */
  ghost predicate ClearedIsRecorded(s: State) {
    forall p :: p in s.live && s.live[p].stage.Cleared? && s.file.Held? && s.live[p].Owns(s.file.lease.token) ==>
      s.file.lease.phase == PHASE_SPAWN
  }

  /** No lease of a reviewer in flight has expired. */
  ghost predicate OnTime(s: State) {
    forall t :: t in s.inFlight ==> s.now <= s.inFlight[t]
  }

  predicate Reserved(l: Launcher) { l.stage.Admitted? || l.stage.Cleared? }

  /** The cap, with one slot kept for an admitted process that still has the lease. */
  ghost predicate CapKept(h: Host, s: State)
    requires h.memTotal <= Capacity.MAX_MIB
  {
    && s.listed + |s.inFlight| <= h.Limit()
    && forall p :: p in s.live && Reserved(s.live[p]) && s.file.Held? && s.live[p].Owns(s.file.lease.token) ==>
         s.listed + |s.inFlight| + 1 <= h.Limit()
  }

  /** Holds in every run, timely or not. */
  ghost predicate Safe(s: State) {
    Identities(s) && Possession(s) && TokensAgree(s)
  }

  /** Nobody got past a file that cannot be read. */
  ghost predicate UnreadableIsQuiet(s: State) {
    s.file.Unreadable? ==> s.inFlight == map[] && forall p :: p in s.live ==> !s.live[p].HasToken()
  }

  /** Holds while no launch outlives its lease. */
  ghost predicate Sound(h: Host, s: State)
    requires h.memTotal <= Capacity.MAX_MIB
  {
    Safe(s) && FlightsCovered(s) && ClearedIsRecorded(s) && CapKept(h, s) && UnreadableIsQuiet(s)
  }

  lemma InitSound(h: Host, s: State)
    requires h.memTotal <= Capacity.MAX_MIB && Init(h, s)
    ensures Sound(h, s)
  {
  }

  lemma StepKeepsPidsDistinct(h: Host, s: State, step: Step, s': State)
    requires h.memTotal <= Capacity.MAX_MIB && Safe(s) && Next(h, s, step, s')
    ensures PidsDistinct(s')
  {
  }

  lemma StepKeepsTokensDistinct(h: Host, s: State, step: Step, s': State)
    requires h.memTotal <= Capacity.MAX_MIB && Safe(s) && Next(h, s, step, s')
    ensures TokensDistinct(s')
  {
  }

  lemma StepKeepsTokensUsed(h: Host, s: State, step: Step, s': State)
    requires h.memTotal <= Capacity.MAX_MIB && Safe(s) && Next(h, s, step, s')
    ensures TokensUsed(s')
  {
  }

  lemma StepKeepsPossession(h: Host, s: State, step: Step, s': State)
    requires h.memTotal <= Capacity.MAX_MIB && Safe(s) && Next(h, s, step, s')
    ensures Possession(s')
  {
  }

  lemma StepKeepsTokensAgree(h: Host, s: State, step: Step, s': State)
    requires h.memTotal <= Capacity.MAX_MIB && Safe(s) && Next(h, s, step, s')
    ensures TokensAgree(s')
  {
  }

  lemma StepKeepsFlights(h: Host, s: State, step: Step, s': State)
    requires h.memTotal <= Capacity.MAX_MIB && Safe(s) && Next(h, s, step, s') && !Overruns(s, step)
    requires FlightsCovered(s) && ClearedIsRecorded(s)
    ensures FlightsCovered(s') && ClearedIsRecorded(s')
  {
  }

  lemma StepKeepsCap(h: Host, s: State, step: Step, s': State)
    requires h.memTotal <= Capacity.MAX_MIB && Safe(s) && Next(h, s, step, s') && !Overruns(s, step)
    requires FlightsCovered(s) && ClearedIsRecorded(s) && CapKept(h, s)
    ensures CapKept(h, s')
  {
  }

  lemma StepKeepsSafe(h: Host, s: State, step: Step, s': State)
    requires h.memTotal <= Capacity.MAX_MIB && Safe(s) && Next(h, s, step, s')
    ensures Safe(s')
  {
    StepKeepsPidsDistinct(h, s, step, s');
    StepKeepsTokensDistinct(h, s, step, s');
    StepKeepsTokensUsed(h, s, step, s');
    StepKeepsPossession(h, s, step, s');
    StepKeepsTokensAgree(h, s, step, s');
  }

  lemma StepKeepsQuiet(h: Host, s: State, step: Step, s': State)
    requires h.memTotal <= Capacity.MAX_MIB && Next(h, s, step, s') && UnreadableIsQuiet(s)
    ensures UnreadableIsQuiet(s')
  {
  }

  lemma StepKeepsSound(h: Host, s: State, step: Step, s': State)
    requires h.memTotal <= Capacity.MAX_MIB && Sound(h, s) && Next(h, s, step, s') && !Overruns(s, step)
    ensures Sound(h, s')
  {
    hide Safe, FlightsCovered, ClearedIsRecorded, CapKept, UnreadableIsQuiet, Next, Overruns;
    StepKeepsSafe(h, s, step, s');
    StepKeepsFlights(h, s, step, s');
    StepKeepsCap(h, s, step, s');
    StepKeepsQuiet(h, s, step, s');
  }

  // ----- theorems over whole runs -----

  lemma {:induction false} RunIsSafe(h: Host, states: seq<State>, steps: seq<Step>, i: nat)
    requires h.memTotal <= Capacity.MAX_MIB && IsRun(h, states, steps) && i < |states|
    ensures Safe(states[i])
  {
    if i == 0 {
      InitSound(h, states[0]);
    } else {
      RunIsSafe(h, states, steps, i - 1);
      assert Next(h, states[i - 1], steps[i - 1], states[i]);
      StepKeepsSafe(h, states[i - 1], steps[i - 1], states[i]);
    }
  }

  /** In every reachable state at most one live process has an unreleased token within its
      effective TTL, and the stored record then carries that token. No timing is assumed. */
  lemma MutualExclusion(h: Host, states: seq<State>, steps: seq<Step>, i: nat, p: nat, q: nat)
    requires h.memTotal <= Capacity.MAX_MIB && IsRun(h, states, steps) && i < |states|
    requires p in states[i].live && states[i].live[p].HasToken() && states[i].live[p].Within(states[i].now)
    requires q in states[i].live && states[i].live[q].HasToken() && states[i].live[q].Within(states[i].now)
    ensures p == q
    ensures states[i].file.Held? && states[i].live[p].Owns(states[i].file.lease.token)
  {
    RunIsSafe(h, states, steps, i);
  }

  function StoredToken(f: File): Option<Token> {
    if f.Held? then Some(f.lease.token) else None
  }

  /** The process a step belongs to gives its own token back. */
  ghost predicate OwnRelease(s: State, step: Step, s': State) {
    && s.file.Held? && s'.file == Absent
    && (step.Retire? || step.Census? || step.Advance?)
    && At(s, step.p) && s.live[step.p].Owns(s.file.lease.token)
  }

  /** A new record takes the place of none, of an expired one, or of one whose process is
      dead and had not passed the candidate phase. */
  ghost predicate JustTakeover(s: State, step: Step, s': State) {
    && step.Acquire? && s'.file.Held? && s'.file.lease.token == step.token && s'.file.lease.EarlyPhase()
    && (|| s.file.Absent?
        || (s.file.Held? && s.file.lease.Expired(s.now))
        || (s.file.Held? && s.file.lease.EarlyPhase()
            && forall q :: q in s.live ==> s.live[q].pid != s.file.lease.pid))
  }

  /** Ownership changes are always justified, an unreadable file never changes, and while
      the token stays only its owner's update touches the record, and only the phase. */
  lemma OwnershipJustified(h: Host, states: seq<State>, steps: seq<Step>, i: nat)
    requires h.memTotal <= Capacity.MAX_MIB && IsRun(h, states, steps) && i < |steps|
    ensures var s, step, s' := states[i], steps[i], states[i + 1];
            && (StoredToken(s.file) != StoredToken(s'.file) ==> OwnRelease(s, step, s') || JustTakeover(s, step, s'))
            && (s.file.Unreadable? ==> s'.file == s.file)
            && (s.file != s'.file && StoredToken(s.file) == StoredToken(s'.file) ==>
                  && step.Advance? && s.live[step.p].Owns(s.file.lease.token)
                  && s'.file == Held(s.file.lease.(phase := step.phase)))
  {
    RunIsSafe(h, states, steps, i);
    assert Next(h, states[i], steps[i], states[i + 1]);
  }

  /** A lease left by a dead process that had started nothing is free at once: an idle
      launcher that asks gets it, at any clock value. */
  lemma DeadOwnerIsReplaced(h: Host, states: seq<State>, steps: seq<Step>, i: nat, p: nat, token: Token, ttl: int) returns (s': State)
    requires h.memTotal <= Capacity.MAX_MIB && IsRun(h, states, steps) && i < |states|
    requires p in states[i].live && states[i].live[p].stage.Idle? && token !in states[i].used
    requires states[i].file.Held? && (states[i].file.lease.phase == "capacity" || states[i].file.lease.phase == "candidate")
    requires forall q :: q in states[i].live ==> states[i].live[q].pid != states[i].file.lease.pid
    ensures var s := states[i];
            && Next(h, s, Acquire(p, token, ttl, Dead), s')
            && s'.file == Held(Lease(token, s.live[p].pid, s.now, ttl, "capacity"))
            && s'.live[p] == Launcher(s.live[p].pid, Claimed(token), s.now, ttl)
  {
    var s := states[i];
    s' := s.(file := Held(Fresh(token, s.live[p].pid, s.now, ttl)),
             live := s.live[p := Launcher(s.live[p].pid, Claimed(token), s.now, ttl)], used := s.used + {token});
  }

  /** An owner that gives its lease back frees it for the next launcher. */
  lemma ReleaseFreesLease(h: Host, s: State, step: Step, s': State)
    requires h.memTotal <= Capacity.MAX_MIB && Next(h, s, step, s') && step.Retire? && step.locked
    requires s.file.Held? && s.live[step.p].Owns(s.file.lease.token)
    ensures s'.file == Absent && s'.live[step.p].stage == Idle
    ensures forall token, pid, ttl, live :: Hold(s'.file, token, pid, s'.now, ttl, live).1
  {
  }

  /** So does one that is refused by the census or finds its lease gone: what it held is free. */
  lemma RefusalFreesLease(h: Host, s: State, step: Step, s': State)
    requires h.memTotal <= Capacity.MAX_MIB && Next(h, s, step, s') && (step.Census? || step.Advance?)
    requires s'.live[step.p].stage.Idle?
    ensures s.file.Held? && s.live[step.p].Owns(s.file.lease.token) ==> s'.file == Absent
    ensures !(s.file.Held? && s.live[step.p].Owns(s.file.lease.token)) ==> s'.file == s.file
  {
  }

  /** A launch goes on only under its own stored lease, and only with the census below the
      limit; a launcher that finds its lease gone starts nothing. */
  lemma LaunchIsChecked(h: Host, s: State, step: Step, s': State, p: nat)
    requires h.memTotal <= Capacity.MAX_MIB && Next(h, s, step, s') && p in s.live && p in s'.live
    ensures !s.live[p].stage.Cleared? && s'.live[p].stage.Cleared? ==>
              s.file.Held? && s.live[p].Owns(s.file.lease.token) && s'.file == Held(s.file.lease.(phase := "spawn"))
    ensures !s.live[p].stage.Admitted? && s'.live[p].stage.Admitted? ==>
              step.Census? && s.live[p].stage.Holding? && s.listed < h.Limit()
    ensures !s.live[p].stage.Started? && s'.live[p].stage.Started? ==> s.live[p].stage.Cleared?
  {
  }

  lemma {:induction false} RunKeepsSound(h: Host, states: seq<State>, steps: seq<Step>, i: nat)
    requires h.memTotal <= Capacity.MAX_MIB && IsRun(h, states, steps) && NoneOverruns(states, steps, i)
    ensures Sound(h, states[i])
  {
    hide Sound, Next, Init, Overruns;
    if i == 0 {
      InitSound(h, states[0]);
    } else {
      RunKeepsSound(h, states, steps, i - 1);
      assert Next(h, states[i - 1], steps[i - 1], states[i]);
      StepKeepsSound(h, states[i - 1], steps[i - 1], states[i]);
    }
  }

  ghost predicate Exceeds(h: Host, s: State)
    requires h.memTotal <= Capacity.MAX_MIB
  {
    s.listed + |s.inFlight| > h.Limit()
  }

  /** Reviewers in the census plus reviewers in flight never exceed the derived limit, for
      any number of launchers, crashes and reclaims and at any speed, until the first time
      a launch outlives its lease. */
  lemma ReviewerCap(h: Host, states: seq<State>, steps: seq<Step>, i: nat)
    requires h.memTotal <= Capacity.MAX_MIB && IsRun(h, states, steps) && NoneOverruns(states, steps, i)
    ensures !Exceeds(h, states[i])
  {
    RunKeepsSound(h, states, steps, i);
  }

  /** Neither way to outlive a lease is possible before its TTL is over: early reclaim never
      reaches a launch that recorded its spawn phase. */
  lemma OverrunNeedsExpiry(h: Host, s: State, step: Step, s': State)
    requires h.memTotal <= Capacity.MAX_MIB && Next(h, s, step, s')
    requires Safe(s) && FlightsCovered(s) && Overruns(s, step)
    ensures step.Spawn? ==> !s.live[step.p].Within(s.now)
    ensures step.Acquire? ==> s.file.lease.Expired(s.now) && !OnTime(s)
    ensures step.Spawn? || step.Acquire?
  {
  }

  lemma StepKeepsOnTime(h: Host, s: State, step: Step, s': State)
    requires h.memTotal <= Capacity.MAX_MIB && Next(h, s, step, s') && Timely(s, step) && OnTime(s)
    ensures OnTime(s')
  {
  }

  lemma TimelyNeverOverruns(h: Host, s: State, step: Step, s': State)
    requires h.memTotal <= Capacity.MAX_MIB && Next(h, s, step, s') && Sound(h, s) && OnTime(s) && Timely(s, step)
    ensures !Overruns(s, step)
  {
    if Overruns(s, step) {
      OverrunNeedsExpiry(h, s, step, s');
      assert false;
    }
  }

  lemma RunStep(h: Host, states: seq<State>, steps: seq<Step>, i: nat)
    requires h.memTotal <= Capacity.MAX_MIB && IsRun(h, states, steps) && i < |steps|
    ensures |states| == |steps| + 1 && Next(h, states[i], steps[i], states[i + 1])
  {
    hide Next, Init;
  }

  lemma NoneNext(states: seq<State>, steps: seq<Step>, i: nat)
    requires NoneOverruns(states, steps, i) && i < |steps| && !Overruns(states[i], steps[i])
    ensures NoneOverruns(states, steps, i + 1)
  {
    hide Overruns;
  }

  lemma TimelyAt(states: seq<State>, steps: seq<Step>, i: nat)
    requires AllTimely(states, steps) && i < |steps|
    ensures |states| == |steps| + 1 && Timely(states[i], steps[i])
  {
    hide Timely;
  }

  lemma {:induction false} TimelyRunIsOnTime(h: Host, states: seq<State>, steps: seq<Step>, i: nat)
    requires h.memTotal <= Capacity.MAX_MIB && IsRun(h, states, steps) && AllTimely(states, steps) && i < |states|
    ensures OnTime(states[i]) && NoneOverruns(states, steps, i)
  {
    if i > 0 {
      assert |states| == |steps| + 1;
      hide *;
      TimelyRunIsOnTime(h, states, steps, i - 1);
      RunKeepsSound(h, states, steps, i - 1);
      RunStep(h, states, steps, i - 1);
      TimelyAt(states, steps, i - 1);
      TimelyNeverOverruns(h, states[i - 1], steps[i - 1], states[i]);
      NoneNext(states, steps, i - 1);
      StepKeepsOnTime(h, states[i - 1], steps[i - 1], states[i]);
    }
  }

  /** In particular the cap holds throughout while every launch is done within its TTL. */
  lemma TimelyReviewerCap(h: Host, states: seq<State>, steps: seq<Step>, i: nat)
    requires h.memTotal <= Capacity.MAX_MIB && IsRun(h, states, steps) && AllTimely(states, steps) && i < |states|
    ensures !Exceeds(h, states[i])
  {
    TimelyRunIsOnTime(h, states, steps, i);
    ReviewerCap(h, states, steps, i);
  }

  // ----- outliving a lease is exactly what breaks the cap -----

  ghost predicate IsPath(h: Host, states: seq<State>, steps: seq<Step>, s0: State, s: State)
    requires h.memTotal <= Capacity.MAX_MIB
  {
    && |states| == |steps| + 1 && states[0] == s0 && states[|steps|] == s
    && (forall i :: 0 <= i < |steps| ==> Next(h, states[i], steps[i], states[i + 1]))
    && (forall i :: 0 <= i < |steps| ==> !Overruns(states[i], steps[i]))
  }

  /** Some steps, none outliving a lease, lead from `s0` to `s`. */
  ghost predicate Leads(h: Host, s0: State, s: State)
    requires h.memTotal <= Capacity.MAX_MIB
  {
    exists states: seq<State>, steps: seq<Step> :: IsPath(h, states, steps, s0, s)
  }

  lemma LeadsNowhere(h: Host, s: State)
    requires h.memTotal <= Capacity.MAX_MIB
    ensures Leads(h, s, s)
  {
    assert IsPath(h, [s], [], s, s);
  }

  lemma LeadsOn(h: Host, s0: State, s: State, step: Step, s': State)
    requires h.memTotal <= Capacity.MAX_MIB && Leads(h, s0, s) && Next(h, s, step, s') && !Overruns(s, step)
    ensures Leads(h, s0, s')
  {
    hide Next, Overruns, IsPath;
    var states, steps :| IsPath(h, states, steps, s0, s);
    PathOn(h, states, steps, s0, s, step, s');
  }

  lemma PathOn(h: Host, states: seq<State>, steps: seq<Step>, s0: State, s: State, step: Step, s': State)
    requires h.memTotal <= Capacity.MAX_MIB && IsPath(h, states, steps, s0, s) && Next(h, s, step, s') && !Overruns(s, step)
    ensures IsPath(h, states + [s'], steps + [step], s0, s')
  {
    hide Next, Overruns;
  }

  lemma {:induction false} PathKeepsSound(h: Host, states: seq<State>, steps: seq<Step>, s0: State, s: State, i: nat)
    requires h.memTotal <= Capacity.MAX_MIB && IsPath(h, states, steps, s0, s) && Sound(h, s0) && i < |states|
    ensures Sound(h, states[i])
  {
    hide Next, Overruns, Sound;
    if i > 0 {
      PathKeepsSound(h, states, steps, s0, s, i - 1);
      StepKeepsSound(h, states[i - 1], steps[i - 1], states[i]);
    }
  }

  /** An observation that refuses for no reason but the cap. */
  function Clear(h: Host, listed: nat): Capacity.Observation {
    Capacity.Observation(true, true, listed, h.memTotal, -1, 0, 0, 0.0, Some(true))
  }

  function Arrived(s: State, p: nat, pid: int): State {
    s.(live := s.live[p := Launcher(pid, Idle, s.now, 0)])
  }

  function ClaimedState(s: State, p: nat, pid: int, token: Token): State {
    s.(file := Held(Fresh(token, pid, s.now, 1)),
       live := s.live[p := Launcher(pid, Claimed(token), s.now, 1)], used := s.used + {token})
  }

  function ClearedState(s: State, p: nat, pid: int, token: Token): State {
    s.(file := Held(Fresh(token, pid, s.now, 1).(phase := PHASE_SPAWN)),
       live := s.live[p := Launcher(pid, Cleared(token), s.now, 1)], used := s.used + {token})
  }

  function StartedState(s: State, p: nat, pid: int, token: Token): State {
    Move(ClearedState(s, p, pid, token), p, Started(token)).(inFlight := s.inFlight[token := s.now + 1])
  }

  /** A launcher that has claimed the lease and finds the census below the limit gets as far
      as having the spawn phase on record. */
  lemma Proceeds(h: Host, s0: State, s: State, p: nat, pid: int, token: Token)
    requires h.memTotal <= Capacity.MAX_MIB && s.listed < h.Limit() && Leads(h, s0, ClaimedState(s, p, pid, token))
    ensures Leads(h, s0, ClearedState(s, p, pid, token))
  {
    hide Leads;
    var claimed, end := ClaimedState(s, p, pid, token), ClearedState(s, p, pid, token);
    var holding, admitted := Move(claimed, p, Holding(token)), Move(claimed, p, Admitted(token));
    LeadsOn(h, s0, claimed, ReadBack(p), holding);
    CensusAdmits(h, holding, p, admitted);
    LeadsOn(h, s0, holding, Census(p, Clear(h, s.listed)), admitted);
    LeadsOn(h, s0, admitted, Advance(p, PHASE_SPAWN), end);
  }

  lemma CensusAdmits(h: Host, s: State, p: nat, s': State)
    requires h.memTotal <= Capacity.MAX_MIB && s.listed < h.Limit()
    requires At(s, p) && s.live[p].stage.Holding? && s' == Move(s, p, Admitted(s.live[p].stage.token))
    ensures Next(h, s, Census(p, Clear(h, s.listed)), s')
  {
  }

  /** Nothing in flight stands in the way of taking the lease. */
  predicate Takeable(s: State) {
    s.file.Absent? || (s.file.Held? && s.file.lease.Expired(s.now) && s.file.lease.token !in s.inFlight)
  }

  /** A new launcher takes the free lease and proceeds. */
  lemma Clears(h: Host, s0: State, s: State, p: nat, pid: int, token: Token)
    requires h.memTotal <= Capacity.MAX_MIB && s.listed < h.Limit()
    requires Leads(h, s0, s) && token !in s.used && p !in s.live && Takeable(s)
    requires forall q :: q in s.live ==> s.live[q].pid != pid
    ensures Leads(h, s0, ClearedState(s, p, pid, token))
  {
    hide Leads;
    var arrived, claimed := Arrived(s, p, pid), ClaimedState(s, p, pid, token);
    LeadsOn(h, s0, s, Arrive(p, pid), arrived);
    assert claimed.live == arrived.live[p := Launcher(pid, Claimed(token), s.now, 1)];
    LeadsOn(h, s0, arrived, Acquire(p, token, 1, Unknown), claimed);
    Proceeds(h, s0, s, p, pid, token);
  }

  lemma {:induction false} AboveAll(keys: set<int>) returns (n: nat)
    ensures forall k: int :: k in keys ==> k < n
    decreases |keys|
  {
    n := 0;
    if k: int :| k in keys {
      var m := AboveAll(keys - {k});
      n := if k < m then m else k + 1;
      assert forall j: int :: j in keys ==> j == k || j in keys - {k};
    }
  }

  lemma FreshNames(s: State) returns (p: nat, pid: int, token: Token)
    ensures p !in s.live && token !in s.used && forall q :: q in s.live ==> s.live[q].pid != pid
  {
    var launchers := set q | q in s.live :: q as int;
    var pids := set q | q in s.live :: s.live[q].pid;
    var lengths := set t | t in s.used :: |t| as int;
    p := AboveAll(launchers);
    pid := AboveAll(pids);
    var n := AboveAll(lengths);
    token := seq(n, _ => 'x');
    assert forall q :: q in s.live ==> s.live[q].pid in pids;
    assert p in s.live ==> p as int in launchers;
    assert token in s.used ==> |token| as int in lengths;
  }

  /** A reviewer is in flight whose lease is not the stored one. */
  ghost predicate Orphaned(s: State, t: Token) {
    && t in s.inFlight && !s.file.Unreadable? && StoredToken(s.file) != Some(t)
    && forall x :: x in s.inFlight ==> x in s.used
  }

  /** The stored lease, if any, is made takeable: its own reviewer is listed, its TTL passes. */
  lemma Vacates(h: Host, s0: State, s: State, t: Token) returns (s': State)
    requires h.memTotal <= Capacity.MAX_MIB && Leads(h, s0, s) && Orphaned(s, t)
    ensures Leads(h, s0, s') && Orphaned(s', t) && Takeable(s')
    ensures s'.listed + |s'.inFlight| == s.listed + |s.inFlight|
  {
    hide Leads;
    s' := s;
    if s.file.Held? {
      var r := s.file.lease;
      if r.token in s.inFlight {
        s' := s.(listed := s.listed + 1, inFlight := s.inFlight - {r.token});
        assert s.inFlight.Keys == s'.inFlight.Keys + {r.token};
        assert |s.inFlight| == |s.inFlight.Keys| && |s'.inFlight| == |s'.inFlight.Keys|;
        LeadsOn(h, s0, s, Listed(r.token), s');
      }
      var to := if r.Expired(s.now) then s.now else r.taken + r.EffectiveTTL() + 1;
      LeadsOn(h, s0, s', Tick(to), s'.(now := to));
      s' := s'.(now := to);
    }
  }

  /** One more reviewer is started without outliving any lease, because the census does not
      show the orphaned one. */
  lemma Escalates(h: Host, s0: State, s: State, t: Token) returns (s': State)
    requires h.memTotal <= Capacity.MAX_MIB && Leads(h, s0, s) && Orphaned(s, t) && !Exceeds(h, s)
    ensures Leads(h, s0, s') && Orphaned(s', t)
    ensures s'.listed + |s'.inFlight| == s.listed + |s.inFlight| + 1
  {
    hide Leads, Next;
    var s1 := Vacates(h, s0, s, t);
    var p, pid, token := FreshNames(s1);
    assert |s1.inFlight| == |s1.inFlight.Keys| >= |{t}|;
    Clears(h, s0, s1, p, pid, token);
    s' := StartedState(s1, p, pid, token);
    SpawnsOwn(h, s0, s1, p, pid, token);
    assert s'.inFlight.Keys == s1.inFlight.Keys + {token};
    assert |s'.inFlight| == |s'.inFlight.Keys|;
  }

  lemma SpawnsOwn(h: Host, s0: State, s: State, p: nat, pid: int, token: Token)
    requires h.memTotal <= Capacity.MAX_MIB && Leads(h, s0, ClearedState(s, p, pid, token))
    ensures Leads(h, s0, StartedState(s, p, pid, token))
  {
    hide Leads;
    LeadsOn(h, s0, ClearedState(s, p, pid, token), Spawn(p), StartedState(s, p, pid, token));
  }

  lemma {:induction false} OrphanExceeds(h: Host, s0: State, s: State, t: Token) returns (s': State)
    requires h.memTotal <= Capacity.MAX_MIB && Leads(h, s0, s) && Orphaned(s, t)
    ensures Leads(h, s0, s') && Exceeds(h, s')
    decreases h.Limit() - s.listed - |s.inFlight|
  {
    hide Leads, Orphaned;
    if Exceeds(h, s) {
      s' := s;
    } else {
      var s1 := Escalates(h, s0, s, t);
      s' := OrphanExceeds(h, s0, s1, t);
    }
  }

  lemma OverrunOrphans(h: Host, s: State, step: Step, s': State) returns (t: Token)
    requires h.memTotal <= Capacity.MAX_MIB && Sound(h, s) && Next(h, s, step, s') && Overruns(s, step)
    ensures Orphaned(s', t)
  {
    t := if step.Spawn? then s.live[step.p].stage.token else s.file.lease.token;
  }

  /** Outliving a lease is exactly what puts the cap at risk. From any state reached without
      it, a step outlives a lease if and only if the run can go on from that step, with no
      further launch outliving its lease, to more reviewers than the limit. */
  lemma OverrunExactly(h: Host, states: seq<State>, steps: seq<Step>, i: nat)
    requires h.memTotal <= Capacity.MAX_MIB && IsRun(h, states, steps) && i < |steps| && NoneOverruns(states, steps, i)
    ensures Overruns(states[i], steps[i]) <==> exists s :: Leads(h, states[i + 1], s) && Exceeds(h, s)
  {
    hide Sound, Next, Overruns, Leads, Orphaned;
    RunKeepsSound(h, states, steps, i);
    assert Next(h, states[i], steps[i], states[i + 1]);
    if Overruns(states[i], steps[i]) {
      var t := OverrunOrphans(h, states[i], steps[i], states[i + 1]);
      LeadsNowhere(h, states[i + 1]);
      var s := OrphanExceeds(h, states[i + 1], states[i + 1], t);
    } else {
      StepKeepsSound(h, states[i], steps[i], states[i + 1]);
      forall s | Leads(h, states[i + 1], s) ensures !Exceeds(h, s) {
        SoundStays(h, states[i + 1], s);
      }
    }
  }

  lemma SoundStays(h: Host, s0: State, s: State)
    requires h.memTotal <= Capacity.MAX_MIB && Sound(h, s0) && Leads(h, s0, s)
    ensures !Exceeds(h, s)
  {
    hide IsPath;
    var states, steps :| IsPath(h, states, steps, s0, s);
    PathEnds(h, states, steps, s0, s);
    PathKeepsSound(h, states, steps, s0, s, |steps|);
  }

  lemma PathEnds(h: Host, states: seq<State>, steps: seq<Step>, s0: State, s: State)
    requires h.memTotal <= Capacity.MAX_MIB && IsPath(h, states, steps, s0, s)
    ensures |states| == |steps| + 1 && states[|steps|] == s
  {
  }

  const QUIET := State(Absent, 0, map[], 0, map[], {})

  /** Launcher 0 has cleared under token `a` and its lease, of TTL 1, has expired. */
  function Overslept(a: Token): State { ClearedState(QUIET, 0, 10, a).(now := 2) }

  /** On every host a start can come too late: launcher 0 clears its last check, sleeps past
      its TTL, launcher 1 takes over, and launcher 0 wakes up. */
  lemma LateSpawnHappens(h: Host, a: Token, b: Token) returns (s: State, s': State)
    requires h.memTotal <= Capacity.MAX_MIB && a != b
    ensures Init(h, QUIET) && Leads(h, QUIET, s)
    ensures Next(h, s, Spawn(0), s') && Overruns(s, Spawn(0))
  {
    LeadsNowhere(h, QUIET);
    hide Leads;
    Clears(h, QUIET, QUIET, 0, 10, a);
    LeadsOn(h, QUIET, ClearedState(QUIET, 0, 10, a), Tick(2), Overslept(a));
    assert Overslept(a).file.lease.Expired(2);
    Clears(h, QUIET, Overslept(a), 1, 11, b);
    s := ClearedState(Overslept(a), 1, 11, b);
    s' := Move(s, 0, Started(a)).(inFlight := map[a := 1]);
    assert s.live[0] == Launcher(10, Cleared(a), 0, 1);
  }

  /** Launcher 0 has started a reviewer that is not listed yet, its lease has expired, and
      launcher 1 has arrived. */
  function SlowToList(a: Token): State { StartedState(QUIET, 0, 10, a).(now := 2) }

  /** On every host a listing can come too late: the next launcher takes over the expired
      lease of a reviewer that the census does not show yet. */
  lemma SlowListingHappens(h: Host, a: Token, b: Token) returns (s: State, step: Step, s': State)
    requires h.memTotal <= Capacity.MAX_MIB && a != b
    ensures Init(h, QUIET) && Leads(h, QUIET, s)
    ensures step.Acquire? && Next(h, s, step, s') && Overruns(s, step)
  {
    LeadsNowhere(h, QUIET);
    hide Leads;
    var slow := SlowToList(a);
    Clears(h, QUIET, QUIET, 0, 10, a);
    SpawnsOwn(h, QUIET, QUIET, 0, 10, a);
    LeadsOn(h, QUIET, StartedState(QUIET, 0, 10, a), Tick(2), slow);
    LeadsOn(h, QUIET, slow, Arrive(1, 11), Arrived(slow, 1, 11));
    s, step, s' := Arrived(slow, 1, 11), Acquire(1, b, 1, Unknown), ClaimedState(slow, 1, 11, b);
    assert s.file.lease.Expired(2);
    assert s'.live == s.live[1 := Launcher(11, Claimed(b), 2, 1)];
  }
}
