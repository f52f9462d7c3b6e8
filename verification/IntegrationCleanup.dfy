/** Retiring the two worktrees and branches of a landed integration, as small steps over the
    repository, interleaved with crashes of the driver and with other people's commits. */
module IntegrationCleanup {
  import opened Text

  type Path = string
  type Branch = string
  type Sha = string

  datatype Head = OnBranch(branch: Branch) | Detached(sha: Sha)

  /** Registered worktrees, existing directories (true when they differ from their commit),
      local branches, whether the board shows the task as done, and what the gate reads. */
  datatype World = World(regs: map<Path, Head>, dirs: map<Path, bool>, refs: map<Branch, Sha>, boardDone: bool, gate: Gate)

  /** The landing's proof receipt, the configured standing worktrees, the live-lease fence of
      the task's worktree, the ownership of the integration one, and the location of every
      resident agent; no census at all is unknown. */
  datatype Gate = Gate(proven: bool, standing: seq<Path>, taskFree: bool, integrationOwned: bool, agents: Option<seq<Option<Path>>>) {
    /** Nothing protects or occupies either source. */
    ghost predicate Opens(job: Job) {
      && proven && taskFree && integrationOwned
      && (forall l :: l in standing ==> l != job.task.path && l != job.integration.path)
      && agents.Some?
      && (forall a :: a in agents.value ==> a.Some? && !Inside(a.value, job.task.path) && !Inside(a.value, job.integration.path))
    }
  }

  datatype Source = Source(path: Path, branch: Branch)

  /** The task's own worktree and the integration worktree, both at the candidate. */
  datatype Job = Job(root: Path, task: Source, integration: Source, candidate: Sha) {
    function Of(second: bool): Source { if second then integration else task }

    /** The integration worktree and branch are the driver's own, named after the candidate. */
    predicate WellFormed() {
      && task.path != integration.path && task.branch != integration.branch
      && !Inside(task.path, integration.path) && !Inside(integration.path, task.path)
      && candidate != ""
    }

    predicate SafeSources() { Safe(root, task) && Safe(root, integration) }
  }

  predicate Inside(child: Path, parent: Path) {
    child == parent || HasPrefix(child, parent + "/")
  }

  /** Strictly inside the repository, and not a protected branch name. */
  predicate Safe(root: Path, s: Source) {
    && s.path != root && Inside(s.path, root)
    && s.branch != "main" && s.branch != "master" && s.branch != ""
  }

  function HeadCommit(w: World, h: Head): Sha {
    match h
    case OnBranch(b) => if b in w.refs then w.refs[b] else ""
    case Detached(sha) => sha
  }

  // ----- reading one source -----

  datatype Presence = Present | Gone | Refused

  /** Some other registered worktree has the branch checked out, or contains the path. */
  ghost predicate ClaimedElsewhere(root: Path, w: World, s: Source) {
    exists p :: p in w.regs && p != s.path && (w.regs[p] == OnBranch(s.branch) || (p != root && Inside(s.path, p)))
  }

  ghost function SourcePresent(job: Job, w: World, s: Source): Presence {
    if !Safe(job.root, s) || ClaimedElsewhere(job.root, w, s) then Refused
    else if s.path in w.regs then
      if w.regs[s.path] == OnBranch(s.branch) && HeadCommit(w, w.regs[s.path]) == job.candidate
         && s.path in w.dirs && !w.dirs[s.path]
      then Present else Refused
    else if s.path in w.dirs then Refused
    else if s.branch !in w.refs then Gone
    else if w.refs[s.branch] == job.candidate then Present
    else Refused
  }

  /** At `p`, or somewhere below it. */
  lemma InsideExactly(child: Path, p: Path)
    ensures Inside(child, p) <==> child == p || exists rest :: child == p + "/" + rest
  {
    if HasPrefix(child, p + "/") {
      assert child == p + "/" + child[|p| + 1..];
    }
  }

  /** Attached or contained elsewhere, in the words of the registrations. */
  ghost predicate Free(job: Job, w: World, s: Source) {
    forall p :: p in w.regs && p != s.path ==> w.regs[p] != OnBranch(s.branch) && (p == job.root || !Inside(s.path, p))
  }

  /** What a source is, in terms of the repository alone. */
  lemma SourcePresentExactly(job: Job, w: World, s: Source)
    requires job.candidate != ""
    ensures var ours := && s.branch != "main" && s.branch != "master" && s.branch != ""
                        && s.path != job.root && Inside(s.path, job.root) && Free(job, w, s);
            var there := s.branch in w.refs && w.refs[s.branch] == job.candidate;
            && (SourcePresent(job, w, s) == Present <==>
                  && ours && there
                  && (|| (s.path in w.regs && w.regs[s.path] == OnBranch(s.branch) && s.path in w.dirs && !w.dirs[s.path])
                      || (s.path !in w.regs && s.path !in w.dirs)))
            && (SourcePresent(job, w, s) == Gone <==> ours && s.path !in w.regs && s.path !in w.dirs && s.branch !in w.refs)
  {
    hide Inside;
    assert Free(job, w, s) <==> !ClaimedElsewhere(job.root, w, s);
    hide Free, ClaimedElsewhere;
  }

  /** One row of `git worktree list`. */
  datatype Row = Row(path: Path, head: Head)

  /** Every registration once, in whatever order git prints them. */
  ghost predicate Lists(rows: seq<Row>, w: World) {
    && (forall i :: 0 <= i < |rows| ==> rows[i].path in w.regs && w.regs[rows[i].path] == rows[i].head)
    && (forall p :: p in w.regs ==> Row(p, w.regs[p]) in rows)
  }

  lemma AllListed(rows: seq<Row>, w: World)
    requires Lists(rows, w)
    ensures forall p :: p in w.regs ==> exists k :: 0 <= k < |rows| && rows[k].path == p
  {
    forall p | p in w.regs ensures exists k :: 0 <= k < |rows| && rows[k].path == p {
      var k :| 0 <= k < |rows| && rows[k] == Row(p, w.regs[p]);
    }
  }

  method CheckSource(job: Job, w: World, s: Source, rows: seq<Row>) returns (r: Presence)
    requires Lists(rows, w)
    ensures r == SourcePresent(job, w, s)
  {
    if !Safe(job.root, s) {
      return Refused;
    }
    var found := false;
    for i := 0 to |rows|
      invariant forall k :: 0 <= k < i && rows[k].path != s.path ==> rows[k].head != OnBranch(s.branch)
      invariant found <==> exists k :: 0 <= k < i && rows[k].path == s.path
      invariant found ==> w.regs[s.path] == OnBranch(s.branch) && HeadCommit(w, w.regs[s.path]) == job.candidate
    {
      if rows[i].path == s.path {
        if HeadCommit(w, rows[i].head) != job.candidate || rows[i].head != OnBranch(s.branch) {
          return Refused;
        }
        found := true;
      } else if rows[i].head == OnBranch(s.branch) {
        return Refused;
      }
    }
    for i := 0 to |rows|
      invariant forall k :: 0 <= k < i && rows[k].path != s.path && rows[k].path != job.root ==> !Inside(s.path, rows[k].path)
    {
      if rows[i].path != s.path && rows[i].path != job.root && Inside(s.path, rows[i].path) {
        return Refused;
      }
    }
    assert !ClaimedElsewhere(job.root, w, s);
    if found {
      return if s.path in w.dirs && !w.dirs[s.path] then Present else Refused;
    }
    AllListed(rows, w);
    if s.path in w.dirs {
      return Refused;
    }
    if s.branch !in w.refs {
      return Gone;
    }
    return if w.refs[s.branch] == job.candidate then Present else Refused;
  }

  /** The gate before anything destructive. */
  method CheckCleanup(job: Job, gate: Gate) returns (ok: bool)
    ensures ok <==> gate.Opens(job)
    ensures ok <==>
            && gate.proven && gate.taskFree && gate.integrationOwned
            && job.task.path !in gate.standing && job.integration.path !in gate.standing
            && gate.agents.Some?
            && (forall a :: a in gate.agents.value ==>
                  a.Some? && !Inside(a.value, job.task.path) && !Inside(a.value, job.integration.path))
  {
    if !gate.proven {
      return false;
    }
    var taskClear := NotStanding(gate.standing, job.task.path);
    if !taskClear || !gate.taskFree {
      return false;
    }
    var integrationClear := NotStanding(gate.standing, job.integration.path);
    if !integrationClear || !gate.integrationOwned || gate.agents.None? {
      return false;
    }
    var agents := gate.agents.value;
    for i := 0 to |agents|
      invariant forall k :: 0 <= k < i ==> agents[k].Some? && !Inside(agents[k].value, job.task.path)
                                           && !Inside(agents[k].value, job.integration.path)
    {
      assert agents[i] in agents;
      if agents[i].None? || Inside(agents[i].value, job.task.path) || Inside(agents[i].value, job.integration.path) {
        return false;
      }
    }
    ok := true;
  }

  method NotStanding(standing: seq<Path>, path: Path) returns (ok: bool)
    ensures ok <==> path !in standing
  {
    for i := 0 to |standing|
      invariant path !in standing[..i]
    {
      if standing[i] == path {
        return false;
      }
    }
    ok := true;
  }

  ghost predicate CleanupDone(job: Job, w: World) {
    w.boardDone && SourcePresent(job, w, job.task) == Gone && SourcePresent(job, w, job.integration) == Gone
  }

  // ----- the driver, one effect at a time -----

  /** `second` says which source: the task's own first, then the integration one. Removing
      a worktree is three effects: git empties the directory, drops it, unregisters it. */
  datatype PC =
    | Observe | Board | Check(second: bool) | Lstat(second: bool) | Tear(second: bool) | DropDir(second: bool)
    | Unregister(second: bool) | DeleteRef(second: bool) | Confirm | Finished | Stopped

  function AfterSource(second: bool): PC { if second then Confirm else Check(true) }

  function Rank(pc: PC): nat {
    match pc
    case Observe => 16
    case Board => 15
    case Check(second) => if second then 7 else 14
    case Lstat(second) => if second then 6 else 13
    case Tear(second) => if second then 5 else 12
    case DropDir(second) => if second then 4 else 11
    case Unregister(second) => if second then 3 else 10
    case DeleteRef(second) => if second then 2 else 9
    case Confirm => 1
    case Finished => 0
    case Stopped => 0
  }

  ghost function Drive(job: Job, w: World, pc: PC): (World, PC)
    requires !pc.Finished? && !pc.Stopped?
  {
    match pc
    case Observe =>
      if !w.gate.Opens(job) then (w, Stopped)
      else if !w.boardDone then (w, Board)
      else
        var task := SourcePresent(job, w, job.task);
        var rest := SourcePresent(job, w, job.integration);
        if task == Refused || (task == Gone && rest == Refused) then (w, Stopped)
        else if task == Gone && rest == Gone then (w, Finished)
        else (w, Board)
    case Board =>
      if w.gate.Opens(job) then (w.(boardDone := true), Check(false)) else (w, Stopped)
    case Check(second) =>
      if second && !(w.gate.proven && w.gate.integrationOwned) then (w, Stopped) else
      (match SourcePresent(job, w, job.Of(second))
       case Refused => (w, Stopped)
       case Gone => (w, AfterSource(second))
       case Present => (w, Lstat(second)))
    case Lstat(second) =>
      (w, if job.Of(second).path in w.dirs then Tear(second) else DeleteRef(second))
    case Tear(second) =>
      var p := job.Of(second).path;
      if (second || w.gate.taskFree) && p in w.regs && p in w.dirs && !w.dirs[p]
      then (w.(dirs := w.dirs[p := true]), DropDir(second))
      else (w, Stopped)
    case DropDir(second) => (w.(dirs := w.dirs - {job.Of(second).path}), Unregister(second))
    case Unregister(second) => (w.(regs := w.regs - {job.Of(second).path}), DeleteRef(second))
    case DeleteRef(second) =>
      var b := job.Of(second).branch;
      if b in w.refs && w.refs[b] == job.candidate then (w.(refs := w.refs - {b}), AfterSource(second)) else (w, Stopped)
    case Confirm => (w, if w.gate.Opens(job) && CleanupDone(job, w) then Finished else Stopped)
  }

  lemma DriveRanks(job: Job, w: World, pc: PC)
    requires !pc.Finished? && !pc.Stopped?
    ensures Rank(Drive(job, w, pc).1) < Rank(pc)
  {
    hide SourcePresent, CleanupDone;
  }

  datatype Step =
    | Program                          // the driver's next effect
    | Crash                            // the driver dies and is started again
    | Commit(branch: Branch, sha: Sha) // somebody moves or creates a branch
    | Edit(path: Path)                 // somebody changes a file in a directory
    | Shift(gate: Gate)                // agents, leases, receipts or configuration change

  ghost predicate Next(job: Job, s: (World, PC), step: Step, s': (World, PC)) {
    match step
    case Program => !s.1.Finished? && !s.1.Stopped? && s' == Drive(job, s.0, s.1)
    case Crash => s' == (s.0, Observe)
    case Commit(branch, sha) => s' == (s.0.(refs := s.0.refs[branch := sha]), s.1)
    case Edit(path) => path in s.0.dirs && s' == (s.0.(dirs := s.0.dirs[path := true]), s.1)
    case Shift(gate) => s' == (s.0.(gate := gate), s.1)
  }

  ghost predicate IsRun(job: Job, states: seq<(World, PC)>, steps: seq<Step>) {
    |states| == |steps| + 1 && forall i :: 0 <= i < |steps| ==> Next(job, states[i], steps[i], states[i + 1])
  }

  // ----- nothing is lost -----

  ghost predicate Advanced(job: Job, w: World, b: Branch) {
    b in w.refs && w.refs[b] != job.candidate
  }

  /** A branch only ever disappears by the driver's own deletion of one of its two branches,
      and only while it points exactly at the candidate. */
  lemma DeletedAtCandidate(job: Job, states: seq<(World, PC)>, steps: seq<Step>, i: nat, b: Branch)
    requires IsRun(job, states, steps) && i < |steps|
    requires b in states[i].0.refs && b !in states[i + 1].0.refs
    ensures steps[i] == Program && states[i].1.DeleteRef?
    ensures b == job.Of(states[i].1.second).branch && states[i].0.refs[b] == job.candidate
  {
    assert Next(job, states[i], steps[i], states[i + 1]);
  }

  /** Once anybody committed past the candidate, that branch survives every later step, until
      somebody puts it back to the candidate. */
  lemma {:induction false} AdvancedBranchSurvives(job: Job, states: seq<(World, PC)>, steps: seq<Step>, i: nat, j: nat, b: Branch)
    requires IsRun(job, states, steps) && i <= j < |states| && Advanced(job, states[i].0, b)
    requires forall k :: i <= k < j ==> steps[k] != Commit(b, job.candidate)
    ensures Advanced(job, states[j].0, b)
  {
    if i < j {
      AdvancedBranchSurvives(job, states, steps, i, j - 1, b);
      assert Next(job, states[j - 1], steps[j - 1], states[j]);
    }
  }

  predicate Removing(job: Job, pc: PC, p: Path) {
    pc.DropDir? && job.Of(pc.second).path == p
  }

  /** A directory with changes that the driver is not already removing is never removed. */
  lemma {:induction false} DirtyDirectorySurvives(job: Job, states: seq<(World, PC)>, steps: seq<Step>, i: nat, j: nat, p: Path)
    requires IsRun(job, states, steps) && i <= j < |states|
    requires p in states[i].0.dirs && states[i].0.dirs[p] && !Removing(job, states[i].1, p)
    ensures p in states[j].0.dirs && states[j].0.dirs[p] && !Removing(job, states[j].1, p)
  {
    if i < j {
      DirtyDirectorySurvives(job, states, steps, i, j - 1, p);
      assert Next(job, states[j - 1], steps[j - 1], states[j]);
    }
  }

  // ----- nothing is done behind a closed gate -----

  /** At work on the sources, or reading the result back. */
  predicate Executing(pc: PC) {
    pc.Check? || pc.Lstat? || pc.Tear? || pc.DropDir? || pc.Unregister? || pc.DeleteRef? || pc.Confirm?
  }

  /** Whatever others do to the gate in between: every step that goes on past one of the
      driver's checks finds it open, the board is marked and the task's directory touched only
      behind it, the integration source only while proof and ownership hold, and success is
      reported only with the gate open and everything gone. */
  lemma StepIsGated(job: Job, states: seq<(World, PC)>, steps: seq<Step>, i: nat)
    requires IsRun(job, states, steps) && i < |steps| && steps[i] == Program
    ensures var (w, pc) := states[i];
            var (w', pc') := states[i + 1];
            && ((pc == Observe || pc == Board || pc == Confirm) && pc' != Stopped ==> w.gate.Opens(job))
            && (w'.boardDone != w.boardDone ==> pc == Board && w'.boardDone && w.gate.Opens(job))
            && (pc == Tear(false) && w' != w ==> w.gate.taskFree)
            && (pc == Check(true) && pc' != Stopped ==> w.gate.proven && w.gate.integrationOwned)
            && (pc' == Finished ==> w.gate.Opens(job) && w.boardDone
                                    && SourcePresent(job, w, job.task) == Gone && SourcePresent(job, w, job.integration) == Gone)
            && (w'.regs != w.regs || w'.dirs != w.dirs || w'.refs != w.refs ==> Executing(pc))
  {
    hide SourcePresent;
    assert Next(job, states[i], steps[i], states[i + 1]);
  }

  /** Nothing is touched unless, since the driver was last started, it found the gate open and
      put the task to done. */
  lemma {:induction false} Authorised(job: Job, states: seq<(World, PC)>, steps: seq<Step>, i: nat) returns (k: nat)
    requires IsRun(job, states, steps) && i < |states| && states[0].1 == Observe && Executing(states[i].1)
    ensures k < i && steps[k] == Program && states[k].1 == Board && states[k].0.gate.Opens(job)
    ensures forall j :: k < j < i ==> !steps[j].Crash?
    ensures states[i].0.boardDone
  {
    hide SourcePresent;
    assert i > 0;
    assert Next(job, states[i - 1], steps[i - 1], states[i]);
    if steps[i - 1] == Program && states[i - 1].1 == Board {
      k := i - 1;
    } else {
      k := Authorised(job, states, steps, i - 1);
    }
  }

  predicate OnSecond(pc: PC) {
    (pc.Lstat? || pc.Tear? || pc.DropDir? || pc.Unregister? || pc.DeleteRef?) && pc.second
  }

  /** The integration source is worked on only after its proof and ownership were found. */
  lemma {:induction false} SecondAuthorised(job: Job, states: seq<(World, PC)>, steps: seq<Step>, i: nat) returns (k: nat)
    requires IsRun(job, states, steps) && i < |states| && states[0].1 == Observe && OnSecond(states[i].1)
    ensures k < i && steps[k] == Program && states[k].1 == Check(true)
    ensures states[k].0.gate.proven && states[k].0.gate.integrationOwned
    ensures forall j :: k < j < i ==> !steps[j].Crash?
  {
    hide SourcePresent;
    assert i > 0;
    assert Next(job, states[i - 1], steps[i - 1], states[i]);
    if steps[i - 1] == Program && states[i - 1].1 == Check(true) {
      k := i - 1;
    } else {
      k := SecondAuthorised(job, states, steps, i - 1);
    }
  }

  /** And only after the task's own source was found gone, or its branch was deleted. */
  lemma {:induction false} FirstComesFirst(job: Job, states: seq<(World, PC)>, steps: seq<Step>, i: nat) returns (k: nat)
    requires IsRun(job, states, steps) && i < |states| && states[0].1 == Observe
    requires OnSecond(states[i].1) || states[i].1 == Check(true)
    ensures k < i && steps[k] == Program
    ensures (states[k].1 == Check(false) && SourcePresent(job, states[k].0, job.task) == Gone)
            || (states[k].1 == DeleteRef(false) && job.task.branch !in states[k + 1].0.refs)
    ensures forall j :: k < j < i ==> !steps[j].Crash?
  {
    hide SourcePresent;
    assert i > 0;
    assert Next(job, states[i - 1], steps[i - 1], states[i]);
    if steps[i - 1] == Program && (states[i - 1].1 == Check(false) || states[i - 1].1 == DeleteRef(false)) {
      k := i - 1;
    } else {
      k := FirstComesFirst(job, states, steps, i - 1);
    }
  }

  // ----- what a re-run does, from any world -----

  /** The driver left to itself until it finishes or stops. */
  ghost function Outcome(job: Job, w: World, pc: PC): (World, PC)
    decreases Rank(pc)
  {
    if pc.Finished? || pc.Stopped? then (w, pc)
    else
      DriveRanks(job, w, pc);
      Outcome(job, Drive(job, w, pc).0, Drive(job, w, pc).1)
  }

  lemma OutcomeStep(job: Job, w: World, pc: PC)
    requires !pc.Finished? && !pc.Stopped?
    ensures Outcome(job, w, pc) == Outcome(job, Drive(job, w, pc).0, Drive(job, w, pc).1)
  {
    hide Drive;
  }

  lemma OutcomeEnd(job: Job, w: World, pc: PC)
    requires pc.Finished? || pc.Stopped?
    ensures Outcome(job, w, pc) == (w, pc)
  {
  }

  /** Nobody else has the source, and it is whole, or only its branch is left, or nothing is. */
  ghost predicate Ready(job: Job, w: World, s: Source) {
    && Safe(job.root, s) && !ClaimedElsewhere(job.root, w, s)
    && (|| (&& s.path in w.regs && w.regs[s.path] == OnBranch(s.branch)
            && s.branch in w.refs && w.refs[s.branch] == job.candidate
            && s.path in w.dirs && !w.dirs[s.path])
        || (s.path !in w.regs && s.path !in w.dirs && s.branch in w.refs && w.refs[s.branch] == job.candidate)
        || (s.path !in w.regs && s.path !in w.dirs && s.branch !in w.refs))
  }

  lemma ReadyIsNotRefused(job: Job, w: World, s: Source)
    requires job.candidate != ""
    ensures SourcePresent(job, w, s) != Refused <==> Ready(job, w, s)
  {
    hide ClaimedElsewhere;
  }

  /** The world without one source. */
  function Without(w: World, s: Source): World {
    w.(regs := w.regs - {s.path}, dirs := w.dirs - {s.path}, refs := w.refs - {s.branch})
  }

  lemma WithoutIsGone(job: Job, w: World, s: Source)
    requires SourcePresent(job, w, s) == Present
    ensures SourcePresent(job, Without(w, s), s) == Gone
  {
  }

  lemma WithoutKeepsClaims(root: Path, w: World, s: Source, o: Source)
    requires s.path in w.regs ==> w.regs[s.path] != OnBranch(o.branch) && !Inside(o.path, s.path)
    ensures ClaimedElsewhere(root, Without(w, s), o) <==> ClaimedElsewhere(root, w, o)
  {
    hide Inside;
    var w' := Without(w, s);
    if ClaimedElsewhere(root, w, o) {
      var p :| p in w.regs && p != o.path && (w.regs[p] == OnBranch(o.branch) || (p != root && Inside(o.path, p)));
      assert p in w'.regs && w'.regs[p] == w.regs[p];
    }
  }

  /** Removing one source that was present does not change what the other one is. */
  lemma WithoutKeepsOther(job: Job, w: World, second: bool)
    requires job.WellFormed() && SourcePresent(job, w, job.Of(second)) == Present
    ensures SourcePresent(job, Without(w, job.Of(second)), job.Of(!second)) == SourcePresent(job, w, job.Of(!second))
  {
    hide ClaimedElsewhere, Inside, Safe;
    WithoutKeepsClaims(job.root, w, job.Of(second), job.Of(!second));
  }

  /** Removing a present source, whole or reduced to its branch, leaves the world without it. */
  lemma SourceOutcome(job: Job, w: World, second: bool)
    requires job.WellFormed() && w.gate.Opens(job) && SourcePresent(job, w, job.Of(second)) == Present
    ensures Outcome(job, w, Check(second)) == Outcome(job, Without(w, job.Of(second)), AfterSource(second))
  {
    var s := job.Of(second);
    hide Outcome, ClaimedElsewhere;
    OutcomeStep(job, w, Check(second));
    OutcomeStep(job, w, Lstat(second));
    var bare := w;
    if s.path in w.dirs {
      var torn := w.(dirs := w.dirs[s.path := true]);
      var dropped := w.(dirs := w.dirs - {s.path});
      assert torn.dirs - {s.path} == dropped.dirs;
      OutcomeStep(job, w, Tear(second));
      OutcomeStep(job, torn, DropDir(second));
      OutcomeStep(job, dropped, Unregister(second));
      bare := dropped.(regs := w.regs - {s.path});
    } else {
      assert w.dirs - {s.path} == w.dirs && w.regs - {s.path} == w.regs;
    }
    OutcomeStep(job, bare, DeleteRef(second));
    assert bare.(refs := bare.refs - {s.branch}) == Without(w, s);
  }

  /** Where the driver stands once a source is dealt with. */
  ghost function Dealt(job: Job, w: World, second: bool): World {
    if SourcePresent(job, w, job.Of(second)) == Present then Without(w, job.Of(second)) else w
  }

  lemma CheckOutcome(job: Job, w: World, second: bool)
    requires job.WellFormed() && w.gate.Opens(job)
    ensures SourcePresent(job, w, job.Of(second)) == Refused ==> Outcome(job, w, Check(second)) == (w, Stopped)
    ensures SourcePresent(job, w, job.Of(second)) != Refused ==>
              && Outcome(job, w, Check(second)) == Outcome(job, Dealt(job, w, second), AfterSource(second))
              && SourcePresent(job, Dealt(job, w, second), job.Of(second)) == Gone
              && SourcePresent(job, Dealt(job, w, second), job.Of(!second)) == SourcePresent(job, w, job.Of(!second))
  {
    hide Outcome, SourcePresent;
    OutcomeStep(job, w, Check(second));
    OutcomeEnd(job, w, Stopped);
    if SourcePresent(job, w, job.Of(second)) == Present {
      SourceOutcome(job, w, second);
      WithoutIsGone(job, w, job.Of(second));
      WithoutKeepsOther(job, w, second);
    }
  }

  /** From any world at all, with the gate open and kept open, the driver completes exactly
      when neither source is refused. */
  lemma ExecuteOutcome(job: Job, w: World)
    requires job.WellFormed() && w.gate.Opens(job)
    ensures Outcome(job, w, Board).1 ==
            if SourcePresent(job, w, job.task) != Refused && SourcePresent(job, w, job.integration) != Refused
            then Finished else Stopped
    ensures Outcome(job, w, Board).1 == Finished ==> CleanupDone(job, Outcome(job, w, Board).0)
  {
    hide Outcome, SourcePresent;
    var listed := w.(boardDone := true);
    BoardChangesNoSource(job, w, job.task);
    BoardChangesNoSource(job, w, job.integration);
    OutcomeStep(job, w, Board);
    CheckOutcome(job, listed, false);
    if SourcePresent(job, w, job.task) != Refused {
      var half := Dealt(job, listed, false);
      CheckOutcome(job, half, true);
      if SourcePresent(job, w, job.integration) != Refused {
        var end := Dealt(job, half, true);
        OutcomeStep(job, end, Confirm);
        OutcomeEnd(job, end, Finished);
      }
    }
  }

  lemma BoardChangesNoSource(job: Job, w: World, s: Source)
    ensures SourcePresent(job, w.(boardDone := true), s) == SourcePresent(job, w, s)
  {
    assert ClaimedElsewhere(job.root, w.(boardDone := true), s) <==> ClaimedElsewhere(job.root, w, s);
  }

  ghost predicate CanComplete(job: Job, w: World) {
    w.gate.Opens(job) && Ready(job, w, job.task) && Ready(job, w, job.integration)
  }

  /** The whole story of one undisturbed run of the driver, from any world. */
  lemma RunOutcome(job: Job, w: World)
    requires job.WellFormed()
    ensures Outcome(job, w, Observe).1 == if CanComplete(job, w) then Finished else Stopped
    ensures Outcome(job, w, Observe).1 == Finished ==> CleanupDone(job, Outcome(job, w, Observe).0)
  {
    hide Outcome, SourcePresent, Ready;
    ReadyIsNotRefused(job, w, job.task);
    ReadyIsNotRefused(job, w, job.integration);
    OutcomeStep(job, w, Observe);
    OutcomeEnd(job, w, Stopped);
    OutcomeEnd(job, w, Finished);
    if w.gate.Opens(job) {
      ExecuteOutcome(job, w);
    }
  }

  /** From every state of every run, whatever was committed, edited or fenced meanwhile and
      wherever the driver died, an undisturbed re-run completes the cleanup if and only if
      the gate is open and each source is unclaimed and whole, or down to its branch at the
      candidate, or gone. Otherwise it stops. */
  lemma ReRunConverges(job: Job, states: seq<(World, PC)>, steps: seq<Step>, i: nat)
    requires job.WellFormed() && IsRun(job, states, steps) && i < |states|
    ensures var (w, pc) := Outcome(job, states[i].0, Observe);
            && (pc == Finished <==> CanComplete(job, states[i].0))
            && (pc == Finished ==> CleanupDone(job, w))
            && (pc == Finished || pc == Stopped)
  {
    RunOutcome(job, states[i].0);
  }

  // ----- how far the driver itself can spoil it -----

  /** How far the removal of one source got. */
  datatype Stage = Whole | Torn | Bare | RefOnly | Cleared

  ghost predicate AtStage(job: Job, w: World, s: Source, stage: Stage) {
    && !ClaimedElsewhere(job.root, w, s)
    && (s.path in w.regs <==> stage.Whole? || stage.Torn? || stage.Bare?)
    && (s.path in w.regs ==> w.regs[s.path] == OnBranch(s.branch))
    && (s.path in w.dirs <==> stage.Whole? || stage.Torn?)
    && (s.path in w.dirs ==> w.dirs[s.path] == stage.Torn?)
    && (s.branch in w.refs <==> !stage.Cleared?)
    && (s.branch in w.refs ==> w.refs[s.branch] == job.candidate)
  }

  /** The removal died inside git: directory emptied or gone, registration still there. */
  predicate Interrupted(stage: Stage) { stage.Torn? || stage.Bare? }

  lemma StageReady(job: Job, w: World, s: Source, stage: Stage)
    requires AtStage(job, w, s, stage)
    ensures Ready(job, w, s) <==> Safe(job.root, s) && !Interrupted(stage)
  {
    hide ClaimedElsewhere;
  }

  /** Where a source may be found when the driver stands at `pc`. */
  predicate StageAllowed(pc: PC, second: bool, stage: Stage) {
    match pc
    case Lstat(s) => s == second ==> stage.Whole? || stage.RefOnly?
    case Tear(s) => s == second ==> stage.Whole?
    case DropDir(s) => s == second ==> stage.Torn?
    case Unregister(s) => s == second ==> stage.Bare?
    case DeleteRef(s) => s == second ==> stage.RefOnly?
    case _ => true
  }

  ghost predicate Residue(job: Job, s: (World, PC), task: Stage, integration: Stage) {
    && AtStage(job, s.0, job.task, task) && AtStage(job, s.0, job.integration, integration)
    && StageAllowed(s.1, false, task) && StageAllowed(s.1, true, integration)
  }

  /** The next stage of the source the driver works on. */
  function NextStage(pc: PC, pc': PC, second: bool, stage: Stage): Stage {
    match pc
    case Tear(s) => if s == second && pc'.DropDir? then Torn else stage
    case DropDir(s) => if s == second then Bare else stage
    case Unregister(s) => if s == second then RefOnly else stage
    case DeleteRef(s) => if s == second then Cleared else stage
    case _ => stage
  }

  /** Working on one source leaves the stage of the other alone. */
  lemma OtherUntouched(job: Job, w: World, w': World, s: Source, o: Source, stage: Stage)
    requires AtStage(job, w, o, stage) && s.path != o.path && s.branch != o.branch
    requires w'.regs == w.regs || w'.regs == w.regs - {s.path}
    requires o.path in w.dirs <==> o.path in w'.dirs
    requires o.path in w.dirs ==> w.dirs[o.path] == w'.dirs[o.path]
    requires w'.refs == w.refs || w'.refs == w.refs - {s.branch}
    ensures AtStage(job, w', o, stage)
  {
    assert forall p :: p in w'.regs ==> p in w.regs && w'.regs[p] == w.regs[p];
  }

  predicate Works(pc: PC) { pc.Tear? || pc.DropDir? || pc.Unregister? || pc.DeleteRef? }

  lemma DriveMovesOwn(job: Job, w: World, pc: PC, second: bool, stage: Stage)
    requires !pc.Finished? && !pc.Stopped?
    requires AtStage(job, w, job.Of(second), stage) && StageAllowed(pc, second, stage)
    requires Works(pc) ==> pc.second == second
    ensures AtStage(job, Drive(job, w, pc).0, job.Of(second), NextStage(pc, Drive(job, w, pc).1, second, stage))
  {
    var w' := Drive(job, w, pc).0;
    assert forall p :: p in w'.regs ==> p in w.regs && w'.regs[p] == w.regs[p];
  }

  lemma DriveKeepsOther(job: Job, w: World, pc: PC, stage: Stage)
    requires job.WellFormed() && Works(pc) && AtStage(job, w, job.Of(!pc.second), stage)
    ensures AtStage(job, Drive(job, w, pc).0, job.Of(!pc.second), stage)
  {
    OtherUntouched(job, w, Drive(job, w, pc).0, job.Of(pc.second), job.Of(!pc.second), stage);
  }

  lemma DriveStages(job: Job, w: World, pc: PC, second: bool, stage: Stage)
    requires job.WellFormed() && !pc.Finished? && !pc.Stopped?
    requires AtStage(job, w, job.Of(second), stage) && StageAllowed(pc, second, stage)
    ensures AtStage(job, Drive(job, w, pc).0, job.Of(second), NextStage(pc, Drive(job, w, pc).1, second, stage))
  {
    if Works(pc) && pc.second != second {
      DriveKeepsOther(job, w, pc, stage);
    } else {
      DriveMovesOwn(job, w, pc, second, stage);
    }
  }

  lemma DriveAllowed(job: Job, w: World, pc: PC, second: bool, stage: Stage)
    requires job.WellFormed() && !pc.Finished? && !pc.Stopped?
    requires AtStage(job, w, job.Of(second), stage) && StageAllowed(pc, second, stage)
    ensures StageAllowed(Drive(job, w, pc).1, second, NextStage(pc, Drive(job, w, pc).1, second, stage))
  {
    hide ClaimedElsewhere, SourcePresent, CleanupDone;
    StageGone(job, w, job.Of(second), stage);
  }

  lemma StageGone(job: Job, w: World, s: Source, stage: Stage)
    requires AtStage(job, w, s, stage)
    ensures SourcePresent(job, w, s) == Gone ==> stage.Cleared?
    ensures SourcePresent(job, w, s) == Present ==> stage.Whole? || stage.RefOnly?
  {
    hide ClaimedElsewhere;
  }

  /** A step of somebody else that leaves the two branches and directories alone. */
  predicate Foreign(job: Job, step: Step) {
    match step
    case Commit(branch, sha) => branch != job.task.branch && branch != job.integration.branch
    case Edit(path) => path != job.task.path && path != job.integration.path
    case _ => true
  }

  lemma ForeignKeepsStage(job: Job, s: (World, PC), step: Step, s': (World, PC), second: bool, stage: Stage)
    requires Next(job, s, step, s') && Foreign(job, step) && !step.Program?
    requires AtStage(job, s.0, job.Of(second), stage) && StageAllowed(s.1, second, stage)
    ensures AtStage(job, s'.0, job.Of(second), stage) && StageAllowed(s'.1, second, stage)
  {
    assert s'.0.regs == s.0.regs;
  }

  /** However often the driver dies, and whatever others do elsewhere, each source is found
      at one of five stages. */
  lemma {:induction false} CrashesLeaveResidue(job: Job, states: seq<(World, PC)>, steps: seq<Step>, i: nat, from: Stage, from': Stage)
    returns (task: Stage, integration: Stage)
    requires job.WellFormed() && IsRun(job, states, steps) && i < |states|
    requires forall k :: 0 <= k < |steps| ==> Foreign(job, steps[k])
    requires states[0].1 == Observe && AtStage(job, states[0].0, job.task, from) && AtStage(job, states[0].0, job.integration, from')
    ensures Residue(job, states[i], task, integration)
  {
    hide AtStage;
    if i == 0 {
      task, integration := from, from';
    } else {
      task, integration := CrashesLeaveResidue(job, states, steps, i - 1, from, from');
      var (w, pc) := states[i - 1];
      assert Next(job, states[i - 1], steps[i - 1], states[i]);
      if steps[i - 1].Program? {
        DriveStages(job, w, pc, false, task);
        DriveStages(job, w, pc, true, integration);
        DriveAllowed(job, w, pc, false, task);
        DriveAllowed(job, w, pc, true, integration);
        hide Drive;
        task, integration := NextStage(pc, states[i].1, false, task), NextStage(pc, states[i].1, true, integration);
      } else {
        ForeignKeepsStage(job, states[i - 1], steps[i - 1], states[i], false, task);
        ForeignKeepsStage(job, states[i - 1], steps[i - 1], states[i], true, integration);
      }
    }
  }

  /** While nobody touches the two sources, the driver's own deaths spoil a re-run exactly in
      one window: between git emptying a directory and unregistering it. */
  lemma UntouchedReRun(job: Job, states: seq<(World, PC)>, steps: seq<Step>, i: nat, from: Stage, from': Stage)
    returns (task: Stage, integration: Stage)
    requires job.WellFormed() && IsRun(job, states, steps) && i < |states|
    requires forall k :: 0 <= k < |steps| ==> Foreign(job, steps[k])
    requires states[0].1 == Observe && AtStage(job, states[0].0, job.task, from) && AtStage(job, states[0].0, job.integration, from')
    ensures AtStage(job, states[i].0, job.task, task) && AtStage(job, states[i].0, job.integration, integration)
    ensures Outcome(job, states[i].0, Observe).1 == Finished <==>
            states[i].0.gate.Opens(job) && job.SafeSources() && !Interrupted(task) && !Interrupted(integration)
  {
    hide AtStage, Outcome, Ready, Next;
    task, integration := CrashesLeaveResidue(job, states, steps, i, from, from');
    RunOutcome(job, states[i].0);
    StageReady(job, states[i].0, job.task, task);
    StageReady(job, states[i].0, job.integration, integration);
  }

  /** The window is real for every job: the first removal dies once git has emptied the
      directory, and no re-run gets past it. */
  lemma TornRemovalStops(job: Job, w: World) returns (states: seq<(World, PC)>, steps: seq<Step>)
    requires job.WellFormed() && job.SafeSources() && w.gate.Opens(job)
    requires AtStage(job, w, job.task, Whole) && AtStage(job, w, job.integration, Whole)
    ensures IsRun(job, states, steps) && states[0] == (w, Observe) && |steps| > 0 && steps[|steps| - 1] == Crash
    ensures forall k :: 0 <= k < |steps| ==> steps[k].Program? || steps[k].Crash?
    ensures Outcome(job, states[|steps|].0, Observe).1 == Stopped
  {
    var listed := w.(boardDone := true);
    var torn := listed.(dirs := listed.dirs[job.task.path := true]);
    states := [(w, Observe), (w, Board), (listed, Check(false)), (listed, Lstat(false)), (listed, Tear(false)),
               (torn, DropDir(false)), (torn, Observe)];
    steps := [Program, Program, Program, Program, Program, Crash];
    RunOutcome(job, torn);
    hide Outcome;
    WholePresent(job, w, job.task);
    WholePresent(job, w, job.integration);
    WholePresent(job, listed, job.task);
  }

  lemma WholePresent(job: Job, w: World, s: Source)
    requires Safe(job.root, s) && AtStage(job, w, s, Whole)
    ensures SourcePresent(job, w, s) == Present
  {
  }

  /** So is everybody else's: one commit on the task's branch stops every re-run. */
  lemma OutsideCommitStops(job: Job, w: World, sha: Sha) returns (states: seq<(World, PC)>, steps: seq<Step>)
    requires job.WellFormed() && sha != job.candidate
    ensures steps == [Commit(job.task.branch, sha)] && IsRun(job, states, steps) && states[0] == (w, Observe)
    ensures Outcome(job, states[1].0, Observe).1 == Stopped
    ensures Advanced(job, states[1].0, job.task.branch)
  {
    var moved := w.(refs := w.refs[job.task.branch := sha]);
    states, steps := [(w, Observe), (moved, Observe)], [Commit(job.task.branch, sha)];
    RunOutcome(job, moved);
  }

  // ----- the driver as it is written -----

  method ListRows(w: World) returns (rows: seq<Row>)
    ensures Lists(rows, w)
  {
    rows := [];
    var left := w.regs.Keys;
    while left != {}
      invariant left <= w.regs.Keys
      invariant forall i :: 0 <= i < |rows| ==> rows[i].path in w.regs && w.regs[rows[i].path] == rows[i].head
      invariant forall p :: p in w.regs && p !in left ==> Row(p, w.regs[p]) in rows
      decreases |left|
    {
      var p :| p in left;
      rows, left := rows + [Row(p, w.regs[p])], left - {p};
    }
  }

  /** The repository and board that one cleanup works on, undisturbed. */
  class Repository {
    var w: World

    constructor (w: World)
      ensures this.w == w
    {
      this.w := w;
    }

    method ReadSource(job: Job, s: Source) returns (r: Presence)
      ensures r == SourcePresent(job, w, s)
    {
      var rows := ListRows(w);
      r := CheckSource(job, w, s, rows);
    }

    /** `git worktree remove`, which refuses an unregistered, missing or changed directory;
        for the task's worktree behind its live-lease fence. */
    method RemoveWorktree(job: Job, second: bool) returns (ok: bool)
      modifies this
      ensures Outcome(job, old(w), Tear(second)) == if ok then Outcome(job, w, DeleteRef(second)) else (w, Stopped)
    {
      hide Outcome;
      var path := job.Of(second).path;
      ok := (second || w.gate.taskFree) && path in w.regs && path in w.dirs && !w.dirs[path];
      OutcomeStep(job, w, Tear(second));
      OutcomeEnd(job, w, Stopped);
      if ok {
        w := w.(dirs := w.dirs[path := true]);
        OutcomeStep(job, w, DropDir(second));
        w := w.(dirs := w.dirs - {path});
        OutcomeStep(job, w, Unregister(second));
        w := w.(regs := w.regs - {path});
      }
    }

    method DeleteExactRef(job: Job, second: bool) returns (ok: bool)
      modifies this
      ensures Outcome(job, old(w), DeleteRef(second)) == if ok then Outcome(job, w, AfterSource(second)) else (w, Stopped)
    {
      hide Outcome;
      var branch := job.Of(second).branch;
      OutcomeStep(job, w, DeleteRef(second));
      OutcomeEnd(job, w, Stopped);
      ok := branch in w.refs && w.refs[branch] == job.candidate;
      if ok {
        w := w.(refs := w.refs - {branch});
      }
    }

    /** The integration source is retired only while the proof and its ownership still hold. */
    method RemoveExactSource(job: Job, second: bool) returns (ok: bool)
      modifies this
      ensures Outcome(job, old(w), Check(second)) == if ok then Outcome(job, w, AfterSource(second)) else (w, Stopped)
    {
      hide Outcome, SourcePresent;
      var s := job.Of(second);
      OutcomeStep(job, w, Check(second));
      OutcomeStep(job, w, Lstat(second));
      OutcomeEnd(job, w, Stopped);
      if second && !(w.gate.proven && w.gate.integrationOwned) {
        return false;
      }
      var present := ReadSource(job, s);
      if present != Present {
        return present == Gone;
      }
      if s.path in w.dirs {
        ok := RemoveWorktree(job, second);
        if !ok {
          return;
        }
      }
      ok := DeleteExactRef(job, second);
    }

    /** Observe behind the gate, execute if the effect is absent, and read the effect back. */
    method Cleanup(job: Job) returns (done: bool)
      modifies this
      ensures Outcome(job, old(w), Observe) == (w, if done then Finished else Stopped)
      ensures done ==> CleanupDone(job, w)
      ensures job.WellFormed() ==> (done <==> CanComplete(job, old(w)))
      ensures !old(w).gate.Opens(job) ==> !done && w == old(w)
    {
      hide Outcome, SourcePresent, CanComplete;
      if job.WellFormed() {
        RunOutcome(job, w);
      }
      OutcomeStep(job, w, Observe);
      OutcomeEnd(job, w, Stopped);
      OutcomeEnd(job, w, Finished);
      var open := CheckCleanup(job, w.gate);
      if !open {
        return false;
      }
      if w.boardDone {
        var task := ReadSource(job, job.task);
        if task == Refused {
          return false;
        }
        if task == Gone {
          var rest := ReadSource(job, job.integration);
          if rest != Present {
            return rest == Gone;
          }
        }
      }
      done := Execute(job);
    }

    method Execute(job: Job) returns (done: bool)
      modifies this
      ensures Outcome(job, old(w), Board) == (w, if done then Finished else Stopped)
      ensures done ==> CleanupDone(job, w)
      ensures !old(w).gate.Opens(job) ==> !done && w == old(w)
    {
      hide Outcome, SourcePresent;
      OutcomeStep(job, w, Board);
      OutcomeEnd(job, w, Stopped);
      var open := CheckCleanup(job, w.gate);
      if !open {
        return false;
      }
      w := w.(boardDone := true);
      done := RemoveExactSource(job, false);
      if !done {
        return;
      }
      done := RemoveExactSource(job, true);
      if !done {
        return;
      }
      OutcomeStep(job, w, Confirm);
      OutcomeEnd(job, w, Stopped);
      OutcomeEnd(job, w, Finished);
      open := CheckCleanup(job, w.gate);
      var task := ReadSource(job, job.task);
      var rest := ReadSource(job, job.integration);
      done := open && w.boardDone && task == Gone && rest == Gone;
    }
  }
}
