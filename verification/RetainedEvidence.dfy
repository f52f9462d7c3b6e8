/** The evidence file one intent retains for one kind: written to a temporary file, synced,
    then linked into place. Any number of writers race for the name, die at any point, and
    the machine itself may lose power. */
module RetainedEvidence {
  import opened Text

  type Bytes = string

  /** File contents as readers see them, and as they would survive a power loss. */
  datatype Inode = Inode(content: Bytes, durable: Bytes)

  datatype Outcome = Failed | SamePrior | Published

  datatype Stage =
    | Begun                    // nothing looked at yet
    | Absent                   // no prior evidence was found
    | Writing(ino: nat)
    | Synced(ino: nat)         // complete, synced and closed; not linked
    | Linked(ino: nat)         // the name exists; the directory is not synced
    | Returned(outcome: Outcome)

  datatype Writer = Writer(value: Bytes, stage: Stage) {
    predicate HasFile() { stage.Writing? || stage.Synced? || stage.Linked? }

    predicate Uses(i: nat) { HasFile() && stage.ino == i }
  }

  /** The directory entry of the evidence path, what of it is on disk, and all files. */
  datatype State = State(name: Option<nat>, durableName: Option<nat>, inodes: map<nat, Inode>, writers: map<nat, Writer>)

  datatype Step =
    | Call(p: nat, value: Bytes)
    | ReadPrior(p: nat)
    | CreateTemp(p: nat, ino: nat)
    | Write(p: nat, upTo: nat)
    | Sync(p: nat)
    | Link(p: nat)
    | SyncDir(p: nat)
    | Writeback                  // the system writes the directory entry out on its own
    | GiveUp(p: nat)             // an operation returned an error
    | Kill(p: nat)
    | PowerLoss

  function Set(s: State, p: nat, stage: Stage): State
    requires p in s.writers
  {
    s.(writers := s.writers[p := s.writers[p].(stage := stage)])
  }

  ghost predicate WellFormed(s: State) {
    && (s.name.Some? ==> s.name.value in s.inodes)
    && (s.durableName.Some? ==> s.durableName.value in s.inodes)
    && (forall p :: p in s.writers && s.writers[p].HasFile() ==> s.writers[p].stage.ino in s.inodes)
  }

  /** What a reader of the path finds. */
  ghost function Visible(s: State): Option<Bytes>
    requires WellFormed(s)
  {
    if s.name.Some? then Some(s.inodes[s.name.value].content) else None
  }

  function AfterPowerLoss(inodes: map<nat, Inode>): map<nat, Inode> {
    map i | i in inodes :: Inode(inodes[i].durable, inodes[i].durable)
  }

  ghost predicate Next(s: State, step: Step, s': State)
    requires WellFormed(s)
  {
    match step
    case Call(p, value) => p !in s.writers && s' == s.(writers := s.writers[p := Writer(value, Begun)])
    case ReadPrior(p) =>
      && p in s.writers && s.writers[p].stage == Begun
      && s' == Set(s, p, match Visible(s) {
                           case None => Absent
                           case Some(prior) => Returned(if prior == s.writers[p].value then SamePrior else Failed) })
    case CreateTemp(p, ino) =>
      && p in s.writers && s.writers[p].stage == Absent && ino !in s.inodes
      && s' == Set(s, p, Writing(ino)).(inodes := s.inodes[ino := Inode("", "")])
    case Write(p, upTo) =>
      && p in s.writers && s.writers[p].stage.Writing?
      && var w := s.writers[p];
      var file := s.inodes[w.stage.ino];
      && |file.content| < upTo <= |w.value|
      && s' == s.(inodes := s.inodes[w.stage.ino := file.(content := w.value[..upTo])])
    case Sync(p) =>
      && p in s.writers && s.writers[p].stage.Writing?
      && var w := s.writers[p];
      && s.inodes[w.stage.ino].content == w.value
      && s' == Set(s, p, Synced(w.stage.ino)).(inodes := s.inodes[w.stage.ino := Inode(w.value, w.value)])
    case Link(p) =>
      && p in s.writers && s.writers[p].stage.Synced?
      && var ino := s.writers[p].stage.ino;
      s' == if s.name.None? then Set(s, p, Linked(ino)).(name := Some(ino)) else Set(s, p, Returned(Failed))
    case SyncDir(p) =>
      && p in s.writers && s.writers[p].stage.Linked?
      && s' == Set(s, p, Returned(Published)).(durableName := s.name)
    case Writeback => s' == s.(durableName := s.name)
    case GiveUp(p) =>
      && p in s.writers && !s.writers[p].stage.Returned?
      && s' == Set(s, p, Returned(Failed))
    case Kill(p) => p in s.writers && s' == s.(writers := s.writers - {p})
    case PowerLoss => s' == State(s.durableName, s.durableName, AfterPowerLoss(s.inodes), map[])
  }

  ghost predicate Init(s: State) {
    s.name.None? && s.durableName.None? && s.writers == map[]
  }

  // ----- invariant -----

  /** Writers never share a file. */
  ghost predicate FilesOwned(s: State) {
    forall p, q :: p in s.writers && q in s.writers && p != q && s.writers[p].HasFile() ==>
      !s.writers[q].Uses(s.writers[p].stage.ino)
  }

  /** A synced file holds its writer's whole value, and a linked one is the one in place. */
  ghost predicate FilesComplete(s: State)
    requires WellFormed(s)
  {
    forall p :: p in s.writers && (s.writers[p].stage.Synced? || s.writers[p].stage.Linked?) ==>
      && s.inodes[s.writers[p].stage.ino] == Inode(s.writers[p].value, s.writers[p].value)
      && (s.writers[p].stage.Linked? ==> s.name == Some(s.writers[p].stage.ino))
  }

  /** A linked file is on disk in full and nobody writes to it any more. */
  ghost predicate NameSettled(s: State)
    requires WellFormed(s)
  {
    && (s.name.Some? ==> s.inodes[s.name.value].content == s.inodes[s.name.value].durable)
    && (s.name.Some? ==> forall p :: p in s.writers && s.writers[p].Uses(s.name.value) ==> s.writers[p].stage.Linked?)
    && (s.durableName.Some? ==> s.name == s.durableName)
  }

  /** Who was told the evidence is retained finds exactly it in place. */
  ghost predicate SuccessVisible(s: State)
    requires WellFormed(s)
  {
    forall p :: p in s.writers && s.writers[p].stage.Returned? && !s.writers[p].stage.outcome.Failed? ==>
      && Visible(s) == Some(s.writers[p].value)
      && (s.writers[p].stage.outcome.Published? ==> s.durableName.Some?)
  }

  ghost predicate Inv(s: State) {
    WellFormed(s) && FilesOwned(s) && FilesComplete(s) && NameSettled(s) && SuccessVisible(s)
  }

  lemma StepWellFormed(s: State, step: Step, s': State)
    requires Inv(s) && Next(s, step, s')
    ensures WellFormed(s') && FilesOwned(s')
  {
  }

  lemma StepComplete(s: State, step: Step, s': State)
    requires Inv(s) && Next(s, step, s')
    ensures WellFormed(s') && FilesComplete(s')
  {
    StepWellFormed(s, step, s');
  }

  lemma StepSettled(s: State, step: Step, s': State)
    requires Inv(s) && Next(s, step, s')
    ensures WellFormed(s') && NameSettled(s') && SuccessVisible(s')
  {
    StepWellFormed(s, step, s');
  }

  ghost predicate IsRun(states: seq<State>, steps: seq<Step>) {
    && |states| == |steps| + 1 && Init(states[0])
    && forall i :: 0 <= i < |steps| ==> WellFormed(states[i]) && Next(states[i], steps[i], states[i + 1])
  }

  lemma {:induction false} RunKeepsInv(states: seq<State>, steps: seq<Step>, i: nat)
    requires IsRun(states, steps) && i < |states|
    ensures Inv(states[i])
  {
    if i > 0 {
      RunKeepsInv(states, steps, i - 1);
      StepWellFormed(states[i - 1], steps[i - 1], states[i]);
      StepComplete(states[i - 1], steps[i - 1], states[i]);
      StepSettled(states[i - 1], steps[i - 1], states[i]);
    }
  }

  lemma StepKeepsInv(s: State, step: Step, s': State)
    requires Inv(s) && Next(s, step, s')
    ensures Inv(s')
  {
    StepWellFormed(s, step, s');
    StepComplete(s, step, s');
    StepSettled(s, step, s');
  }

  // ----- one call, as it is written -----

  /** The steps lead from `s` to `s'`. */
  ghost predicate Leads(s: State, steps: seq<Step>, s': State)
    decreases |steps|
  {
    if steps == [] then s == s'
    else WellFormed(s) && exists mid :: Next(s, steps[0], mid) && Leads(mid, steps[1..], s')
  }

  lemma {:induction false} LeadsOn(s: State, steps: seq<Step>, mid: State, step: Step, s': State)
    requires Leads(s, steps, mid) && WellFormed(mid) && Next(mid, step, s')
    ensures Leads(s, steps + [step], s')
    decreases |steps|
  {
    var all := steps + [step];
    if steps == [] {
      assert all[0] == step && all[1..] == [];
      assert Leads(s', all[1..], s');
    } else {
      var next :| Next(s, steps[0], next) && Leads(next, steps[1..], mid);
      LeadsOn(next, steps[1..], mid, step, s');
      assert all[0] == steps[0] && all[1..] == steps[1..] + [step];
    }
  }

  lemma Took(s0: State, steps: seq<Step>, before: State, step: Step, after: State)
    requires Leads(s0, steps, before) && Inv(before) && Next(before, step, after)
    ensures Leads(s0, steps + [step], after) && Inv(after)
  {
    LeadsOn(s0, steps, before, step, after);
    StepKeepsInv(before, step, after);
  }

  /** Operations of one call that can fail. */
  datatype Operation = Reading | Creating | Writes | Syncing | Linking | SyncingDir

  predicate Publishes(fails: Operation -> bool) {
    !fails(Creating) && !fails(Writes) && !fails(Syncing) && !fails(Linking) && !fails(SyncingDir)
  }

  class Evidence {
    var s: State

    constructor ()
      ensures Init(s) && Inv(s)
    {
      s := State(None, None, map[], map[]);
    }

    method Quit(p: nat, ghost s0: State, ghost before: seq<Step>) returns (outcome: Outcome, ghost steps: seq<Step>)
      requires Inv(s) && p in s.writers && !s.writers[p].stage.Returned? && Leads(s0, before, s)
      modifies this
      ensures s == Set(old(s), p, Returned(Failed)) && outcome == Failed
      ensures Inv(s) && Leads(s0, steps, s)
    {
      ghost var was := s;
      s := Set(s, p, Returned(Failed));
      Took(s0, before, was, GiveUp(p), s);
      outcome, steps := Failed, before + [GiveUp(p)];
    }

    /** Temporary file, write, sync, link, directory sync; the first failure ends the call. */
    method Publish(p: nat, value: Bytes, ino: nat, fails: Operation -> bool, ghost s0: State, ghost before: seq<Step>)
      returns (outcome: Outcome, ghost steps: seq<Step>)
      requires Inv(s) && p in s.writers && s.writers[p] == Writer(value, Absent) && Leads(s0, before, s)
      requires s.name.None? && ino !in s.inodes && value != ""
      modifies this
      ensures Leads(s0, steps, s) && Inv(s)
      ensures p in s.writers && s.writers[p] == Writer(value, Returned(outcome))
      ensures outcome == Published <==> Publishes(fails)
      ensures outcome != SamePrior
      ensures outcome == Published ==> s.durableName == s.name
      ensures if s.name.None? then outcome == Failed else Visible(s) == Some(value) && (outcome == Failed ==> fails(SyncingDir))
    {
      hide Leads;
      if fails(Creating) {
        outcome, steps := Quit(p, s0, before);
        return;
      }
      ghost var absent := s;
      s := Set(s, p, Writing(ino)).(inodes := s.inodes[ino := Inode("", "")]);
      Took(s0, before, absent, CreateTemp(p, ino), s);
      steps := before + [CreateTemp(p, ino)];
      if fails(Writes) {
        outcome, steps := Quit(p, s0, steps);
        return;
      }
      ghost var created := s;
      s := s.(inodes := s.inodes[ino := Inode(value, "")]);
      assert value[..|value|] == value;
      Took(s0, steps, created, Write(p, |value|), s);
      steps := steps + [Write(p, |value|)];
      if fails(Syncing) {
        outcome, steps := Quit(p, s0, steps);
        return;
      }
      ghost var written := s;
      s := Set(s, p, Synced(ino)).(inodes := s.inodes[ino := Inode(value, value)]);
      Took(s0, steps, written, Sync(p), s);
      steps := steps + [Sync(p)];
      outcome, steps := Place(p, value, ino, fails, s0, steps);
    }

    method Place(p: nat, value: Bytes, ino: nat, fails: Operation -> bool, ghost s0: State, ghost before: seq<Step>)
      returns (outcome: Outcome, ghost steps: seq<Step>)
      requires Inv(s) && p in s.writers && s.writers[p] == Writer(value, Synced(ino)) && Leads(s0, before, s)
      requires s.name.None?
      modifies this
      ensures Leads(s0, steps, s) && Inv(s)
      ensures p in s.writers && s.writers[p] == Writer(value, Returned(outcome))
      ensures outcome == if fails(Linking) || fails(SyncingDir) then Failed else Published
      ensures outcome == Published ==> s.durableName == s.name
      ensures if fails(Linking) then s.name.None? else Visible(s) == Some(value)
    {
      hide Leads;
      if fails(Linking) {
        outcome, steps := Quit(p, s0, before);
        return;
      }
      ghost var synced := s;
      s := Set(s, p, Linked(ino)).(name := Some(ino));
      Took(s0, before, synced, Link(p), s);
      steps := before + [Link(p)];
      if fails(SyncingDir) {
        outcome, steps := Quit(p, s0, steps);
        return;
      }
      ghost var linked := s;
      s := Set(s, p, Returned(Published)).(durableName := s.name);
      Took(s0, steps, linked, SyncDir(p), s);
      outcome, steps := Published, steps + [SyncDir(p)];
    }

    /** A call left alone: it succeeds without writing when its value is already there,
        refuses to replace another value, and otherwise publishes its value durably. A call
        that fails has changed nothing visible, unless it failed after linking. */
    method Retain(p: nat, value: Bytes, ino: nat, fails: Operation -> bool) returns (outcome: Outcome, ghost steps: seq<Step>)
      requires Inv(s) && p !in s.writers && ino !in s.inodes && value != ""
      modifies this
      ensures Leads(old(s), steps, s) && Inv(s)
      ensures p in s.writers && s.writers[p] == Writer(value, Returned(outcome))
      ensures outcome == SamePrior <==> !fails(Reading) && old(Visible(s)) == Some(value)
      ensures outcome == Published <==> old(Visible(s)) == None && !fails(Reading) && Publishes(fails)
      ensures outcome == Published ==> Visible(s) == Some(value) && s.durableName == s.name
      ensures outcome != Published && Visible(s) != old(Visible(s)) ==>
                old(Visible(s)) == None && Visible(s) == Some(value) && fails(SyncingDir)
    {
      hide Leads, FilesOwned, FilesComplete, NameSettled, SuccessVisible, Publishes;
      ghost var s0 := s;
      var prior;
      prior, steps := Look(p, value, fails);
      if s.writers[p].stage.Returned? {
        return s.writers[p].stage.outcome, steps;
      }
      outcome, steps := Publish(p, value, ino, fails, s0, steps);
    }

    /** The call looks for prior evidence, and is done if there is any. */
    method Look(p: nat, value: Bytes, fails: Operation -> bool) returns (prior: Option<Bytes>, ghost steps: seq<Step>)
      requires Inv(s) && p !in s.writers
      modifies this
      ensures Leads(old(s), steps, s) && Inv(s) && prior == old(Visible(s))
      ensures s == old(s).(writers := old(s).writers[p := Writer(value,
                if fails(Reading) then Returned(Failed)
                else if prior.None? then Absent
                else Returned(if prior.value == value then SamePrior else Failed))])
    {
      ghost var s0 := s;
      assert Leads(s0, [], s0);
      hide Leads, FilesOwned, FilesComplete, NameSettled, SuccessVisible;
      prior := if s.name.Some? then Some(s.inodes[s.name.value].content) else None;
      s := s.(writers := s.writers[p := Writer(value, Begun)]);
      Took(s0, [], s0, Call(p, value), s);
      steps := [Call(p, value)];
      if fails(Reading) {
        var failed;
        failed, steps := Quit(p, s0, steps);
      } else {
        ghost var called := s;
        s := Set(s, p, if prior.None? then Absent else Returned(if prior.value == value then SamePrior else Failed));
        Took(s0, steps, called, ReadPrior(p), s);
        steps := steps + [ReadPrior(p)];
      }
    }
  }

  // ----- theorems -----

  /** What the path shows can only ever be some caller's whole value. */
  ghost predicate Whole(steps: seq<Step>, n: nat, v: Bytes)
    requires n <= |steps|
  {
    exists k :: 0 <= k < n && steps[k].Call? && steps[k].value == v
  }

  lemma {:induction false} WritersWereCalled(states: seq<State>, steps: seq<Step>, i: nat)
    requires IsRun(states, steps) && i < |states|
    ensures forall p :: p in states[i].writers ==> Whole(steps, i, states[i].writers[p].value)
    ensures Inv(states[i])
    ensures Visible(states[i]).Some? ==> Whole(steps, i, Visible(states[i]).value)
  {
    RunKeepsInv(states, steps, i);
    if i > 0 {
      WritersWereCalled(states, steps, i - 1);
      var s, s' := states[i - 1], states[i];
      assert Next(s, steps[i - 1], s');
      forall v | Whole(steps, i - 1, v) ensures Whole(steps, i, v) {
        var k :| 0 <= k < i - 1 && steps[k].Call? && steps[k].value == v;
        assert 0 <= k < i;
      }
      if steps[i - 1].Call? {
        assert Whole(steps, i, steps[i - 1].value);
      }
    }
  }

  /** Between power losses the path is a write-once register: the first value to appear is
      some caller's whole value and stays, whoever else writes or dies. A durable entry
      survives power losses too. */
  lemma {:induction false} WriteOnce(states: seq<State>, steps: seq<Step>, i: nat, j: nat)
    requires IsRun(states, steps) && i <= j < |states|
    requires forall k :: i <= k < j ==> !steps[k].PowerLoss? || states[i].durableName.Some?
    ensures Inv(states[i]) && Inv(states[j])
    ensures Visible(states[i]).Some? ==> Visible(states[j]) == Visible(states[i])
    ensures states[i].durableName.Some? ==> states[j].durableName == states[i].durableName
    ensures Visible(states[i]).Some? ==> Whole(steps, i, Visible(states[i]).value)
  {
    RunKeepsInv(states, steps, i);
    RunKeepsInv(states, steps, j);
    WritersWereCalled(states, steps, i);
    if i < j {
      WriteOnce(states, steps, i, j - 1);
      assert Next(states[j - 1], steps[j - 1], states[j]);
    }
  }

  /** Every successful call leaves its own value visible, then and for as long as no power
      is lost; a call that linked the file itself, for ever. */
  lemma SuccessStays(states: seq<State>, steps: seq<Step>, i: nat, j: nat, p: nat)
    requires IsRun(states, steps) && i <= j < |states| && p in states[i].writers
    requires states[i].writers[p].stage == Returned(Published)
             || (states[i].writers[p].stage == Returned(SamePrior) && forall k :: i <= k < j ==> !steps[k].PowerLoss?)
    ensures Inv(states[j]) && Visible(states[j]) == Some(states[i].writers[p].value)
  {
    RunKeepsInv(states, steps, i);
    WriteOnce(states, steps, i, j);
  }

  /** The directory entry was written out, by a call that linked it or by the system, while
      there was one. */
  ghost predicate WrittenOut(states: seq<State>, steps: seq<Step>, i: nat)
    requires |states| == |steps| + 1 && i <= |steps|
  {
    exists k :: 0 <= k < i && (steps[k].SyncDir? || (steps[k].Writeback? && states[k].name.Some?))
  }

  lemma {:induction false} DurableExactly(states: seq<State>, steps: seq<Step>, i: nat)
    requires IsRun(states, steps) && i < |states|
    ensures states[i].durableName.Some? <==> WrittenOut(states, steps, i)
  {
    if i > 0 {
      DurableExactly(states, steps, i - 1);
      RunKeepsInv(states, steps, i - 1);
      assert Next(states[i - 1], steps[i - 1], states[i]);
      if WrittenOut(states, steps, i - 1) {
        var k :| 0 <= k < i - 1 && (steps[k].SyncDir? || (steps[k].Writeback? && states[k].name.Some?));
        assert 0 <= k < i;
      }
    }
  }

  /** What a power loss does to a success: it survives exactly when some call had synced the
      directory, or the system had written it out, which finding equal prior evidence does
      not wait for. */
  lemma PowerLossExactly(states: seq<State>, steps: seq<Step>, i: nat, p: nat)
    requires IsRun(states, steps) && i < |steps| && steps[i] == PowerLoss && p in states[i].writers
    requires states[i].writers[p].stage.Returned? && !states[i].writers[p].stage.outcome.Failed?
    ensures Inv(states[i + 1])
    ensures Visible(states[i + 1]) == Some(states[i].writers[p].value) <==> WrittenOut(states, steps, i)
  {
    DurableExactly(states, steps, i);
    RunKeepsInv(states, steps, i);
    RunKeepsInv(states, steps, i + 1);
    hide WrittenOut;
    assert Next(states[i], steps[i], states[i + 1]);
  }

  ghost predicate Reachable(s: State) {
    WellFormed(s) && exists states: seq<State>, steps: seq<Step> :: IsRun(states, steps) && states[|steps|] == s
  }

  lemma ReachNext(s: State, step: Step, s': State)
    requires Reachable(s) && Next(s, step, s') && WellFormed(s')
    ensures Reachable(s')
  {
    var states, steps: seq<Step> :| IsRun(states, steps) && states[|steps|] == s;
    assert IsRun(states + [s'], steps + [step]) && (states + [s'])[|steps + [step]|] == s';
  }

  /** A lone writer has linked its file and not yet synced the directory. */
  function JustLinked(v: Bytes): State {
    State(Some(0), None, map[0 := Inode(v, v)], map[0 := Writer(v, Linked(0))])
  }

  function JustCreated(v: Bytes): State {
    State(None, None, map[0 := Inode("", "")], map[0 := Writer(v, Writing(0))])
  }

  lemma CreatedReachable(v: Bytes)
    ensures Reachable(JustCreated(v))
  {
    var s0 := State(None, None, map[], map[]);
    var s1 := s0.(writers := map[0 := Writer(v, Begun)]);
    var s2 := s0.(writers := map[0 := Writer(v, Absent)]);
    assert IsRun([s0], []);
    ReachNext(s0, Call(0, v), s1);
    ReachNext(s1, ReadPrior(0), s2);
    ReachNext(s2, CreateTemp(0, 0), JustCreated(v));
  }

  lemma LinkedReachable(v: Bytes)
    requires |v| > 0
    ensures Reachable(JustLinked(v))
  {
    CreatedReachable(v);
    var written := JustCreated(v).(inodes := map[0 := Inode(v, "")]);
    var synced := JustLinked(v).(name := None, writers := map[0 := Writer(v, Synced(0))]);
    assert v[..|v|] == v;
    ReachNext(JustCreated(v), Write(0, |v|), written);
    ReachNext(written, Sync(0), synced);
    ReachNext(synced, Link(0), JustLinked(v));
  }

  /** The gap is real: writer 0 links, writer 1 finds the same bytes and reports success,
      power is lost before writer 0 syncs the directory, and the evidence is gone. */
  lemma SamePriorCanVanish(v: Bytes) returns (s: State, s': State)
    requires |v| > 0
    ensures Reachable(s) && 1 in s.writers && s.writers[1] == Writer(v, Returned(SamePrior))
    ensures Next(s, PowerLoss, s') && WellFormed(s') && Visible(s') == None
  {
    LinkedReachable(v);
    var linked := JustLinked(v);
    var called := linked.(writers := linked.writers[1 := Writer(v, Begun)]);
    s := linked.(writers := linked.writers[1 := Writer(v, Returned(SamePrior))]);
    ReachNext(linked, Call(1, v), called);
    ReachNext(called, ReadPrior(1), s);
    s' := State(None, None, AfterPowerLoss(s.inodes), map[]);
  }
}
