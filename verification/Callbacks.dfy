/** What the mailbox says about one candidate of one task: blocked, or of unknown state. */
module Callbacks {
  import opened Text

  const COMPLETE := "complete"
  const BLOCKED := "blocked"
  const INTENT_PREFIX := "verdict-intent:"

  datatype Callback = Callback(kind: string, ref: string, sha: string, lease: int, dedupeID: string)

  /** `body` is absent when the message is not a callback at all. */
  datatype Envelope = Envelope(sequence: int, body: Option<Callback>)

  /** The callback concerns this task and is not a verdict that is yet to be delivered. */
  predicate Concerns(e: Envelope, ref: string) {
    e.body.Some? && e.body.value.ref == ref && !HasPrefix(e.body.value.dedupeID, INTENT_PREFIX)
  }

  predicate Bound(e: Envelope, ref: string, sha: string) {
    Concerns(e, ref) && e.body.value.sha == sha != ""
  }

  predicate Blocks(e: Envelope, ref: string, sha: string) {
    Bound(e, ref, sha) && e.body.value.kind == BLOCKED
  }

  predicate BlocksUnbound(e: Envelope, ref: string) {
    Concerns(e, ref) && e.body.value.sha == "" && e.body.value.kind == BLOCKED
  }

  predicate Completes(e: Envelope, ref: string, sha: string) {
    Bound(e, ref, sha) && e.body.value.kind == COMPLETE
  }

  /** `e` is a completion of the same generation as `b` with a later sequence number. */
  predicate Clears(e: Envelope, b: Envelope, ref: string, sha: string) {
    Completes(e, ref, sha) && b.body.Some? && e.body.value.lease == b.body.value.lease && e.sequence > b.sequence
  }

  // ----- the meaning -----

  /** The two questions asked of a mailbox: is this candidate blocked, and is the task
      blocked by a message that names no candidate. */
  datatype Question = IsBlocked | IsUnknown

  predicate Raises(e: Envelope, q: Question, ref: string, sha: string) {
    match q
    case IsBlocked => Blocks(e, ref, sha)
    case IsUnknown => BlocksUnbound(e, ref)
  }

  ghost predicate IsLast(envs: seq<Envelope>, n: nat, q: Question, ref: string, sha: string, k: int) {
    && 0 <= k < n <= |envs| && Raises(envs[k], q, ref, sha)
    && forall j :: k < j < n ==> !Raises(envs[j], q, ref, sha)
  }

  ghost predicate Uncleared(envs: seq<Envelope>, n: nat, ref: string, sha: string, k: int) {
    0 <= k < n <= |envs| && forall j :: k < j < n ==> !Clears(envs[j], envs[k], ref, sha)
  }

  /** The last message that raises `q` has not been cleared since. */
  ghost predicate Stands(envs: seq<Envelope>, n: nat, q: Question, ref: string, sha: string) {
    exists k :: IsLast(envs, n, q, ref, sha, k) && Uncleared(envs, n, ref, sha, k)
  }

  // ----- the fold -----

  /** The loop remembers the last raising message, at `last`, and whether it stands. */
  ghost predicate Tracks(envs: seq<Envelope>, n: nat, q: Question, ref: string, sha: string, last: int, lease: int, sequence: int, flag: bool)
  {
    && n <= |envs|
    && if last < 0 then !flag && forall j :: 0 <= j < n ==> !Raises(envs[j], q, ref, sha)
       else
         && IsLast(envs, n, q, ref, sha, last)
         && lease == envs[last].body.value.lease && sequence == envs[last].sequence
         && (flag <==> Uncleared(envs, n, ref, sha, last))
  }

  lemma TracksMeans(envs: seq<Envelope>, n: nat, q: Question, ref: string, sha: string, last: int, lease: int, sequence: int, flag: bool)
    requires Tracks(envs, n, q, ref, sha, last, lease, sequence, flag)
    ensures flag <==> Stands(envs, n, q, ref, sha)
  {
    hide Raises, Clears;
    if Stands(envs, n, q, ref, sha) {
      var k :| IsLast(envs, n, q, ref, sha, k) && Uncleared(envs, n, ref, sha, k);
      assert Raises(envs[k], q, ref, sha);
      assert last == k;
    }
  }

  /** One envelope: a raising message is remembered, and any other may clear the last one. */
  function Next(e: Envelope, q: Question, ref: string, sha: string, lease: int, sequence: int, flag: bool): (int, int, bool) {
    if Raises(e, q, ref, sha) then (e.body.value.lease, e.sequence, true)
    else (lease, sequence, flag && !(Completes(e, ref, sha) && e.body.value.lease == lease && e.sequence > sequence))
  }

  lemma TracksNext(envs: seq<Envelope>, n: nat, q: Question, ref: string, sha: string, last: int, lease: int, sequence: int, flag: bool)
    requires n < |envs| && Tracks(envs, n, q, ref, sha, last, lease, sequence, flag)
    ensures var (l, s, f) := Next(envs[n], q, ref, sha, lease, sequence, flag);
            Tracks(envs, n + 1, q, ref, sha, if Raises(envs[n], q, ref, sha) then n else last, l, s, f)
  {
    if Raises(envs[n], q, ref, sha) {
    } else if last >= 0 {
      assert Uncleared(envs, n + 1, ref, sha, last) <==> Uncleared(envs, n, ref, sha, last) && !Clears(envs[n], envs[last], ref, sha);
    }
  }

  /** The loop over a mailbox decides both questions. */
  method CallbackState(envs: seq<Envelope>, ref: string, sha: string) returns (blocked: bool, unknown: bool)
    ensures blocked <==> Stands(envs, |envs|, IsBlocked, ref, sha)
    ensures unknown <==> Stands(envs, |envs|, IsUnknown, ref, sha)
  {
    hide Tracks, Stands;
    blocked, unknown := false, false;
    var blockedLease, blockedSequence, unboundLease, unboundSequence := 0, 0, 0, 0;
    ghost var lastBlocked, lastUnbound := -1, -1;
    TracksNothing(envs, ref, sha);
    for n := 0 to |envs|
      invariant Tracks(envs, n, IsBlocked, ref, sha, lastBlocked, blockedLease, blockedSequence, blocked)
      invariant Tracks(envs, n, IsUnknown, ref, sha, lastUnbound, unboundLease, unboundSequence, unknown)
    {
      TracksNext(envs, n, IsBlocked, ref, sha, lastBlocked, blockedLease, blockedSequence, blocked);
      TracksNext(envs, n, IsUnknown, ref, sha, lastUnbound, unboundLease, unboundSequence, unknown);
      var env := envs[n];
      lastBlocked := if Raises(env, IsBlocked, ref, sha) then n else lastBlocked;
      lastUnbound := if Raises(env, IsUnknown, ref, sha) then n else lastUnbound;
      if env.body.None? || env.body.value.ref != ref || HasPrefix(env.body.value.dedupeID, INTENT_PREFIX) {
        continue;
      }
      var cb := env.body.value;
      if cb.sha == "" {
        if cb.kind == BLOCKED {
          unknown, unboundLease, unboundSequence := true, cb.lease, env.sequence;
        }
        continue;
      }
      if cb.sha != sha {
        continue;
      }
      if cb.kind == BLOCKED {
        blocked, blockedLease, blockedSequence := true, cb.lease, env.sequence;
      }
      if cb.kind == COMPLETE {
        if cb.lease == blockedLease && env.sequence > blockedSequence {
          blocked := false;
        }
        if cb.lease == unboundLease && env.sequence > unboundSequence {
          unknown := false;
        }
      }
    }
    TracksMeans(envs, |envs|, IsBlocked, ref, sha, lastBlocked, blockedLease, blockedSequence, blocked);
    TracksMeans(envs, |envs|, IsUnknown, ref, sha, lastUnbound, unboundLease, unboundSequence, unknown);
  }

  lemma TracksNothing(envs: seq<Envelope>, ref: string, sha: string)
    ensures Tracks(envs, 0, IsBlocked, ref, sha, -1, 0, 0, false)
    ensures Tracks(envs, 0, IsUnknown, ref, sha, -1, 0, 0, false)
  {
  }

  // ----- messages that do not matter -----

  /** Not a callback of this task, or one bound to another candidate. */
  predicate Noise(e: Envelope, ref: string, sha: string) {
    Concerns(e, ref) ==> e.body.value.sha != "" && e.body.value.sha != sha
  }

  function Inserted(envs: seq<Envelope>, i: nat, e: Envelope): seq<Envelope>
    requires i <= |envs|
  {
    envs[..i] + [e] + envs[i..]
  }

  /** A message about another task or another candidate changes neither answer, wherever in
      the mailbox it lies. */
  lemma NoiseIsIgnored(envs: seq<Envelope>, i: nat, e: Envelope, q: Question, ref: string, sha: string)
    requires i <= |envs| && Noise(e, ref, sha)
    ensures Stands(Inserted(envs, i, e), |envs| + 1, q, ref, sha) <==> Stands(envs, |envs|, q, ref, sha)
  {
    var more := Inserted(envs, i, e);
    if Stands(envs, |envs|, q, ref, sha) {
      var k :| IsLast(envs, |envs|, q, ref, sha, k) && Uncleared(envs, |envs|, ref, sha, k);
      StaysLast(envs, i, e, q, ref, sha, k);
    }
    if Stands(more, |more|, q, ref, sha) {
      var k :| IsLast(more, |more|, q, ref, sha, k) && Uncleared(more, |more|, ref, sha, k);
      WasLast(envs, i, e, q, ref, sha, k);
    }
  }

  lemma StaysLast(envs: seq<Envelope>, i: nat, e: Envelope, q: Question, ref: string, sha: string, k: int)
    requires i <= |envs| && Noise(e, ref, sha)
    requires IsLast(envs, |envs|, q, ref, sha, k) && Uncleared(envs, |envs|, ref, sha, k)
    ensures var more, at := Inserted(envs, i, e), if k < i then k else k + 1;
            IsLast(more, |more|, q, ref, sha, at) && Uncleared(more, |more|, ref, sha, at)
  {
    var more := Inserted(envs, i, e);
    assert !Raises(e, q, ref, sha) && !Completes(e, ref, sha);
    assert forall j :: 0 <= j < |more| ==> more[j] == if j < i then envs[j] else if j == i then e else envs[j - 1];
  }

  lemma WasLast(envs: seq<Envelope>, i: nat, e: Envelope, q: Question, ref: string, sha: string, k: int)
    requires i <= |envs| && Noise(e, ref, sha)
    requires var more := Inserted(envs, i, e);
             IsLast(more, |more|, q, ref, sha, k) && Uncleared(more, |more|, ref, sha, k)
    ensures var at := if k < i then k else k - 1;
            IsLast(envs, |envs|, q, ref, sha, at) && Uncleared(envs, |envs|, ref, sha, at)
  {
    var more := Inserted(envs, i, e);
    assert !Raises(e, q, ref, sha) && !Completes(e, ref, sha);
    assert k != i;
    var at := if k < i then k else k - 1;
    forall j | at < j < |envs| ensures !Raises(envs[j], q, ref, sha) && !Clears(envs[j], envs[at], ref, sha) {
      var m := if j < i then j else j + 1;
      assert envs[j] == more[m] && envs[at] == more[k];
    }
  }

  // ----- the two answers, message by message -----

  /** A delivered callback of this kind for this task and this candidate. */
  predicate Says(e: Envelope, ref: string, kind: string, sha: string) {
    && e.body.Some? && e.body.value.ref == ref && e.body.value.kind == kind && e.body.value.sha == sha
    && !(|e.body.value.dedupeID| >= 15 && e.body.value.dedupeID[..15] == "verdict-intent:")
  }

  /** Some message says so for `about`, none after it does, and no completion of the candidate
      with the same generation and a greater sequence comes after it. */
  ghost predicate LastStands(envs: seq<Envelope>, ref: string, sha: string, about: string, k: int) {
    && 0 <= k < |envs| && Says(envs[k], ref, "blocked", about)
    && (forall j :: k < j < |envs| ==> !Says(envs[j], ref, "blocked", about))
    && (forall j :: k < j < |envs| && Says(envs[j], ref, "complete", sha) && sha != "" ==>
          envs[j].body.value.lease != envs[k].body.value.lease || envs[j].sequence <= envs[k].sequence)
  }

  lemma SaysExactly(e: Envelope, ref: string, sha: string)
    ensures Blocks(e, ref, sha) <==> sha != "" && Says(e, ref, "blocked", sha)
    ensures BlocksUnbound(e, ref) <==> Says(e, ref, "blocked", "")
    ensures Completes(e, ref, sha) <==> sha != "" && Says(e, ref, "complete", sha)
  {
    assert |"verdict-intent:"| == 15;
  }

  /** What blocked and unknown mean. */
  lemma StandsExactly(envs: seq<Envelope>, ref: string, sha: string)
    ensures Stands(envs, |envs|, IsBlocked, ref, sha) <==> sha != "" && exists k :: LastStands(envs, ref, sha, sha, k)
    ensures Stands(envs, |envs|, IsUnknown, ref, sha) <==> exists k :: LastStands(envs, ref, sha, "", k)
  {
    forall k
      ensures IsLast(envs, |envs|, IsBlocked, ref, sha, k) && Uncleared(envs, |envs|, ref, sha, k) <==>
              sha != "" && LastStands(envs, ref, sha, sha, k)
      ensures IsLast(envs, |envs|, IsUnknown, ref, sha, k) && Uncleared(envs, |envs|, ref, sha, k) <==>
              LastStands(envs, ref, sha, "", k)
    {
      OneStands(envs, ref, sha, k);
    }
  }

  lemma OneStands(envs: seq<Envelope>, ref: string, sha: string, k: int)
    ensures IsLast(envs, |envs|, IsBlocked, ref, sha, k) && Uncleared(envs, |envs|, ref, sha, k) <==>
            sha != "" && LastStands(envs, ref, sha, sha, k)
    ensures IsLast(envs, |envs|, IsUnknown, ref, sha, k) && Uncleared(envs, |envs|, ref, sha, k) <==>
            LastStands(envs, ref, sha, "", k)
  {
    forall j | 0 <= j < |envs|
      ensures Blocks(envs[j], ref, sha) <==> sha != "" && Says(envs[j], ref, "blocked", sha)
      ensures BlocksUnbound(envs[j], ref) <==> Says(envs[j], ref, "blocked", "")
      ensures Completes(envs[j], ref, sha) <==> sha != "" && Says(envs[j], ref, "complete", sha)
    {
      SaysExactly(envs[j], ref, sha);
    }
    assert forall j :: 0 <= j < |envs| && Says(envs[j], ref, "complete", sha) ==> envs[j].body.Some?;
    assert forall j, about :: 0 <= j < |envs| && Says(envs[j], ref, "blocked", about) ==> envs[j].body.Some?;
    hide Blocks, BlocksUnbound, Completes, Says;
  }
}
