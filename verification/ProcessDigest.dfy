/** One bounded read-only sweep over the fleet's panes. Clocks, cancellation and pane reads
    are answered by the environment. */
module ProcessDigest {
  import opened Text
  import opened Sorting
  import opened Utf8

  datatype Agent = Agent(name: string, paneID: string, status: string, workspace: string)

  datatype Observation = ReadFailed | Seen(text: Bytes, unverified: bool, truncated: bool)

  datatype Roster = RosterUnreadable | Roster(agents: seq<Agent>, verified: bool)

  datatype Limits = Limits(maxPanes: int, maxTailBytes: int)

  /** The `k`-th read's answer, and whether the sweep is canceled or late at position `i`. */
  datatype Env = Env(read: (nat, string) -> Observation, canceled: nat -> bool, late: nat -> bool)

  datatype Unknown =
    | UnverifiedRoster | PaneCap(skipped: nat) | Canceled(skipped: nat) | Deadline(skipped: nat)
    | NoPane(name: string) | Unreadable(name: string) | Unverified(name: string)
    | CutByHerdr(name: string) | CutBySweep(name: string)

  datatype Result<T> =
    | HerdrMissing
    | RosterError
    | Scan(items: seq<T>, skipped: nat, paneReads: nat, partial: bool, unknowns: seq<Unknown>)

  /** The classifier, applied to a pane, a name, a status and a text. */
  type Classifier<T> = (string, string, string, Bytes) -> T

  // ----- scope and order -----

  predicate Scoped(a: Agent, workspace: string) { Trim(a.workspace) == workspace }

  function InScope(agents: seq<Agent>, workspace: string, n: nat): seq<Agent>
    requires n <= |agents|
  {
    if n == 0 then []
    else
      var front, a := InScope(agents, workspace, n - 1), agents[n - 1];
      if Scoped(a, workspace) then front + [a] else front
  }

  lemma {:induction false} InScopeCounts(agents: seq<Agent>, workspace: string, n: nat, x: Agent)
    requires n <= |agents|
    ensures multiset(InScope(agents, workspace, n))[x] == if Scoped(x, workspace) then multiset(agents[..n])[x] else 0
  {
    if n > 0 {
      InScopeCounts(agents, workspace, n - 1, x);
      assert agents[..n] == agents[..n - 1] + [agents[n - 1]];
    }
  }

  /** Name first, then pane. */
  predicate Earlier(a: Agent, b: Agent) { PairLess((a.name, a.paneID), (b.name, b.paneID)) }

  lemma EarlierComplement(a: Agent, b: Agent, c: Agent)
    ensures !Earlier(b, a) && !Earlier(c, b) ==> !Earlier(c, a)
    ensures Earlier(a, b) ==> !Earlier(b, a)
    ensures !Earlier(a, b) && !Earlier(b, a) ==> a.name == b.name && a.paneID == b.paneID
  {
    PairLessComplement((a.name, a.paneID), (b.name, b.paneID), (c.name, c.paneID));
  }

  lemma EarlierIsOrder()
    ensures WeakOrder(Earlier)
  {
    forall a, b ensures Earlier(a, b) ==> !Earlier(b, a) {
      EarlierComplement(a, b, a);
    }
    forall a, b, c ensures !Earlier(b, a) && !Earlier(c, b) ==> !Earlier(c, a) {
      EarlierComplement(a, b, c);
    }
  }

  /** The agents a sweep visits, in order: those in scope, sorted. */
  ghost predicate IsOrder(order: seq<Agent>, agents: seq<Agent>, workspace: string) {
    Sorted(order, Earlier) && multiset(order) == multiset(InScope(agents, workspace, |agents|))
  }

  /** The order the roster arrives in does not matter: two sweeps of the same fleet visit the
      same pane of the same agent at every position, so a capped one drops the same tail. */
  lemma OrderIsDeterministic(one: seq<Agent>, two: seq<Agent>, agents: seq<Agent>, shuffled: seq<Agent>, workspace: string, i: nat)
    requires multiset(agents) == multiset(shuffled)
    requires IsOrder(one, agents, workspace) && IsOrder(two, shuffled, workspace)
    requires i < |one|
    ensures |one| == |two| && one[i].name == two[i].name && one[i].paneID == two[i].paneID
  {
    assert agents[..|agents|] == agents && shuffled[..|shuffled|] == shuffled;
    forall x ensures multiset(one)[x] == multiset(two)[x] {
      InScopeCounts(agents, workspace, |agents|, x);
      InScopeCounts(shuffled, workspace, |shuffled|, x);
    }
    EarlierIsOrder();
    SortedAgree(one, two, Earlier, i);
    EarlierComplement(one[i], two[i], one[i]);
  }

  /** The agents of a sweep are exactly those whose workspace, trimmed, is the one asked for,
      and they come by name and then by pane. */
  lemma OrderExactly(order: seq<Agent>, agents: seq<Agent>, workspace: string)
    requires IsOrder(order, agents, workspace)
    ensures forall a :: multiset(order)[a] == if Trim(a.workspace) == workspace then multiset(agents)[a] else 0
    ensures forall i, j :: 0 <= i < j < |order| ==>
              || Less(order[i].name, order[j].name)
              || (order[i].name == order[j].name && (order[i].paneID == order[j].paneID || Less(order[i].paneID, order[j].paneID)))
  {
    assert agents[..|agents|] == agents;
    forall a ensures multiset(order)[a] == if Trim(a.workspace) == workspace then multiset(agents)[a] else 0 {
      InScopeCounts(agents, workspace, |agents|, a);
    }
    hide Less, Trim;
    forall i, j | 0 <= i < j < |order|
      ensures || Less(order[i].name, order[j].name)
              || (order[i].name == order[j].name && (order[i].paneID == order[j].paneID || Less(order[i].paneID, order[j].paneID)))
    {
      assert !Earlier(order[j], order[i]);
      LessTotal(order[i].name, order[j].name);
      LessTotal(order[i].paneID, order[j].paneID);
    }
  }

  // ----- the sweep -----

  /** How many of the first `n` agents have a pane to read. */
  function Reads(order: seq<Agent>, n: nat): nat
    requires n <= |order|
  {
    if n == 0 then 0 else Reads(order, n - 1) + (if IsBlank(order[n - 1].paneID) then 0 else 1)
  }

  /** What the environment answers about the agent at position `i`. */
  function Answer(env: Env, order: seq<Agent>, i: nat): Observation
    requires i < |order|
  {
    env.read(Reads(order, i), order[i].paneID)
  }

  predicate Stops(limits: Limits, env: Env, order: seq<Agent>, i: nat)
    requires i < |order|
  {
    (limits.maxPanes > 0 && Reads(order, i) >= limits.maxPanes) || env.canceled(i) || env.late(i)
  }

  /** The agent's whole text was read and vouched for. */
  predicate Whole(limits: Limits, env: Env, order: seq<Agent>, i: nat)
    requires i < |order|
  {
    var o := Answer(env, order, i);
    && !IsBlank(order[i].paneID)
    && o.Seen? && !o.unverified && !o.truncated && !Cuts(o.text, limits.maxTailBytes)
  }

  /** The item a visited agent contributes. */
  function Item<T>(limits: Limits, env: Env, classify: Classifier<T>, order: seq<Agent>, i: nat): T
    requires i < |order|
  {
    var a, o := order[i], Answer(env, order, i);
    if IsBlank(a.paneID) then classify("", a.name, a.status, [])
    else classify(a.paneID, a.name, a.status, if o.Seen? then Tail(o.text, limits.maxTailBytes) else [])
  }

  /** `u` says why the sweep stopped at `i`, and how many agents that skips. */
  predicate TellsStop(limits: Limits, env: Env, order: seq<Agent>, i: nat, u: Unknown)
    requires i < |order|
  {
    match u
    case PaneCap(skipped) => skipped == |order| - i && 0 < limits.maxPanes <= Reads(order, i)
    case Canceled(skipped) => skipped == |order| - i && env.canceled(i)
    case Deadline(skipped) => skipped == |order| - i && env.late(i)
    case _ => false
  }

  /** The visited agents are a prefix that ends where the first stop is. */
  ghost predicate StopsAt(limits: Limits, env: Env, order: seq<Agent>, n: nat) {
    NoneStops(limits, env, order, n) && (n < |order| ==> Stops(limits, env, order, n))
  }

  ghost predicate NoneStops(limits: Limits, env: Env, order: seq<Agent>, n: nat) {
    n <= |order| && forall i :: 0 <= i < n ==> !Stops(limits, env, order, i)
  }

  ghost predicate ItemsOf<T(!new)>(limits: Limits, env: Env, classify: Classifier<T>, order: seq<Agent>, items: seq<T>) {
    |items| <= |order| && forall i :: 0 <= i < |items| ==> items[i] == Item(limits, env, classify, order, i)
  }

  ghost predicate AllWhole(limits: Limits, env: Env, order: seq<Agent>, n: nat) {
    n <= |order| && forall i :: 0 <= i < n ==> Whole(limits, env, order, i)
  }

  /** One agent: what it contributes, and what it leaves unknown. */
  method Visit<T>(limits: Limits, env: Env, classify: Classifier<T>, order: seq<Agent>, i: nat)
    returns (item: T, read: bool, unknowns: seq<Unknown>)
    requires i < |order|
    ensures item == Item(limits, env, classify, order, i)
    ensures read <==> !IsBlank(order[i].paneID)
    ensures unknowns == [] <==> Whole(limits, env, order, i)
    ensures var name, blank, o := order[i].name, IsBlank(order[i].paneID), Answer(env, order, i);
            && (NoPane(name) in unknowns <==> blank)
            && (Unreadable(name) in unknowns <==> !blank && o.ReadFailed?)
            && (Unverified(name) in unknowns <==> !blank && o.Seen? && o.unverified)
            && (CutByHerdr(name) in unknowns <==> !blank && o.Seen? && o.truncated)
            && (CutBySweep(name) in unknowns <==> !blank && o.Seen? && Cuts(o.text, limits.maxTailBytes))
  {
    var a := order[i];
    if Trim(a.paneID) == "" {
      return classify("", a.name, a.status, []), false, [NoPane(a.name)];
    }
    read, unknowns := true, [];
    var o := Answer(env, order, i);
    var text: Bytes := [];
    match o {
    case ReadFailed =>
      unknowns := [Unreadable(a.name)];
    case Seen(seen, unverified, cutByHerdr) =>
      if unverified {
        unknowns := unknowns + [Unverified(a.name)];
      }
      if cutByHerdr {
        unknowns := unknowns + [CutByHerdr(a.name)];
      }
      var truncated;
      text, truncated := TruncateTail(seen, limits.maxTailBytes);
      if truncated {
        unknowns := unknowns + [CutBySweep(a.name)];
      }
    }
    item := classify(a.paneID, a.name, a.status, text);
  }

  /** Every visited agent is an item and the others are skipped, from where the cap, the
      cancellation or the deadline first bites. The sweep is partial exactly when it names
      something unknown, and complete exactly when nothing was unknown before, nothing is
      skipped and every agent's whole text was read. */
  ghost predicate IsSweep<T(!new)>(limits: Limits, env: Env, classify: Classifier<T>, order: seq<Agent>, verified: bool, r: Result<T>) {
    && r.Scan?
    && |r.items| + r.skipped == |order|
    && StopsAt(limits, env, order, |r.items|)
    && ItemsOf(limits, env, classify, order, r.items)
    && r.paneReads == Reads(order, |r.items|)
    && (r.partial <==> r.unknowns != [])
    && (r.skipped > 0 ==> r.unknowns != [] && TellsStop(limits, env, order, |r.items|, r.unknowns[|r.unknowns| - 1]))
    && (!r.partial <==> verified && r.skipped == 0 && AllWhole(limits, env, order, |order|))
  }

  method Sweep<T(!new)>(limits: Limits, env: Env, classify: Classifier<T>, order: seq<Agent>, verified: bool) returns (r: Result<T>)
    ensures IsSweep(limits, env, classify, order, verified, r)
  {
    NothingVisited(limits, env, classify, order);
    hide Item, Whole, Stops, Reads, ItemsOf, AllWhole, NoneStops, TellsStop;
    var partial, unknowns := false, [];
    if !verified {
      partial, unknowns := true, [UnverifiedRoster];
    }
    var items, paneReads := [], 0;
    for i := 0 to |order|
      invariant |items| == i && paneReads == Reads(order, i)
      invariant ItemsOf(limits, env, classify, order, items) && NoneStops(limits, env, order, i)
      invariant partial <==> unknowns != []
      invariant !partial <==> verified && AllWhole(limits, env, order, i)
    {
      var stop := Stop(limits, env, order, i, paneReads);
      if stop.Some? {
        return Scan(items, |order| - i, paneReads, true, unknowns + [stop.value]);
      }
      var item, read, more := Visit(limits, env, classify, order, i);
      if read {
        paneReads := paneReads + 1;
      }
      if more != [] {
        partial, unknowns := true, unknowns + more;
      }
      OneMore(limits, env, classify, order, items, item);
      items := items + [item];
    }
    r := Scan(items, 0, paneReads, partial, unknowns);
  }

  /** A broken roster is an error and never an empty fleet; otherwise the agents in scope are
      swept in order. */
  method Collect<T(!new)>(available: bool, roster: Roster, workspace: string, limits: Limits, env: Env, classify: Classifier<T>)
    returns (r: Result<T>, order: seq<Agent>)
    ensures r.HerdrMissing? <==> !available
    ensures r.RosterError? <==> available && roster.RosterUnreadable?
    ensures r.Scan? ==>
              && IsOrder(order, roster.agents, workspace)
              && IsSweep(limits, env, classify, order, roster.verified, r)
  {
    order := [];
    if !available {
      return HerdrMissing, order;
    }
    if roster.RosterUnreadable? {
      return RosterError, order;
    }
    order := Arrange(roster.agents, workspace);
    r := Sweep(limits, env, classify, order, roster.verified);
  }

  lemma NothingVisited<T(!new)>(limits: Limits, env: Env, classify: Classifier<T>, order: seq<Agent>)
    ensures ItemsOf(limits, env, classify, order, []) && AllWhole(limits, env, order, 0)
    ensures NoneStops(limits, env, order, 0) && Reads(order, 0) == 0
  {
  }

  lemma OneMore<T(!new)>(limits: Limits, env: Env, classify: Classifier<T>, order: seq<Agent>, items: seq<T>, item: T)
    requires |items| < |order| && ItemsOf(limits, env, classify, order, items)
    requires item == Item(limits, env, classify, order, |items|)
    ensures ItemsOf(limits, env, classify, order, items + [item])
    ensures AllWhole(limits, env, order, |items| + 1) <==> AllWhole(limits, env, order, |items|) && Whole(limits, env, order, |items|)
    ensures NoneStops(limits, env, order, |items| + 1) <==> NoneStops(limits, env, order, |items|) && !Stops(limits, env, order, |items|)
    ensures Reads(order, |items| + 1) == Reads(order, |items|) + (if IsBlank(order[|items|].paneID) then 0 else 1)
  {
    hide Item, Whole, Stops;
  }

  method Arrange(agents: seq<Agent>, workspace: string) returns (order: seq<Agent>)
    ensures IsOrder(order, agents, workspace)
  {
    var scoped := [];
    for k := 0 to |agents|
      invariant scoped == InScope(agents, workspace, k)
    {
      if Scoped(agents[k], workspace) {
        scoped := scoped + [agents[k]];
      }
    }
    EarlierIsOrder();
    order := Sort(scoped, Earlier);
  }

  /** The three reasons to stop, in the order they are asked. */
  method Stop(limits: Limits, env: Env, order: seq<Agent>, i: nat, paneReads: nat) returns (u: Option<Unknown>)
    requires i < |order| && paneReads == Reads(order, i)
    ensures u.Some? <==> Stops(limits, env, order, i)
    ensures u.Some? ==> TellsStop(limits, env, order, i, u.value)
  {
    if limits.maxPanes > 0 && paneReads >= limits.maxPanes {
      return Some(PaneCap(|order| - i));
    }
    if env.canceled(i) {
      return Some(Canceled(|order| - i));
    }
    if env.late(i) {
      return Some(Deadline(|order| - i));
    }
    u := None;
  }

  /** The sweep never reads more panes than a positive cap allows. */
  lemma ReadsWithinCap<T(!new)>(limits: Limits, env: Env, classify: Classifier<T>, order: seq<Agent>, verified: bool, r: Result<T>)
    requires IsSweep(limits, env, classify, order, verified, r) && limits.maxPanes > 0
    ensures r.paneReads <= limits.maxPanes
  {
    var n := |r.items|;
    if n > 0 {
      assert !Stops(limits, env, order, n - 1);
    }
  }

  /** A digest that is not partial has an item for every agent in scope, and each is what
      classifying that agent's whole, untruncated text gives. */
  lemma CompleteMeansEverything<T(!new)>(limits: Limits, env: Env, classify: Classifier<T>, order: seq<Agent>, verified: bool, r: Result<T>, i: nat)
    requires IsSweep(limits, env, classify, order, verified, r) && !r.partial
    requires i < |order|
    ensures verified && |r.items| == |order|
    ensures var a, o := order[i], Answer(env, order, i);
            && o.Seen? && !o.unverified && !o.truncated
            && r.items[i] == classify(a.paneID, a.name, a.status, o.text)
  {
    assert Whole(limits, env, order, i);
    assert r.items[i] == Item(limits, env, classify, order, i);
  }

  /** Where a sweep stops: it goes on exactly while it is neither canceled nor late and has
      read fewer panes than a positive cap. */
  lemma SweepObeysLimits<T(!new)>(limits: Limits, env: Env, classify: Classifier<T>, order: seq<Agent>, verified: bool, r: Result<T>)
    requires IsSweep(limits, env, classify, order, verified, r)
    ensures forall i :: 0 <= i < |r.items| ==>
              !env.canceled(i) && !env.late(i) && (limits.maxPanes > 0 ==> Reads(order, i) < limits.maxPanes)
    ensures r.skipped > 0 ==>
              var n := |r.items|;
              env.canceled(n) || env.late(n) || 0 < limits.maxPanes <= Reads(order, n)
  {
    forall i | 0 <= i < |r.items|
      ensures !env.canceled(i) && !env.late(i) && (limits.maxPanes > 0 ==> Reads(order, i) < limits.maxPanes)
    {
      assert !Stops(limits, env, order, i);
    }
  }

  /** Every item of a sweep: an agent without a pane, or with one that could not be read, is
      classified on no text; any other on what the byte cap leaves of its text. */
  lemma ItemExactly<T(!new)>(limits: Limits, env: Env, classify: Classifier<T>, order: seq<Agent>, verified: bool, r: Result<T>, i: nat)
    requires IsSweep(limits, env, classify, order, verified, r) && i < |r.items|
    ensures |r.items| <= |order|
    ensures var a, o := order[i], env.read(Reads(order, i), order[i].paneID);
            && (Trim(a.paneID) == "" ==> r.items[i] == classify("", a.name, a.status, []))
            && (Trim(a.paneID) != "" && o.ReadFailed? ==> r.items[i] == classify(a.paneID, a.name, a.status, []))
            && (Trim(a.paneID) != "" && o.Seen? ==>
                  r.items[i] == classify(a.paneID, a.name, a.status, Tail(o.text, limits.maxTailBytes)))
  {
    hide Trim, Tail;
    assert r.items[i] == Item(limits, env, classify, order, i);
  }
}
