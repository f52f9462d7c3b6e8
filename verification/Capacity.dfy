/** The reviewer cap derived from host memory, the admission decision over one live
    census, and the second ceiling that provider concurrency puts on top of it. */
module Capacity {
  import opened Text

  /** Go's integer division truncates toward zero. */
  function GoDiv(a: int, b: int): int
    requires b > 0
  {
    if a >= 0 then a / b else -((-a) / b)
  }

  /** Measured totals come from int64 kilobytes (or bytes) divided by 1024. */
  const MAX_MIB: int := MAX_INT64 / 1024

  const DEFAULT_BUDGET_PCT := 50

  /** HERD_REVIEW_BUDGET_PCT when it is a percentage, otherwise 50. */
  function BudgetPct(configured: Option<int>): (pct: int)
    ensures 1 <= pct <= 100
  {
    if configured.Some? && 1 <= configured.value <= 100 then configured.value else DEFAULT_BUDGET_PCT
  }

  lemma FloorOfFloor(a: nat, b: int, c: int, n: nat)
    requires b > 0 && c > 0
    ensures n <= (a / b) / c <==> n * c * b <= a
  {
    var q := a / b;
    assert n * c <= q <==> n * c * b <= a by { DivMonotone(n * c, a, b); }
    assert n <= q / c <==> n * c <= q by { DivMonotone(n, q, c); }
  }

  lemma DivMonotone(n: nat, a: nat, b: int)
    requires b > 0
    ensures n <= a / b <==> n * b <= a
  {
    var q, r := a / b, a % b;
    assert a == q * b + r;
    if n <= q {
      assert n * b <= q * b by { MulMonotone(n, q, b); }
    } else {
      assert (q + 1) * b <= n * b by { MulMonotone(q + 1, n, b); }
      assert (q + 1) * b == q * b + b;
    }
  }

  lemma MulMonotone(x: int, y: int, b: int)
    requires x <= y && b > 0
    ensures x * b <= y * b
  {
    assert (y - x) * b >= 0;
  }

  /** The slot ceiling from the configured share of total memory. */
  function DerivedReviewLimit(memTotal: int, perReviewer: int, configured: Option<int>): (limit: int)
    requires memTotal <= MAX_MIB
    ensures limit >= 1
    ensures memTotal <= 0 || perReviewer <= 0 ==> limit == 1
  {
    if memTotal <= 0 || perReviewer <= 0 then 1
    else
      var pct := BudgetPct(configured);
      assert memTotal * pct <= MAX_INT64 by { ProductFits(memTotal, pct); }
      var slots := (memTotal * pct / 100) / perReviewer;
      if slots < 1 then 1 else slots
  }

  /** The ceiling is the most reviewers whose summed cost stays inside that share, and one
      when not even one does: both roundings together lose nothing. */
  lemma LimitIsLargest(memTotal: int, perReviewer: int, configured: Option<int>, n: nat)
    requires 0 < memTotal <= MAX_MIB && perReviewer > 0 && n >= 1
    ensures var pct := if configured.Some? && 1 <= configured.value <= 100 then configured.value else 50;
            n <= DerivedReviewLimit(memTotal, perReviewer, configured) <==>
            n == 1 || n * perReviewer * 100 <= memTotal * pct
  {
    assert memTotal * BudgetPct(configured) >= 0 by { MulMonotone(0, memTotal, BudgetPct(configured)); }
    LargestShare(memTotal * BudgetPct(configured), perReviewer, n);
  }

  lemma LargestShare(budget: nat, per: int, n: nat)
    requires per > 0 && n >= 1
    ensures var slots := (budget / 100) / per;
            n <= (if slots < 1 then 1 else slots) <==> n == 1 || n * per * 100 <= budget
  {
    FloorOfFloor(budget, 100, per, n);
    FloorOfFloor(budget, 100, per, 1);
    if n > 1 && n * per * 100 <= budget {
      MulMonotone(1, n, per);
    }
  }

  lemma ProductFits(total: int, pct: int)
    requires 0 < total <= MAX_MIB && 1 <= pct <= 100
    ensures total * pct <= MAX_INT64
  {
    assert total * pct <= total * 100 by { MulMonotone(pct, 100, total); }
  }

  // ----- one decision -----

  /** One measurement of the host. Unmeasured memory, swap and pressure are negative;
      `sharedPolicy` is the resource policy's answer revalidated at the decision. */
  datatype Observation = Observation(
    herdrRunning: bool, agentsListed: bool, reviewers: nat,
    memTotal: int, memAvail: int, swapUsed: int, swapTotal: int, pressure: real,
    sharedPolicy: Option<bool>)

  datatype Reason =
    | CanHost | HerdrDown | CensusUnreadable | CapReached | PolicyNeverConsulted | PolicyRefuses
    | MemoryPressure | SwapExhausted | MemoryShort | NoProviderSurface

  datatype Decision = Decision(
    limit: int, reviewers: nat, need: int, available: int,
    admit: bool, reason: Reason,
    launchableSlots: int, launchableKnown: bool, launchableBinding: bool)

  const PRESSURE_PCT: real := 20.0
  const SWAP_EXHAUSTED_PCT := 75

  function FirstRefusal(o: Observation, limit: int, need: int): Reason {
    if !o.herdrRunning then HerdrDown
    else if !o.agentsListed then CensusUnreadable
    else if o.reviewers >= limit then CapReached
    else if o.sharedPolicy.None? then PolicyNeverConsulted
    else if !o.sharedPolicy.value then PolicyRefuses
    else if o.pressure >= PRESSURE_PCT then MemoryPressure
    else if o.swapTotal > 0 && GoDiv(o.swapUsed * 100, o.swapTotal) >= SWAP_EXHAUSTED_PCT then SwapExhausted
    else if 0 <= o.memAvail < need then MemoryShort
    else CanHost
  }

  function Decide(o: Observation, limit: int, perReviewer: int, floor: int): (d: Decision)
    ensures d.admit ==> o.reviewers < limit
    ensures d.admit ==> d.available == limit - o.reviewers >= 1
  {
    var need := perReviewer + floor;
    var reason := FirstRefusal(o, limit, need);
    Decision(limit, o.reviewers, need, if limit > o.reviewers then limit - o.reviewers else 0,
             reason == CanHost, reason, 0, false, false)
  }

  lemma SwapShare(used: int, total: int, pct: nat)
    requires total > 0 && pct > 0
    ensures GoDiv(used * 100, total) >= pct <==> used * 100 >= pct * total
  {
    if used >= 0 {
      DivMonotone(pct, used * 100, total);
    } else {
      assert (-(used * 100)) / total >= 0;
      assert pct * total > 0;
    }
  }

  /** A host is admitted exactly when every gate is clear; unmeasured memory, swap and
      pressure clear theirs, an unreadable census or an unasked policy never does. */
  lemma AdmitExactly(o: Observation, limit: int, perReviewer: int, floor: int)
    ensures Decide(o, limit, perReviewer, floor).admit <==>
            && o.herdrRunning && o.agentsListed && o.reviewers < limit
            && o.sharedPolicy == Some(true)
            && o.pressure < 20.0
            && (o.swapTotal <= 0 || 4 * o.swapUsed < 3 * o.swapTotal)
            && (o.memAvail < 0 || perReviewer + floor <= o.memAvail)
  {
    if o.swapTotal > 0 {
      SwapShare(o.swapUsed, o.swapTotal, SWAP_EXHAUSTED_PCT);
    }
  }

  /** The reason is that of the first gate that is not clear. */
  lemma ReasonExactly(o: Observation, limit: int, perReviewer: int, floor: int)
    ensures var reason := Decide(o, limit, perReviewer, floor).reason;
            var counted := o.herdrRunning && o.agentsListed;
            var room := counted && o.reviewers < limit;
            var allowed := room && o.sharedPolicy == Some(true);
            var calm := allowed && o.pressure < 20.0;
            var swapping := o.swapTotal > 0 && 4 * o.swapUsed >= 3 * o.swapTotal;
            && (reason == HerdrDown <==> !o.herdrRunning)
            && (reason == CensusUnreadable <==> o.herdrRunning && !o.agentsListed)
            && (reason == CapReached <==> counted && o.reviewers >= limit)
            && (reason == PolicyNeverConsulted <==> room && o.sharedPolicy == None)
            && (reason == PolicyRefuses <==> room && o.sharedPolicy == Some(false))
            && (reason == MemoryPressure <==> allowed && o.pressure >= 20.0)
            && (reason == SwapExhausted <==> calm && swapping)
            && (reason == MemoryShort <==> calm && !swapping && 0 <= o.memAvail < perReviewer + floor)
  {
    if o.swapTotal > 0 {
      SwapShare(o.swapUsed, o.swapTotal, SWAP_EXHAUSTED_PCT);
    }
  }

  // ----- provider concurrency -----

  function Lines(s: string): seq<string> { Split(s, '\n') }

  /** What `prefix` is last set to by a word that carries a number. */
  function LastNumber(words: seq<string>, prefix: string): Option<int> {
    if words == [] then None
    else
      var w := words[|words| - 1];
      if HasPrefix(w, prefix) && ParseInt(w[|prefix|..]).Some? then ParseInt(w[|prefix|..])
      else LastNumber(words[..|words| - 1], prefix)
  }

  /** Word `i` is the last that carries a number behind `prefix`, and the number is `n`. */
  ghost predicate TellsAt(words: seq<string>, prefix: string, n: int, i: int) {
    && 0 <= i < |words| && HasPrefix(words[i], prefix) && ParseInt(words[i][|prefix|..]) == Some(n)
    && forall j :: i < j < |words| && HasPrefix(words[j], prefix) ==> ParseInt(words[j][|prefix|..]).None?
  }

  ghost predicate Tells(words: seq<string>, prefix: string, n: Option<int>) {
    match n
    case None => forall j :: 0 <= j < |words| && HasPrefix(words[j], prefix) ==> ParseInt(words[j][|prefix|..]).None?
    case Some(v) => exists i :: TellsAt(words, prefix, v, i)
  }

  lemma {:induction false} LastNumberTells(words: seq<string>, prefix: string)
    ensures Tells(words, prefix, LastNumber(words, prefix))
  {
    hide ParseInt;
    if words != [] {
      var front, w := words[..|words| - 1], words[|words| - 1];
      LastNumberTells(front, prefix);
      var n := LastNumber(words, prefix);
      if HasPrefix(w, prefix) && ParseInt(w[|prefix|..]).Some? {
        assert TellsAt(words, prefix, n.value, |words| - 1);
      } else if n.Some? {
        var i :| TellsAt(front, prefix, n.value, i);
        assert TellsAt(words, prefix, n.value, i);
      }
    }
  }

  lemma TellsUnique(words: seq<string>, prefix: string, m: Option<int>, n: Option<int>)
    requires Tells(words, prefix, m) && Tells(words, prefix, n)
    ensures m == n
  {
    hide ParseInt, HasPrefix;
    if m.Some? {
      var i :| TellsAt(words, prefix, m.value, i);
      if n.Some? {
        var j :| TellsAt(words, prefix, n.value, j);
        assert i == j;
      }
    }
  }

  method ParseLiveCap(line: string) returns (live: int, capacity: int, ok: bool)
    ensures ok <==> LastNumber(Fields(line), "live=").Some? && LastNumber(Fields(line), "cap=").Some?
    ensures ok ==> LastNumber(Fields(line), "live=") == Some(live) && LastNumber(Fields(line), "cap=") == Some(capacity)
  {
    var words := Fields(line);
    live, capacity := 0, 0;
    var gotLive, gotCap := false, false;
    for i := 0 to |words|
      invariant LastNumber(words[..i], "live=") == if gotLive then Some(live) else None
      invariant LastNumber(words[..i], "cap=") == if gotCap then Some(capacity) else None
    {
      var f := words[i];
      assert words[..i + 1][..i] == words[..i];
      if HasPrefix(f, "live=") {
        assert !HasPrefix(f, "cap=") by { assert f[0] == 'l'; }
        var n := ParseInt(f[5..]);
        if n.Some? {
          live, gotLive := n.value, true;
        }
      } else if HasPrefix(f, "cap=") {
        var n := ParseInt(f[4..]);
        if n.Some? {
          capacity, gotCap := n.value, true;
        }
      }
    }
    assert words[..|words|] == words;
    ok := gotLive && gotCap;
  }

  /** One recognised line of the router's report: a surface and the launches it can take. */
  datatype Row = Row(surface: string, free: nat)

  function RowOf(line: string): Option<Row> {
    var words := Fields(line);
    if |words| < 2 || (words[1] != "READY" && words[1] != "SKIP") then None
    else
      var live, cap := LastNumber(words, "live="), LastNumber(words, "cap=");
      Some(Row(words[0],
               if words[1] == "SKIP" then 0
               else if live.None? || cap.None? then 1
               else if cap.value > live.value then cap.value - live.value
               else 0))
  }

  /** What a line offers: nothing unless it names a surface that is READY or SKIP; none when
      skipped; one when it does not tell how many are live and how many may be; otherwise
      what is left. */
  lemma RowExactly(line: string, live: Option<int>, cap: Option<int>)
    requires Tells(Fields(line), "live=", live) && Tells(Fields(line), "cap=", cap)
    ensures var words := Fields(line);
            && (RowOf(line).Some? <==> |words| >= 2 && (words[1] == "READY" || words[1] == "SKIP"))
            && (RowOf(line).Some? ==>
                  && RowOf(line).value.surface == words[0]
                  && (words[1] == "SKIP" ==> RowOf(line).value.free == 0)
                  && (words[1] == "READY" && (live.None? || cap.None?) ==> RowOf(line).value.free == 1)
                  && (words[1] == "READY" && live.Some? && cap.Some? ==>
                        RowOf(line).value.free == if cap.value >= live.value then cap.value - live.value else 0))
  {
    hide Fields, LastNumber, Tells;
    LastNumberTells(Fields(line), "live=");
    LastNumberTells(Fields(line), "cap=");
    TellsUnique(Fields(line), "live=", live, LastNumber(Fields(line), "live="));
    TellsUnique(Fields(line), "cap=", cap, LastNumber(Fields(line), "cap="));
  }

  function Rows(lines: seq<string>): seq<Row> {
    if lines == [] then []
    else
      var front, row := Rows(lines[..|lines| - 1]), RowOf(lines[|lines| - 1]);
      if row.Some? then front + [row.value] else front
  }

  /** `free` is the best any row offers for the surface. */
  ghost predicate IsBest(rows: seq<Row>, surface: string, free: nat) {
    && (forall r :: r in rows && r.surface == surface ==> r.free <= free)
    && (free == 0 || Row(surface, free) in rows)
  }

  /** The surfaces that can take a launch, each with the best any of its rows offers. */
  ghost predicate IsBestMap(rows: seq<Row>, best: map<string, nat>) {
    && (forall s :: s in best ==> best[s] > 0)
    && (forall s :: IsBest(rows, s, if s in best then best[s] else 0))
  }

  ghost function Sum(m: map<string, nat>): nat {
    if m == map[] then 0
    else
      var k :| k in m;
      m[k] + Sum(m - {k})
  }

  lemma {:induction false} SumSplit(m: map<string, nat>, k: string)
    requires k in m
    ensures Sum(m) == m[k] + Sum(m - {k})
    decreases |m|
  {
    var first :| first in m && Sum(m) == m[first] + Sum(m - {first});
    if first != k {
      SumSplit(m - {first}, k);
      SumSplit(m - {k}, first);
      assert m - {first} - {k} == m - {k} - {first};
    }
  }

  lemma BestMapUnique(rows: seq<Row>, rows': seq<Row>, best: map<string, nat>, best': map<string, nat>)
    requires IsBestMap(rows, best) && IsBestMap(rows', best')
    requires forall r :: r in rows <==> r in rows'
    ensures best == best'
  {
    forall s
      ensures s in best <==> s in best'
      ensures s in best ==> best[s] == best'[s]
    {
      var a, b := if s in best then best[s] else 0, if s in best' then best'[s] else 0;
      assert IsBest(rows, s, a) && IsBest(rows', s, b);
      if a > 0 { assert Row(s, a) in rows'; }
      if b > 0 { assert Row(s, b) in rows; }
    }
  }

  datatype Launchable = Launchable(slots: int, known: bool)

  /** The router's report read as a ceiling: unknown when no row is recognised, otherwise
      the sum over surfaces of the best row each one has. */
  ghost predicate IsLaunchable(rows: seq<Row>, l: Launchable) {
    && (l.known <==> rows != [])
    && (l.known ==> exists best :: IsBestMap(rows, best) && l.slots == Sum(best))
  }

  /** One line of the report. */
  method ReadRow(line: string) returns (row: Option<Row>)
    ensures row == RowOf(line)
  {
    hide Fields, LastNumber;
    var words := Fields(line);
    if |words| < 2 {
      return None;
    }
    var surface, state := words[0], words[1];
    if state != "READY" && state != "SKIP" {
      return None;
    }
    var free := 0;
    if state == "READY" {
      var live, capacity, ok := ParseLiveCap(line);
      if !ok {
        free := 1;
      } else if capacity > live {
        free := capacity - live;
      }
    }
    row := Some(Row(surface, free));
  }

  method SumUp(best: map<string, nat>) returns (total: nat)
    ensures total == Sum(best)
  {
    total := 0;
    var left := best;
    while left != map[]
      invariant total + Sum(left) == Sum(best)
      decreases |left|
    {
      var s :| s in left;
      SumSplit(left, s);
      total, left := total + left[s], left - {s};
    }
  }

  method ParseDoctorSurfaces(out: string) returns (l: Launchable)
    ensures IsLaunchable(Rows(Lines(out)), l)
    ensures l.slots >= 0
  {
    var best: map<string, nat> := map[];
    var seen := false;
    var lines := Lines(out);
    assert IsBestMap([], best);
    hide IsBestMap, RowOf;
    for n := 0 to |lines|
      invariant seen <==> Rows(lines[..n]) != []
      invariant IsBestMap(Rows(lines[..n]), best)
    {
      assert lines[..n + 1][..n] == lines[..n];
      var row := ReadRow(lines[n]);
      if row.None? {
        continue;
      }
      seen := true;
      AddRow(Rows(lines[..n]), best, row.value);
      if row.value.free > (if row.value.surface in best then best[row.value.surface] else 0) {
        best := best[row.value.surface := row.value.free];
      }
    }
    assert lines[..|lines|] == lines;
    if !seen {
      return Launchable(0, false);
    }
    var total := SumUp(best);
    l := Launchable(total, true);
  }

  lemma AddRow(rows: seq<Row>, best: map<string, nat>, row: Row)
    requires IsBestMap(rows, best)
    ensures var prior := if row.surface in best then best[row.surface] else 0;
            IsBestMap(rows + [row], if row.free > prior then best[row.surface := row.free] else best)
  {
    var prior := if row.surface in best then best[row.surface] else 0;
    var best' := if row.free > prior then best[row.surface := row.free] else best;
    forall s ensures IsBest(rows + [row], s, if s in best' then best'[s] else 0) {
      assert IsBest(rows, s, if s in best then best[s] else 0);
      assert row in rows + [row];
    }
  }

  /** Neither the order of the router's rows nor repeating one changes the ceiling. */
  lemma RouterSlotsIgnoreOrder(rows: seq<Row>, rows': seq<Row>, l: Launchable, l': Launchable)
    requires forall r :: r in rows <==> r in rows'
    requires IsLaunchable(rows, l) && IsLaunchable(rows', l')
    ensures l.known == l'.known
    ensures l.known ==> l.slots == l'.slots
  {
    if rows != [] {
      assert rows[0] in rows';
    }
    if rows' != [] {
      assert rows'[0] in rows;
      var best :| IsBestMap(rows, best) && l.slots == Sum(best);
      var best' :| IsBestMap(rows', best') && l'.slots == Sum(best');
      BestMapUnique(rows, rows', best, best');
    }
  }

  function Applied(d: Decision, l: Launchable): Decision {
    if !l.known then d
    else
      var bound := l.slots < d.available;
      var available := if bound then l.slots else d.available;
      var refused := available == 0 && d.admit;
      d.(launchableSlots := l.slots, launchableKnown := true, launchableBinding := bound || d.launchableBinding,
         available := available, admit := d.admit && !refused,
         reason := if refused then NoProviderSurface else d.reason)
  }

  /** The decision record that provider concurrency is bound into. */
  class Record {
    var d: Decision

    constructor (d: Decision)
      ensures this.d == d
    {
      this.d := d;
    }

    method ApplyLaunchable(l: Launchable)
      modifies this
      ensures d == Applied(old(d), l)
    {
      if !l.known {
        return;
      }
      d := d.(launchableSlots := l.slots, launchableKnown := true);
      if l.slots < d.available {
        d := d.(available := l.slots, launchableBinding := true);
      }
      if d.available == 0 && d.admit {
        d := d.(admit := false, reason := NoProviderSurface);
      }
    }
  }

  /** The whole final decision: the smaller ceiling is what is available, no slot at the router
      turns an ADMIT into a refusal, and nothing else changes. */
  lemma FinalDecisionExactly(o: Observation, limit: int, perReviewer: int, floor: int, l: Launchable)
    ensures var first := Decide(o, limit, perReviewer, floor);
            var d := Applied(first, l);
            var free := if limit > o.reviewers then limit - o.reviewers else 0;
            && (d.admit <==> first.admit && (!l.known || l.slots != 0))
            && d.available == (if l.known && l.slots < free then l.slots else free)
            && d.reason == (if first.admit && l.known && l.slots == 0 then NoProviderSurface else first.reason)
            && (d.launchableBinding <==> l.known && l.slots < free)
            && d.launchableKnown == l.known && d.launchableSlots == (if l.known then l.slots else 0)
            && d.limit == limit && d.reviewers == o.reviewers && d.need == perReviewer + floor
  {
  }

  /** A final ADMIT never offers more than either ceiling, and it offers at least one
      slot exactly when the router's number was unknown or not negative. A parsed
      report is never negative; a cached one is whatever the cache file says. */
  lemma FinalAdmitOffersASlot(o: Observation, limit: int, perReviewer: int, floor: int, l: Launchable)
    requires Applied(Decide(o, limit, perReviewer, floor), l).admit
    ensures var d := Applied(Decide(o, limit, perReviewer, floor), l);
            && d.available <= limit - o.reviewers
            && (l.known ==> d.available <= l.slots)
            && (d.available >= 1 <==> !l.known || l.slots >= 0)
  {
  }

  /** The failing family is inhabited: a cached reading of -1 admits with -1 slots. */
  lemma NegativeCacheAdmits()
    ensures var o := Observation(true, true, 0, 65536, 32768, 0, 0, 0.0, Some(true));
            var d := Applied(Decide(o, 8, 4096, 6144), Launchable(-1, true));
            d.admit && d.available == -1
  {
  }
}
