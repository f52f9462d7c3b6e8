/** The review evidence shown for one task: ledger rows folded into one projection per
    (candidate, reviewer, host), and one projection chosen per candidate. */
module ReviewProjection {
  import opened Sorting
  import opened Text

  const RECORD := "record"
  const VERDICT := "verdict"
  const REVOKED := "revoked"
  const SUPERSESSION := "supersession"

  datatype Row = Row(
    event: string, sha: string, reviewer: string, host: string, task: string, retryOf: string, lane: string,
    verdict: string, branch: string, artifact: string, reviewerFamily: string, builderFamily: string, mergeSHA: string)

  datatype Key = Key(sha: string, reviewer: string, host: string)

  datatype Review = Review(
    sha: string, verdict: string, branch: string, artifact: string, reviewer: string,
    reviewerFamily: string, builderFamily: string, mergeSHA: string)

  function KeyOf(row: Row): Key { Key(row.sha, row.reviewer, Trim(row.host)) }

  datatype Field = Verdict | Branch | Artifact | Reviewer | ReviewerFamily | BuilderFamily | MergeSHA

  function Told(row: Row, f: Field): string {
    match f
    case Verdict => row.verdict
    case Branch => row.branch
    case Artifact => row.artifact
    case Reviewer => row.reviewer
    case ReviewerFamily => row.reviewerFamily
    case BuilderFamily => row.builderFamily
    case MergeSHA => row.mergeSHA
  }

  function Shown(review: Review, f: Field): string {
    match f
    case Verdict => review.verdict
    case Branch => review.branch
    case Artifact => review.artifact
    case Reviewer => review.reviewer
    case ReviewerFamily => review.reviewerFamily
    case BuilderFamily => review.builderFamily
    case MergeSHA => review.mergeSHA
  }

  /** The task asked for, and Unicode letter case. */
  datatype Query = Query(ref: string, upper: string -> string, lower: string -> string) {
    predicate IsVeto(verdict: string) {
      var v := upper(Trim(verdict));
      v == "FAIL" || v == "BLOCKED"
    }

    predicate NamesRef(row: Row) {
      var needle := lower(Trim(ref));
      needle != "" && (Contains(lower(row.branch), needle) || Contains(lower(row.artifact), needle) || Contains(lower(row.lane), needle))
    }
  }

  // ----- which rows are admitted -----

  /** The candidate a replacement row withdraws, or nothing. */
  function ReplacedSHA(row: Row): string {
    if row.event != SUPERSESSION || Trim(row.retryOf) != "" then ""
    else
      var previous := Trim(row.task);
      if previous == "" || previous == Trim(row.sha) then "" else previous
  }

  predicate Withdraws(row: Row, sha: string) {
    (row.event == REVOKED && row.sha == sha) || (ReplacedSHA(row) == sha != "")
  }

  /** A revocation withdraws its own candidate; a replacement, unless it is a retry's audit row,
      withdraws the one its task field names. */
  predicate TakesBack(row: Row, sha: string) {
    || (row.event == "revoked" && row.sha == sha)
    || (row.event == "supersession" && Trim(row.retryOf) == "" && Trim(row.task) == sha && sha != "" && sha != Trim(row.sha))
  }

  lemma WithdrawsExactly(row: Row, sha: string)
    ensures Withdraws(row, sha) <==> TakesBack(row, sha)
  {
    hide Trim;
  }

  ghost predicate IsWithdrawn(rows: seq<Row>, sha: string) {
    exists i :: 0 <= i < |rows| && Withdraws(rows[i], sha)
  }

  ghost predicate IsRecorded(rows: seq<Row>, n: nat, k: Key) {
    exists i :: 0 <= i < n <= |rows| && rows[i].event == RECORD && KeyOf(rows[i]) == k
  }

  /** Row `i` holds the last verdict of its projection among the first `n` rows. */
  ghost predicate IsLastVerdict(rows: seq<Row>, n: nat, i: int) {
    && 0 <= i < n <= |rows| && rows[i].event == VERDICT
    && forall j :: i < j < n && rows[j].event == VERDICT ==> KeyOf(rows[j]) != KeyOf(rows[i])
  }

  /** The projection whose veto a verdict says it retries: that reviewer on the same host. */
  function Retried(row: Row): Key { Key(row.sha, Trim(row.retryOf), Trim(Trim(row.host))) }

  /** The verdict of row `i` stands, is a recorded PASS, and retries the recorded `k`. */
  ghost predicate Supersedes(rows: seq<Row>, i: int, k: Key) {
    && IsLastVerdict(rows, |rows|, i)
    && rows[i].verdict == "PASS" && Trim(rows[i].retryOf) != "" && Retried(rows[i]) == k
    && IsRecorded(rows, |rows|, KeyOf(rows[i])) && IsRecorded(rows, |rows|, k)
  }

  ghost predicate IsSuperseded(rows: seq<Row>, k: Key) {
    exists i :: Supersedes(rows, i, k)
  }

  /** A withdrawal anywhere in the ledger counts, also one after the row. */
  ghost predicate Admits(q: Query, rows: seq<Row>, row: Row) {
    && row.sha != "" && !IsWithdrawn(rows, row.sha) && row.verdict != ""
    && !(q.IsVeto(row.verdict) && IsSuperseded(rows, KeyOf(row)))
    && q.NamesRef(row)
  }

  /** Same candidate, reviewer and trimmed host. */
  predicate SameProjection(a: Row, b: Row) {
    a.sha == b.sha && a.reviewer == b.reviewer && Trim(a.host) == Trim(b.host)
  }

  /** Row `i` is a PASS, the last verdict of its reviewer on its host, recorded, and names the
      recorded reviewer of `k` on that host and candidate. */
  ghost predicate RetriedBy(rows: seq<Row>, i: int, k: Key) {
    && 0 <= i < |rows| && rows[i].event == "verdict" && rows[i].verdict == "PASS" && Trim(rows[i].retryOf) != ""
    && k == Key(rows[i].sha, Trim(rows[i].retryOf), Trim(Trim(rows[i].host)))
    && (forall j :: i < j < |rows| && rows[j].event == "verdict" ==> !SameProjection(rows[j], rows[i]))
    && (exists j :: 0 <= j < |rows| && rows[j].event == "record" && SameProjection(rows[j], rows[i]))
    && (exists j :: 0 <= j < |rows| && rows[j].event == "record" && Key(rows[j].sha, rows[j].reviewer, Trim(rows[j].host)) == k)
  }

  lemma SupersedesExactly(rows: seq<Row>, i: int, k: Key)
    ensures Supersedes(rows, i, k) <==> RetriedBy(rows, i, k)
  {
    hide Trim;
    if Supersedes(rows, i, k) {
      var j :| 0 <= j < |rows| && rows[j].event == RECORD && KeyOf(rows[j]) == KeyOf(rows[i]);
      assert SameProjection(rows[j], rows[i]);
      var j' :| 0 <= j' < |rows| && rows[j'].event == RECORD && KeyOf(rows[j']) == k;
      assert rows[j'].event == "record" && Key(rows[j'].sha, rows[j'].reviewer, Trim(rows[j'].host)) == k;
    }
    if RetriedBy(rows, i, k) {
      var j :| 0 <= j < |rows| && rows[j].event == "record" && SameProjection(rows[j], rows[i]);
      assert KeyOf(rows[j]) == KeyOf(rows[i]);
      var j' :| 0 <= j' < |rows| && rows[j'].event == "record" && Key(rows[j'].sha, rows[j'].reviewer, Trim(rows[j'].host)) == k;
      assert KeyOf(rows[j']) == k;
    }
  }

  /** Which vetoes a retry clears. */
  lemma SupersededExactly(rows: seq<Row>, k: Key)
    ensures IsSuperseded(rows, k) <==> exists i :: RetriedBy(rows, i, k)
  {
    forall i ensures Supersedes(rows, i, k) <==> RetriedBy(rows, i, k) {
      SupersedesExactly(rows, i, k);
    }
    hide Supersedes, RetriedBy;
  }

  /** Which rows count for a task. */
  lemma AdmitsExactly(q: Query, rows: seq<Row>, row: Row)
    ensures var verdict, needle := q.upper(Trim(row.verdict)), q.lower(Trim(q.ref));
            Admits(q, rows, row) <==>
            && row.sha != "" && row.verdict != ""
            && (forall i :: 0 <= i < |rows| ==> !TakesBack(rows[i], row.sha))
            && !((verdict == "FAIL" || verdict == "BLOCKED") && IsSuperseded(rows, Key(row.sha, row.reviewer, Trim(row.host))))
            && needle != ""
            && (Contains(q.lower(row.branch), needle) || Contains(q.lower(row.artifact), needle) || Contains(q.lower(row.lane), needle))
  {
    hide Trim, IsSuperseded, Contains, ReplacedSHA;
    forall i | 0 <= i < |rows| ensures Withdraws(rows[i], row.sha) <==> TakesBack(rows[i], row.sha) {
      WithdrawsExactly(rows[i], row.sha);
    }
    hide Withdraws, TakesBack;
  }

  // ----- one projection per key -----

  ghost predicate Feeds(q: Query, rows: seq<Row>, k: Key, i: int) {
    0 <= i < |rows| && KeyOf(rows[i]) == k && Admits(q, rows, rows[i])
  }

  /** `v` is the value of the last row feeding `k`, among the first `n`, that fills `f`. */
  ghost predicate IsLatest(q: Query, rows: seq<Row>, n: nat, k: Key, f: Field, v: string) {
    || (v == "" && forall i :: 0 <= i < n && Feeds(q, rows, k, i) ==> IsBlank(Told(rows[i], f)))
    || (!IsBlank(v) && exists i :: LatestAt(q, rows, n, k, f, v, i))
  }

  ghost predicate LatestAt(q: Query, rows: seq<Row>, n: nat, k: Key, f: Field, v: string, i: int) {
    && 0 <= i < n && Feeds(q, rows, k, i) && Told(rows[i], f) == v
    && forall j :: i < j < n && Feeds(q, rows, k, j) ==> IsBlank(Told(rows[j], f))
  }

  ghost predicate IsFed(q: Query, rows: seq<Row>, n: nat, k: Key) {
    exists i :: 0 <= i < n && Feeds(q, rows, k, i)
  }

  ghost predicate IsProjectionOf(q: Query, rows: seq<Row>, n: nat, k: Key, review: Review) {
    review.sha == k.sha && forall f :: IsLatest(q, rows, n, k, f, Shown(review, f))
  }

  ghost predicate IsProjection(q: Query, rows: seq<Row>, n: nat, byHost: map<Key, Review>) {
    && (forall k :: k in byHost <==> IsFed(q, rows, n, k))
    && (forall k :: k in byHost ==> IsProjectionOf(q, rows, n, k, byHost[k]))
  }

  function FirstNonEmpty(a: string, b: string): (v: string)
    ensures v == if IsBlank(a) then b else a
  {
    if Trim(a) != "" then a else b
  }

  /** A later row enriches what is known and never blanks it. */
  function Enriched(cur: Review, row: Row): Review {
    Review(row.sha, FirstNonEmpty(row.verdict, cur.verdict), FirstNonEmpty(row.branch, cur.branch),
           FirstNonEmpty(row.artifact, cur.artifact), FirstNonEmpty(row.reviewer, cur.reviewer),
           FirstNonEmpty(row.reviewerFamily, cur.reviewerFamily), FirstNonEmpty(row.builderFamily, cur.builderFamily),
           FirstNonEmpty(row.mergeSHA, cur.mergeSHA))
  }

  lemma EnrichedShows(cur: Review, row: Row, f: Field)
    ensures Shown(Enriched(cur, row), f) == if IsBlank(Told(row, f)) then Shown(cur, f) else Told(row, f)
  {
    hide FirstNonEmpty, IsBlank;
    match f
    case Verdict =>
    case Branch =>
    case Artifact =>
    case Reviewer =>
    case ReviewerFamily =>
    case BuilderFamily =>
    case MergeSHA =>
  }

  const NOTHING := Review("", "", "", "", "", "", "", "")

  lemma LatestNext(q: Query, rows: seq<Row>, n: nat, k: Key, f: Field, v: string)
    requires n < |rows| && IsLatest(q, rows, n, k, f, v)
    ensures IsLatest(q, rows, n + 1, k, f,
              if Feeds(q, rows, k, n) && !IsBlank(Told(rows[n], f)) then Told(rows[n], f) else v)
  {
    hide Feeds, Told;
    if Feeds(q, rows, k, n) && !IsBlank(Told(rows[n], f)) {
      assert LatestAt(q, rows, n + 1, k, f, Told(rows[n], f), n);
    } else if v != "" {
      var i :| LatestAt(q, rows, n, k, f, v, i);
      assert LatestAt(q, rows, n + 1, k, f, v, i);
    }
  }

  lemma UnfedIsEmpty(q: Query, rows: seq<Row>, n: nat, k: Key)
    requires n <= |rows| && !IsFed(q, rows, n, k)
    ensures forall f :: IsLatest(q, rows, n, k, f, "")
  {
    hide Feeds, Told;
  }

  lemma ProjectionNext(q: Query, rows: seq<Row>, n: nat, byHost: map<Key, Review>)
    requires n < |rows| && IsProjection(q, rows, n, byHost)
    ensures var k := KeyOf(rows[n]);
            IsProjection(q, rows, n + 1,
              if Admits(q, rows, rows[n])
              then byHost[k := Enriched(if k in byHost then byHost[k] else NOTHING, rows[n])]
              else byHost)
  {
    hide Told, Shown, Admits, IsLatest, Enriched;
    var at := KeyOf(rows[n]);
    var cur := if at in byHost then byHost[at] else NOTHING;
    var after := if Admits(q, rows, rows[n]) then byHost[at := Enriched(cur, rows[n])] else byHost;
    forall k ensures k in after <==> IsFed(q, rows, n + 1, k) {
      FedNext(q, rows, n, k);
    }
    forall k | k in after ensures IsProjectionOf(q, rows, n + 1, k, after[k]) {
      EachNext(q, rows, n, k, if k in byHost then byHost[k] else NOTHING);
    }
  }

  lemma FedNext(q: Query, rows: seq<Row>, n: nat, k: Key)
    requires n < |rows|
    ensures IsFed(q, rows, n + 1, k) <==> IsFed(q, rows, n, k) || Feeds(q, rows, k, n)
  {
    hide Feeds;
    if IsFed(q, rows, n + 1, k) && !Feeds(q, rows, k, n) {
      var i :| 0 <= i < n + 1 && Feeds(q, rows, k, i);
      assert i < n;
    }
  }

  lemma EachNext(q: Query, rows: seq<Row>, n: nat, k: Key, cur: Review)
    requires n < |rows|
    requires IsFed(q, rows, n, k) ==> IsProjectionOf(q, rows, n, k, cur)
    requires !IsFed(q, rows, n, k) ==> cur == NOTHING
    ensures Feeds(q, rows, k, n) ==> IsProjectionOf(q, rows, n + 1, k, Enriched(cur, rows[n]))
    ensures !Feeds(q, rows, k, n) && IsFed(q, rows, n, k) ==> IsProjectionOf(q, rows, n + 1, k, cur)
  {
    hide IsFed, IsLatest, Admits;
    forall f ensures IsLatest(q, rows, n, k, f, Shown(cur, f)) {
      if !IsFed(q, rows, n, k) {
        UnfedIsEmpty(q, rows, n, k);
      }
    }
    forall f ensures IsLatest(q, rows, n + 1, k, f,
                       if Feeds(q, rows, k, n) && !IsBlank(Told(rows[n], f)) then Told(rows[n], f) else Shown(cur, f)) {
      LatestNext(q, rows, n, k, f, Shown(cur, f));
    }
    forall f ensures Shown(Enriched(cur, rows[n]), f) == if IsBlank(Told(rows[n], f)) then Shown(cur, f) else Told(rows[n], f) {
      EnrichedShows(cur, rows[n], f);
    }
  }

  method WithdrawnSHAs(rows: seq<Row>) returns (withdrawn: set<string>)
    ensures forall sha :: sha in withdrawn <==> IsWithdrawn(rows, sha)
    ensures forall sha :: sha in withdrawn <==> exists i :: 0 <= i < |rows| && TakesBack(rows[i], sha)
  {
    forall row, sha ensures Withdraws(row, sha) <==> TakesBack(row, sha) {
      WithdrawsExactly(row, sha);
    }
    hide TakesBack;
    withdrawn := {};
    for n := 0 to |rows|
      invariant forall sha :: sha in withdrawn <==> exists i :: 0 <= i < n && Withdraws(rows[i], sha)
    {
      if rows[n].event == REVOKED {
        withdrawn := withdrawn + {rows[n].sha};
      }
      var previous := ReplacedSHA(rows[n]);
      if previous != "" {
        withdrawn := withdrawn + {previous};
      }
      assert forall sha :: Withdraws(rows[n], sha) ==> sha in withdrawn;
    }
  }

  /** `latest` holds the last verdict of every projection among the first `n` rows. */
  ghost predicate HoldsLast(rows: seq<Row>, n: nat, latest: map<Key, Row>) {
    && (forall k :: k in latest ==> exists i :: IsLastVerdict(rows, n, i) && KeyOf(rows[i]) == k && rows[i] == latest[k])
    && (forall i :: IsLastVerdict(rows, n, i) ==> KeyOf(rows[i]) in latest)
  }

  lemma HoldsNext(rows: seq<Row>, n: nat, latest: map<Key, Row>)
    requires n < |rows| && HoldsLast(rows, n, latest)
    ensures HoldsLast(rows, n + 1, if rows[n].event == VERDICT then latest[KeyOf(rows[n]) := rows[n]] else latest)
  {
    hide KeyOf;
    var at := KeyOf(rows[n]);
    var after := if rows[n].event == VERDICT then latest[at := rows[n]] else latest;
    forall k | k in after ensures exists i :: IsLastVerdict(rows, n + 1, i) && KeyOf(rows[i]) == k && rows[i] == after[k] {
      if rows[n].event == VERDICT && k == at {
        assert IsLastVerdict(rows, n + 1, n);
      } else {
        var i :| IsLastVerdict(rows, n, i) && KeyOf(rows[i]) == k && rows[i] == latest[k];
        assert IsLastVerdict(rows, n + 1, i);
      }
    }
    forall i | IsLastVerdict(rows, n + 1, i) ensures KeyOf(rows[i]) in after {
      assert i < n ==> IsLastVerdict(rows, n, i);
    }
  }

  lemma RecordedNext(rows: seq<Row>, n: nat, k: Key)
    requires n < |rows|
    ensures IsRecorded(rows, n + 1, k) <==> IsRecorded(rows, n, k) || (rows[n].event == RECORD && KeyOf(rows[n]) == k)
  {
    hide KeyOf;
    if IsRecorded(rows, n, k) {
      var i :| 0 <= i < n && rows[i].event == RECORD && KeyOf(rows[i]) == k;
      assert 0 <= i < n + 1;
    }
  }

  method ProjectionMaps(rows: seq<Row>) returns (latest: map<Key, Row>, records: set<Key>)
    ensures HoldsLast(rows, |rows|, latest)
    ensures forall k :: k in records <==> IsRecorded(rows, |rows|, k)
  {
    latest, records := map[], {};
    hide HoldsLast, KeyOf;
    assert HoldsLast(rows, 0, latest) by { NothingHeld(rows); }
    for n := 0 to |rows|
      invariant HoldsLast(rows, n, latest)
      invariant forall k :: k in records <==> IsRecorded(rows, n, k)
    {
      HoldsNext(rows, n, latest);
      forall k ensures IsRecorded(rows, n + 1, k) <==> IsRecorded(rows, n, k) || (rows[n].event == RECORD && KeyOf(rows[n]) == k) {
        RecordedNext(rows, n, k);
      }
      hide IsRecorded;
      if rows[n].event == RECORD {
        records := records + {KeyOf(rows[n])};
      } else if rows[n].event == VERDICT {
        latest := latest[KeyOf(rows[n]) := rows[n]];
      }
    }
  }

  lemma NothingHeld(rows: seq<Row>)
    ensures HoldsLast(rows, 0, map[])
  {
  }

  /** What the loop asks of one projection. */
  predicate Clears(latest: map<Key, Row>, records: set<Key>, k: Key, named: Key) {
    && k in latest && latest[k].verdict == "PASS" && Trim(latest[k].retryOf) != ""
    && k in records && named in records && Retried(latest[k]) == named
  }

  ghost predicate ClearedBy(latest: map<Key, Row>, records: set<Key>, seen: set<Key>, named: Key) {
    exists k :: k in seen && Clears(latest, records, k, named)
  }

  ghost predicate IsCleared(latest: map<Key, Row>, records: set<Key>, seen: set<Key>, out: set<Key>) {
    forall named :: named in out <==> ClearedBy(latest, records, seen, named)
  }

  lemma NothingCleared(latest: map<Key, Row>, records: set<Key>)
    ensures IsCleared(latest, records, {}, {})
  {
  }

  lemma ClearedNext(latest: map<Key, Row>, records: set<Key>, seen: set<Key>, k: Key, out: set<Key>)
    requires IsCleared(latest, records, seen, out) && k in latest
    ensures IsCleared(latest, records, seen + {k}, if Clears(latest, records, k, Retried(latest[k])) then out + {Retried(latest[k])} else out)
  {
    hide Trim, Retried;
    var named' := Retried(latest[k]);
    var after := if Clears(latest, records, k, named') then out + {named'} else out;
    forall named ensures named in after <==> ClearedBy(latest, records, seen + {k}, named) {
      assert Clears(latest, records, k, named) ==> named == named';
      hide Clears;
      if ClearedBy(latest, records, seen, named) {
        var i :| i in seen && Clears(latest, records, i, named);
        assert i in seen + {k};
      }
      assert k in seen + {k};
    }
  }

  method SupersededKeys(rows: seq<Row>) returns (out: set<Key>)
    ensures forall k :: k in out <==> IsSuperseded(rows, k)
  {
    var latest, records := ProjectionMaps(rows);
    hide *;
    out := {};
    var rest, seen := latest.Keys, {};
    NothingCleared(latest, records);
    while rest != {}
      invariant seen + rest == latest.Keys && seen !! rest
      invariant IsCleared(latest, records, seen, out)
      decreases |rest|
    {
      var k :| k in rest;
      ClearedNext(latest, records, seen, k, out);
      rest, seen := rest - {k}, seen + {k};
      if Clears(latest, records, k, Retried(latest[k])) {
        out := out + {Retried(latest[k])};
      }
    }
    assert seen == latest.Keys;
    ClearedMeans(rows, latest, records, out);
  }

  lemma ClearedMeans(rows: seq<Row>, latest: map<Key, Row>, records: set<Key>, out: set<Key>)
    requires HoldsLast(rows, |rows|, latest) && forall k :: k in records <==> IsRecorded(rows, |rows|, k)
    requires IsCleared(latest, records, latest.Keys, out)
    ensures forall k :: k in out <==> IsSuperseded(rows, k)
  {
    hide HoldsLast, IsRecorded, IsSuperseded, ClearedBy;
    forall k ensures k in out <==> IsSuperseded(rows, k) {
      ClearsExactly(rows, latest, records, k);
    }
  }

  lemma ClearsExactly(rows: seq<Row>, latest: map<Key, Row>, records: set<Key>, named: Key)
    requires HoldsLast(rows, |rows|, latest) && forall k :: k in records <==> IsRecorded(rows, |rows|, k)
    ensures ClearedBy(latest, records, latest.Keys, named) <==> IsSuperseded(rows, named)
  {
    hide KeyOf, Retried, IsRecorded;
    if k :| k in latest.Keys && Clears(latest, records, k, named) {
      var i :| IsLastVerdict(rows, |rows|, i) && KeyOf(rows[i]) == k && rows[i] == latest[k];
      assert Supersedes(rows, i, named);
    }
    if IsSuperseded(rows, named) {
      var i :| Supersedes(rows, i, named);
      var k := KeyOf(rows[i]);
      var j :| IsLastVerdict(rows, |rows|, j) && KeyOf(rows[j]) == k && rows[j] == latest[k];
      assert i == j;
      assert k in latest.Keys && Clears(latest, records, k, named);
    }
  }

  method Project(q: Query, rows: seq<Row>) returns (byHost: map<Key, Review>)
    ensures IsProjection(q, rows, |rows|, byHost)
  {
    hide IsProjection, IsWithdrawn, IsSuperseded, Enriched;
    var superseded := SupersededKeys(rows);
    var withdrawn := WithdrawnSHAs(rows);
    byHost := map[];
    NothingProjected(q, rows);
    for n := 0 to |rows|
      invariant IsProjection(q, rows, n, byHost)
    {
      ProjectionNext(q, rows, n, byHost);
      var row := rows[n];
      if row.sha == "" || row.sha in withdrawn || row.verdict == "" {
        continue;
      }
      var k := KeyOf(row);
      if q.IsVeto(row.verdict) && k in superseded {
        continue;
      }
      if !q.NamesRef(row) {
        continue;
      }
      byHost := byHost[k := Enriched(if k in byHost then byHost[k] else NOTHING, row)];
    }
  }

  lemma NothingProjected(q: Query, rows: seq<Row>)
    ensures IsProjection(q, rows, 0, map[])
  {
  }

  // ----- one projection per candidate -----

  predicate KeyBefore(a: Key, b: Key) { PairLess((a.reviewer, a.host), (b.reviewer, b.host)) }

  lemma KeyBeforeIsOrder()
    ensures WeakOrder(KeyBefore)
  {
    forall a, b ensures KeyBefore(a, b) ==> !KeyBefore(b, a) {
      PairLessComplement((a.reviewer, a.host), (b.reviewer, b.host), (a.reviewer, a.host));
    }
    forall a, b, c ensures !KeyBefore(b, a) && !KeyBefore(c, b) ==> !KeyBefore(c, a) {
      PairLessComplement((a.reviewer, a.host), (b.reviewer, b.host), (c.reviewer, c.host));
    }
  }

  lemma LessIsOrder()
    ensures WeakOrder(Less)
  {
    forall a, b ensures Less(a, b) ==> !Less(b, a) {
      LessComplement(a, b, a);
    }
    forall a, b, c ensures !Less(b, a) && !Less(c, b) ==> !Less(c, a) {
      LessComplement(a, b, c);
    }
  }

  ghost predicate Vetoes(q: Query, byHost: map<Key, Review>, k: Key) {
    k in byHost && q.IsVeto(byHost[k].verdict)
  }

  /** `k` represents its candidate: the least vetoing key, or the least key when none vetoes. */
  ghost predicate Represents(q: Query, byHost: map<Key, Review>, k: Key) {
    && k in byHost
    && (forall other :: other in byHost && other.sha == k.sha && KeyBefore(other, k) ==>
          !Vetoes(q, byHost, other) && Vetoes(q, byHost, k))
    && (!Vetoes(q, byHost, k) ==> forall other :: other in byHost && other.sha == k.sha ==> !Vetoes(q, byHost, other))
  }

  ghost predicate HasSHA(chosen: seq<Key>, sha: string) {
    exists i :: 0 <= i < |chosen| && chosen[i].sha == sha
  }

  /** One representative per candidate, candidates strictly increasing. */
  ghost predicate IsCoherent(q: Query, byHost: map<Key, Review>, chosen: seq<Key>, out: seq<Review>) {
    && |out| == |chosen|
    && (forall i :: 0 <= i < |chosen| ==> Represents(q, byHost, chosen[i]) && out[i] == byHost[chosen[i]])
    && (forall i, j :: 0 <= i < j < |chosen| ==> Less(chosen[i].sha, chosen[j].sha))
    && (forall k :: k in byHost ==> HasSHA(chosen, k.sha))
  }

  lemma CoherentAt(q: Query, byHost: map<Key, Review>, chosen: seq<Key>, out: seq<Review>, i: nat)
    requires IsCoherent(q, byHost, chosen, out) && i < |out|
    ensures |out| == |chosen| && chosen[i] in byHost && out[i] == byHost[chosen[i]] && Represents(q, byHost, chosen[i])
  {
    hide HasSHA, Vetoes, KeyBefore;
  }

  ghost predicate Groups(keys: set<Key>, bySHA: map<string, seq<Key>>) {
    && (forall k :: k in keys <==> k.sha in bySHA && k in bySHA[k.sha])
    && (forall sha :: sha in bySHA ==> bySHA[sha] != [] && forall k :: k in bySHA[sha] ==> k.sha == sha)
  }

  method Group(byHost: map<Key, Review>) returns (bySHA: map<string, seq<Key>>)
    ensures Groups(byHost.Keys, bySHA)
  {
    hide Groups;
    bySHA := map[];
    NoGroups();
    var rest, seen := byHost.Keys, {};
    while rest != {}
      invariant seen + rest == byHost.Keys && seen !! rest
      invariant Groups(seen, bySHA)
      decreases |rest|
    {
      var k :| k in rest;
      rest := rest - {k};
      GroupsNext(seen, bySHA, k);
      seen := seen + {k};
      bySHA := bySHA[k.sha := (if k.sha in bySHA then bySHA[k.sha] else []) + [k]];
    }
    assert seen == byHost.Keys;
  }

  lemma NoGroups()
    ensures Groups({}, map[])
  {
  }

  lemma GroupsNext(seen: set<Key>, bySHA: map<string, seq<Key>>, k: Key)
    requires Groups(seen, bySHA)
    ensures Groups(seen + {k}, bySHA[k.sha := (if k.sha in bySHA then bySHA[k.sha] else []) + [k]])
  {
    var group := (if k.sha in bySHA then bySHA[k.sha] else []) + [k];
    forall other ensures other in group <==> other == k || (k.sha in bySHA && other in bySHA[k.sha]) {
    }
  }

  /** The keys of a map, each once and in increasing order. */
  method SortedSHAs(bySHA: map<string, seq<Key>>) returns (shas: seq<string>)
    ensures forall sha :: sha in shas <==> sha in bySHA
    ensures forall i, j :: 0 <= i < j < |shas| ==> Less(shas[i], shas[j])
  {
    shas := [];
    var rest, seen := bySHA.Keys, {};
    while rest != {}
      invariant seen + rest == bySHA.Keys && seen !! rest
      invariant multiset(shas) == multiset(seen)
      decreases |rest|
    {
      var sha :| sha in rest;
      rest := rest - {sha};
      seen := seen + {sha};
      shas := shas + [sha];
    }
    assert seen == bySHA.Keys;
    LessIsOrder();
    var sorted := Sort(shas, Less);
    forall i, j | 0 <= i < j < |sorted| ensures Less(sorted[i], sorted[j]) {
      OnceEach(sorted, seen, i, j);
      LessTotal(sorted[i], sorted[j]);
    }
    assert forall sha :: sha in sorted <==> sha in multiset(sorted);
    shas := sorted;
  }

  lemma OnceEach(s: seq<string>, elements: set<string>, i: nat, j: nat)
    requires multiset(s) == multiset(elements) && i < j < |s|
    ensures s[i] != s[j]
  {
    assert s == s[..i] + [s[i]] + s[i + 1..j] + [s[j]] + s[j + 1..];
    var x := s[i];
    assert multiset(elements)[x] <= 1;
    assert s[i] == s[j] ==> multiset(s)[x] >= 2;
  }

  /** The least key of a candidate's group, or its least vetoing key. */
  method Choose(q: Query, byHost: map<Key, Review>, group: seq<Key>) returns (chosen: Key)
    requires group != [] && forall k :: k in group ==> k in byHost && k.sha == group[0].sha
    requires forall k :: k in byHost && k.sha == group[0].sha ==> k in group
    ensures chosen.sha == group[0].sha && Represents(q, byHost, chosen)
  {
    hide WeakOrder, KeyBefore, Sorted, Represents;
    KeyBeforeIsOrder();
    var keys := Sort(group, KeyBefore);
    SameElements(keys, group);
    chosen := keys[0];
    for i := 0 to |keys|
      invariant chosen == keys[0]
      invariant forall j :: 0 <= j < i ==> !Vetoes(q, byHost, keys[j])
    {
      if q.IsVeto(byHost[keys[i]].verdict) {
        chosen := keys[i];
        LeastRepresents(q, byHost, keys, i);
        return;
      }
    }
    LeastRepresents(q, byHost, keys, 0);
  }

  lemma SameElements<T>(s: seq<T>, t: seq<T>)
    requires multiset(s) == multiset(t)
    ensures |s| == |t| && forall x :: x in s <==> x in t
  {
    assert |multiset(s)| == |s| && |multiset(t)| == |t|;
    assert forall x :: x in s <==> x in multiset(s);
    assert forall x :: x in t <==> x in multiset(t);
  }

  lemma LeastRepresents(q: Query, byHost: map<Key, Review>, keys: seq<Key>, i: nat)
    requires i < |keys| && Sorted(keys, KeyBefore)
    requires forall k :: k in keys <==> k in byHost && k.sha == keys[i].sha
    requires forall j :: 0 <= j < i ==> !Vetoes(q, byHost, keys[j])
    requires Vetoes(q, byHost, keys[i]) || (i == 0 && forall j :: 0 <= j < |keys| ==> !Vetoes(q, byHost, keys[j]))
    ensures Represents(q, byHost, keys[i])
  {
    hide KeyBefore, Vetoes;
    KeyBeforeIsOrder();
    var k := keys[i];
    forall other | other in byHost && other.sha == k.sha && KeyBefore(other, k)
      ensures !Vetoes(q, byHost, other) && Vetoes(q, byHost, k)
    {
      var j :| 0 <= j < |keys| && keys[j] == other;
      assert j < i;
    }
  }

  method Coherent(q: Query, byHost: map<Key, Review>) returns (out: seq<Review>, chosen: seq<Key>)
    ensures IsCoherent(q, byHost, chosen, out)
  {
    hide Represents, HasSHA, Groups;
    var bySHA := Group(byHost);
    var shas := SortedSHAs(bySHA);
    out, chosen := [], [];
    for i := 0 to |shas|
      invariant |out| == |chosen| == i
      invariant forall j :: 0 <= j < i ==>
                  chosen[j].sha == shas[j] && Represents(q, byHost, chosen[j]) && chosen[j] in byHost && out[j] == byHost[chosen[j]]
    {
      assert shas[i] in bySHA;
      WholeGroup(byHost, bySHA, shas[i]);
      var k := Choose(q, byHost, bySHA[shas[i]]);
      Represented(q, byHost, k);
      out, chosen := out + [byHost[k]], chosen + [k];
    }
    forall k | k in byHost ensures HasSHA(chosen, k.sha) {
      Grouped(byHost, bySHA, k);
      Reached(shas, chosen, k.sha);
    }
  }

  lemma WholeGroup(byHost: map<Key, Review>, bySHA: map<string, seq<Key>>, sha: string)
    requires Groups(byHost.Keys, bySHA) && sha in bySHA
    ensures bySHA[sha] != [] && bySHA[sha][0].sha == sha
    ensures forall k :: k in bySHA[sha] <==> k in byHost && k.sha == sha
  {
    assert bySHA[sha][0] in bySHA[sha];
    forall k ensures k in bySHA[sha] <==> k in byHost && k.sha == sha {
      assert k in byHost <==> k in byHost.Keys;
    }
  }

  lemma Grouped(byHost: map<Key, Review>, bySHA: map<string, seq<Key>>, k: Key)
    requires Groups(byHost.Keys, bySHA) && k in byHost
    ensures k.sha in bySHA
  {
    assert k in byHost.Keys;
  }

  lemma Reached(shas: seq<string>, chosen: seq<Key>, sha: string)
    requires |shas| == |chosen| && forall i :: 0 <= i < |shas| ==> chosen[i].sha == shas[i]
    requires sha in shas
    ensures HasSHA(chosen, sha)
  {
    var i :| 0 <= i < |shas| && shas[i] == sha;
    assert chosen[i].sha == sha;
  }

  lemma Represented(q: Query, byHost: map<Key, Review>, k: Key)
    requires Represents(q, byHost, k)
    ensures k in byHost
  {
  }

  /** A candidate with any vetoing projection is never shown by a non-vetoing one. */
  lemma VetoDominates(q: Query, byHost: map<Key, Review>, chosen: seq<Key>, out: seq<Review>, k: Key, i: nat)
    requires IsCoherent(q, byHost, chosen, out) && k in byHost
    requires q.upper(Trim(byHost[k].verdict)) == "FAIL" || q.upper(Trim(byHost[k].verdict)) == "BLOCKED"
    requires i < |out| && chosen[i].sha == k.sha
    ensures q.upper(Trim(out[i].verdict)) == "FAIL" || q.upper(Trim(out[i].verdict)) == "BLOCKED"
  {
    hide IsCoherent;
    CoherentAt(q, byHost, chosen, out, i);
  }

  /** Which projection is shown: among those of the candidate that veto, or among all of them
      when none does, the one of the least reviewer and then the least host. */
  lemma ShownIsLeast(q: Query, byHost: map<Key, Review>, chosen: seq<Key>, out: seq<Review>, i: nat, other: Key)
    requires IsCoherent(q, byHost, chosen, out) && i < |out|
    requires other in byHost && other.sha == chosen[i].sha && other != chosen[i]
    requires q.IsVeto(out[i].verdict) ==> q.IsVeto(byHost[other].verdict)
    ensures Less(chosen[i].reviewer, other.reviewer) || (chosen[i].reviewer == other.reviewer && Less(chosen[i].host, other.host))
  {
    hide IsCoherent;
    CoherentAt(q, byHost, chosen, out, i);
    assert !KeyBefore(other, chosen[i]);
    LessTotal(chosen[i].reviewer, other.reviewer);
    LessTotal(chosen[i].host, other.host);
  }

  function SHAs(keys: seq<Key>): (shas: seq<string>)
    ensures |shas| == |keys| && forall i :: 0 <= i < |keys| ==> shas[i] == keys[i].sha
  {
    seq(|keys|, i requires 0 <= i < |keys| => keys[i].sha)
  }

  ghost predicate Increasing(s: seq<string>) {
    forall i, j :: 0 <= i < j < |s| ==> Less(s[i], s[j])
  }

  lemma {:induction false} IncreasingUnique(a: seq<string>, b: seq<string>)
    requires Increasing(a) && Increasing(b)
    requires forall x :: x in a <==> x in b
    ensures a == b
  {
    hide Less;
    if |b| > 0 {
      assert b[0] in a;
    }
    if |a| > 0 {
      assert a[0] in b;
      var m, n := |a| - 1, |b| - 1;
      LastEqual(a, b);
      forall x ensures x in a[..m] <==> x in b[..n] {
        InFront(a, x);
        InFront(b, x);
      }
      IncreasingUnique(a[..m], b[..n]);
      assert a == a[..m] + [a[m]] && b == b[..n] + [b[n]];
    }
  }

  lemma LastEqual(a: seq<string>, b: seq<string>)
    requires |a| > 0 && |b| > 0 && Increasing(a) && Increasing(b)
    requires forall x :: x in a <==> x in b
    ensures a[|a| - 1] == b[|b| - 1]
  {
    hide Less;
    var x, y := a[|a| - 1], b[|b| - 1];
    assert x in b && y in a;
    var i :| 0 <= i < |b| && b[i] == x;
    var j :| 0 <= j < |a| && a[j] == y;
    LessTotal(x, y);
  }

  lemma InFront(s: seq<string>, x: string)
    requires s != [] && Increasing(s)
    ensures x in s[..|s| - 1] <==> x in s && x != s[|s| - 1]
  {
    hide Less;
    if x in s[..|s| - 1] {
      var i :| 0 <= i < |s| - 1 && s[i] == x;
      LessTotal(x, s[|s| - 1]);
    }
  }

  lemma SHAsCover(q: Query, byHost: map<Key, Review>, chosen: seq<Key>, out: seq<Review>, sha: string)
    requires IsCoherent(q, byHost, chosen, out)
    ensures sha in SHAs(chosen) <==> exists k :: k in byHost && k.sha == sha
  {
    hide Represents, HasSHA;
    if sha in SHAs(chosen) {
      var i :| 0 <= i < |chosen| && SHAs(chosen)[i] == sha;
      CoherentAt(q, byHost, chosen, out, i);
    }
    if k :| k in byHost && k.sha == sha {
      SHAsHave(chosen, sha);
    }
  }

  lemma SHAsHave(chosen: seq<Key>, sha: string)
    requires HasSHA(chosen, sha)
    ensures sha in SHAs(chosen)
  {
    var i :| 0 <= i < |chosen| && chosen[i].sha == sha;
    assert SHAs(chosen)[i] == sha;
  }

  lemma SameSHAs(q: Query, byHost: map<Key, Review>, chosen: seq<Key>, out: seq<Review>, chosen': seq<Key>, out': seq<Review>)
    requires IsCoherent(q, byHost, chosen, out) && IsCoherent(q, byHost, chosen', out')
    ensures SHAs(chosen) == SHAs(chosen')
  {
    forall sha ensures sha in SHAs(chosen) <==> sha in SHAs(chosen') {
      SHAsCover(q, byHost, chosen, out, sha);
      SHAsCover(q, byHost, chosen', out', sha);
    }
    IncreasingUnique(SHAs(chosen), SHAs(chosen'));
  }

  lemma OneRepresentative(q: Query, byHost: map<Key, Review>, k: Key, other: Key)
    requires Represents(q, byHost, k) && Represents(q, byHost, other) && k.sha == other.sha
    ensures k == other
  {
    PairLessComplement((k.reviewer, k.host), (other.reviewer, other.host), (k.reviewer, k.host));
  }

  /** Whatever order the maps are walked in, the answer is the same. */
  lemma CoherentUnique(q: Query, byHost: map<Key, Review>, chosen: seq<Key>, out: seq<Review>, chosen': seq<Key>, out': seq<Review>)
    requires IsCoherent(q, byHost, chosen, out) && IsCoherent(q, byHost, chosen', out')
    ensures out == out'
  {
    hide Represents;
    SameSHAs(q, byHost, chosen, out, chosen', out');
    forall i | 0 <= i < |out| ensures out[i] == out'[i] {
      assert SHAs(chosen)[i] == SHAs(chosen')[i];
      OneRepresentative(q, byHost, chosen[i], chosen'[i]);
    }
  }

  /** The evidence for a task: the projections of the admitted rows, one whole projection per
      candidate, in strictly increasing candidate order. */
  method AdmittedForRef(q: Query, rows: seq<Row>) returns (out: seq<Review>, byHost: map<Key, Review>, chosen: seq<Key>)
    ensures IsProjection(q, rows, |rows|, byHost)
    ensures IsCoherent(q, byHost, chosen, out)
    ensures forall i, j :: 0 <= i < j < |out| ==> Less(out[i].sha, out[j].sha)
  {
    byHost := Project(q, rows);
    out, chosen := Coherent(q, byHost);
    forall i | 0 <= i < |out| ensures out[i].sha == chosen[i].sha {
      ShownSHA(q, rows, byHost, chosen, out, i);
    }
  }

  lemma ShownSHA(q: Query, rows: seq<Row>, byHost: map<Key, Review>, chosen: seq<Key>, out: seq<Review>, i: nat)
    requires IsProjection(q, rows, |rows|, byHost) && IsCoherent(q, byHost, chosen, out) && i < |out|
    ensures out[i].sha == chosen[i].sha
  {
    hide IsCoherent, IsFed, Represents, IsLatest;
    CoherentAt(q, byHost, chosen, out, i);
    assert IsProjectionOf(q, rows, |rows|, chosen[i], byHost[chosen[i]]);
  }

  /** The rows alone determine every projection, field by field. */
  lemma ProjectionUnique(q: Query, rows: seq<Row>, one: map<Key, Review>, two: map<Key, Review>)
    requires IsProjection(q, rows, |rows|, one) && IsProjection(q, rows, |rows|, two)
    ensures one == two
  {
    hide IsLatest, IsFed;
    assert forall k :: k in one <==> k in two;
    forall k | k in one ensures one[k] == two[k] {
      assert IsProjectionOf(q, rows, |rows|, k, one[k]) && IsProjectionOf(q, rows, |rows|, k, two[k]);
      forall f ensures Shown(one[k], f) == Shown(two[k], f) {
        LatestUnique(q, rows, |rows|, k, f, Shown(one[k], f), Shown(two[k], f));
      }
      SameFields(one[k], two[k]);
    }
  }

  lemma SameFields(a: Review, b: Review)
    requires a.sha == b.sha && forall f :: Shown(a, f) == Shown(b, f)
    ensures a == b
  {
    assert Shown(a, Verdict) == Shown(b, Verdict) && Shown(a, Branch) == Shown(b, Branch);
    assert Shown(a, Artifact) == Shown(b, Artifact) && Shown(a, Reviewer) == Shown(b, Reviewer);
    assert Shown(a, ReviewerFamily) == Shown(b, ReviewerFamily) && Shown(a, BuilderFamily) == Shown(b, BuilderFamily);
    assert Shown(a, MergeSHA) == Shown(b, MergeSHA);
  }

  lemma LatestUnique(q: Query, rows: seq<Row>, n: nat, k: Key, f: Field, v: string, w: string)
    requires n <= |rows| && IsLatest(q, rows, n, k, f, v) && IsLatest(q, rows, n, k, f, w)
    ensures v == w
  {
    hide Feeds, Told;
    if !IsBlank(v) && !IsBlank(w) {
      var i :| LatestAt(q, rows, n, k, f, v, i);
      var j :| LatestAt(q, rows, n, k, f, w, j);
      assert i == j;
    }
  }

  /** `v` is what the last row feeding `k` with anything but white space in that column says. */
  ghost predicate LastSaid(q: Query, rows: seq<Row>, k: Key, column: Row -> string, v: string) {
    || (v == "" && forall i :: Feeds(q, rows, k, i) ==> Trim(column(rows[i])) == "")
    || (exists i :: SaidAt(q, rows, k, column, v, i))
  }

  ghost predicate SaidAt(q: Query, rows: seq<Row>, k: Key, column: Row -> string, v: string, i: int) {
    && Feeds(q, rows, k, i) && column(rows[i]) == v && Trim(v) != ""
    && forall j :: j > i && Feeds(q, rows, k, j) ==> Trim(column(rows[j])) == ""
  }

  lemma LatestIsSaid(q: Query, rows: seq<Row>, k: Key, f: Field, column: Row -> string, v: string)
    requires IsLatest(q, rows, |rows|, k, f, v) && forall row :: column(row) == Told(row, f)
    ensures LastSaid(q, rows, k, column, v)
  {
    hide Told, Admits, Trim;
    if i :| LatestAt(q, rows, |rows|, k, f, v, i) {
      if !IsBlank(v) {
        assert SaidAt(q, rows, k, column, v, i);
      }
    }
  }

  /** Column by column, a projection shows what the admitted rows of its key said last. */
  lemma ProjectionShows(q: Query, rows: seq<Row>, byHost: map<Key, Review>, k: Key)
    requires IsProjection(q, rows, |rows|, byHost) && k in byHost
    ensures var r := byHost[k];
            && r.sha == k.sha
            && LastSaid(q, rows, k, (row: Row) => row.verdict, r.verdict)
            && LastSaid(q, rows, k, (row: Row) => row.branch, r.branch)
            && LastSaid(q, rows, k, (row: Row) => row.artifact, r.artifact)
            && LastSaid(q, rows, k, (row: Row) => row.reviewer, r.reviewer)
            && LastSaid(q, rows, k, (row: Row) => row.reviewerFamily, r.reviewerFamily)
            && LastSaid(q, rows, k, (row: Row) => row.builderFamily, r.builderFamily)
            && LastSaid(q, rows, k, (row: Row) => row.mergeSHA, r.mergeSHA)
  {
    hide IsLatest, LastSaid, IsFed;
    var r := byHost[k];
    assert IsProjectionOf(q, rows, |rows|, k, r);
    assert Shown(r, Verdict) == r.verdict && Shown(r, Branch) == r.branch && Shown(r, Artifact) == r.artifact;
    LatestIsSaid(q, rows, k, Verdict, (row: Row) => row.verdict, r.verdict);
    LatestIsSaid(q, rows, k, Branch, (row: Row) => row.branch, r.branch);
    LatestIsSaid(q, rows, k, Artifact, (row: Row) => row.artifact, r.artifact);
    assert Shown(r, Reviewer) == r.reviewer && Shown(r, ReviewerFamily) == r.reviewerFamily;
    LatestIsSaid(q, rows, k, Reviewer, (row: Row) => row.reviewer, r.reviewer);
    LatestIsSaid(q, rows, k, ReviewerFamily, (row: Row) => row.reviewerFamily, r.reviewerFamily);
    assert Shown(r, BuilderFamily) == r.builderFamily && Shown(r, MergeSHA) == r.mergeSHA;
    LatestIsSaid(q, rows, k, BuilderFamily, (row: Row) => row.builderFamily, r.builderFamily);
    LatestIsSaid(q, rows, k, MergeSHA, (row: Row) => row.mergeSHA, r.mergeSHA);
  }
}
