/** Read-only evidence about one fenced operation. `fence-op status` combines the local
    receipt and the broker's readback in one place; `fence-op reconcile` weighs the same two
    sources inside its record loop. */
module FenceEvidence {
  import opened Text

  /** A receipt in the local fence store. */
  datatype Receipt = Receipt(opID: string, taskID: string, fenceToken: int, expectedStatus: string, revision: string, ambiguous: bool)

  /** What a source reports about an operation. */
  datatype Readback = Readback(
    applied: bool, ambiguous: bool, opID: string, taskID: string, fenceToken: int, expectedStatus: string, revision: string)

  function AsReadback(rc: Option<Receipt>): Option<Readback> {
    match rc
    case None => None
    case Some(r) => Some(Readback(!r.ambiguous, r.ambiguous, r.opID, r.taskID, r.fenceToken, r.expectedStatus, r.revision))
  }

  /** Unicode case folding of operation ids, and the board's spelling of a status. */
  datatype Norms = Norms(fold: string -> string, status: string -> string)

  datatype Mismatch = TaskBinding | OpBinding | StatusBinding | TokenBinding

  /** The identities on which two receipts contradict each other; silence contradicts nothing. */
  function Contradictions(n: Norms, local: Option<Readback>, broker: Option<Readback>): seq<Mismatch> {
    if local.None? || broker.None? then []
    else
      var l, b := local.value, broker.value;
      (if l.taskID != "" && b.taskID != "" && l.taskID != b.taskID then [TaskBinding] else [])
      + (if l.opID != "" && b.opID != "" && n.fold(l.opID) != n.fold(b.opID) then [OpBinding] else [])
      + (if l.expectedStatus != "" && b.expectedStatus != "" && n.status(l.expectedStatus) != n.status(b.expectedStatus)
         then [StatusBinding] else [])
      + (if l.fenceToken > 0 && b.fenceToken > 0 && l.fenceToken != b.fenceToken then [TokenBinding] else [])
  }

  datatype Verdict = Applied | Ambiguous | Unknown

  predicate ProvesApplied(rc: Option<Readback>) { rc.Some? && rc.value.applied && !rc.value.ambiguous }

  function Combine(n: Norms, local: Option<Readback>, broker: Option<Readback>): Verdict {
    if Contradictions(n, local, broker) != [] then Unknown
    else if ProvesApplied(local) || ProvesApplied(broker) then Applied
    else if (local.Some? && local.value.ambiguous) || (broker.Some? && broker.value.ambiguous) then Ambiguous
    else Unknown
  }

  /** Neither source is privileged. */
  lemma CombineSymmetric(n: Norms, a: Option<Readback>, b: Option<Readback>)
    ensures Combine(n, a, b) == Combine(n, b, a)
    ensures |Contradictions(n, a, b)| == |Contradictions(n, b, a)|
  {
  }

  /** The two sources say the same about every identity that both of them state. */
  predicate SameOperation(n: Norms, local: Receipt, broker: Readback) {
    && (local.taskID == "" || broker.taskID == "" || local.taskID == broker.taskID)
    && (local.opID == "" || broker.opID == "" || n.fold(local.opID) == n.fold(broker.opID))
    && (local.expectedStatus == "" || broker.expectedStatus == "" || n.status(local.expectedStatus) == n.status(broker.expectedStatus))
    && (local.fenceToken <= 0 || broker.fenceToken <= 0 || local.fenceToken == broker.fenceToken)
  }

  /** Some source has the operation applied beyond doubt, and no identity speaks against it. */
  predicate IsProven(n: Norms, local: Option<Receipt>, broker: Option<Readback>) {
    && ((local.Some? && !local.value.ambiguous) || (broker.Some? && broker.value.applied && !broker.value.ambiguous))
    && (local.Some? && broker.Some? ==> SameOperation(n, local.value, broker.value))
  }

  /** What each verdict means for a local receipt and a broker's answer. */
  lemma CombineExactly(n: Norms, local: Option<Receipt>, broker: Option<Readback>)
    ensures Combine(n, AsReadback(local), broker) == Applied <==> IsProven(n, local, broker)
    ensures Combine(n, AsReadback(local), broker) == Ambiguous <==>
            && !IsProven(n, local, broker)
            && ((local.Some? && local.value.ambiguous) || (broker.Some? && broker.value.ambiguous))
            && (local.Some? && broker.Some? ==> SameOperation(n, local.value, broker.value))
    ensures Contradictions(n, AsReadback(local), broker) != [] <==>
            local.Some? && broker.Some? && !SameOperation(n, local.value, broker.value)
  {
  }

  // ----- reconcile -----

  datatype Record = Record(kind: string, payload: string)

  predicate IsTransitionKind(kind: string) {
    kind == "provider_mutation" || kind == "claim" || HasPrefix(kind, "status:") || HasPrefix(kind, "comment:")
  }

  datatype Lookup<T> = Found(rc: Option<T>) | StoreError

  datatype Reason = NoReason | NoReceipt | LocalStoreError | NoPayload | BindingMismatch | BrokerSaysNotApplied | ReceiptAmbiguous

  datatype Finding = Finding(opID: string, proven: bool, reason: Reason, taskID: string, expectedStatus: string, ambiguous: bool)

  /** What the local store contributes: nothing for a record without an operation, and
      nothing when it cannot be read. */
  function LocalEvidence(opID: string, local: Lookup<Receipt>): Option<Receipt> {
    if opID == "" || local.StoreError? then None else local.rc
  }

  function BrokerEvidence(opID: string, broker: Option<Readback>): Option<Readback> {
    if opID == "" then None else broker
  }

  /** One pass of the record loop. It proves an operation exactly when the status command
      would call it applied, and calls it ambiguous exactly when that would. */
  method Evaluate(n: Norms, opID: string, local: Lookup<Receipt>, broker: Option<Readback>) returns (v: Finding, storeError: bool)
    ensures v.opID == opID
    ensures storeError <==> opID != "" && local.StoreError?
    ensures var verdict := Combine(n, AsReadback(LocalEvidence(opID, local)), BrokerEvidence(opID, broker));
            && (v.proven <==> verdict == Applied)
            && (v.proven ==> v.reason == NoReason)
            && (!storeError ==> (v.reason == ReceiptAmbiguous <==> verdict == Ambiguous))
    ensures v.reason == NoPayload <==> opID == ""
    ensures opID == "" ==> !v.proven && v.taskID == "" && v.expectedStatus == "" && !v.ambiguous
    ensures opID != "" ==>
              var l := if local.Found? then local.rc else None;
              var clash := l.Some? && broker.Some? && !SameOperation(n, l.value, broker.value);
              && (v.proven <==> IsProven(n, l, broker))
              && (v.reason == BindingMismatch <==> clash)
              && (v.reason == NoReceipt <==> !storeError && l.None? && broker.None?)
              && (v.reason == BrokerSaysNotApplied <==> l.None? && broker.Some? && !broker.value.applied && !broker.value.ambiguous)
              && (v.reason == LocalStoreError <==> storeError && (broker.None? || broker.value.ambiguous))
              && (broker.Some? && !clash ==>
                    v.taskID == broker.value.taskID && v.expectedStatus == broker.value.expectedStatus && v.ambiguous == broker.value.ambiguous)
              && (l.Some? && (broker.None? || clash) ==>
                    && v.taskID == l.value.taskID && v.expectedStatus == l.value.expectedStatus
                    && v.ambiguous == (l.value.ambiguous && !clash))
              && (l.None? && broker.None? ==> v.taskID == "" && v.expectedStatus == "" && !v.ambiguous)
  {
    CombineExactly(n, LocalEvidence(opID, local), BrokerEvidence(opID, broker));
    v := Finding(opID, false, NoReceipt, "", "", false);
    storeError := false;
    var localApplied, localAmbiguous := false, false;
    var localRC: Option<Receipt> := None;
    if opID != "" {
      if local.StoreError? {
        v := v.(reason := LocalStoreError);
        storeError := true;
      } else if local.rc.Some? {
        localRC := local.rc;
        localApplied, localAmbiguous := !local.rc.value.ambiguous, local.rc.value.ambiguous;
        v := v.(taskID := local.rc.value.taskID, expectedStatus := local.rc.value.expectedStatus, ambiguous := local.rc.value.ambiguous);
      }
    } else {
      v := v.(reason := NoPayload);
    }
    if opID != "" && broker.Some? {
      var brc := broker.value;
      if localRC.Some? && Contradictions(n, AsReadback(localRC), broker) != [] {
        v := v.(reason := BindingMismatch, ambiguous := false);
        localApplied, localAmbiguous := false, false;
      } else {
        v := v.(taskID := brc.taskID, expectedStatus := brc.expectedStatus, ambiguous := brc.ambiguous);
        if brc.applied && !brc.ambiguous {
          localApplied, localAmbiguous := true, false;
        } else if brc.ambiguous {
          localAmbiguous := true;
        } else if !localApplied && !localAmbiguous {
          v := v.(reason := BrokerSaysNotApplied);
        }
      }
    }
    if localApplied {
      v := v.(proven := true, reason := NoReason);
    } else if localAmbiguous {
      if v.reason == NoReceipt || v.reason == BrokerSaysNotApplied {
        v := v.(reason := ReceiptAmbiguous);
      }
    }
  }

  predicate Wanted(rec: Record, wantOp: string) {
    IsTransitionKind(rec.kind) && (wantOp == "" || Trim(rec.payload) == wantOp)
  }

  /** The operations of the wanted records among the first `n`, in order. */
  function Matched(pending: seq<Record>, wantOp: string, n: nat): (ops: seq<string>)
    requires n <= |pending|
  {
    if n == 0 then []
    else
      var front := Matched(pending, wantOp, n - 1);
      if Wanted(pending[n - 1], wantOp) then front + [Trim(pending[n - 1].payload)] else front
  }

  /** The transition kinds. */
  predicate IsTransition(kind: string) {
    kind == "provider_mutation" || kind == "claim" || (|kind| >= 7 && kind[..7] == "status:") || (|kind| >= 8 && kind[..8] == "comment:")
  }

  /** The matched operations are those of the transition records that were asked for. */
  lemma {:induction false} MatchedExactly(pending: seq<Record>, wantOp: string, n: nat, op: string)
    requires n <= |pending|
    ensures op in Matched(pending, wantOp, n) <==>
            exists i :: 0 <= i < n && IsTransition(pending[i].kind) && Trim(pending[i].payload) == op && (wantOp == "" || op == wantOp)
  {
    if n > 0 {
      hide Trim;
      MatchedExactly(pending, wantOp, n - 1, op);
      KindExactly(pending[n - 1].kind);
      hide IsTransition, IsTransitionKind;
    }
  }

  lemma KindExactly(kind: string)
    ensures IsTransitionKind(kind) <==> IsTransition(kind)
  {
    assert |"status:"| == 7 && |"comment:"| == 8;
  }

  lemma {:induction false} MatchedGrows(pending: seq<Record>, wantOp: string, k: nat)
    requires k <= |pending|
    ensures Matched(pending, wantOp, k) <= Matched(pending, wantOp, |pending|)
    decreases |pending| - k
  {
    if k < |pending| {
      MatchedGrows(pending, wantOp, k + 1);
    }
  }

  function CountProven(records: seq<Finding>, n: nat): nat
    requires n <= |records|
  {
    if n == 0 then 0 else CountProven(records, n - 1) + (if records[n - 1].proven then 1 else 0)
  }

  lemma {:induction false} CountProvenPrefix(records: seq<Finding>, v: Finding, n: nat)
    requires n <= |records|
    ensures CountProven(records + [v], n) == CountProven(records, n)
  {
    if n > 0 {
      CountProvenPrefix(records, v, n - 1);
    }
  }

  type Fences = string -> Lookup<Receipt>
  type Broker = Option<string -> Lookup<Readback>>

  datatype Result =
    | Report(records: seq<Finding>, wouldSettle: int, stillPending: int)
    | BrokerUnavailable
    | UnknownOp
    | LocalError

  predicate LocalFails(fences: Fences, op: string) { op != "" && fences(op).StoreError? }

  predicate BrokerFails(broker: Broker, op: string) { op != "" && broker.Some? && broker.value(op).StoreError? }

  function Asked(broker: Broker, op: string): Option<Readback>
    requires !BrokerFails(broker, op)
  {
    if op == "" || broker.None? then None else broker.value(op).rc
  }

  /** What the status command's combiner says of the same operation. */
  function StatusVerdict(n: Norms, fences: Fences, broker: Broker, op: string): Verdict
    requires !BrokerFails(broker, op)
  {
    Combine(n, AsReadback(LocalEvidence(op, fences(op))), Asked(broker, op))
  }

  /** One finding per operation in order, each proven exactly when the status command would
      call that operation applied. */
  ghost predicate Agree(n: Norms, fences: Fences, broker: Broker, ops: seq<string>, records: seq<Finding>) {
    && |records| == |ops|
    && forall i {:trigger ops[i]} {:trigger records[i]} :: 0 <= i < |ops| ==>
         && records[i].opID == ops[i]
         && !BrokerFails(broker, ops[i])
         && (records[i].proven <==> StatusVerdict(n, fences, broker, ops[i]) == Applied)
  }

  /** The same, in terms of what the two sources answered. */
  ghost predicate Reported(n: Norms, fences: Fences, broker: Broker, ops: seq<string>, records: seq<Finding>) {
    && |records| == |ops|
    && forall i {:trigger ops[i]} {:trigger records[i]} :: 0 <= i < |ops| ==>
         var op := ops[i];
         && records[i].opID == op
         && (op != "" ==> fences(op).Found? && (broker.Some? ==> broker.value(op).Found?))
         && (records[i].proven <==>
               op != "" && IsProven(n, fences(op).rc, if broker.Some? then broker.value(op).rc else None))
  }

  lemma AgreeIsReported(n: Norms, fences: Fences, broker: Broker, ops: seq<string>, records: seq<Finding>)
    requires Agree(n, fences, broker, ops, records) && !SomeLocalFails(fences, ops)
    ensures Reported(n, fences, broker, ops, records)
  {
    hide Combine, IsProven;
    forall i | 0 <= i < |ops|
      ensures var op := ops[i];
              && (op != "" ==> fences(op).Found? && (broker.Some? ==> broker.value(op).Found?))
              && (records[i].proven <==>
                    op != "" && IsProven(n, fences(op).rc, if broker.Some? then broker.value(op).rc else None))
    {
      var op := ops[i];
      assert !LocalFails(fences, op) && !BrokerFails(broker, op);
      CombineExactly(n, LocalEvidence(op, fences(op)), Asked(broker, op));
      NothingIsUnproven(n);
    }
  }

  lemma NothingIsUnproven(n: Norms)
    ensures !IsProven(n, None, None)
  {
  }

  ghost predicate SomeLocalFails(fences: Fences, ops: seq<string>) {
    exists i :: 0 <= i < |ops| && LocalFails(fences, ops[i])
  }

  ghost predicate SomeBrokerFails(broker: Broker, ops: seq<string>) {
    exists i :: 0 <= i < |ops| && BrokerFails(broker, ops[i])
  }

  /** The whole report. The two counters partition the matched records. A source that cannot
      be read is never reported as a result, and an operation nobody has pending is unknown. */
  method Reconcile(n: Norms, pending: seq<Record>, wantOp: string, fences: Fences, broker: Broker) returns (r: Result)
    ensures var ops := Matched(pending, wantOp, |pending|);
            && (r.BrokerUnavailable? <==> SomeBrokerFails(broker, ops))
            && (r.UnknownOp? <==> wantOp != "" && ops == [])
            && (r.LocalError? <==> !SomeBrokerFails(broker, ops) && SomeLocalFails(fences, ops))
            && (r.Report? ==>
                  && Agree(n, fences, broker, ops, r.records)
                  && Reported(n, fences, broker, ops, r.records)
                  && r.wouldSettle + r.stillPending == |ops|
                  && r.wouldSettle == CountProven(r.records, |r.records|))
  {
    hide Trim, StatusVerdict, IsTransitionKind, LocalFails, BrokerFails, Combine, Contradictions;
    hide Agree, SomeLocalFails, SomeBrokerFails, Reported;
    NothingYet(n, fences, broker);
    var records: seq<Finding> := [];
    var wouldSettle, stillPending, matched := 0, 0, 0;
    var sawStoreError := false;
    for k := 0 to |pending|
      invariant var ops := Matched(pending, wantOp, k);
                && matched == |ops|
                && !SomeBrokerFails(broker, ops)
                && (sawStoreError <==> SomeLocalFails(fences, ops))
                && Agree(n, fences, broker, ops, records)
      invariant wouldSettle + stillPending == matched && wouldSettle == CountProven(records, |records|)
    {
      if !IsTransitionKind(pending[k].kind) {
        continue;
      }
      var opID := Trim(pending[k].payload);
      if wantOp != "" && opID != wantOp {
        continue;
      }
      matched := matched + 1;
      ghost var ops := Matched(pending, wantOp, k);
      assert Matched(pending, wantOp, k + 1) == ops + [opID];
      var failed, v, storeError := Examine(n, opID, fences, broker);
      if failed {
        BrokerFailure(broker, pending, wantOp, k);
        return BrokerUnavailable;
      }
      if storeError {
        sawStoreError := true;
      }
      Extends(n, fences, broker, ops, opID, records, v);
      CountProvenPrefix(records, v, |records|);
      records := records + [v];
      if v.proven {
        wouldSettle := wouldSettle + 1;
      } else {
        stillPending := stillPending + 1;
      }
    }
    if wantOp != "" && matched == 0 {
      return UnknownOp;
    }
    if sawStoreError {
      return LocalError;
    }
    AgreeIsReported(n, fences, broker, Matched(pending, wantOp, |pending|), records);
    r := Report(records, wouldSettle, stillPending);
  }

  lemma NothingYet(n: Norms, fences: Fences, broker: Broker)
    ensures Agree(n, fences, broker, [], [])
    ensures !SomeLocalFails(fences, []) && !SomeBrokerFails(broker, [])
  {
  }

  /** The lookups of one record and its evaluation. */
  method Examine(n: Norms, opID: string, fences: Fences, broker: Broker) returns (failed: bool, v: Finding, storeError: bool)
    ensures failed <==> BrokerFails(broker, opID)
    ensures !failed ==> v.opID == opID && (v.proven <==> StatusVerdict(n, fences, broker, opID) == Applied)
    ensures storeError <==> !failed && LocalFails(fences, opID)
  {
    v, storeError := Finding(opID, false, NoReceipt, "", "", false), false;
    if BrokerFails(broker, opID) {
      return true, v, false;
    }
    failed := false;
    v, storeError := Evaluate(n, opID, fences(opID), Asked(broker, opID));
  }

  lemma BrokerFailure(broker: Broker, pending: seq<Record>, wantOp: string, k: nat)
    requires k < |pending| && Wanted(pending[k], wantOp) && BrokerFails(broker, Trim(pending[k].payload))
    ensures SomeBrokerFails(broker, Matched(pending, wantOp, |pending|))
  {
    MatchedGrows(pending, wantOp, k + 1);
    var ops, all := Matched(pending, wantOp, k + 1), Matched(pending, wantOp, |pending|);
    assert all[|ops| - 1] == ops[|ops| - 1];
  }

  lemma Extends(n: Norms, fences: Fences, broker: Broker, ops: seq<string>, op: string, records: seq<Finding>, v: Finding)
    requires Agree(n, fences, broker, ops, records)
    requires !BrokerFails(broker, op)
    requires v.opID == op && (v.proven <==> StatusVerdict(n, fences, broker, op) == Applied)
    ensures Agree(n, fences, broker, ops + [op], records + [v])
    ensures SomeBrokerFails(broker, ops + [op]) <==> SomeBrokerFails(broker, ops)
    ensures SomeLocalFails(fences, ops + [op]) <==> SomeLocalFails(fences, ops) || LocalFails(fences, op)
  {
    hide StatusVerdict, BrokerFails, LocalFails;
    assert (ops + [op])[|ops|] == op;
    assert forall i :: 0 <= i < |ops| ==> (ops + [op])[i] == ops[i] && (records + [v])[i] == records[i];
  }
}
