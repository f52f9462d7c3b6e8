/** Publishing a recovery receipt: a local copy in the worktree and a canonical copy filed by
    session, undone by hand when the second one fails. */
module RecoveryReceipt {
  import opened Text

  datatype Receipt = Receipt(session: string, generation: int, content: string)

  /** Every write ends in a rename followed by a directory sync, so it can fail on either
      side of its effect. */
  datatype Outcome = FailsBefore | FailsAfter | Succeeds

  predicate TakesEffect(o: Outcome) { !o.FailsBefore? }

  /** What the file system does to each write, in the order the writes happen. */
  datatype Outcomes = Outcomes(write: Outcome, file: Outcome, unfile: Outcome, restore: Outcome)

  predicate Compensates(o: Outcomes) { o.unfile.Succeeds? && o.restore.Succeeds? }

  datatype Copies = Copies(local: Receipt, canonical: map<string, Receipt>) {
    predicate Has(receipt: Receipt) {
      receipt.session in canonical && canonical[receipt.session] == receipt
    }
  }

  /** An entry of a newer generation, or one of the same generation that `amends` does not
      sanction, refuses to be replaced. */
  predicate Refuses(canonical: map<string, Receipt>, receipt: Receipt, amends: (Receipt, Receipt) -> bool) {
    && receipt.session in canonical
    && var existing := canonical[receipt.session];
       existing.generation > receipt.generation || (existing.generation == receipt.generation && !amends(existing, receipt))
  }

  class Store {
    var local: Receipt
    var canonical: map<string, Receipt>

    function Contents(): Copies
      reads this
    {
      Copies(local, canonical)
    }

    constructor (local: Receipt, canonical: map<string, Receipt>)
      ensures Contents() == Copies(local, canonical)
    {
      this.local, this.canonical := local, canonical;
    }

    method WriteLocal(receipt: Receipt, o: Outcome) returns (ok: bool)
      modifies this`local
      ensures ok == o.Succeeds?
      ensures local == if TakesEffect(o) then receipt else old(local)
    {
      if TakesEffect(o) {
        local := receipt;
      }
      ok := o.Succeeds?;
    }

    method StoreCanonical(receipt: Receipt, amends: (Receipt, Receipt) -> bool, o: Outcome) returns (ok: bool)
      modifies this`canonical
      ensures ok == (o.Succeeds? && !Refuses(old(canonical), receipt, amends))
      ensures receipt.session in old(canonical) ==>
                var existing := old(canonical)[receipt.session];
                existing.generation > receipt.generation || (existing.generation == receipt.generation && !amends(existing, receipt)) ==>
                !ok && canonical == old(canonical)
      ensures !(receipt.session in old(canonical) && old(canonical)[receipt.session].generation >= receipt.generation) ==>
                ok == o.Succeeds? && canonical == (if o.FailsBefore? then old(canonical) else old(canonical)[receipt.session := receipt])
      ensures canonical ==
              if TakesEffect(o) && !Refuses(old(canonical), receipt, amends)
              then old(canonical)[receipt.session := receipt] else old(canonical)
    {
      if receipt.session in canonical {
        var existing := canonical[receipt.session];
        if existing.generation > receipt.generation {
          return false;
        }
        if existing.generation == receipt.generation && !amends(existing, receipt) {
          return false;
        }
      }
      if TakesEffect(o) {
        canonical := canonical[receipt.session := receipt];
      }
      ok := o.Succeeds?;
    }

    /** Undoes a filing: a missing session is already undone, another receipt is left alone. */
    method RemoveIfExact(expected: Receipt, o: Outcome) returns (ok: bool)
      modifies this`canonical
      ensures canonical == if old(Contents().Has(expected)) && TakesEffect(o) then old(canonical) - {expected.session} else old(canonical)
      ensures ok <==> expected.session !in old(canonical) || (old(Contents().Has(expected)) && o.Succeeds?)
    {
      if expected.session !in canonical {
        return true;
      }
      if canonical[expected.session] != expected {
        return false;
      }
      if TakesEffect(o) {
        canonical := canonical - {expected.session};
      }
      ok := o.Succeeds?;
    }

    method Persist(receipt: Receipt, prior: Receipt, amends: (Receipt, Receipt) -> bool, o: Outcomes) returns (ok: bool)
      modifies this
      ensures Contents() == Published(old(Contents()), receipt, prior, amends, o)
      ensures ok <==> o.write.Succeeds? && Filed(old(canonical), receipt, amends, o).Succeeds?
      ensures ok ==> local == receipt && canonical == old(canonical)[receipt.session := receipt]
      ensures !ok && o.write.Succeeds? && o.restore.Succeeds? ==> local == prior
      ensures !o.write.Succeeds? ==> canonical == old(canonical)
    {
      ok := WriteLocal(receipt, o.write);
      if !ok {
        return;
      }
      ok := StoreCanonical(receipt, amends, o.file);
      if !ok {
        var removed := RemoveIfExact(receipt, o.unfile);
        var restored := WriteLocal(prior, o.restore);
      }
    }
  }

  /** How filing the receipt ends; a refusal is a failure without effect. */
  function Filed(canonical: map<string, Receipt>, receipt: Receipt, amends: (Receipt, Receipt) -> bool, o: Outcomes): Outcome {
    if Refuses(canonical, receipt, amends) then FailsBefore else o.file
  }

  /** Both copies after a publication. */
  function Published(c: Copies, receipt: Receipt, prior: Receipt, amends: (Receipt, Receipt) -> bool, o: Outcomes): Copies {
    var local := if TakesEffect(o.write) then receipt else c.local;
    if !o.write.Succeeds? then Copies(local, c.canonical)
    else
      var filed := Filed(c.canonical, receipt, amends, o);
      var canonical := if TakesEffect(filed) then c.canonical[receipt.session := receipt] else c.canonical;
      if filed.Succeeds? then Copies(local, canonical)
      else
        Copies(if TakesEffect(o.restore) then prior else local,
               if Copies(local, canonical).Has(receipt) && TakesEffect(o.unfile) then canonical - {receipt.session} else canonical)
  }

  /** Either both copies hold the receipt, or nothing has changed. */
  predicate AllOrNothing(before: Copies, after: Copies, receipt: Receipt, prior: Receipt) {
    || (after.local == receipt && after.Has(receipt))
    || (after.local == prior && after.canonical == before.canonical)
  }

  /** Whatever fails, no other session's receipt is touched. */
  lemma OthersUntouched(c: Copies, receipt: Receipt, prior: Receipt, amends: (Receipt, Receipt) -> bool, o: Outcomes, other: string)
    requires other != receipt.session
    ensures var after := Published(c, receipt, prior, amends, o);
            && (other in after.canonical <==> other in c.canonical)
            && (other in c.canonical ==> after.canonical[other] == c.canonical[other])
  {
  }

  /** With compensations that succeed, publication is all or nothing exactly when none of
      three things happens: the local write fails after taking effect, which nobody undoes;
      a filing fails after replacing an entry of the same session, which is then removed and
      not put back; a filing fails without effect while the very same receipt was on file,
      which is then removed as if this call had filed it. */
  lemma AllOrNothingExactly(c: Copies, receipt: Receipt, prior: Receipt, amends: (Receipt, Receipt) -> bool, o: Outcomes)
    requires c.local == prior && Compensates(o)
    ensures AllOrNothing(c, Published(c, receipt, prior, amends, o), receipt, prior)
            <==>
            match o.write
            case FailsBefore => true
            case FailsAfter => receipt == prior || c.Has(receipt)
            case Succeeds =>
              match Filed(c.canonical, receipt, amends, o)
              case Succeeds => true
              case FailsBefore => !c.Has(receipt)
              case FailsAfter => receipt.session !in c.canonical
  {
    var after := Published(c, receipt, prior, amends, o);
    if o.write.Succeeds? && Filed(c.canonical, receipt, amends, o).FailsAfter? && receipt.session !in c.canonical {
      assert c.canonical[receipt.session := receipt] - {receipt.session} == c.canonical;
    }
    assert receipt.session in c.canonical && receipt.session !in after.canonical ==> after.canonical != c.canonical;
  }

  /** What a caller can check beforehand: once the local write is not left half done, every
      way filing can end is all or nothing exactly when the session is new, or its entry is
      another receipt that refuses to be replaced. */
  lemma NewSessionExactly(c: Copies, receipt: Receipt, prior: Receipt, amends: (Receipt, Receipt) -> bool)
    requires c.local == prior
    ensures receipt.session !in c.canonical || (Refuses(c.canonical, receipt, amends) && !c.Has(receipt))
            <==>
            forall o: Outcomes :: Compensates(o) && !o.write.FailsAfter? ==>
              AllOrNothing(c, Published(c, receipt, prior, amends, o), receipt, prior)
  {
    forall o: Outcomes | Compensates(o) && !o.write.FailsAfter?
      ensures receipt.session !in c.canonical || (Refuses(c.canonical, receipt, amends) && !c.Has(receipt)) ==>
                AllOrNothing(c, Published(c, receipt, prior, amends, o), receipt, prior)
    {
      AllOrNothingExactly(c, receipt, prior, amends, o);
    }
    if receipt.session in c.canonical && (Refuses(c.canonical, receipt, amends) ==> c.Has(receipt)) {
      var o := Outcomes(Succeeds, FailsAfter, Succeeds, Succeeds);
      AllOrNothingExactly(c, receipt, prior, amends, o);
      assert Compensates(o) && !AllOrNothing(c, Published(c, receipt, prior, amends, o), receipt, prior);
    }
  }

  /** The three failing families are inhabited: a local receipt nobody filed, and a filed
      receipt lost to a later call's compensation. */
  lemma HalfPublished(prior: Receipt, receipt: Receipt, older: Receipt, amends: (Receipt, Receipt) -> bool)
    requires receipt != prior && older.session == receipt.session && older.generation < receipt.generation
    requires prior.session != receipt.session
    ensures var before := Copies(prior, map[prior.session := prior]);
            var o := Outcomes(FailsAfter, Succeeds, Succeeds, Succeeds);
            Published(before, receipt, prior, amends, o) == Copies(receipt, before.canonical)
    ensures var before := Copies(prior, map[prior.session := prior, older.session := older]);
            var o := Outcomes(Succeeds, FailsAfter, Succeeds, Succeeds);
            Published(before, receipt, prior, amends, o) == Copies(prior, map[prior.session := prior])
    ensures var before := Copies(prior, map[prior.session := prior, receipt.session := receipt]);
            var o := Outcomes(Succeeds, FailsBefore, Succeeds, Succeeds);
            Published(before, receipt, prior, amends, o) == Copies(prior, map[prior.session := prior])
  {
  }
}
