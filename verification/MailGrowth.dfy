/** A client of the paged mailbox whose two stores grow and are acknowledged between its
    pages: what it has been given stays the front of what is due to it. */
module MailGrowth {
  import opened MailPaging

  /** An envelope without its acknowledgement. */
  function Bare(env: Envelope): Envelope { env.(read := false) }

  function BareAll(envs: seq<Envelope>): (bare: seq<Envelope>)
    ensures |bare| == |envs|
  {
    seq(|envs|, i requires 0 <= i < |envs| => Bare(envs[i]))
  }

  lemma BareConcat(a: seq<Envelope>, b: seq<Envelope>)
    ensures BareAll(a + b) == BareAll(a) + BareAll(b)
  {
  }

  predicate SameRecord(a: Item, b: Item) {
    a.id == b.id && a.fields == b.fields && a.eligible == b.eligible && Bare(a.env) == Bare(b.env)
  }

  /** Records were appended and acknowledged, and nothing else happened. */
  ghost predicate Grows(a: seq<Item>, b: seq<Item>) {
    |a| <= |b| && forall j :: 0 <= j < |a| ==> SameRecord(a[j], b[j])
  }

  /** What is pending at a position, acknowledgements aside. */
  function Due(items: seq<Item>, after: int): seq<Envelope> {
    BareAll(Envelopes(Pending(items, after)))
  }

  lemma {:induction false} PendingConcat(a: seq<Item>, b: seq<Item>, after: int)
    ensures Pending(a + b, after) == Pending(a, after) + Pending(b, after)
  {
    if a == [] {
      assert Pending(a, after) == [];
      hide Pending;
      assert a + b == b;
    } else {
      hide Pending;
      assert (a + b)[1..] == a[1..] + b && (a + b)[0] == a[0];
      PendingConcat(a[1..], b, after);
      PendingStep(a, after);
      PendingStep(a + b, after);
      Reassociate(a[0], Pending(a[1..], after), Pending(b, after));
    }
  }

  lemma Reassociate(x: Item, a: seq<Item>, b: seq<Item>)
    ensures [x] + (a + b) == ([x] + a) + b
  {
  }

  lemma DueConcat(a: seq<Item>, b: seq<Item>, after: int)
    ensures Due(a + b, after) == Due(a, after) + Due(b, after)
  {
    hide Pending;
    PendingConcat(a, b, after);
  }

  lemma {:induction false} DueSame(a: seq<Item>, b: seq<Item>, after: int)
    requires |a| == |b| && Grows(a, b)
    ensures Due(a, after) == Due(b, after)
  {
    if a != [] {
      DueSame(a[1..], b[1..], after);
      assert a == [a[0]] + a[1..] && b == [b[0]] + b[1..];
      DueConcat([a[0]], a[1..], after);
      DueConcat([b[0]], b[1..], after);
      assert SameRecord(a[0], b[0]);
      DueOne(a[0], after);
      DueOne(b[0], after);
    }
  }

  lemma DueOne(x: Item, after: int)
    ensures Due([x], after) == if x.eligible && x.id > after then [Bare(x.env)] else []
  {
    PendingStep([x], after);
    assert Pending([x][1..], after) == [];
    hide Pending;
    if x.eligible && x.id > after {
      assert Pending([x], after) == [x];
      assert Envelopes([x]) == [x.env];
    }
  }

  /** The position is the start, or that of a record in the store. */
  ghost predicate At(items: seq<Item>, after: int) {
    after == 0 || exists j :: 0 <= j < |items| && items[j].id == after
  }

  /** What growth adds is due at every position of the store before. */
  lemma DueGrows(a: seq<Item>, b: seq<Item>, after: int)
    requires Grows(a, b) && Ordered(b) && At(a, after)
    ensures |a| <= |b| && Due(b, after) == Due(a, after) + Due(b[|a|..], 0)
  {
    hide Pending, Ordered, At, BareAll, Envelopes;
    var front, more := b[..|a|], b[|a|..];
    assert b == front + more;
    GrowthIsBehind(a, b, after);
    DueConcat(front, more, after);
    DueSame(a, front, after);
    PendingSame(more, after, 0);
  }

  lemma GrowthIsBehind(a: seq<Item>, b: seq<Item>, after: int)
    requires Grows(a, b) && Ordered(b) && At(a, after)
    ensures forall x :: x in b[|a|..] ==> x.id > 0 && x.id > after
  {
    forall k | |a| <= k < |b| ensures b[k].id > 0 && b[k].id > after {
      if after != 0 {
        var j :| 0 <= j < |a| && a[j].id == after;
        assert SameRecord(a[j], b[j]);
      }
    }
  }

  lemma AtGrows(a: seq<Item>, b: seq<Item>, after: int)
    requires Grows(a, b) && At(a, after)
    ensures At(b, after)
  {
    if after != 0 {
      var j :| 0 <= j < |a| && a[j].id == after;
      assert SameRecord(a[j], b[j]);
    }
  }

  /** Appending and acknowledging keep a cursor valid. */
  lemma ResumeGrows(a: seq<Item>, b: seq<Item>, after: int, anchor: Watermark)
    requires Grows(a, b) && MayResume(a, after, anchor)
    ensures MayResume(b, after, anchor)
  {
    if after != 0 {
      var i :| Names(a, i, after, anchor);
      assert SameRecord(a[i], b[i]);
      DigestsEqual(a, i + 1, b, i + 1);
      assert Names(b, i, after, anchor);
    }
  }

  /** One successful read of one store, with the room it had. */
  datatype Visit = Visit(items: seq<Item>, room: Room, page: Page)

  function MarkAfter(visits: seq<Visit>, after: int): int {
    if visits == [] || visits[|visits| - 1].page.Fail? then after else visits[|visits| - 1].page.mark
  }

  function AnchorAfter(visits: seq<Visit>, anchor: Watermark): Watermark {
    if visits == [] || visits[|visits| - 1].page.Fail? then anchor else visits[|visits| - 1].page.anchor
  }

  /** A client that keeps resuming from the cursor it was handed, while the store grows and
      is acknowledged between its reads. */
  ghost predicate Live(visits: seq<Visit>, after: int, anchor: Watermark, budget: int, size: Envelope -> nat)
    decreases |visits|
  {
    visits != [] ==>
      var front, last := visits[..|visits| - 1], visits[|visits| - 1];
      && Live(front, after, anchor, budget, size)
      && (front != [] ==> Grows(front[|front| - 1].items, last.items))
      && Reads(last.items, MarkAfter(front, after), AnchorAfter(front, anchor), last.room, budget, size, last.page)
  }

  function Got(visits: seq<Visit>): seq<Envelope> {
    if visits == [] then []
    else
      var last := visits[|visits| - 1];
      Got(visits[..|visits| - 1]) + (if last.page.Page? then last.page.envs else [])
  }

  lemma ReadIsAt(items: seq<Item>, after: int, anchor: Watermark, room: Room, budget: int, size: Envelope -> nat, page: Page)
    requires Reads(items, after, anchor, room, budget, size, page)
    ensures page.Page? && Ordered(items) && At(items, after) && At(items, page.mark)
    ensures MayResume(items, page.mark, page.anchor)
    ensures Due(items, after) == BareAll(page.envs) + Due(items, page.mark)
    ensures page.truncated <==> Pending(items, page.mark) != []
  {
    ReadFacts(items, after, anchor, room, budget, size, page);
    BareConcat(page.envs, Envelopes(Pending(items, page.mark)));
    ResumeIsAt(items, after, anchor);
    ResumeIsAt(items, page.mark, page.anchor);
  }

  lemma ResumeIsAt(items: seq<Item>, after: int, anchor: Watermark)
    requires MayResume(items, after, anchor)
    ensures At(items, after)
  {
    if after != 0 {
      var i :| Names(items, i, after, anchor);
      assert items[i].id == after;
    }
  }

  lemma LiveLast(visits: seq<Visit>, after: int, anchor: Watermark, budget: int, size: Envelope -> nat)
    requires Live(visits, after, anchor, budget, size) && visits != []
    ensures var front, last := visits[..|visits| - 1], visits[|visits| - 1];
            && Live(front, after, anchor, budget, size)
            && (front != [] ==> Grows(front[|front| - 1].items, last.items))
            && Reads(last.items, MarkAfter(front, after), AnchorAfter(front, anchor), last.room, budget, size, last.page)
  {
    hide Reads, Grows;
  }

  /** Received so far plus the page is the front of what is due after growth. */
  lemma Adds(got: seq<Envelope>, page: seq<Envelope>, dueThen: seq<Envelope>, dueAt: seq<Envelope>, more: seq<Envelope>, rest: seq<Envelope>)
    requires got + dueAt == dueThen && dueAt + more == page + rest
    ensures (got + page) + rest == dueThen + more
  {
    assert (got + page) + rest == got + (page + rest);
    assert got + (dueAt + more) == (got + dueAt) + more;
  }

  /** However the store grew and was acknowledged in between, what the client has received is
      exactly the front of what is now due from where it began: none lost, none repeated, in
      order. It is told so exactly when nothing is left. */
  lemma {:induction false} LiveDrains(visits: seq<Visit>, after: int, anchor: Watermark, budget: int, size: Envelope -> nat)
    requires Live(visits, after, anchor, budget, size) && visits != []
    ensures var last := visits[|visits| - 1];
            && last.page.Page? && Ordered(last.items) && At(last.items, after) && At(last.items, last.page.mark)
            && MayResume(last.items, last.page.mark, last.page.anchor)
            && BareAll(Got(visits)) + Due(last.items, last.page.mark) == Due(last.items, after)
            && (last.page.truncated <==> Pending(last.items, last.page.mark) != [])
    decreases |visits|
  {
    hide Live, Pending, Ordered, MayResume, Reads, At, Grows, Due, BareAll;
    LiveLast(visits, after, anchor, budget, size);
    var front, last := visits[..|visits| - 1], visits[|visits| - 1];
    ReadIsAt(last.items, MarkAfter(front, after), AnchorAfter(front, anchor), last.room, budget, size, last.page);
    BareConcat(Got(front), last.page.envs);
    assert Got(visits) == Got(front) + last.page.envs;
    if front != [] {
      LiveDrains(front, after, anchor, budget, size);
      var before := front[|front| - 1];
      DueGrows(before.items, last.items, after);
      DueGrows(before.items, last.items, before.page.mark);
      AtGrows(before.items, last.items, after);
      Adds(BareAll(Got(front)), BareAll(last.page.envs), Due(before.items, after), Due(before.items, before.page.mark),
           Due(last.items[|before.items|..], 0), Due(last.items, last.page.mark));
    } else {
      assert Got(visits) == last.page.envs;
    }
  }

  /** Such a client is never turned away: whatever well-ordered small records were appended
      or acknowledged, the next read succeeds. */
  lemma LiveGoesOn(visits: seq<Visit>, after: int, anchor: Watermark, budget: int, size: Envelope -> nat, items: seq<Item>, room: Room)
    returns (page: Page)
    requires Live(visits, after, anchor, budget, size) && visits != [] && after >= 0
    requires Grows(visits[|visits| - 1].items, items) && Ordered(items) && Small(items, budget, size)
    ensures Live(visits + [Visit(items, room, page)], after, anchor, budget, size)
  {
    hide Pending, Ordered, MayResume, Reads, At, Grows, Due, BareAll, Small, Got;
    var last := visits[|visits| - 1];
    LiveDrains(visits, after, anchor, budget, size);
    LiveMark(visits, after, anchor, budget, size);
    ResumeGrows(last.items, items, last.page.mark, last.page.anchor);
    page := ReadExists(items, last.page.mark, last.page.anchor, room, budget, size);
    var more := visits + [Visit(items, room, page)];
    assert more[..|more| - 1] == visits;
  }

  lemma {:induction false} LiveMark(visits: seq<Visit>, after: int, anchor: Watermark, budget: int, size: Envelope -> nat)
    requires Live(visits, after, anchor, budget, size) && after >= 0
    ensures MarkAfter(visits, after) >= 0
    decreases |visits|
  {
    if visits != [] {
      var front, last := visits[..|visits| - 1], visits[|visits| - 1];
      LiveMark(front, after, anchor, budget, size);
      ReadsMark(last.items, MarkAfter(front, after), AnchorAfter(front, anchor), last.room, budget, size, last.page);
    }
  }

  /** One response to a client, and the two stores it was composed from. */
  datatype Exchange = Exchange(control: seq<Item>, feedback: seq<Item>, pc: Page, pf: Page, response: Inbox)

  function CursorAfter(xs: seq<Exchange>, cur: Cursor): Cursor {
    if xs == [] || xs[|xs| - 1].response.Refused? then cur else xs[|xs| - 1].response.next
  }

  /** The two-store session of a client whose stores grow and are acknowledged meanwhile. */
  ghost predicate LiveSession(xs: seq<Exchange>, room: Room, size: Envelope -> nat, cur: Cursor)
    decreases |xs|
  {
    xs != [] ==>
      var front, last := xs[..|xs| - 1], xs[|xs| - 1];
      && LiveSession(front, room, size, cur)
      && (front != [] ==> Grows(front[|front| - 1].control, last.control) && Grows(front[|front| - 1].feedback, last.feedback))
      && Composed(last.control, last.feedback, CursorAfter(front, cur), room, size, last.pc, last.pf, last.response)
  }

  function ControlVisit(x: Exchange, room: Room): Visit { Visit(x.control, room, x.pc) }

  function FeedbackVisit(x: Exchange, room: Room, size: Envelope -> nat): Visit {
    Visit(x.feedback, if x.pc.Page? then RoomLeft(room, x.pc, Size(x.pc.envs, |x.pc.envs|, size)) else room, x.pf)
  }

  function ControlVisits(xs: seq<Exchange>, room: Room): seq<Visit> {
    if xs == [] then [] else ControlVisits(xs[..|xs| - 1], room) + [ControlVisit(xs[|xs| - 1], room)]
  }

  function FeedbackVisits(xs: seq<Exchange>, room: Room, size: Envelope -> nat): seq<Visit> {
    if xs == [] then [] else FeedbackVisits(xs[..|xs| - 1], room, size) + [FeedbackVisit(xs[|xs| - 1], room, size)]
  }

  lemma {:induction false} SessionIsLive(xs: seq<Exchange>, room: Room, size: Envelope -> nat, cur: Cursor)
    requires LiveSession(xs, room, size, cur)
    ensures Live(ControlVisits(xs, room), cur.control, cur.controlAnchor, room.bytes, size)
    ensures Live(FeedbackVisits(xs, room, size), cur.feedback, cur.feedbackAnchor, room.bytes, size)
    decreases |xs|
  {
    hide Reads, Grows, Size;
    if xs != [] {
      var front := xs[..|xs| - 1];
      LastExchange(xs, room, size, cur);
      SessionIsLive(front, room, size, cur);
      CursorsAgree(front, room, size, cur);
      var c, f := ControlVisits(xs, room), FeedbackVisits(xs, room, size);
      assert c[..|c| - 1] == ControlVisits(front, room) && f[..|f| - 1] == FeedbackVisits(front, room, size);
    }
  }

  lemma CursorsAgree(xs: seq<Exchange>, room: Room, size: Envelope -> nat, cur: Cursor)
    requires LiveSession(xs, room, size, cur)
    ensures MarkAfter(ControlVisits(xs, room), cur.control) == CursorAfter(xs, cur).control
    ensures AnchorAfter(ControlVisits(xs, room), cur.controlAnchor) == CursorAfter(xs, cur).controlAnchor
    ensures MarkAfter(FeedbackVisits(xs, room, size), cur.feedback) == CursorAfter(xs, cur).feedback
    ensures AnchorAfter(FeedbackVisits(xs, room, size), cur.feedbackAnchor) == CursorAfter(xs, cur).feedbackAnchor
  {
    hide Size;
  }

  /** Per store, a client whose stores grow and are acknowledged between its pages has been
      given exactly the front of what is now due to it; when the last response says nothing
      is left, that is everything in both stores. */
  lemma LiveSessionDrains(xs: seq<Exchange>, room: Room, size: Envelope -> nat, cur: Cursor)
    requires LiveSession(xs, room, size, cur) && xs != []
    ensures var last := xs[|xs| - 1];
            var c, f := BareAll(Got(ControlVisits(xs, room))), BareAll(Got(FeedbackVisits(xs, room, size)));
            && last.response.Inbox?
            && c + Due(last.control, last.response.next.control) == Due(last.control, cur.control)
            && f + Due(last.feedback, last.response.next.feedback) == Due(last.feedback, cur.feedback)
            && (!last.response.truncated <==> c == Due(last.control, cur.control) && f == Due(last.feedback, cur.feedback))
  {
    hide Live, Pending, Ordered, MayResume, Reads, Size, Got, LiveSession;
    SessionIsLive(xs, room, size, cur);
    LiveDrains(ControlVisits(xs, room), cur.control, cur.controlAnchor, room.bytes, size);
    LiveDrains(FeedbackVisits(xs, room, size), cur.feedback, cur.feedbackAnchor, room.bytes, size);
    LastExchange(xs, room, size, cur);
  }

  lemma LastExchange(xs: seq<Exchange>, room: Room, size: Envelope -> nat, cur: Cursor)
    requires LiveSession(xs, room, size, cur) && xs != []
    ensures var last := xs[|xs| - 1];
            && last.response.Inbox? && last.pc.Page? && last.pf.Page?
            && last.response.next.control == last.pc.mark && last.response.next.feedback == last.pf.mark
            && (last.response.truncated <==> last.pc.truncated || last.pf.truncated)
  {
    hide Size;
  }
}
