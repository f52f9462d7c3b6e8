/** Bounded paging over the two stores of a mailbox, resumable from a cursor that carries a
    running content watermark per store. */
module MailPaging {
  import opened Text

  /** The rolling prefix digest. A length-prefixed hash is taken to be injective, so a
      digest stands for the exact sequence of field lists folded into it. */
  datatype Watermark = Empty | Fold(prev: Watermark, fields: seq<string>)

  datatype Envelope = Envelope(
    id: string, sequence: int, sender: string, recipient: string, subject: string, body: string,
    timestamp: string, read: bool)

  /** A record as both readers treat it: its number, the content the watermark covers
      (acknowledgement state is not part of it), whether it is addressed to the reader,
      and what would be returned for it. */
  datatype Item = Item(id: int, fields: seq<string>, eligible: bool, env: Envelope)

  datatype Error = Unparseable | Unordered | Rewound | ExceedsBudget | QuarantineFailed

  datatype Page =
    | Page(envs: seq<Envelope>, mark: int, anchor: Watermark, truncated: bool)
    | Fail(error: Error)

  // ----- stores -----

  ghost predicate Ordered(items: seq<Item>) {
    && (forall i :: 0 <= i < |items| ==> items[i].id > 0)
    && (forall i, j :: 0 <= i < j < |items| ==> items[i].id < items[j].id)
  }

  /** The digest of the first n records. */
  function Digest(items: seq<Item>, n: nat): Watermark
    requires n <= |items|
  {
    if n == 0 then Empty else Fold(Digest(items, n - 1), items[n - 1].fields)
  }

  /** The records addressed to the reader that the cursor has not passed. */
  function Pending(items: seq<Item>, after: int): seq<Item> {
    if items == [] then []
    else (if items[0].eligible && items[0].id > after then [items[0]] else []) + Pending(items[1..], after)
  }

  function Envelopes(items: seq<Item>): (envs: seq<Envelope>)
    ensures |envs| == |items|
  {
    seq(|items|, i requires 0 <= i < |items| => items[i].env)
  }

  /** The accounted size of the first n records. */
  function Bytes(items: seq<Item>, n: nat, size: Envelope -> nat): nat
    requires n <= |items|
  {
    if n == 0 then 0 else Bytes(items, n - 1, size) + size(items[n - 1].env)
  }

  lemma {:induction false} DigestPrefix(items: seq<Item>, rest: seq<Item>, n: nat)
    requires n <= |items|
    ensures Digest(items + rest, n) == Digest(items, n)
  {
    if n > 0 { DigestPrefix(items, rest, n - 1); }
  }

  lemma {:induction false} BytesPrefix(items: seq<Item>, rest: seq<Item>, n: nat, size: Envelope -> nat)
    requires n <= |items|
    ensures Bytes(items + rest, n, size) == Bytes(items, n, size)
  {
    if n > 0 { BytesPrefix(items, rest, n - 1, size); }
  }

  // ----- what a page is -----

  /** Record i is the one the cursor names, and everything up to it is what it digested. */
  ghost predicate Names(items: seq<Item>, i: int, after: int, anchor: Watermark) {
    0 <= i < |items| && items[i].id == after && Digest(items, i + 1) == anchor
  }

  /** A cursor may resume when it claims no position, or when the record it names is there
      and the digest of everything up to it is the one the cursor carries. */
  ghost predicate MayResume(items: seq<Item>, after: int, anchor: Watermark) {
    after == 0 || exists i :: Names(items, i, after, anchor)
  }

  /** What a page may spend. */
  datatype Room = Room(limit: int, bytes: int)

  /** The first k records fit the room, and no longer prefix does. */
  ghost predicate Fits(pending: seq<Item>, k: nat, room: Room, size: Envelope -> nat) {
    && k <= |pending|
    && (k == 0 || (k <= room.limit && Bytes(pending, k, size) <= room.bytes))
    && (k == |pending| || k >= room.limit || Bytes(pending, k + 1, size) > room.bytes)
  }

  /** The page that a read of `items` from a cursor returns, with the cursor it hands on. */
  ghost predicate IsPage(items: seq<Item>, after: int, anchor: Watermark, room: Room, size: Envelope -> nat, page: Page) {
    && page.Page?
    && var pending, k := Pending(items, after), |page.envs|;
    && Fits(pending, k, room, size)
    && page.envs == Envelopes(pending[..k])
    && page.truncated == (k < |pending|)
    && (k == 0 ==> page.mark == after && page.anchor == if after > 0 then anchor else Empty)
    && (k > 0 ==> page.mark == pending[k - 1].id && exists i :: Names(items, i, page.mark, page.anchor))
  }

  /** The next record that did not fit could never fit a page of this budget. */
  ghost predicate Stuck(items: seq<Item>, after: int, page: Page, budget: int, size: Envelope -> nat) {
    && page.Page?
    && var pending, k := Pending(items, after), |page.envs|;
    k < |pending| && size(pending[k].env) > budget
  }

  /** A read succeeds with `page`. */
  ghost predicate Reads(items: seq<Item>, after: int, anchor: Watermark, room: Room, budget: int, size: Envelope -> nat, page: Page) {
    && Ordered(items) && MayResume(items, after, anchor)
    && IsPage(items, after, anchor, room, size, page) && !Stuck(items, after, page, budget, size)
  }

  /** The fault each kind of refusal reports is really in the store. */
  ghost predicate Justified(items: seq<Item>, after: int, anchor: Watermark, room: Room, budget: int, size: Envelope -> nat, error: Error) {
    match error
    case Unordered => !Ordered(items)
    case Rewound => !Ordered(items) || !MayResume(items, after, anchor)
    case ExceedsBudget =>
      !Ordered(items) || exists page: Page :: IsPage(items, after, anchor, room, size, page) && Stuck(items, after, page, budget, size)
    case _ => false
  }

  // ----- one more record -----

  lemma {:induction false} PendingAppend(items: seq<Item>, item: Item, after: int)
    ensures Pending(items + [item], after) ==
            Pending(items, after) + (if item.eligible && item.id > after then [item] else [])
  {
    if items == [] {
      assert [item][1..] == [];
    } else {
      var head := if items[0].eligible && items[0].id > after then [items[0]] else [];
      var last := if item.eligible && item.id > after then [item] else [];
      assert (items + [item])[1..] == items[1..] + [item] && (items + [item])[0] == items[0];
      PendingAppend(items[1..], item, after);
      assert Pending(items + [item], after) == head + (Pending(items[1..], after) + last);
      assert Pending(items, after) == head + Pending(items[1..], after);
    }
  }

  lemma {:induction false} PendingFrom(items: seq<Item>, after: int)
    ensures forall x :: x in Pending(items, after) ==> x in items && x.id > after && x.eligible
  {
    if items != [] { PendingFrom(items[1..], after); }
  }

  lemma NamesKept(items: seq<Item>, rest: seq<Item>, i: int, after: int, anchor: Watermark)
    requires i < |items|
    ensures Names(items + rest, i, after, anchor) == Names(items, i, after, anchor)
  {
    if 0 <= i { DigestPrefix(items, rest, i + 1); }
  }

  /** A record that is not for this page, or that finds it full, changes nothing. */
  lemma PageSkips(items: seq<Item>, item: Item, after: int, anchor: Watermark, room: Room, size: Envelope -> nat, page: Page)
    requires IsPage(items, after, anchor, room, size, page)
    requires page.truncated || !item.eligible || item.id <= after
    ensures IsPage(items + [item], after, anchor, room, size, page)
    ensures Pending(items, after) <= Pending(items + [item], after)
  {
    var k, pending := |page.envs|, Pending(items, after);
    PendingAppend(items, item, after);
    var more := if item.eligible && item.id > after then [item] else [];
    BytesPrefix(pending, more, k, size);
    if page.truncated { BytesPrefix(pending, more, k + 1, size); }
    assert (pending + more)[..k] == pending[..k];
    if k > 0 {
      var i :| Names(items, i, page.mark, page.anchor);
      NamesKept(items, [item], i, page.mark, page.anchor);
    }
  }

  /** A record for this page that does not fit closes it. */
  lemma PageCloses(items: seq<Item>, item: Item, after: int, anchor: Watermark, room: Room, size: Envelope -> nat, page: Page)
    requires IsPage(items, after, anchor, room, size, page)
    requires !page.truncated && item.eligible && item.id > after
    requires |page.envs| >= room.limit || Bytes(Pending(items, after), |page.envs|, size) + size(item.env) > room.bytes
    ensures IsPage(items + [item], after, anchor, room, size, page.(truncated := true))
    ensures Pending(items + [item], after) == Pending(items, after) + [item]
  {
    var k, pending := |page.envs|, Pending(items, after);
    PendingAppend(items, item, after);
    BytesPrefix(pending, [item], k, size);
    assert (pending + [item])[..k] == pending[..k];
    if k > 0 {
      var i :| Names(items, i, page.mark, page.anchor);
      NamesKept(items, [item], i, page.mark, page.anchor);
    }
  }

  /** A record for this page that fits is taken. */
  lemma PageTakes(items: seq<Item>, item: Item, after: int, anchor: Watermark, room: Room, size: Envelope -> nat, page: Page)
    requires IsPage(items, after, anchor, room, size, page)
    requires !page.truncated && item.eligible && item.id > after
    requires |page.envs| < room.limit && Bytes(Pending(items, after), |page.envs|, size) + size(item.env) <= room.bytes
    ensures IsPage(items + [item], after, anchor, room, size,
                   Page(page.envs + [item.env], item.id, Digest(items + [item], |items| + 1), false))
    ensures Pending(items + [item], after) == Pending(items, after) + [item]
  {
    var k, pending := |page.envs|, Pending(items, after);
    PendingAppend(items, item, after);
    BytesPrefix(pending, [item], k, size);
    assert (pending + [item])[..k + 1] == pending + [item] && pending[..k] == pending;
    assert Envelopes(pending + [item]) == page.envs + [item.env];
    assert Names(items + [item], |items|, item.id, Digest(items + [item], |items| + 1));
  }

  /** A page that is closed stays the page whatever well-ordered records follow. */
  lemma {:induction false} FullPageStays(items: seq<Item>, rest: seq<Item>, after: int, anchor: Watermark, room: Room,
                                         budget: int, size: Envelope -> nat, page: Page)
    requires IsPage(items, after, anchor, room, size, page) && Stuck(items, after, page, budget, size)
    ensures IsPage(items + rest, after, anchor, room, size, page) && Stuck(items + rest, after, page, budget, size)
  {
    if rest == [] {
      assert items + rest == items;
    } else {
      var front, last := rest[..|rest| - 1], rest[|rest| - 1];
      assert items + rest == (items + front) + [last];
      FullPageStays(items, front, after, anchor, room, budget, size, page);
      PageSkips(items + front, last, after, anchor, room, size, page);
    }
  }

  // ----- the two stores -----

  datatype Feedback = Feedback(
    id: int, from: string, to: string, when: string, summary: string, message: string, readAt: Option<string>)

  /** A line of a store after trimming and decoding. */
  datatype Line<+R> = Blank | Garbage | Record(record: R)

  function FeedbackItem(fb: Feedback): Item {
    Item(fb.id, [Numeral(fb.id), fb.from, fb.to, fb.when, fb.summary, fb.message], true,
         Envelope("feedback-" + Numeral(fb.id), fb.id, fb.from, fb.to, fb.summary, fb.message, fb.when,
                  fb.readAt.Some? && !IsBlank(fb.readAt.value)))
  }

  function ControlRecord(recipient: string, env: Envelope): Item {
    Item(env.sequence, [env.id, Numeral(env.sequence), env.sender, env.recipient, env.subject, env.body, env.timestamp],
         env.recipient == recipient || env.recipient == "all", env)
  }

  function ControlItem(recipient: string): Envelope -> Item {
    (env: Envelope) => ControlRecord(recipient, env)
  }

  /** The records among the first n lines. */
  function Items<R>(lines: seq<Line<R>>, n: nat, toItem: R -> Item): seq<Item>
    requires n <= |lines|
  {
    if n == 0 then []
    else Items(lines, n - 1, toItem) + (if lines[n - 1].Record? then [toItem(lines[n - 1].record)] else [])
  }

  lemma {:induction false} ItemsGrow<R>(lines: seq<Line<R>>, n: nat, m: nat, toItem: R -> Item)
    requires n <= m <= |lines|
    ensures Items(lines, n, toItem) <= Items(lines, m, toItem)
  {
    if n < m { ItemsGrow(lines, n, m - 1, toItem); }
  }

  lemma ItemsAround<R>(lines: seq<Line<R>>, n: nat, toItem: R -> Item) returns (rest: seq<Item>)
    requires n < |lines| && lines[n].Record?
    ensures Items(lines, |lines|, toItem) == Items(lines, n, toItem) + [toItem(lines[n].record)] + rest
  {
    ItemsGrow(lines, n + 1, |lines|, toItem);
    rest := Items(lines, |lines|, toItem)[|Items(lines, n, toItem)| + 1..];
  }

  /** Everything the scan loop maintains. `items` are the records read so far. */
  ghost predicate Scanned(items: seq<Item>, after: int, anchor: Watermark, room: Room, budget: int, size: Envelope -> nat,
                          page: Page, used: int, maxSeen: int, watermark: Watermark, resumeChecked: bool) {
    && Ordered(items)
    && maxSeen == (if items == [] then 0 else items[|items| - 1].id)
    && watermark == Digest(items, |items|)
    && IsPage(items, after, anchor, room, size, page)
    && used == Bytes(Pending(items, after), |page.envs|, size)
    && !Stuck(items, after, page, budget, size)
    && resumeChecked == MayResume(items, after, anchor)
    && (!resumeChecked ==> forall x :: x in items ==> x.id != after)
  }

  lemma OrderedAppend(items: seq<Item>, item: Item)
    requires Ordered(items) && item.id > 0 && (items == [] || items[|items| - 1].id < item.id)
    ensures Ordered(items + [item])
  {
  }

  lemma OrderedFails(items: seq<Item>, item: Item, rest: seq<Item>)
    requires item.id <= 0 || (items != [] && item.id <= items[|items| - 1].id)
    ensures !Ordered(items + [item] + rest)
  {
    var all := items + [item] + rest;
    assert all[|items|] == item;
    if items != [] { assert all[|items| - 1] == items[|items| - 1]; }
  }

  lemma ResumeAppend(items: seq<Item>, item: Item, after: int, anchor: Watermark)
    ensures MayResume(items + [item], after, anchor) <==>
            MayResume(items, after, anchor) || (item.id == after && Digest(items + [item], |items| + 1) == anchor)
  {
    var all := items + [item];
    assert Names(all, |items|, after, anchor) <==> item.id == after && Digest(all, |items| + 1) == anchor;
    forall i | i < |items| ensures Names(all, i, after, anchor) == Names(items, i, after, anchor) {
      NamesKept(items, [item], i, after, anchor);
    }
    hide Names;
    if after != 0 && MayResume(all, after, anchor) {
      var i :| Names(all, i, after, anchor);
      NamedIn(all, i, after, anchor);
      assert i == |items| || Names(items, i, after, anchor);
    }
    if after != 0 && MayResume(items, after, anchor) {
      var i :| Names(items, i, after, anchor);
      NamedIn(items, i, after, anchor);
      assert Names(all, i, after, anchor);
    }
  }

  lemma NamedIn(items: seq<Item>, i: int, after: int, anchor: Watermark)
    requires Names(items, i, after, anchor)
    ensures 0 <= i < |items|
  {
  }

  /** A well-ordered store that names the cursor's record with another digest never resumes. */
  lemma ResumeLost(items: seq<Item>, i: nat, after: int, anchor: Watermark)
    requires Ordered(items) && i < |items| && items[i].id == after && Digest(items, i + 1) != anchor
    ensures !MayResume(items, after, anchor)
  {
    forall j ensures !Names(items, j, after, anchor) {
      if 0 <= j < |items| && j != i { assert items[j].id != items[i].id; }
    }
  }

  lemma DigestNext(items: seq<Item>, item: Item)
    ensures Digest(items + [item], |items| + 1) == Fold(Digest(items, |items|), item.fields)
  {
    DigestPrefix(items, [item], |items|);
  }

  lemma PageCount(items: seq<Item>, after: int, anchor: Watermark, room: Room, size: Envelope -> nat, page: Page)
    requires IsPage(items, after, anchor, room, size, page)
    ensures page.Page? && |page.envs| <= |Pending(items, after)| && (page.truncated <==> |page.envs| < |Pending(items, after)|)
  {
  }

  lemma SkipKeepsScanned(items: seq<Item>, item: Item, after: int, anchor: Watermark, room: Room, budget: int, size: Envelope -> nat,
                         page: Page, used: int, maxSeen: int, watermark: Watermark, resumeChecked: bool)
    requires Scanned(items, after, anchor, room, budget, size, page, used, maxSeen, watermark, resumeChecked)
    requires Ordered(items + [item])
    requires !item.eligible || item.id <= after || page.truncated
    requires item.id == after ==> Fold(watermark, item.fields) == anchor
    ensures Scanned(items + [item], after, anchor, room, budget, size, page, used, item.id, Fold(watermark, item.fields),
                    resumeChecked || item.id == after)
  {
    hide IsPage, MayResume, Ordered, Pending, Digest, Bytes;
    PageCount(items, after, anchor, room, size, page);
    PageSkips(items, item, after, anchor, room, size, page);
    PageCount(items + [item], after, anchor, room, size, page);
    ResumeAppend(items, item, after, anchor);
    DigestNext(items, item);
    var more := Pending(items + [item], after)[|Pending(items, after)|..];
    assert Pending(items + [item], after) == Pending(items, after) + more;
    BytesPrefix(Pending(items, after), more, |page.envs|, size);
  }

  lemma CloseKeepsScanned(items: seq<Item>, item: Item, after: int, anchor: Watermark, room: Room, budget: int, size: Envelope -> nat,
                          page: Page, used: int, maxSeen: int, watermark: Watermark, resumeChecked: bool)
    requires Scanned(items, after, anchor, room, budget, size, page, used, maxSeen, watermark, resumeChecked)
    requires Ordered(items + [item]) && item.eligible && item.id > after && !page.truncated
    requires size(item.env) <= budget && (|page.envs| >= room.limit || used + size(item.env) > room.bytes)
    ensures Scanned(items + [item], after, anchor, room, budget, size, page.(truncated := true), used, item.id,
                    Fold(watermark, item.fields), resumeChecked)
  {
    hide IsPage, MayResume, Ordered, Pending, Digest, Bytes;
    PageCount(items, after, anchor, room, size, page);
    PageCloses(items, item, after, anchor, room, size, page);
    ResumeAppend(items, item, after, anchor);
    DigestNext(items, item);
    BytesPrefix(Pending(items, after), [item], |page.envs|, size);
  }

  lemma TakeKeepsScanned(items: seq<Item>, item: Item, after: int, anchor: Watermark, room: Room, budget: int, size: Envelope -> nat,
                         page: Page, used: int, maxSeen: int, watermark: Watermark, resumeChecked: bool)
    requires Scanned(items, after, anchor, room, budget, size, page, used, maxSeen, watermark, resumeChecked)
    requires Ordered(items + [item]) && item.eligible && item.id > after && !page.truncated
    requires |page.envs| < room.limit && used + size(item.env) <= room.bytes
    ensures Scanned(items + [item], after, anchor, room, budget, size,
                    Page(page.envs + [item.env], item.id, Fold(watermark, item.fields), false), used + size(item.env), item.id,
                    Fold(watermark, item.fields), resumeChecked)
  {
    hide IsPage, MayResume, Ordered, Pending, Digest;
    PageCount(items, after, anchor, room, size, page);
    PageTakes(items, item, after, anchor, room, size, page);
    ResumeAppend(items, item, after, anchor);
    DigestNext(items, item);
    BytesPrefix(Pending(items, after), [item], |page.envs|, size);
  }

  lemma RewoundJustified(items: seq<Item>, item: Item, rest: seq<Item>, after: int, anchor: Watermark)
    requires item.id == after && Fold(Digest(items, |items|), item.fields) != anchor
    ensures !Ordered(items + [item] + rest) || !MayResume(items + [item] + rest, after, anchor)
  {
    DigestNext(items, item);
    DigestPrefix(items + [item], rest, |items| + 1);
    if Ordered(items + [item] + rest) {
      ResumeLost(items + [item] + rest, |items|, after, anchor);
    }
  }

  lemma ExceedsJustified(items: seq<Item>, item: Item, rest: seq<Item>, after: int, anchor: Watermark, room: Room,
                         budget: int, size: Envelope -> nat, page: Page)
    requires IsPage(items, after, anchor, room, size, page) && room.bytes <= budget
    requires !page.truncated && item.eligible && item.id > after && size(item.env) > budget
    ensures Justified(items + [item] + rest, after, anchor, room, budget, size, ExceedsBudget)
  {
    PageCloses(items, item, after, anchor, room, size, page);
    FullPageStays(items + [item], rest, after, anchor, room, budget, size, page.(truncated := true));
  }

  /** The scan both readers share, one record at a time: the state after `item` when it is
      acceptable, the refusal otherwise. `rest` is what is still to be read. */
  method ScanRecord(ghost items: seq<Item>, item: Item, ghost rest: seq<Item>, after: int, anchor: Watermark, room: Room,
                    budget: int, size: Envelope -> nat, page: Page, used: int, maxSeen: int, watermark: Watermark,
                    resumeChecked: bool)
    returns (page': Page, used': int, watermark': Watermark, resumeChecked': bool)
    requires after >= 0 && room.bytes <= budget
    requires Scanned(items, after, anchor, room, budget, size, page, used, maxSeen, watermark, resumeChecked)
    ensures page'.Page? ==> Scanned(items + [item], after, anchor, room, budget, size, page', used', item.id, watermark', resumeChecked')
    ensures page'.Fail? ==>
              && (page'.error.Unordered? || page'.error.Rewound? || page'.error.ExceedsBudget?)
              && Justified(items + [item] + rest, after, anchor, room, budget, size, page'.error)
  {
    hide IsPage, MayResume, Stuck, Pending, Bytes, Digest;
    PageCount(items, after, anchor, room, size, page);
    page', used', resumeChecked' := page, used, resumeChecked;
    watermark' := Fold(watermark, item.fields);
    if item.id <= 0 || (maxSeen > 0 && item.id <= maxSeen) {
      OrderedFails(items, item, rest);
      return Fail(Unordered), used', watermark', resumeChecked';
    }
    OrderedAppend(items, item);
    if item.id == after {
      if anchor != watermark' {
        RewoundJustified(items, item, rest, after, anchor);
        return Fail(Rewound), used', watermark', resumeChecked';
      }
      resumeChecked' := true;
    }
    if !item.eligible || item.id <= after || page.truncated {
      SkipKeepsScanned(items, item, after, anchor, room, budget, size, page, used, maxSeen, watermark, resumeChecked);
      return;
    }
    var need := size(item.env);
    if need > budget {
      ExceedsJustified(items, item, rest, after, anchor, room, budget, size, page);
      return Fail(ExceedsBudget), used', watermark', resumeChecked';
    }
    if |page.envs| >= room.limit || used + need > room.bytes {
      CloseKeepsScanned(items, item, after, anchor, room, budget, size, page, used, maxSeen, watermark, resumeChecked);
      page' := page.(truncated := true);
      return;
    }
    TakeKeepsScanned(items, item, after, anchor, room, budget, size, page, used, maxSeen, watermark, resumeChecked);
    page' := Page(page.envs + [item.env], item.id, watermark', false);
    used' := used + need;
  }

  // ----- the readers -----

  /** The records of a whole store; an absent one has none. */
  function Store<R>(store: Option<seq<Line<R>>>, toItem: R -> Item): seq<Item> {
    if store.Some? then Items(store.value, |store.value|, toItem) else []
  }

  lemma StartScanned(after: int, anchor: Watermark, room: Room, budget: int, size: Envelope -> nat)
    ensures Scanned([], after, anchor, room, budget, size, Page([], after, if after > 0 then anchor else Empty, false), 0, 0, Empty, after == 0)
  {
  }

  lemma EndScanned(items: seq<Item>, after: int, anchor: Watermark, room: Room, budget: int, size: Envelope -> nat,
                   page: Page, used: int, maxSeen: int, watermark: Watermark, resumeChecked: bool)
    requires Scanned(items, after, anchor, room, budget, size, page, used, maxSeen, watermark, resumeChecked)
    ensures page.Page? && used == Size(page.envs, |page.envs|, size)
    ensures resumeChecked ==> Reads(items, after, anchor, room, budget, size, page)
    ensures !resumeChecked ==> Justified(items, after, anchor, room, budget, size, Rewound)
  {
    PageSize(items, after, anchor, room, size, page);
  }

  /** The feedback store is read to its end even when the page is full: one undecodable or
      out-of-order record anywhere refuses the page. */
  method ReadFeedback(store: Option<seq<Line<Feedback>>>, after: int, anchor: Watermark, room: Room, budget: int, size: Envelope -> nat)
    returns (page: Page)
    requires after >= 0 && room.bytes <= budget
    ensures page.Page? ==> (store.Some? ==> Garbage !in store.value)
                           && Reads(Store(store, FeedbackItem), after, anchor, room, budget, size, page)
    ensures page.Page? && store.Some? ==>
              var due := Delivered(store.value, |store.value|, after);
              page.envs <= due && (page.truncated <==> |page.envs| < |due|)
    ensures page == Fail(Unparseable) ==> store.Some? && Garbage in store.value
    ensures page.Fail? && page.error != Unparseable ==>
              Justified(Store(store, FeedbackItem), after, anchor, room, budget, size, page.error)
  {
    hide Scanned, Reads, Justified;
    StartScanned(after, anchor, room, budget, size);
    EndScanned([], after, anchor, room, budget, size, Page([], after, if after > 0 then anchor else Empty, false), 0, 0, Empty, after == 0);
    if store.None? {
      return if after > 0 then Fail(Rewound) else Page([], after, Empty, false);
    }
    var lines := store.value;
    page := Page([], after, if after > 0 then anchor else Empty, false);
    var used, maxSeen, watermark, resumeChecked := 0, 0, Empty, after == 0;
    ghost var seen: seq<Item> := [];
    for n := 0 to |lines|
      invariant Garbage !in lines[..n] && page.Page?
      invariant seen == Items(lines, n, FeedbackItem)
      invariant Scanned(seen, after, anchor, room, budget, size, page, used, maxSeen, watermark, resumeChecked)
    {
      if lines[n].Blank? {
        continue;
      }
      if lines[n].Garbage? {
        return Fail(Unparseable);
      }
      var item := FeedbackItem(lines[n].record);
      ghost var rest := ItemsAround(lines, n, FeedbackItem);
      page, used, watermark, resumeChecked :=
        ScanRecord(seen, item, rest, after, anchor, room, budget, size, page, used, maxSeen, watermark, resumeChecked);
      if page.Fail? {
        return;
      }
      maxSeen := item.id;
      seen := seen + [item];
    }
    EndScanned(seen, after, anchor, room, budget, size, page, used, maxSeen, watermark, resumeChecked);
    if !resumeChecked {
      return Fail(Rewound);
    }
    PageIsFront(seen, after, anchor, room, budget, size, page);
    FeedbackPending(lines, |lines|, after);
  }

  /** Some undecodable line among the first n could not be quarantined. */
  ghost predicate LinesLost(lines: seq<Line<Envelope>>, n: nat, quarantined: nat -> bool)
    requires n <= |lines|
  {
    n > 0 && (LinesLost(lines, n - 1, quarantined) || (lines[n - 1].Garbage? && !quarantined(n - 1)))
  }

  /** The control mailbox. An undecodable line is quarantined instead; `quarantined(n)` says
      whether writing line n away succeeded. */
  method ReadControl(store: Option<seq<Line<Envelope>>>, recipient: string, after: int, anchor: Watermark, room: Room,
                     size: Envelope -> nat, quarantined: nat -> bool)
    returns (page: Page, used: int)
    requires after >= 0
    ensures page.Page? ==>
              Reads(Store(store, ControlItem(recipient)), after, anchor, room, room.bytes, size, page)
    ensures page.Page? && store.Some? ==>
              var due := Addressed(store.value, |store.value|, recipient, after);
              page.envs <= due && (page.truncated <==> |page.envs| < |due|)
    ensures page.Page? ==> used == Size(page.envs, |page.envs|, size)
    ensures page.Fail? && page.error != QuarantineFailed ==>
              Justified(Store(store, ControlItem(recipient)), after, anchor, room, room.bytes, size, page.error)
    ensures page.Page? && store.Some? ==> !LinesLost(store.value, |store.value|, quarantined)
    ensures page == Fail(QuarantineFailed) ==> store.Some? && LinesLost(store.value, |store.value|, quarantined)
  {
    hide Scanned, Reads, Justified;
    used := 0;
    var toItem := ControlItem(recipient);
    StartScanned(after, anchor, room, room.bytes, size);
    EndScanned([], after, anchor, room, room.bytes, size, Page([], after, if after > 0 then anchor else Empty, false), 0, 0, Empty, after == 0);
    if store.None? {
      page := if after > 0 then Fail(Rewound) else Page([], after, Empty, false);
      return;
    }
    var lines := store.value;
    page := Page([], after, if after > 0 then anchor else Empty, false);
    var maxSeen, watermark, resumeChecked := 0, Empty, after == 0;
    var failures := 0;
    ghost var seen: seq<Item> := [];
    for n := 0 to |lines|
      invariant page.Page? && failures >= 0
      invariant failures > 0 <==> LinesLost(lines, n, quarantined)
      invariant seen == Items(lines, n, toItem)
      invariant Scanned(seen, after, anchor, room, room.bytes, size, page, used, maxSeen, watermark, resumeChecked)
    {
      if lines[n].Blank? {
        continue;
      }
      if lines[n].Garbage? {
        if !quarantined(n) {
          failures := failures + 1;
        }
        continue;
      }
      var item := toItem(lines[n].record);
      ghost var rest := ItemsAround(lines, n, toItem);
      page, used, watermark, resumeChecked :=
        ScanRecord(seen, item, rest, after, anchor, room, room.bytes, size, page, used, maxSeen, watermark, resumeChecked);
      if page.Fail? {
        return;
      }
      maxSeen := item.id;
      seen := seen + [item];
    }
    EndScanned(seen, after, anchor, room, room.bytes, size, page, used, maxSeen, watermark, resumeChecked);
    if failures > 0 {
      return Fail(QuarantineFailed), used;
    }
    if !resumeChecked {
      return Fail(Rewound), used;
    }
    PageIsFront(seen, after, anchor, room, room.bytes, size, page);
    ControlPending(lines, |lines|, recipient, after);
  }

  // ----- one page over both stores -----

  const DEFAULT_LIMIT := 100
  const DEFAULT_MAX_BYTES := 0x10_0000
  const DEFAULT_TIMEOUT := 30_000_000_000
  const MAX_LIMIT := 10000
  const MAX_PAGE_BYTES := 0x200_0000
  const MAX_TIMEOUT := 600_000_000_000

  /** The paging flags of one request, the timeout in nanoseconds. */
  class Request {
    var limit: int
    var maxBytes: int
    var timeout: int

    constructor (limit: int, maxBytes: int, timeout: int)
      ensures this.limit == limit && this.maxBytes == maxBytes && this.timeout == timeout
    {
      this.limit, this.maxBytes, this.timeout := limit, maxBytes, timeout;
    }

    /** Zero means the default; anything negative or above its maximum is refused, so an
        accepted request always bounds its page. */
    method Validate() returns (ok: bool)
      modifies this
      ensures ok <==> 0 <= old(limit) <= 10_000 && 0 <= old(maxBytes) <= 0x200_0000 && 0 <= old(timeout) <= 600_000_000_000
      ensures ok ==> limit == (if old(limit) == 0 then 100 else old(limit))
      ensures ok ==> maxBytes == (if old(maxBytes) == 0 then 0x10_0000 else old(maxBytes))
      ensures ok ==> timeout == (if old(timeout) == 0 then 30_000_000_000 else old(timeout))
    {
      if limit < 0 || maxBytes < 0 || timeout < 0 {
        return false;
      }
      if limit == 0 {
        limit := DEFAULT_LIMIT;
      }
      if maxBytes == 0 {
        maxBytes := DEFAULT_MAX_BYTES;
      }
      if timeout == 0 {
        timeout := DEFAULT_TIMEOUT;
      }
      ok := limit <= MAX_LIMIT && maxBytes <= MAX_PAGE_BYTES && timeout <= MAX_TIMEOUT;
    }
  }

  /** A position in each store, bound to the recipient and the stores it was issued for. */
  datatype Cursor = Cursor(control: nat, controlAnchor: Watermark, feedback: nat, feedbackAnchor: Watermark)

  datatype Inbox =
    | Inbox(envs: seq<Envelope>, next: Cursor, truncated: bool, retained: int)
    | Refused(errors: seq<Error>)

  function RoomLeft(room: Room, page: Page, used: int): Room
    requires page.Page?
  {
    if page.truncated then Room(0, 0) else Room(room.limit - |page.envs|, room.bytes - used)
  }

  function Size(envs: seq<Envelope>, n: nat, size: Envelope -> nat): nat
    requires n <= |envs|
  {
    if n == 0 then 0 else Size(envs, n - 1, size) + size(envs[n - 1])
  }

  lemma {:induction false} SizeOfItems(items: seq<Item>, envs: seq<Envelope>, n: nat, size: Envelope -> nat)
    requires n <= |items| && n <= |envs| && envs[..n] == Envelopes(items[..n])
    ensures Size(envs, n, size) == Bytes(items, n, size)
  {
    if n > 0 {
      assert items[..n][..n - 1] == items[..n - 1] && envs[..n][..n - 1] == envs[..n - 1];
      assert envs[..n - 1] == Envelopes(items[..n - 1]);
      assert envs[n - 1] == envs[..n][n - 1] == Envelopes(items[..n])[n - 1] == items[n - 1].env;
      SizeOfItems(items, envs, n - 1, size);
    }
  }

  lemma {:induction false} SizeConcat(left: seq<Envelope>, right: seq<Envelope>, n: nat, size: Envelope -> nat)
    requires n <= |right|
    ensures Size(left + right, |left| + n, size) == Size(left, |left|, size) + Size(right, n, size)
  {
    if n > 0 {
      SizeConcat(left, right, n - 1, size);
    } else {
      SizePrefix(left, right, |left|, size);
    }
  }

  lemma {:induction false} SizePrefix(left: seq<Envelope>, right: seq<Envelope>, n: nat, size: Envelope -> nat)
    requires n <= |left|
    ensures Size(left + right, n, size) == Size(left, n, size)
  {
    if n > 0 { SizePrefix(left, right, n - 1, size); }
  }

  lemma PageSize(items: seq<Item>, after: int, anchor: Watermark, room: Room, size: Envelope -> nat, page: Page)
    requires IsPage(items, after, anchor, room, size, page)
    ensures Size(page.envs, |page.envs|, size) == Bytes(Pending(items, after), |page.envs|, size)
    ensures page.envs != [] ==> |page.envs| <= room.limit && Size(page.envs, |page.envs|, size) <= room.bytes
  {
    assert page.envs[..|page.envs|] == page.envs;
    SizeOfItems(Pending(items, after), page.envs, |page.envs|, size);
  }

  /** One response: a page of each store, the control page first and charged first. */
  ghost predicate Composed(ci: seq<Item>, fi: seq<Item>, cur: Cursor, room: Room, size: Envelope -> nat, pc: Page, pf: Page, r: Inbox) {
    && Reads(ci, cur.control, cur.controlAnchor, room, room.bytes, size, pc)
    && Reads(fi, cur.feedback, cur.feedbackAnchor, RoomLeft(room, pc, Size(pc.envs, |pc.envs|, size)), room.bytes, size, pf)
    && pc.mark >= 0 && pf.mark >= 0
    && r == Inbox(pc.envs + pf.envs, Cursor(pc.mark, pc.anchor, pf.mark, pf.anchor), pc.truncated || pf.truncated,
                  Size(pc.envs, |pc.envs|, size) + Size(pf.envs, |pf.envs|, size))
  }

  ghost predicate IsInbox(ci: seq<Item>, fi: seq<Item>, cur: Cursor, room: Room, size: Envelope -> nat, r: Inbox) {
    exists pc, pf :: Composed(ci, fi, cur, room, size, pc, pf, r)
  }

  lemma MarkNatural(items: seq<Item>, after: int, anchor: Watermark, room: Room, size: Envelope -> nat, page: Page)
    requires IsPage(items, after, anchor, room, size, page) && after >= 0
    ensures page.mark >= after
  {
    PendingFrom(items, after);
    if page.envs != [] {
      assert Pending(items, after)[|page.envs| - 1] in Pending(items, after);
    }
  }

  lemma ReadsMark(items: seq<Item>, after: int, anchor: Watermark, room: Room, budget: int, size: Envelope -> nat, page: Page)
    requires Reads(items, after, anchor, room, budget, size, page) && after >= 0
    ensures page.Page? && page.mark >= 0
  {
    MarkNatural(items, after, anchor, room, size, page);
  }

  // ----- a read has at most one outcome -----

  lemma {:induction false} BytesMonotone(items: seq<Item>, m: nat, n: nat, size: Envelope -> nat)
    requires m <= n <= |items|
    ensures Bytes(items, m, size) <= Bytes(items, n, size)
  {
    if m < n { BytesMonotone(items, m, n - 1, size); }
  }

  lemma FitsAtMost(pending: seq<Item>, k: nat, k': nat, room: Room, size: Envelope -> nat)
    requires Fits(pending, k, room, size) && Fits(pending, k', room, size)
    ensures k' <= k
  {
    if k < k' { BytesMonotone(pending, k + 1, k', size); }
  }

  lemma PageUnique(items: seq<Item>, after: int, anchor: Watermark, room: Room, size: Envelope -> nat, page: Page, page': Page)
    requires Ordered(items)
    requires IsPage(items, after, anchor, room, size, page) && IsPage(items, after, anchor, room, size, page')
    ensures page == page'
  {
    var pending := Pending(items, after);
    FitsAtMost(pending, |page.envs|, |page'.envs|, room, size);
    FitsAtMost(pending, |page'.envs|, |page.envs|, room, size);
    if |page.envs| > 0 {
      var i :| Names(items, i, page.mark, page.anchor);
      var j :| Names(items, j, page'.mark, page'.anchor);
      assert i == j;
    }
  }

  /** A justified refusal and a successful read exclude each other. */
  lemma RefusalIsFinal(items: seq<Item>, after: int, anchor: Watermark, room: Room, budget: int, size: Envelope -> nat, error: Error, page: Page)
    requires Justified(items, after, anchor, room, budget, size, error)
    ensures !Reads(items, after, anchor, room, budget, size, page)
  {
    if error == ExceedsBudget && Reads(items, after, anchor, room, budget, size, page) {
      var stuck :| IsPage(items, after, anchor, room, size, stuck) && Stuck(items, after, stuck, budget, size);
      PageUnique(items, after, anchor, room, size, stuck, page);
    }
  }

  lemma NoInboxWithoutControl(ci: seq<Item>, fi: seq<Item>, cur: Cursor, room: Room, size: Envelope -> nat, error: Error)
    requires Justified(ci, cur.control, cur.controlAnchor, room, room.bytes, size, error)
    ensures forall r :: !IsInbox(ci, fi, cur, room, size, r)
  {
    forall pc: Page ensures !Reads(ci, cur.control, cur.controlAnchor, room, room.bytes, size, pc) {
      RefusalIsFinal(ci, cur.control, cur.controlAnchor, room, room.bytes, size, error, pc);
    }
  }

  lemma NoInboxWithoutFeedback(ci: seq<Item>, fi: seq<Item>, cur: Cursor, room: Room, size: Envelope -> nat, pc: Page, error: Error)
    requires Reads(ci, cur.control, cur.controlAnchor, room, room.bytes, size, pc)
    requires Justified(fi, cur.feedback, cur.feedbackAnchor, RoomLeft(room, pc, Size(pc.envs, |pc.envs|, size)), room.bytes, size, error)
    ensures forall r :: !IsInbox(ci, fi, cur, room, size, r)
  {
    forall pc': Page, pf: Page, r: Inbox ensures !Composed(ci, fi, cur, room, size, pc', pf, r) {
      if Composed(ci, fi, cur, room, size, pc', pf, r) {
        PageUnique(ci, cur.control, cur.controlAnchor, room, size, pc, pc');
        RefusalIsFinal(fi, cur.feedback, cur.feedbackAnchor, RoomLeft(room, pc, Size(pc.envs, |pc.envs|, size)), room.bytes, size, error, pf);
      }
    }
  }

  ghost predicate Undecodable(feedback: Option<seq<Line<Feedback>>>) {
    feedback.Some? && Garbage in feedback.value
  }

  ghost predicate Unquarantined(control: Option<seq<Line<Envelope>>>, quarantined: nat -> bool) {
    control.Some? && LinesLost(control.value, |control.value|, quarantined)
  }

  /** Both stores are read, the feedback store even when the control read failed or filled
      the page. There is a response exactly when no feedback line is undecodable, every
      undecodable control line was quarantined, and both stores have a page to give. */
  method ReadInbox(control: Option<seq<Line<Envelope>>>, feedback: Option<seq<Line<Feedback>>>, recipient: string, cur: Cursor,
                   room: Room, size: Envelope -> nat, quarantined: nat -> bool)
    returns (r: Inbox)
    requires room.limit > 0 && room.bytes > 0
    ensures var ci, fi := Store(control, ControlItem(recipient)), Store(feedback, FeedbackItem);
            && (r.Inbox? ==> IsInbox(ci, fi, cur, room, size, r) && !Undecodable(feedback) && !Unquarantined(control, quarantined))
            && (r.Refused? ==> Undecodable(feedback) || Unquarantined(control, quarantined)
                               || forall r' :: !IsInbox(ci, fi, cur, room, size, r'))
  {
    hide Reads, Justified, IsPage, IsInbox;
    ghost var ci, fi := Store(control, ControlItem(recipient)), Store(feedback, FeedbackItem);
    var page, used := ReadControl(control, recipient, cur.control, cur.controlAnchor, room, size, quarantined);
    var left := if page.Page? then RoomLeft(room, page, used) else Room(0, 0);
    assert left.bytes <= room.bytes;
    var fb := ReadFeedback(feedback, cur.feedback, cur.feedbackAnchor, left, room.bytes, size);
    if page.Fail? {
      if page.error != QuarantineFailed {
        NoInboxWithoutControl(ci, fi, cur, room, size, page.error);
      }
      return Refused([page.error] + if fb.Fail? then [fb.error] else []);
    }
    if fb.Fail? {
      if fb.error != Unparseable {
        NoInboxWithoutFeedback(ci, fi, cur, room, size, page, fb.error);
      }
      return Refused([fb.error]);
    }
    var retained := used;
    for n := 0 to |fb.envs|
      invariant retained == used + Size(fb.envs, n, size)
    {
      retained := retained + size(fb.envs[n]);
    }
    ReadsMark(ci, cur.control, cur.controlAnchor, room, room.bytes, size, page);
    ReadsMark(fi, cur.feedback, cur.feedbackAnchor, left, room.bytes, size, fb);
    r := Inbox(page.envs + fb.envs, Cursor(page.mark, page.anchor, fb.mark, fb.anchor), page.truncated || fb.truncated, retained);
    ComposedIsInbox(ci, fi, cur, room, size, page, fb, r);
  }

  lemma ComposedIsInbox(ci: seq<Item>, fi: seq<Item>, cur: Cursor, room: Room, size: Envelope -> nat, pc: Page, pf: Page, r: Inbox)
    requires Composed(ci, fi, cur, room, size, pc, pf, r)
    ensures IsInbox(ci, fi, cur, room, size, r)
  {
  }

  // ----- draining -----

  lemma {:induction false} PendingSame(items: seq<Item>, a: int, b: int)
    requires forall x :: x in items ==> x.id > a && x.id > b
    ensures Pending(items, a) == Pending(items, b)
  {
    if items != [] { PendingSame(items[1..], a, b); }
  }

  lemma OrderedTail(items: seq<Item>)
    requires Ordered(items) && items != []
    ensures Ordered(items[1..])
    ensures forall x :: x in items[1..] ==> x.id > items[0].id
  {
    assert forall i :: 0 <= i < |items[1..]| ==> items[1..][i] == items[i + 1];
  }

  lemma PendingStep(items: seq<Item>, after: int)
    requires items != []
    ensures Pending(items, after) ==
            if items[0].eligible && items[0].id > after then [items[0]] + Pending(items[1..], after) else Pending(items[1..], after)
  {
  }

  /** What is pending behind the first record lies behind it and behind the cursor. */
  lemma PendingBehind(items: seq<Item>, after: int, j: nat)
    requires Ordered(items) && items != [] && j < |Pending(items[1..], after)|
    ensures Pending(items[1..], after)[j].id > items[0].id && Pending(items[1..], after)[j].id > after
  {
    hide Pending, Ordered;
    OrderedTail(items);
    PendingFrom(items[1..], after);
    assert Pending(items[1..], after)[j] in Pending(items[1..], after);
  }

  lemma PendingBehindHead(items: seq<Item>, after: int)
    requires Ordered(items) && items != [] && items[0].id > after
    ensures Pending(items[1..], items[0].id) == Pending(items[1..], after)
  {
    hide Pending, Ordered;
    OrderedTail(items);
    PendingSame(items[1..], items[0].id, after);
  }

  /** The step of `PendingAdvances` over a first record that is not pending. */
  lemma AdvancesPastSkipped(items: seq<Item>, after: int, k: nat)
    requires Ordered(items) && items != [] && (!items[0].eligible || items[0].id <= after)
    requires 0 < k <= |Pending(items[1..], after)|
    requires Pending(items[1..], Pending(items[1..], after)[k - 1].id) == Pending(items[1..], after)[k..]
    ensures Pending(items, after) == Pending(items[1..], after)
    ensures Pending(items, Pending(items, after)[k - 1].id) == Pending(items, after)[k..]
  {
    hide Ordered, Pending;
    PendingBehind(items, after, k - 1);
    PendingStep(items, after);
    PendingStep(items, Pending(items[1..], after)[k - 1].id);
  }

  /** The step over a first record that is pending. */
  lemma AdvancesPastTaken(items: seq<Item>, after: int, k: nat)
    requires Ordered(items) && items != [] && items[0].eligible && items[0].id > after
    requires 0 < k <= |Pending(items[1..], after)|
    requires Pending(items[1..], Pending(items[1..], after)[k - 1].id) == Pending(items[1..], after)[k..]
    ensures Pending(items, after) == [items[0]] + Pending(items[1..], after)
    ensures Pending(items, Pending(items, after)[k].id) == Pending(items, after)[k + 1..]
  {
    hide Ordered, Pending;
    var rest := Pending(items[1..], after);
    PendingBehind(items, after, k - 1);
    PendingStep(items, after);
    PendingStep(items, rest[k - 1].id);
    assert ([items[0]] + rest)[k] == rest[k - 1] && ([items[0]] + rest)[k + 1..] == rest[k..];
  }

  lemma AdvancesToFirst(items: seq<Item>, after: int)
    requires Ordered(items) && items != [] && items[0].eligible && items[0].id > after
    ensures Pending(items, after) == [items[0]] + Pending(items[1..], after)
    ensures Pending(items, items[0].id) == Pending(items, after)[1..]
  {
    hide Ordered, Pending;
    PendingStep(items, after);
    PendingStep(items, items[0].id);
    PendingBehindHead(items, after);
  }

  lemma {:induction false} PendingAdvances(items: seq<Item>, after: int, k: nat)
    requires Ordered(items) && 0 < k <= |Pending(items, after)|
    ensures Pending(items, Pending(items, after)[k - 1].id) == Pending(items, after)[k..]
  {
    assert items != [];
    hide *;
    OrderedTail(items);
    PendingStep(items, after);
    if !items[0].eligible || items[0].id <= after {
      PendingAdvances(items[1..], after, k);
      AdvancesPastSkipped(items, after, k);
    } else if k == 1 {
      AdvancesToFirst(items, after);
    } else {
      PendingAdvances(items[1..], after, k - 1);
      AdvancesPastTaken(items, after, k - 1);
    }
  }

  /** The cursor a page hands on leaves exactly the records it did not return. */
  lemma PageAdvances(items: seq<Item>, after: int, anchor: Watermark, room: Room, size: Envelope -> nat, page: Page)
    requires Ordered(items) && IsPage(items, after, anchor, room, size, page)
    ensures Pending(items, page.mark) == Pending(items, after)[|page.envs|..]
    ensures Envelopes(Pending(items, after)) == page.envs + Envelopes(Pending(items, page.mark))
  {
    hide Ordered;
    if page.envs != [] {
      PendingAdvances(items, after, |page.envs|);
    }
  }

  /** All that draining needs to know of one successful read. */
  lemma ReadFacts(items: seq<Item>, after: int, anchor: Watermark, room: Room, budget: int, size: Envelope -> nat, page: Page)
    requires Reads(items, after, anchor, room, budget, size, page)
    ensures page.Page? && Ordered(items) && MayResume(items, page.mark, page.anchor)
    ensures Envelopes(Pending(items, after)) == page.envs + Envelopes(Pending(items, page.mark))
    ensures page.truncated <==> Pending(items, page.mark) != []
    ensures page.envs != [] ==> |page.envs| <= room.limit && Size(page.envs, |page.envs|, size) <= room.bytes
  {
    PageAdvances(items, after, anchor, room, size, page);
    PageSize(items, after, anchor, room, size, page);
  }

  /** Every response stays within the shared limit and byte budget, reports the exact size
      of what it returns, and returns no feedback while control records are left. */
  lemma InboxWithinBudget(ci: seq<Item>, fi: seq<Item>, cur: Cursor, room: Room, size: Envelope -> nat, r: Inbox)
    requires room.limit > 0 && room.bytes > 0 && IsInbox(ci, fi, cur, room, size, r)
    ensures |r.envs| <= room.limit && r.retained <= room.bytes
    ensures r.retained == Size(r.envs, |r.envs|, size)
    ensures Pending(ci, r.next.control) != [] ==> r.envs <= Envelopes(Pending(ci, cur.control))
  {
    hide Reads, Ordered, MayResume, Pending, Envelopes;
    var pc, pf :| Composed(ci, fi, cur, room, size, pc, pf, r);
    ReadFacts(ci, cur.control, cur.controlAnchor, room, room.bytes, size, pc);
    var left := RoomLeft(room, pc, Size(pc.envs, |pc.envs|, size));
    ReadFacts(fi, cur.feedback, cur.feedbackAnchor, left, room.bytes, size, pf);
    SizeConcat(pc.envs, pf.envs, |pf.envs|, size);
    if pc.truncated {
      assert pf.envs == [];
      assert r.envs == pc.envs;
    }
  }

  /** A page that leaves something behind had no room for the next record. */
  lemma PageIsFull(items: seq<Item>, after: int, anchor: Watermark, room: Room, budget: int, size: Envelope -> nat, page: Page)
    requires Reads(items, after, anchor, room, budget, size, page) && page.truncated
    ensures Pending(items, page.mark) != []
    ensures |page.envs| >= room.limit || Size(page.envs, |page.envs|, size) + size(Pending(items, page.mark)[0].env) > room.bytes
  {
    PageAdvances(items, after, anchor, room, size, page);
    PageSize(items, after, anchor, room, size, page);
    hide Pending, Ordered, MayResume;
    var k := |page.envs|;
    assert Pending(items, page.mark)[0] == Pending(items, after)[k];
    assert Bytes(Pending(items, after), k + 1, size) == Bytes(Pending(items, after), k, size) + size(Pending(items, after)[k].env);
  }

  /** A response is as long as it may be: one that leaves something behind has reached the
      record limit, or the next record would not have fitted the byte budget. */
  lemma InboxIsFull(ci: seq<Item>, fi: seq<Item>, cur: Cursor, room: Room, size: Envelope -> nat, r: Inbox)
    requires room.limit > 0 && room.bytes > 0 && IsInbox(ci, fi, cur, room, size, r) && r.Inbox? && r.truncated
    ensures Rest(ci, fi, r.next) != []
    ensures |r.envs| >= room.limit || r.retained + size(Rest(ci, fi, r.next)[0]) > room.bytes
  {
    hide Reads, Ordered, MayResume, Pending;
    var pc, pf :| Composed(ci, fi, cur, room, size, pc, pf, r);
    ReadFacts(ci, cur.control, cur.controlAnchor, room, room.bytes, size, pc);
    var left := RoomLeft(room, pc, Size(pc.envs, |pc.envs|, size));
    ReadFacts(fi, cur.feedback, cur.feedbackAnchor, left, room.bytes, size, pf);
    if pc.truncated {
      assert pf.envs == [];
      PageIsFull(ci, cur.control, cur.controlAnchor, room, room.bytes, size, pc);
      assert Rest(ci, fi, r.next)[0] == Pending(ci, pc.mark)[0].env;
    } else {
      PageIsFull(fi, cur.feedback, cur.feedbackAnchor, left, room.bytes, size, pf);
      assert Envelopes(Pending(ci, pc.mark)) == [];
      assert Rest(ci, fi, r.next)[0] == Pending(fi, pf.mark)[0].env;
    }
  }

  /** What a reader at `cur` has not been given: all control records, then all feedback. */
  function Rest(ci: seq<Item>, fi: seq<Item>, cur: Cursor): seq<Envelope> {
    Envelopes(Pending(ci, cur.control)) + Envelopes(Pending(fi, cur.feedback))
  }

  ghost predicate Consistent(ci: seq<Item>, fi: seq<Item>, cur: Cursor) {
    && Ordered(ci) && MayResume(ci, cur.control, cur.controlAnchor)
    && Ordered(fi) && MayResume(fi, cur.feedback, cur.feedbackAnchor)
  }

  /** Each record alone fits the budget. */
  ghost predicate Small(items: seq<Item>, bytes: int, size: Envelope -> nat) {
    forall x :: x in items ==> size(x.env) <= bytes
  }

  /** A response takes a front part of what is left, hands on a cursor that these stores
      accept, and says it is truncated exactly when something remains. */
  lemma InboxSplitsRest(ci: seq<Item>, fi: seq<Item>, cur: Cursor, room: Room, size: Envelope -> nat, r: Inbox)
    requires IsInbox(ci, fi, cur, room, size, r)
    ensures r.Inbox?
    ensures r.envs + Rest(ci, fi, r.next) == Rest(ci, fi, cur)
    ensures r.truncated <==> Rest(ci, fi, r.next) != []
    ensures Consistent(ci, fi, r.next)
  {
    hide Reads, Ordered, MayResume, Pending;
    var pc, pf :| Composed(ci, fi, cur, room, size, pc, pf, r);
    ReadFacts(ci, cur.control, cur.controlAnchor, room, room.bytes, size, pc);
    ReadFacts(fi, cur.feedback, cur.feedbackAnchor, RoomLeft(room, pc, Size(pc.envs, |pc.envs|, size)), room.bytes, size, pf);
    var c, f := Envelopes(Pending(ci, pc.mark)), Envelopes(Pending(fi, pf.mark));
    if pc.truncated {
      assert pf.envs == [];
      assert pc.envs + pf.envs + (c + f) == (pc.envs + c) + (pf.envs + f);
    } else {
      assert c == [];
      assert pc.envs + pf.envs + (c + f) == (pc.envs + c) + (pf.envs + f);
    }
  }

  lemma PageProgress(items: seq<Item>, after: int, anchor: Watermark, room: Room, size: Envelope -> nat, page: Page)
    requires IsPage(items, after, anchor, room, size, page) && room.limit > 0 && Small(items, room.bytes, size)
    requires Pending(items, after) != []
    ensures page.envs != []
  {
    PendingFrom(items, after);
    assert Pending(items, after)[0] in Pending(items, after);
    assert Bytes(Pending(items, after), 1, size) == Bytes(Pending(items, after), 0, size) + size(Pending(items, after)[0].env);
  }

  /** While anything is left, a response returns at least one record. */
  lemma InboxProgress(ci: seq<Item>, fi: seq<Item>, cur: Cursor, room: Room, size: Envelope -> nat, r: Inbox)
    requires IsInbox(ci, fi, cur, room, size, r) && room.limit > 0 && Small(ci, room.bytes, size) && Small(fi, room.bytes, size)
    requires Rest(ci, fi, cur) != []
    ensures r.envs != []
  {
    var pc, pf :| Composed(ci, fi, cur, room, size, pc, pf, r);
    if Pending(ci, cur.control) != [] {
      PageProgress(ci, cur.control, cur.controlAnchor, room, size, pc);
    } else {
      assert pc.envs == [] && RoomLeft(room, pc, Size(pc.envs, |pc.envs|, size)) == room;
      PageProgress(fi, cur.feedback, cur.feedbackAnchor, room, size, pf);
    }
  }

  lemma {:induction false} PageExists(items: seq<Item>, after: int, anchor: Watermark, room: Room, size: Envelope -> nat) returns (page: Page)
    ensures IsPage(items, after, anchor, room, size, page)
  {
    if items == [] {
      page := Page([], after, if after > 0 then anchor else Empty, false);
    } else {
      var front, last := items[..|items| - 1], items[|items| - 1];
      assert items == front + [last];
      page := PageExists(front, after, anchor, room, size);
      if page.truncated || !last.eligible || last.id <= after {
        PageSkips(front, last, after, anchor, room, size, page);
      } else if |page.envs| >= room.limit || Bytes(Pending(front, after), |page.envs|, size) + size(last.env) > room.bytes {
        PageCloses(front, last, after, anchor, room, size, page);
        page := page.(truncated := true);
      } else {
        PageTakes(front, last, after, anchor, room, size, page);
        page := Page(page.envs + [last.env], last.id, Digest(items, |items|), false);
      }
    }
  }

  lemma ReadExists(items: seq<Item>, after: int, anchor: Watermark, room: Room, budget: int, size: Envelope -> nat) returns (page: Page)
    requires Ordered(items) && MayResume(items, after, anchor) && Small(items, budget, size) && after >= 0
    ensures Reads(items, after, anchor, room, budget, size, page) && page.Page? && page.mark >= 0
  {
    page := PageExists(items, after, anchor, room, size);
    PendingFrom(items, after);
    MarkNatural(items, after, anchor, room, size, page);
    if page.truncated {
      assert Pending(items, after)[|page.envs|] in Pending(items, after);
    }
  }

  /** Consistent stores of small records are never refused. */
  lemma InboxExists(ci: seq<Item>, fi: seq<Item>, cur: Cursor, room: Room, size: Envelope -> nat) returns (r: Inbox)
    requires Consistent(ci, fi, cur) && Small(ci, room.bytes, size) && Small(fi, room.bytes, size)
    ensures IsInbox(ci, fi, cur, room, size, r)
  {
    var pc := ReadExists(ci, cur.control, cur.controlAnchor, room, room.bytes, size);
    var used := Size(pc.envs, |pc.envs|, size);
    var pf := ReadExists(fi, cur.feedback, cur.feedbackAnchor, RoomLeft(room, pc, used), room.bytes, size);
    r := Inbox(pc.envs + pf.envs, Cursor(pc.mark, pc.anchor, pf.mark, pf.anchor), pc.truncated || pf.truncated,
               used + Size(pf.envs, |pf.envs|, size));
    assert Composed(ci, fi, cur, room, size, pc, pf, r);
  }

  const START := Cursor(0, Empty, 0, Empty)

  /** A client that keeps asking with the cursor it was handed while told to. */
  ghost predicate Session(ci: seq<Item>, fi: seq<Item>, room: Room, size: Envelope -> nat, cur: Cursor, pages: seq<Inbox>)
    decreases |pages|
  {
    pages != [] ==>
      && IsInbox(ci, fi, cur, room, size, pages[0])
      && (|pages| > 1 ==> pages[0].truncated)
      && Session(ci, fi, room, size, pages[0].next, pages[1..])
  }

  ghost function Received(pages: seq<Inbox>): seq<Envelope> {
    if pages == [] then [] else (if pages[0].Inbox? then pages[0].envs else []) + Received(pages[1..])
  }

  /** However long a session ran, what it received is a front part of everything; once it
      is told nothing remains it is everything: all control, then all feedback, in order,
      none lost and none repeated. No session of small records outlasts its records. */
  lemma {:induction false} SessionDrains(ci: seq<Item>, fi: seq<Item>, room: Room, size: Envelope -> nat, cur: Cursor, pages: seq<Inbox>)
    requires Session(ci, fi, room, size, cur, pages) && pages != []
    requires room.limit > 0 && Small(ci, room.bytes, size) && Small(fi, room.bytes, size)
    ensures pages[|pages| - 1].Inbox?
    ensures Received(pages) + Rest(ci, fi, pages[|pages| - 1].next) == Rest(ci, fi, cur)
    ensures !pages[|pages| - 1].truncated <==> Received(pages) == Rest(ci, fi, cur)
    ensures Consistent(ci, fi, pages[|pages| - 1].next)
    ensures |pages| <= |Rest(ci, fi, cur)| + 1
    decreases |pages|
  {
    hide IsInbox, Rest, Consistent, Small;
    var r := pages[0];
    InboxSplitsRest(ci, fi, cur, room, size, r);
    if |pages| == 1 {
      assert pages[1..] == [] && Received(pages) == r.envs + [];
    } else {
      InboxProgress(ci, fi, cur, room, size, r);
      SessionDrains(ci, fi, room, size, r.next, pages[1..]);
      assert Received(pages) == r.envs + Received(pages[1..]);
      assert pages[1..][|pages| - 2] == pages[|pages| - 1];
    }
  }

  /** Such a session can always go on until nothing remains. */
  lemma {:induction false} SessionCompletes(ci: seq<Item>, fi: seq<Item>, room: Room, size: Envelope -> nat, cur: Cursor) returns (pages: seq<Inbox>)
    requires Consistent(ci, fi, cur)
    requires room.limit > 0 && Small(ci, room.bytes, size) && Small(fi, room.bytes, size)
    ensures Session(ci, fi, room, size, cur, pages) && pages != []
    ensures pages[|pages| - 1].Inbox? && !pages[|pages| - 1].truncated
    decreases |Rest(ci, fi, cur)|
  {
    var r := InboxExists(ci, fi, cur, room, size);
    InboxSplitsRest(ci, fi, cur, room, size, r);
    if r.truncated {
      InboxProgress(ci, fi, cur, room, size, r);
      var more := SessionCompletes(ci, fi, room, size, r.next);
      pages := [r] + more;
      assert pages[1..] == more;
    } else {
      pages := [r];
    }
  }

  lemma {:induction false} AllPending(items: seq<Item>)
    requires forall x :: x in items ==> x.id > 0 && x.eligible
    ensures Pending(items, 0) == items
  {
    if items != [] {
      AllPending(items[1..]);
      assert items == [items[0]] + items[1..];
    }
  }

  /** A client that starts from nothing receives every control record addressed to it and
      then the whole feedback store. */
  lemma FreshClientGetsEverything(ci: seq<Item>, fi: seq<Item>, room: Room, size: Envelope -> nat) returns (pages: seq<Inbox>)
    requires Ordered(ci) && Ordered(fi) && forall x :: x in fi ==> x.eligible
    requires room.limit > 0 && Small(ci, room.bytes, size) && Small(fi, room.bytes, size)
    ensures Session(ci, fi, room, size, START, pages)
    ensures Received(pages) == Envelopes(Pending(ci, 0)) + Envelopes(fi)
  {
    pages := SessionCompletes(ci, fi, room, size, START);
    SessionDrains(ci, fi, room, size, START, pages);
    AllPending(fi);
  }

  // ----- resuming against a changed store -----

  lemma {:induction false} DigestsEqual(a: seq<Item>, n: nat, b: seq<Item>, m: nat)
    requires n <= |a| && m <= |b|
    ensures Digest(a, n) == Digest(b, m) <==> n == m && forall j :: 0 <= j < n ==> a[j].fields == b[j].fields
  {
    if n > 0 && m > 0 {
      DigestsEqual(a, n - 1, b, m - 1);
    }
  }

  /** Against any well-formed store a cursor is accepted exactly when the store still starts
      with the digested content of the records the cursor has passed. */
  lemma ResumeExactly(issued: seq<Item>, i: nat, current: seq<Item>)
    requires Ordered(issued) && i < |issued|
    ensures MayResume(current, issued[i].id, Digest(issued, i + 1)) <==>
            && i < |current| && current[i].id == issued[i].id
            && forall j :: 0 <= j <= i ==> current[j].fields == issued[j].fields
  {
    var n, anchor := issued[i].id, Digest(issued, i + 1);
    assert n > 0;
    forall k ensures Names(current, k, n, anchor) ==> k == i {
      if 0 <= k < |current| {
        DigestsEqual(current, k + 1, issued, i + 1);
      }
    }
    if i < |current| {
      DigestsEqual(current, i + 1, issued, i + 1);
      assert Names(current, i, n, anchor) <==> current[i].id == n && Digest(current, i + 1) == anchor;
    }
  }

  function FeedbackItems(recs: seq<Feedback>): (items: seq<Item>)
    ensures |items| == |recs|
  {
    seq(|recs|, i requires 0 <= i < |recs| => FeedbackItem(recs[i]))
  }

  /** A feedback record without its acknowledgement. */
  function Unacked(fb: Feedback): Feedback { fb.(readAt := None) }

  lemma NumeralInjective(m: int, n: int)
    requires Numeral(m) == Numeral(n)
    ensures m == n
  {
    assert m >= 0 ==> IsDigit(Numeral(m)[0]);
    assert n >= 0 ==> IsDigit(Numeral(n)[0]);
    if m >= 0 && n >= 0 {
      ItoaInjective(m, n);
    } else if m < 0 && n < 0 {
      assert Numeral(m)[1..] == Itoa(-m) && Numeral(n)[1..] == Itoa(-n);
      ItoaInjective(-m, -n);
    }
  }

  lemma SameFields(a: Feedback, b: Feedback)
    ensures FeedbackItem(a).fields == FeedbackItem(b).fields <==> Unacked(a) == Unacked(b)
  {
    var fa, fb := FeedbackItem(a).fields, FeedbackItem(b).fields;
    if fa == fb {
      assert fa[0] == fb[0] && fa[1] == fb[1] && fa[2] == fb[2] && fa[3] == fb[3] && fa[4] == fb[4] && fa[5] == fb[5];
      NumeralInjective(a.id, b.id);
    }
  }

  /** A feedback cursor is accepted exactly when every record up to the one it names is
      still there, in place and unchanged apart from its acknowledgement: truncation,
      renumbering, removal and any other edit at or below it are refused. */
  lemma FeedbackResumeExactly(issued: seq<Feedback>, i: nat, current: seq<Feedback>)
    requires Ordered(FeedbackItems(issued)) && i < |issued|
    ensures MayResume(FeedbackItems(current), issued[i].id, Digest(FeedbackItems(issued), i + 1)) <==>
            i < |current| && forall j :: 0 <= j <= i ==> Unacked(current[j]) == Unacked(issued[j])
  {
    ResumeExactly(FeedbackItems(issued), i, FeedbackItems(current));
    forall j | 0 <= j <= i && j < |current|
      ensures FeedbackItems(current)[j].fields == FeedbackItems(issued)[j].fields <==> Unacked(current[j]) == Unacked(issued[j])
    {
      SameFields(current[j], issued[j]);
    }
    if i < |current| && Unacked(current[i]) == Unacked(issued[i]) {
      assert current[i].id == Unacked(current[i]).id == issued[i].id;
    }
  }

  function ControlItems(envs: seq<Envelope>, recipient: string): (items: seq<Item>)
    ensures |items| == |envs|
  {
    seq(|envs|, i requires 0 <= i < |envs| => ControlRecord(recipient, envs[i]))
  }

  /** A control envelope without its acknowledgement. */
  function Unread(env: Envelope): Envelope { env.(read := false) }

  lemma SameControlFields(recipient: string, a: Envelope, b: Envelope)
    ensures ControlRecord(recipient, a).fields == ControlRecord(recipient, b).fields <==> Unread(a) == Unread(b)
  {
    var fa, fb := ControlRecord(recipient, a).fields, ControlRecord(recipient, b).fields;
    if fa == fb {
      assert fa[0] == fb[0] && fa[1] == fb[1] && fa[2] == fb[2] && fa[3] == fb[3];
      assert fa[4] == fb[4] && fa[5] == fb[5] && fa[6] == fb[6];
      NumeralInjective(a.sequence, b.sequence);
    }
  }

  /** A control cursor is accepted exactly when every envelope up to the one it names is still
      there, in place and the same in every field but its acknowledgement, whoever it was for. */
  lemma ControlResumeExactly(recipient: string, issued: seq<Envelope>, i: nat, current: seq<Envelope>)
    requires Ordered(ControlItems(issued, recipient)) && i < |issued|
    ensures MayResume(ControlItems(current, recipient), issued[i].sequence, Digest(ControlItems(issued, recipient), i + 1)) <==>
            i < |current| && forall j :: 0 <= j <= i ==> Unread(current[j]) == Unread(issued[j])
  {
    var ci, cc := ControlItems(issued, recipient), ControlItems(current, recipient);
    forall j | 0 <= j <= i && j < |current| ensures cc[j].fields == ci[j].fields <==> Unread(current[j]) == Unread(issued[j]) {
      SameControlFields(recipient, current[j], issued[j]);
    }
    assert ci[i].id == issued[i].sequence;
    if i < |current| && Unread(current[i]) == Unread(issued[i]) {
      assert cc[i].id == current[i].sequence == Unread(current[i]).sequence == issued[i].sequence;
    }
    hide ControlItems, ControlRecord, Digest, MayResume, Ordered, Unread;
    ResumeExactly(ci, i, cc);
  }

  /** The envelopes in the first n lines that are the reader's or everybody's and lie behind
      `after`, in order. */
  function Addressed(lines: seq<Line<Envelope>>, n: nat, reader: string, after: int): seq<Envelope>
    requires n <= |lines|
  {
    if n == 0 then []
    else
      Addressed(lines, n - 1, reader, after)
      + (if lines[n - 1].Record? && lines[n - 1].record.sequence > after
            && (lines[n - 1].record.recipient == reader || lines[n - 1].record.recipient == "all")
         then [lines[n - 1].record] else [])
  }

  lemma EnvelopesConcat(a: seq<Item>, b: seq<Item>)
    ensures Envelopes(a + b) == Envelopes(a) + Envelopes(b)
  {
  }

  lemma ItemsStep<R>(lines: seq<Line<R>>, n: nat, toItem: R -> Item)
    requires 0 < n <= |lines|
    ensures Items(lines, n, toItem) ==
            if lines[n - 1].Record? then Items(lines, n - 1, toItem) + [toItem(lines[n - 1].record)] else Items(lines, n - 1, toItem)
  {
  }

  /** What is pending of a control store. */
  lemma {:induction false} ControlPending(lines: seq<Line<Envelope>>, n: nat, reader: string, after: int)
    requires n <= |lines|
    ensures Envelopes(Pending(Items(lines, n, ControlItem(reader)), after)) == Addressed(lines, n, reader, after)
  {
    if n > 0 {
      hide Pending, Envelopes, Items;
      ControlPending(lines, n - 1, reader, after);
      ItemsStep(lines, n, ControlItem(reader));
      if lines[n - 1].Record? {
        PendingOneMore(Items(lines, n - 1, ControlItem(reader)), ControlRecord(reader, lines[n - 1].record), after);
      }
    }
  }

  lemma PageIsFront(items: seq<Item>, after: int, anchor: Watermark, room: Room, budget: int, size: Envelope -> nat, page: Page)
    requires Reads(items, after, anchor, room, budget, size, page)
    ensures var due := Envelopes(Pending(items, after));
            page.Page? && page.envs <= due && (page.truncated <==> |page.envs| < |due|)
  {
    hide Pending;
  }

  lemma PendingOneMore(items: seq<Item>, item: Item, after: int)
    ensures Envelopes(Pending(items + [item], after)) ==
            Envelopes(Pending(items, after)) + (if item.eligible && item.id > after then [item.env] else [])
  {
    PendingAppend(items, item, after);
    hide Pending;
    EnvelopesConcat(Pending(items, after), [item]);
    assert Envelopes([item]) == [item.env];
  }

  /** A feedback record as the reader gets it. */
  function Shown(fb: Feedback): Envelope {
    Envelope(id := "feedback-" + Numeral(fb.id), sequence := fb.id, sender := fb.from, recipient := fb.to,
             subject := fb.summary, body := fb.message, timestamp := fb.when,
             read := fb.readAt.Some? && Trim(fb.readAt.value) != "")
  }

  lemma FeedbackIsShown(fb: Feedback)
    ensures FeedbackItem(fb).env == Shown(fb) && FeedbackItem(fb).id == fb.id && FeedbackItem(fb).eligible
  {
    hide Trim, Numeral;
  }

  /** The feedback records behind `after` in the first n lines, in order. */
  function Delivered(lines: seq<Line<Feedback>>, n: nat, after: int): seq<Envelope>
    requires n <= |lines|
  {
    if n == 0 then []
    else if lines[n - 1].Record? && lines[n - 1].record.id > after
    then Delivered(lines, n - 1, after) + [Shown(lines[n - 1].record)]
    else Delivered(lines, n - 1, after)
  }

  /** What is pending of a feedback store: everything behind the position. */
  lemma {:induction false} FeedbackPending(lines: seq<Line<Feedback>>, n: nat, after: int)
    requires n <= |lines|
    ensures Envelopes(Pending(Items(lines, n, FeedbackItem), after)) == Delivered(lines, n, after)
  {
    if n > 0 {
      hide Pending, Envelopes, Items, Shown, FeedbackItem;
      FeedbackPending(lines, n - 1, after);
      ItemsStep(lines, n, FeedbackItem);
      if lines[n - 1].Record? {
        FeedbackIsShown(lines[n - 1].record);
        PendingOneMore(Items(lines, n - 1, FeedbackItem), FeedbackItem(lines[n - 1].record), after);
      }
    }
  }
}
