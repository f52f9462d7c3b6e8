/** The idempotency key of a provider transition,
    provider:<repo>/<provider>/<project>/<taskRef>:g<generation>:<kind>,
    where repo may contain slashes, and task ref and kind may contain ":g" text. */
module IntentKey {
  import opened Text

  datatype Route = Route(repo: string, provider: string, project: string, taskRef: string) {
    predicate Carried() {
      && repo != "" && provider != "" && project != "" && taskRef != ""
      && '/' !in provider && '/' !in project && '/' !in taskRef
    }

    function Text(): string { repo + "/" + provider + "/" + project + "/" + taskRef }
  }

  datatype Identity = Identity(route: Route, generation: int, kind: string) {
    /** What a key can carry. */
    predicate Carried() { route.Carried() && kind != "" && 0 <= generation <= MAX_INT64 }
  }

  const PREFIX := "provider:"

  function Body(path: string, digits: string, kind: string): string {
    path + ":g" + digits + ":" + kind
  }

  /** The key with the generation spelled as `digits`. */
  function Spell(id: Identity, digits: string): string {
    PREFIX + Body(id.route.Text(), digits, id.kind)
  }

  /** The printed key behind its prefix. */
  function Printed(id: Identity): string {
    Body(id.route.Text(), Numeral(id.generation), id.kind)
  }

  /** The producer's printer; a transition without a kind is a provider mutation. */
  function Print(id: Identity): string {
    PREFIX + Printed(if id.kind == "" then id.(kind := "provider_mutation") else id)
  }

  /** The text of a key. */
  lemma PrintedText(id: Identity)
    ensures Print(id) == "provider:" + (id.route.repo + "/" + id.route.provider + "/" + id.route.project + "/" + id.route.taskRef
                         + ":g" + Numeral(id.generation) + ":" + (if id.kind == "" then "provider_mutation" else id.kind))
  {
    hide Numeral;
  }

  // ----- slashes -----

  function Segments(s: string): seq<string> { Split(s, '/') }

  function Join(parts: seq<string>): string
    requires parts != []
  {
    if |parts| == 1 then parts[0] else parts[0] + "/" + Join(parts[1..])
  }

  lemma {:induction false} JoinSplit(s: string)
    ensures Segments(s) != [] && Join(Segments(s)) == s
    ensures forall i :: 0 <= i < |Segments(s)| ==> '/' !in Segments(s)[i]
  {
    var i := IndexOf(s, '/');
    hide Split;
    if i < |s| {
      JoinSplit(s[i + 1..]);
      SplitCut(s[..i], '/', s[i + 1..]);
      assert s == s[..i] + ['/'] + s[i + 1..];
      assert Segments(s)[1..] == Segments(s[i + 1..]);
    } else {
      assert s[..i] == s;
      SplitWhole(s, '/');
    }
  }

  lemma {:induction false} SplitJoined(a: string, b: string)
    ensures Segments(a + "/" + b) == Segments(a) + Segments(b)
    decreases |a|
  {
    var i := IndexOf(a, '/');
    hide Split;
    if i == |a| {
      assert a[..i] == a;
      SplitWhole(a, '/');
      SplitCut(a, '/', b);
    } else {
      var front, rest := a[..i], a[i + 1..];
      assert a == front + ['/'] + rest && a + "/" + b == front + ['/'] + (rest + "/" + b);
      SplitCut(front, '/', rest);
      SplitCut(front, '/', rest + "/" + b);
      SplitJoined(rest, b);
    }
  }

  lemma SplitAppend(a: string, b: string)
    requires '/' !in b
    ensures Segments(a + "/" + b) == Segments(a) + [b]
  {
    SplitJoined(a, b);
    SplitWhole(b, '/');
  }

  /** Text in front of the first slash only lengthens the first segment. */
  lemma SplitGlued(a: string, x: string)
    requires '/' !in a
    ensures Segments(x) != [] && Segments(a + x) == [a + Segments(x)[0]] + Segments(x)[1..]
  {
    var i := IndexOf(x, '/');
    hide Split;
    if i == |x| {
      assert x[..i] == x;
      SplitWhole(x, '/');
      SplitWhole(a + x, '/');
    } else {
      assert x == x[..i] + ['/'] + x[i + 1..] && a + x == (a + x[..i]) + ['/'] + x[i + 1..];
      SplitCut(x[..i], '/', x[i + 1..]);
      SplitCut(a + x[..i], '/', x[i + 1..]);
    }
  }

  lemma {:induction false} JoinLast(parts: seq<string>)
    requires |parts| >= 2
    ensures Join(parts) == Join(parts[..|parts| - 1]) + "/" + parts[|parts| - 1]
  {
    if |parts| > 2 {
      JoinLast(parts[1..]);
      assert parts[1..][..|parts| - 2] == parts[..|parts| - 1][1..];
    }
  }

  /** The route whose text is `head`: the last three segments, and all before them. */
  function RouteOf(head: string): Option<Route> {
    var parts := Segments(head);
    var n := |parts|;
    if n < 4 then None
    else
      var r := Route(Join(parts[..n - 3]), parts[n - 3], parts[n - 2], parts[n - 1]);
      if r.repo == "" || r.provider == "" || r.project == "" || r.taskRef == "" then None else Some(r)
  }

  lemma RouteOfSound(head: string)
    requires RouteOf(head).Some?
    ensures RouteOf(head).value.Carried() && RouteOf(head).value.Text() == head
  {
    var parts := Segments(head);
    var n := |parts|;
    JoinSplit(head);
    JoinLast(parts);
    JoinLast(parts[..n - 1]);
    JoinLast(parts[..n - 2]);
    assert parts[..n - 1][..n - 2] == parts[..n - 2] && parts[..n - 2][..n - 3] == parts[..n - 3];
  }

  lemma RouteOfText(r: Route)
    requires r.Carried()
    ensures RouteOf(r.Text()) == Some(r)
  {
    var a := r.repo + "/" + r.provider;
    var b := a + "/" + r.project;
    SplitAppend(r.repo, r.provider);
    SplitAppend(a, r.project);
    SplitAppend(b, r.taskRef);
    JoinSplit(r.repo);
    var parts := Segments(r.Text());
    assert parts == Segments(r.repo) + [r.provider, r.project, r.taskRef];
    assert parts[..|parts| - 3] == Segments(r.repo);
  }

  /** The segments of `x` that can end up among the last three of a path it extends. */
  predicate Fills(x: string) {
    var parts := Segments(x);
    forall i :: 1 <= i < |parts| && i >= |parts| - 3 ==> parts[i] != ""
  }

  lemma JoinFilled(parts: seq<string>)
    requires parts != []
    ensures Join(parts) == "" <==> |parts| == 1 && parts[0] == ""
  {
  }

  /** A route's text stays the text of some route when `x` is put behind it exactly when the
      segments that `x` adds at the end are not empty. */
  lemma RouteOfExtended(r: Route, x: string)
    requires r.Carried()
    ensures RouteOf(r.Text() + x).Some? <==> Fills(x)
  {
    var base := r.repo + "/" + r.provider + "/" + r.project;
    assert r.Text() + x == base + "/" + (r.taskRef + x);
    SplitJoined(base, r.taskRef + x);
    SplitAppend(r.repo, r.provider);
    SplitAppend(r.repo + "/" + r.provider, r.project);
    SplitGlued(r.taskRef, x);
    JoinSplit(r.repo);
    hide Segments;
    var front, tail, parts := Segments(r.repo), Segments(x), Segments(r.Text() + x);
    assert parts == front + [r.provider, r.project, r.taskRef + tail[0]] + tail[1..];
    LastThree(front, [r.provider, r.project, r.taskRef + tail[0]], tail[1..], parts);
  }

  lemma LastThree(front: seq<string>, middle: seq<string>, tail: seq<string>, parts: seq<string>)
    requires front != [] && |middle| == 3 && parts == front + middle + tail && Join(front) != ""
    requires forall i :: 0 <= i < 3 ==> middle[i] != ""
    ensures |parts| >= 4 && Join(parts[..|parts| - 3]) != ""
    ensures parts[|parts| - 3] != "" && parts[|parts| - 2] != "" && parts[|parts| - 1] != "" <==>
            forall i :: 0 <= i < |tail| && i >= |tail| - 3 ==> tail[i] != ""
  {
    hide Join;
    var n, m := |parts|, |tail|;
    JoinFilled(parts[..n - 3]);
    if m == 0 {
      assert parts[..n - 3] == front;
    }
    assert parts[n - 1] == if m >= 1 then tail[m - 1] else middle[2];
    assert parts[n - 2] == if m >= 2 then tail[m - 2] else middle[m + 1];
    assert parts[n - 3] == if m >= 3 then tail[m - 3] else middle[m];
  }

  // ----- one delimiter -----

  function DigitRun(s: string): (n: nat)
    ensures n <= |s| && AllDigits(s[..n])
    ensures n < |s| ==> !IsDigit(s[n])
  {
    if s == [] || !IsDigit(s[0]) then 0
    else
      var n := DigitRun(s[1..]);
      assert s[..n + 1] == [s[0]] + s[1..][..n];
      n + 1
  }

  lemma {:induction false} DigitRunOf(digits: string, rest: string)
    requires AllDigits(digits) && (rest == [] || !IsDigit(rest[0]))
    ensures DigitRun(digits + rest) == |digits|
  {
    if digits == [] {
      assert digits + rest == rest;
    } else {
      assert (digits + rest)[1..] == digits[1..] + rest;
      DigitRunOf(digits[1..], rest);
    }
  }

  predicate MarkAt(s: string, i: int) {
    0 <= i && i + 2 <= |s| && s[i] == ':' && s[i + 1] == 'g'
  }

  /** ":g", at least one digit, and a colon. */
  predicate DelimiterAt(s: string, i: int) {
    && MarkAt(s, i)
    && var tail := s[i + 2..];
    var d := DigitRun(tail);
    0 < d < |tail| && tail[d] == ':'
  }

  function DigitsAt(s: string, i: int): (digits: string)
    requires DelimiterAt(s, i)
    ensures digits != [] && AllDigits(digits)
  {
    s[i + 2..][..DigitRun(s[i + 2..])]
  }

  function KindAt(s: string, i: int): string
    requires DelimiterAt(s, i)
  {
    s[i + 2..][DigitRun(s[i + 2..]) + 1..]
  }

  lemma DelimiterCuts(s: string, i: int)
    requires DelimiterAt(s, i)
    ensures s == Body(s[..i], DigitsAt(s, i), KindAt(s, i))
  {
    var tail := s[i + 2..];
    assert s == s[..i] + ":g" + tail;
    assert tail == DigitsAt(s, i) + ":" + KindAt(s, i);
  }

  lemma BodyCut(path: string, digits: string, kind: string)
    requires AllDigits(digits) && digits != []
    ensures var s, i := Body(path, digits, kind), |path|;
            DelimiterAt(s, i) && s[..i] == path && DigitsAt(s, i) == digits && KindAt(s, i) == kind
  {
    var s := Body(path, digits, kind);
    assert s[|path| + 2..] == digits + (":" + kind);
    DigitRunOf(digits, ":" + kind);
  }

  /** The identity read off when the delimiter at i is taken to be the real one. */
  function TryAt(s: string, i: int): Option<Identity> {
    if !DelimiterAt(s, i) then None
    else
      var gen, route := ParseInt(DigitsAt(s, i)), RouteOf(s[..i]);
      if gen.None? || gen.value < 0 || route.None? || KindAt(s, i) == "" then None
      else Some(Identity(route.value, gen.value, KindAt(s, i)))
  }

  /** Position of the last ":g" that ends by `end`, or -1. */
  function LastMark(s: string, end: nat): (i: int)
    requires end <= |s|
    ensures -1 <= i < end
    ensures i >= 0 ==> MarkAt(s, i) && i + 2 <= end
    ensures forall j :: i < j && j + 2 <= end ==> !MarkAt(s, j)
  {
    if end < 2 then -1
    else if s[end - 2] == ':' && s[end - 1] == 'g' then end - 2
    else LastMark(s, end - 1)
  }

  /** The identity at the last acceptable delimiter; none when no delimiter is acceptable. */
  ghost predicate IsParse(key: string, r: Option<Identity>) {
    if !HasPrefix(key, PREFIX) then r.None?
    else
      var rest := key[|PREFIX|..];
      match r
      case None => forall i :: TryAt(rest, i).None?
      case Some(id) => exists i :: TryAt(rest, i) == Some(id) && forall j :: j > i ==> TryAt(rest, j).None?
  }

  method Parse(key: string) returns (r: Option<Identity>)
    ensures IsParse(key, r)
  {
    hide TryAt, MarkAt, LastMark;
    r := None;
    if !HasPrefix(key, PREFIX) {
      return;
    }
    var rest := key[|PREFIX|..];
    var idx := LastMark(rest, |rest|);
    NothingRightOf(rest, idx);
    while idx >= 0
      invariant -1 <= idx <= |rest|
      invariant idx >= 0 ==> MarkAt(rest, idx)
      invariant forall j :: j > idx ==> TryAt(rest, j).None?
      decreases idx
    {
      var id := TryAt(rest, idx);
      if id.Some? {
        return id;
      }
      ghost var before := idx;
      idx := LastMark(rest, idx);
      NothingBetween(rest, idx, before);
    }
    NothingNegative(rest);
  }

  lemma NothingNegative(s: string)
    ensures forall j :: j < 0 ==> TryAt(s, j).None?
  {
  }

  lemma NothingRightOf(s: string, idx: int)
    requires idx == LastMark(s, |s|)
    ensures forall j :: j > idx ==> TryAt(s, j).None?
  {
    hide RouteOf, LastMark;
    NoMarkPast(s);
  }

  lemma NothingBetween(s: string, idx: int, before: int)
    requires 0 <= before <= |s| && MarkAt(s, before) && idx == LastMark(s, before)
    ensures forall j :: idx < j < before ==> TryAt(s, j).None?
  {
    hide RouteOf, LastMark;
    MarksApart(s, before);
    assert forall j :: idx < j < before ==> !MarkAt(s, j);
  }

  lemma NoMarkPast(s: string)
    ensures forall j :: j > |s| - 2 ==> !MarkAt(s, j)
  {
  }

  lemma MarksApart(s: string, i: int)
    requires MarkAt(s, i)
    ensures !MarkAt(s, i - 1)
  {
  }

  lemma ParseUnique(key: string, r: Option<Identity>, r': Option<Identity>)
    requires IsParse(key, r) && IsParse(key, r')
    ensures r == r'
  {
    if HasPrefix(key, PREFIX) && r.Some? && r'.Some? {
      var rest := key[|PREFIX|..];
      var i :| TryAt(rest, i) == r && forall j :: j > i ==> TryAt(rest, j).None?;
      var i' :| TryAt(rest, i') == r' && forall j :: j > i' ==> TryAt(rest, j).None?;
      assert i == i';
    }
  }

  // ----- parsing then printing -----

  lemma DigitsParse(digits: string)
    requires digits != [] && AllDigits(digits) && ParseInt(digits).Some?
    ensures ParseInt(digits).value == DigitsValue(digits) <= MAX_INT64
  {
    assert IsDigit(digits[0]);
  }

  /** Any accepted key re-prints to itself up to leading zeros in the generation. */
  lemma PrintOfParse(key: string, id: Identity) returns (zeros: string)
    requires IsParse(key, Some(id))
    ensures AllZeros(zeros)
    ensures id.Carried() && key == Spell(id, zeros + Itoa(id.generation))
    ensures zeros == "" ==> Print(id) == key
  {
    hide RouteOf, DigitsAt, KindAt, DelimiterAt, Body, Itoa, ParseInt, DigitsValue;
    var rest := key[|PREFIX|..];
    assert key == PREFIX + rest;
    var i :| TryAt(rest, i) == Some(id) && forall j :: j > i ==> TryAt(rest, j).None?;
    DelimiterInRange(rest, i);
    RouteOfSound(rest[..i]);
    DelimiterCuts(rest, i);
    var digits := DigitsAt(rest, i);
    DigitsParse(digits);
    zeros := CanonicalNumeral(digits);
    assert zeros == "" ==> zeros + Itoa(id.generation) == Itoa(id.generation);
  }

  lemma DelimiterInRange(s: string, i: int)
    requires DelimiterAt(s, i)
    ensures 0 <= i <= |s|
  {
  }

  // ----- printing then parsing -----

  /** The delimiter the printer wrote is acceptable and reads back the identity. */
  lemma TryPrinted(id: Identity)
    requires id.Carried()
    ensures TryAt(Printed(id), |id.route.Text()|) == Some(id)
  {
    hide RouteOf;
    BodyCut(id.route.Text(), Itoa(id.generation), id.kind);
    ParseItoa(id.generation);
    RouteOfText(id.route);
  }

  /** What follows the generation. */
  function Behind(kind: string): (t: string)
    ensures |t| == |kind| + 1
  {
    ":" + kind
  }

  /** Behind the printed delimiter the next one can only start at the colon before the kind. */
  lemma DelimiterInKind(path: string, digits: string, kind: string, i: int)
    requires AllDigits(digits) && i > |path| && DelimiterAt(Body(path, digits, kind), i)
    ensures i >= |path| + 2 + |digits|
    ensures DelimiterAt(Behind(kind), i - |path| - 2 - |digits|)
    ensures |KindAt(Body(path, digits, kind), i)| < |kind|
  {
    var s := Body(path, digits, kind);
    var off := |path| + 2 + |digits|;
    assert s[|path| + 1] == 'g';
    assert forall k :: 0 <= k < |digits| ==> s[|path| + 2 + k] == digits[k];
    assert s[off..] == Behind(kind);
    assert s[i + 2..] == Behind(kind)[i - off + 2..];
  }

  /** A delimiter further right reads a shorter kind, so another identity. */
  lemma LaterReadingDiffers(id: Identity, i: int)
    requires id.Carried() && i > |id.route.Text()|
    ensures TryAt(Printed(id), i) != Some(id)
  {
    hide RouteOf;
    if DelimiterAt(Printed(id), i) {
      DelimiterInKind(id.route.Text(), Itoa(id.generation), id.kind, i);
    }
  }

  /** Written behind a generation, `kind` has at `j` a delimiter of its own that the parser
      accepts: digits that fit, something behind them, and no empty segment at the end of
      what is in front. */
  predicate MisleadsAt(kind: string, j: int) {
    var tail := Behind(kind);
    && DelimiterAt(tail, j)
    && ParseInt(DigitsAt(tail, j)).Some? && KindAt(tail, j) != "" && Fills(tail[..j])
  }

  ghost predicate Misleads(kind: string) { exists j :: MisleadsAt(kind, j) }

  /** A delimiter is read off the text from where it starts. */
  lemma DelimiterLocal(s: string, i: int, t: string, j: int)
    requires 0 <= i <= |s| && 0 <= j <= |t| && s[i..] == t[j..]
    ensures DelimiterAt(s, i) <==> DelimiterAt(t, j)
    ensures DelimiterAt(s, i) ==> DigitsAt(s, i) == DigitsAt(t, j) && KindAt(s, i) == KindAt(t, j)
  {
    hide DigitRun;
    assert |s| - i == |t| - j;
    if i + 2 <= |s| {
      assert s[i] == s[i..][0] == t[j] && s[i + 1] == s[i..][1] == t[j + 1];
      assert s[i + 2..] == s[i..][2..] == t[j + 2..];
    }
  }

  lemma DelimiterBehind(path: string, digits: string, kind: string, j: int)
    requires AllDigits(digits) && 0 <= j <= |kind| + 1
    ensures var s, i := Body(path, digits, kind), |path| + 2 + |digits| + j;
            && (DelimiterAt(s, i) <==> DelimiterAt(Behind(kind), j))
            && (DelimiterAt(s, i) ==> DigitsAt(s, i) == DigitsAt(Behind(kind), j) && KindAt(s, i) == KindAt(Behind(kind), j))
            && i <= |s| && s[..i] == path + (":g" + digits + Behind(kind)[..j])
  {
    hide DelimiterAt, DigitsAt, KindAt;
    var s, i, tail := Body(path, digits, kind), |path| + 2 + |digits| + j, Behind(kind);
    assert s == path + (":g" + digits + tail);
    assert s[i..] == tail[j..];
    DelimiterLocal(s, i, tail, j);
  }

  lemma FillsBehindDigits(digits: string, y: string)
    requires AllDigits(digits)
    ensures Fills(":g" + digits + y) <==> Fills(y)
  {
    assert '/' !in digits;
    SplitGlued(":g" + digits, y);
    hide Segments;
    var x := ":g" + digits + y;
    assert |Segments(x)| == |Segments(y)| && forall i :: 1 <= i < |Segments(y)| ==> Segments(x)[i] == Segments(y)[i];
  }

  lemma TryAccepts(s: string, i: int)
    ensures TryAt(s, i).Some? <==>
            DelimiterAt(s, i) && ParseInt(DigitsAt(s, i)).Some? && RouteOf(s[..i]).Some? && KindAt(s, i) != ""
  {
    hide RouteOf, KindAt, DigitsAt, DelimiterAt;
    if DelimiterAt(s, i) {
      DelimiterInRange(s, i);
      DigitsAreNatural(DigitsAt(s, i));
    }
  }

  lemma DigitsAreNatural(digits: string)
    requires digits != [] && AllDigits(digits)
    ensures ParseInt(digits).Some? ==> ParseInt(digits).value >= 0
  {
    assert IsDigit(digits[0]);
  }

  function Offset(r: Route, digits: string): nat { |r.Text()| + 2 + |digits| }

  /** What the parser makes of a position behind the printed delimiter depends on the kind. */
  lemma TryBehind(r: Route, digits: string, kind: string, j: int)
    requires r.Carried() && AllDigits(digits) && 0 <= j <= |kind| + 1
    ensures TryAt(Body(r.Text(), digits, kind), Offset(r, digits) + j).Some? <==> MisleadsAt(kind, j)
  {
    hide Body, Behind, DelimiterAt, DigitsAt, KindAt, RouteOf, Fills, TryAt, ParseInt, AllDigits, Segments;
    TryAccepts(Body(r.Text(), digits, kind), Offset(r, digits) + j);
    DelimiterBehind(r.Text(), digits, kind, j);
    var y := Behind(kind)[..j];
    RouteOfExtended(r, ":g" + digits + y);
    FillsBehindDigits(digits, y);
  }

  lemma TryIsDelimiter(s: string, i: int)
    requires TryAt(s, i).Some?
    ensures DelimiterAt(s, i) && 0 <= i <= |s|
  {
  }

  lemma MisleadingIsRead(r: Route, digits: string, kind: string)
    requires r.Carried() && AllDigits(digits) && Misleads(kind)
    ensures exists i :: i > |r.Text()| && TryAt(Body(r.Text(), digits, kind), i).Some?
  {
    hide Body, Behind, DelimiterAt, DigitsAt, KindAt, Fills, TryAt, ParseInt, AllDigits;
    var j :| MisleadsAt(kind, j);
    DelimiterInRange(Behind(kind), j);
    TryBehind(r, digits, kind, j);
    assert Offset(r, digits) + j > |r.Text()|;
  }

  lemma ReadIsMisleading(r: Route, digits: string, kind: string, i: int)
    requires r.Carried() && AllDigits(digits) && i > |r.Text()| && TryAt(Body(r.Text(), digits, kind), i).Some?
    ensures Misleads(kind)
  {
    hide Body, Behind, DelimiterAt, DigitsAt, KindAt, Fills, TryAt, ParseInt, AllDigits, MisleadsAt;
    TryIsDelimiter(Body(r.Text(), digits, kind), i);
    DelimiterInKind(r.Text(), digits, kind, i);
    var j := i - Offset(r, digits);
    DelimiterInRange(Behind(kind), j);
    TryBehind(r, digits, kind, j);
    assert Offset(r, digits) + j == i;
  }

  lemma ParseOfCarried(id: Identity)
    requires id.Carried()
    ensures IsParse(Print(id), Some(id)) <==> forall j :: j > |id.route.Text()| ==> TryAt(Printed(id), j).None?
  {
    hide TryAt, Printed;
    assert Print(id)[|PREFIX|..] == Printed(id);
    assert HasPrefix(Print(id), PREFIX);
    TryPrinted(id);
    forall i | i > |id.route.Text()| ensures TryAt(Printed(id), i) != Some(id) {
      LaterReadingDiffers(id, i);
    }
  }

  lemma ParsedIsCarried(key: string, id: Identity)
    requires IsParse(key, Some(id))
    ensures id.Carried()
  {
    var zeros := PrintOfParse(key, id);
  }

  /** A printed identity parses back to itself if and only if a key can carry it and its kind
      is not misleading: a negative generation, a missing kind, an empty or slashed field
      never does. */
  lemma ParseOfPrint(id: Identity)
    ensures IsParse(Print(id), Some(id)) <==> id.Carried() && !Misleads(id.kind)
  {
    if id.Carried() {
      var path, digits := id.route.Text(), Itoa(id.generation);
      assert Printed(id) == Body(path, digits, id.kind);
      ParseOfCarried(id);
      hide TryAt, Misleads, Body, IsParse, Itoa;
      if Misleads(id.kind) {
        MisleadingIsRead(id.route, digits, id.kind);
      } else {
        forall i | i > |path| ensures TryAt(Body(path, digits, id.kind), i).None? {
          if TryAt(Body(path, digits, id.kind), i).Some? {
            ReadIsMisleading(id.route, digits, id.kind, i);
          }
        }
      }
    } else if IsParse(Print(id), Some(id)) {
      ParsedIsCarried(Print(id), id);
    }
  }

  predicate Denotes(digits: string, n: int) { digits != [] && AllDigits(digits) && DigitsValue(digits) == n }

  /** The delimiter that a key was spelled with reads its identity back. */
  lemma TrySpelled(id: Identity, digits: string)
    requires id.Carried() && Denotes(digits, id.generation)
    ensures TryAt(Body(id.route.Text(), digits, id.kind), |id.route.Text()|) == Some(id)
  {
    BodyCut(id.route.Text(), digits, id.kind);
    ParseIntOf(digits);
    RouteOfText(id.route);
    hide RouteOf, Body, ParseInt, DelimiterAt, DigitsAt, KindAt;
  }

  lemma SpelledReadsDiffer(id: Identity, digits: string, i: int)
    requires id.Carried() && Denotes(digits, id.generation) && i > |id.route.Text()|
    ensures TryAt(Body(id.route.Text(), digits, id.kind), i) != Some(id)
  {
    hide RouteOf;
    if DelimiterAt(Body(id.route.Text(), digits, id.kind), i) {
      DelimiterInKind(id.route.Text(), digits, id.kind, i);
    }
  }

  /** A key spelled for an identity is read as that identity exactly when its kind does not
      mislead, however many leading zeros its generation has. */
  lemma ParseOfSpelled(id: Identity, digits: string)
    requires id.Carried() && Denotes(digits, id.generation)
    ensures IsParse(Spell(id, digits), Some(id)) <==> !Misleads(id.kind)
  {
    var path := id.route.Text();
    var body := Body(path, digits, id.kind);
    TrySpelled(id, digits);
    assert Spell(id, digits)[|PREFIX|..] == body && HasPrefix(Spell(id, digits), PREFIX);
    hide TryAt, Misleads, Body;
    if Misleads(id.kind) {
      MisleadingIsRead(id.route, digits, id.kind);
      forall i | i > |path| ensures TryAt(body, i) != Some(id) {
        SpelledReadsDiffer(id, digits, i);
      }
    } else {
      forall i | i > |path| ensures TryAt(body, i).None? {
        if TryAt(body, i).Some? {
          ReadIsMisleading(id.route, digits, id.kind, i);
        }
      }
    }
  }

  /** Exactly which keys are accepted, and as what. */
  lemma ParseExactly(key: string, id: Identity)
    ensures IsParse(key, Some(id)) <==>
            id.Carried() && !Misleads(id.kind) && exists digits :: Denotes(digits, id.generation) && key == Spell(id, digits)
  {
    hide IsParse, Misleads, Spell;
    if IsParse(key, Some(id)) {
      var zeros := PrintOfParse(key, id);
      var digits := zeros + Itoa(id.generation);
      ZerosDenote(zeros, id.generation);
      ParseOfSpelled(id, digits);
    }
    if id.Carried() && !Misleads(id.kind) {
      forall digits | Denotes(digits, id.generation) && key == Spell(id, digits) ensures IsParse(key, Some(id)) {
        ParseOfSpelled(id, digits);
      }
    }
  }

  lemma {:induction false} ZerosDenote(zeros: string, n: nat)
    requires AllZeros(zeros)
    ensures Denotes(zeros + Itoa(n), n)
  {
    ZerosInFront(zeros, Itoa(n));
  }

  lemma {:induction false} ZerosInFront(zeros: string, digits: string)
    requires AllZeros(zeros) && AllDigits(digits)
    ensures AllDigits(zeros + digits) && DigitsValue(zeros + digits) == DigitsValue(digits)
    decreases |digits|, |zeros|
  {
    var s := zeros + digits;
    if digits != [] {
      ZerosInFront(zeros, digits[..|digits| - 1]);
      assert s[..|s| - 1] == zeros + digits[..|digits| - 1];
    } else if zeros != [] {
      ZerosInFront(zeros[..|zeros| - 1], []);
      assert s[..|s| - 1] == zeros[..|zeros| - 1] + [];
    }
  }

  /** So every identity whose kind holds no ":g<digits>:" survives, whatever slashes its repo
      and whatever ":g" text its task ref contain. */
  lemma PlainKindSurvives(id: Identity)
    requires id.Carried()
    requires forall j :: !DelimiterAt(Behind(id.kind), j)
    ensures IsParse(Print(id), Some(id))
  {
    ParseOfPrint(id);
  }

  lemma BodyNested(path: string, digits: string, front: string, more: string, rest: string)
    ensures Body(Body(path, digits, front), more, rest) == Body(path, digits, Body(front, more, rest))
  {
  }

  lemma SwallowedText(r: Route, digits: string, front: string)
    ensures r.(taskRef := Body(r.taskRef, digits, front)).Text() == Body(r.Text(), digits, front)
  {
  }

  lemma SwallowedCarried(r: Route, digits: string, front: string)
    requires r.Carried() && AllDigits(digits) && '/' !in front
    ensures r.(taskRef := Body(r.taskRef, digits, front)).Carried()
  {
    assert '/' !in digits;
  }

  /** A kind that itself ends in ":g<n>:<rest>" is read back as another identity: the task
      ref swallows the real generation. */
  lemma DelimiterInKindIsMisread(id: Identity, front: string, n: nat, rest: string)
    requires id.Carried() && '/' !in front && n <= MAX_INT64 && rest != ""
    requires id.kind == Body(front, Itoa(n), rest) && forall j :: !DelimiterAt(Behind(rest), j)
    ensures var other := Identity(id.route.(taskRef := Body(id.route.taskRef, Itoa(id.generation), front)), n, rest);
            other != id && IsParse(Print(id), Some(other))
  {
    hide IsParse, Body;
    var digits := Itoa(id.generation);
    var other := Identity(id.route.(taskRef := Body(id.route.taskRef, digits, front)), n, rest);
    SwallowedCarried(id.route, digits, front);
    SwallowedText(id.route, digits, front);
    BodyNested(id.route.Text(), digits, front, Itoa(n), rest);
    assert Print(other) == Print(id);
    PlainKindSurvives(other);
    BodyLonger(front, Itoa(n), rest);
  }

  lemma BodyLonger(path: string, digits: string, kind: string)
    ensures |Body(path, digits, kind)| > |kind|
  {
  }
}
