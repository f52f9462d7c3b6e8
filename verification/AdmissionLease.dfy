/** The host admission lease file: its text, and the three operations that each run
    under the store's file lock (acquire, phase update, release). */
module AdmissionLease {
  import opened Text

  /** RFC 3339 instants and Go durations, both in nanoseconds. Formatting them is foreign
      code; all that is used of it is that it prints one word which parses back. */
  datatype Clockwork = Clockwork(
    formatTime: int -> string, parseTime: string -> Option<int>,
    formatTTL: int -> string, parseTTL: string -> Option<int>)
  {
    ghost predicate Lawful() {
      && (forall t :: Solid(formatTime(t)) && parseTime(formatTime(t)) == Some(t))
      && (forall d :: Solid(formatTTL(d)) && formatTTL(d) != [] && parseTTL(formatTTL(d)) == Some(d))
    }
  }

  const LEGACY_TTL: int := 600_000_000_000

  const PHASE_CAPACITY := "capacity"
  const PHASE_CANDIDATE := "candidate"
  const PHASE_SPAWN := "spawn"

  datatype Lease = Lease(token: string, pid: int, taken: int, ttl: int, phase: string) {
    function EffectiveTTL(): (d: int)
      ensures d > 0
    {
      if ttl <= 0 then LEGACY_TTL else ttl
    }

    predicate Expired(now: int) { now - taken > EffectiveTTL() }

    /** The phases written before anything outside this process can have been started. */
    predicate EarlyPhase() { phase == PHASE_CAPACITY || phase == PHASE_CANDIDATE }

    /** What makes a record printable as one line of five words. */
    ghost predicate Printable() {
      token != [] && Solid(token) && 0 < pid <= MAX_INT64 && Solid(phase)
    }
  }

  datatype Liveness = Live | Dead | Unknown

  // ----- text -----

  function Entry(key: string, value: string): string { key + "=" + value }

  function Words(c: Clockwork, r: Lease): seq<string>
    requires r.pid >= 0
  {
    [Entry("token", r.token), Entry("pid", Itoa(r.pid)), Entry("taken", c.formatTime(r.taken)),
     Entry("ttl", c.formatTTL(r.ttl)), Entry("phase", r.phase)]
  }

  /** The words on one line, a space between them and a newline behind the last. */
  function Line(words: seq<string>): string {
    if words == [] then ""
    else words[0] + [if |words| == 1 then '\n' else ' '] + Line(words[1..])
  }

  function Print(c: Clockwork, r: Lease): string
    requires r.pid >= 0
  {
    Line(Words(c, r))
  }

  /** The map that `key=value` words fill in order; a later word overrides. */
  function Entries(words: seq<string>): map<string, string> {
    if words == [] then map[]
    else
      var front, w := Entries(words[..|words| - 1]), words[|words| - 1];
      var i := IndexOf(w, '=');
      if i < |w| then front[w[..i] := w[i + 1..]] else front
  }

  function Lookup(m: map<string, string>, key: string): string {
    if key in m then m[key] else ""
  }

  function Decode(c: Clockwork, m: map<string, string>): Option<Lease> {
    var token, pid, taken := Lookup(m, "token"), ParseInt(Lookup(m, "pid")), c.parseTime(Lookup(m, "taken"));
    if token == "" || pid.None? || pid.value <= 0 || taken.None? then None
    else
      var ttl := if Lookup(m, "ttl") == "" then None else c.parseTTL(Lookup(m, "ttl"));
      Some(Lease(token, pid.value, taken.value, if ttl.Some? then ttl.value else 0, Lookup(m, "phase")))
  }

  function Parse(c: Clockwork, raw: string): Option<Lease> {
    Decode(c, Entries(Fields(raw)))
  }

  method ParseLease(c: Clockwork, raw: string) returns (r: Option<Lease>)
    ensures r == Parse(c, raw)
  {
    var words := Fields(raw);
    var fields: map<string, string> := map[];
    for n := 0 to |words|
      invariant fields == Entries(words[..n])
    {
      assert words[..n + 1][..n] == words[..n];
      var i := IndexOf(words[n], '=');
      if i < |words[n]| {
        fields := fields[words[n][..i] := words[n][i + 1..]];
      }
    }
    assert words[..|words|] == words;
    r := Decode(c, fields);
  }

  /** The value of `key` in a line of words: behind the last `key=`, or empty. */
  ghost predicate IsValue(words: seq<string>, key: string, v: string) {
    || (v == "" && forall i :: 0 <= i < |words| ==> !HasPrefix(words[i], key + "="))
    || (exists i :: IsValueAt(words, key, v, i))
  }

  ghost predicate IsValueAt(words: seq<string>, key: string, v: string, i: int) {
    && 0 <= i < |words| && words[i] == key + "=" + v
    && forall j :: i < j < |words| ==> !HasPrefix(words[j], key + "=")
  }

  lemma EqualsFirst(w: string, key: string)
    requires '=' !in key
    ensures var i := IndexOf(w, '=');
            HasPrefix(w, key + "=") <==> i < |w| && w[..i] == key
    ensures HasPrefix(w, key + "=") ==> IndexOf(w, '=') == |key|
  {
    hide IndexOf;
    if HasPrefix(w, key + "=") {
      PrefixIsKey(w, key);
    }
    var i := IndexOf(w, '=');
    if i < |w| && w[..i] == key {
      assert w[..i + 1] == w[..i] + [w[i]];
    }
  }

  lemma PrefixIsKey(w: string, key: string)
    requires '=' !in key && HasPrefix(w, key + "=")
    ensures IndexOf(w, '=') == |key| && w[..|key|] == key
  {
    hide IndexOf;
    var rest := w[|key| + 1..];
    assert w == (key + "=") + rest;
    assert w == key + ['='] + rest;
    IndexOfFirst(key, '=', rest);
  }

  lemma {:induction false} LookupIsValue(words: seq<string>, key: string)
    requires '=' !in key
    ensures key in Entries(words) <==> exists i :: 0 <= i < |words| && HasPrefix(words[i], key + "=")
    ensures IsValue(words, key, Lookup(Entries(words), key))
  {
    if words != [] {
      var front, w := words[..|words| - 1], words[|words| - 1];
      LookupIsValue(front, key);
      EqualsFirst(w, key);
      var v := Lookup(Entries(words), key);
      if HasPrefix(w, key + "=") {
        assert w == key + "=" + w[|key| + 1..];
        assert IsValueAt(words, key, v, |words| - 1);
      } else {
        assert v == Lookup(Entries(front), key);
        if i :| IsValueAt(front, key, v, i) {
          assert IsValueAt(words, key, v, i);
        }
      }
    }
  }

  lemma ValueUnique(words: seq<string>, key: string, v: string, v': string)
    requires IsValue(words, key, v) && IsValue(words, key, v')
    ensures v == v'
  {
    if i :| IsValueAt(words, key, v, i) {
      AtPrefix(words, key, v, i);
      if j :| IsValueAt(words, key, v', j) {
        AtPrefix(words, key, v', j);
        assert i == j;
        assert v == words[i][|key| + 1..] == v';
      }
    } else if j :| IsValueAt(words, key, v', j) {
      AtPrefix(words, key, v', j);
    }
  }

  lemma AtPrefix(words: seq<string>, key: string, v: string, i: int)
    requires IsValueAt(words, key, v, i)
    ensures HasPrefix(words[i], key + "=") && words[i][|key| + 1..] == v
  {
  }

  /** What a lease text says: a record exactly when it has a token, a positive int64 pid and a
      time that parse; the TTL is zero unless it is there and parses. */
  lemma ParseExactly(c: Clockwork, raw: string, token: string, pid: string, taken: string, ttl: string, phase: string)
    requires var words := Fields(raw);
             && IsValue(words, "token", token) && IsValue(words, "pid", pid) && IsValue(words, "taken", taken)
             && IsValue(words, "ttl", ttl) && IsValue(words, "phase", phase)
    ensures Parse(c, raw).Some? <==>
            token != "" && ParseInt(pid).Some? && ParseInt(pid).value > 0 && c.parseTime(taken).Some?
    ensures Parse(c, raw).Some? ==>
            var r := Parse(c, raw).value;
            && r.token == token && Some(r.pid) == ParseInt(pid) && Some(r.taken) == c.parseTime(taken) && r.phase == phase
            && r.ttl == (if ttl != "" && c.parseTTL(ttl).Some? then c.parseTTL(ttl).value else 0)
  {
    hide IsValue, Fields, ParseInt, Entries;
    var words := Fields(raw);
    LookupIsValue(words, "token");
    LookupIsValue(words, "pid");
    LookupIsValue(words, "taken");
    LookupIsValue(words, "ttl");
    LookupIsValue(words, "phase");
    ValueUnique(words, "token", token, Lookup(Entries(words), "token"));
    ValueUnique(words, "pid", pid, Lookup(Entries(words), "pid"));
    ValueUnique(words, "taken", taken, Lookup(Entries(words), "taken"));
    ValueUnique(words, "ttl", ttl, Lookup(Entries(words), "ttl"));
    ValueUnique(words, "phase", phase, Lookup(Entries(words), "phase"));
  }

  lemma LineOfFive(a: string, b: string, c: string, d: string, e: string)
    ensures Line([a, b, c, d, e]) == a + " " + b + " " + c + " " + d + " " + e + "\n"
  {
    assert [a, b, c, d, e][1..] == [b, c, d, e] && [b, c, d, e][1..] == [c, d, e] && [c, d, e][1..] == [d, e];
    assert [d, e][1..] == [e] && [e][1..] == [];
    assert Line([e]) == e + "\n";
    assert Line([d, e]) == d + " " + (e + "\n");
    assert Line([c, d, e]) == c + " " + Line([d, e]);
    assert Line([b, c, d, e]) == b + " " + Line([c, d, e]);
  }

  /** The line that is written. */
  lemma PrintedLine(c: Clockwork, r: Lease)
    requires r.pid >= 0
    ensures Print(c, r) == ("token" + "=" + r.token) + " " + ("pid" + "=" + Itoa(r.pid)) + " " + ("taken" + "=" + c.formatTime(r.taken))
                           + " " + ("ttl" + "=" + c.formatTTL(r.ttl)) + " " + ("phase" + "=" + r.phase) + "\n"
  {
    hide Line;
    LineOfFive(Entry("token", r.token), Entry("pid", Itoa(r.pid)), Entry("taken", c.formatTime(r.taken)),
               Entry("ttl", c.formatTTL(r.ttl)), Entry("phase", r.phase));
  }

  lemma {:induction false} EntriesSolid(words: seq<string>)
    requires forall i :: 0 <= i < |words| ==> Solid(words[i])
    ensures forall k :: k in Entries(words) ==> Solid(Entries(words)[k])
  {
    if words != [] {
      EntriesSolid(words[..|words| - 1]);
    }
  }

  /** Every record read from a file can be printed again. */
  lemma ParsedIsPrintable(c: Clockwork, raw: string)
    ensures Parse(c, raw).Some? ==> Parse(c, raw).value.Printable()
  {
    EntriesSolid(Fields(raw));
  }

  lemma {:induction false} LineFields(words: seq<string>)
    requires forall i :: 0 <= i < |words| ==> words[i] != [] && Solid(words[i])
    ensures Fields(Line(words)) == words
  {
    if words != [] {
      LineFields(words[1..]);
      FieldsOfWord(words[0], if |words| == 1 then '\n' else ' ', Line(words[1..]));
      assert words == [words[0]] + words[1..];
    }
  }

  lemma SolidEntry(key: string, value: string)
    requires Solid(key) && Solid(value)
    ensures Solid(Entry(key, value)) && Entry(key, value) != []
  {
  }

  lemma AddEntry(words: seq<string>, key: string, value: string)
    requires '=' !in key
    ensures Entries(words + [Entry(key, value)]) == Entries(words)[key := value]
  {
    var w := Entry(key, value);
    assert (words + [w])[..|words|] == words;
    assert key + ['='] + value == w;
    IndexOfFirst(key, '=', value);
    assert w[..|key|] == key && w[|key| + 1..] == value;
  }

  lemma SolidKeys()
    ensures Solid("token") && Solid("pid") && Solid("taken") && Solid("ttl") && Solid("phase")
  {
  }

  lemma PrintedFields(c: Clockwork, r: Lease)
    requires c.Lawful() && r.Printable()
    ensures Fields(Print(c, r)) == Words(c, r)
  {
    SolidKeys();
    ItoaSolid(r.pid);
    hide Entry, Itoa, Line, Solid, Fields;
    SolidEntry("token", r.token);
    SolidEntry("pid", Itoa(r.pid));
    SolidEntry("taken", c.formatTime(r.taken));
    SolidEntry("ttl", c.formatTTL(r.ttl));
    SolidEntry("phase", r.phase);
    LineFields(Words(c, r));
  }

  lemma PrintedEntries(c: Clockwork, r: Lease)
    requires r.pid >= 0
    ensures Entries(Words(c, r)) ==
            map["token" := r.token, "pid" := Itoa(r.pid), "taken" := c.formatTime(r.taken),
                "ttl" := c.formatTTL(r.ttl), "phase" := r.phase]
  {
    var w := Words(c, r);
    assert w[..1] == [] + [Entry("token", r.token)];
    assert w[..2] == w[..1] + [Entry("pid", Itoa(r.pid))];
    assert w[..3] == w[..2] + [Entry("taken", c.formatTime(r.taken))];
    assert w[..4] == w[..3] + [Entry("ttl", c.formatTTL(r.ttl))];
    assert w == w[..4] + [Entry("phase", r.phase)];
    AddEntry([], "token", r.token);
    AddEntry(w[..1], "pid", Itoa(r.pid));
    AddEntry(w[..2], "taken", c.formatTime(r.taken));
    AddEntry(w[..3], "ttl", c.formatTTL(r.ttl));
    AddEntry(w[..4], "phase", r.phase);
  }

  /** Printing and parsing undo each other. */
  lemma PrintParse(c: Clockwork, r: Lease)
    requires c.Lawful() && r.Printable()
    ensures Parse(c, Print(c, r)) == Some(r)
  {
    PrintedFields(c, r);
    PrintedEntries(c, r);
    ParseItoa(r.pid);
  }

  /** Rewriting the phase of whatever was read keeps token, pid, taken and ttl. */
  lemma PhaseRewriteKeepsIdentity(c: Clockwork, raw: string, phase: string)
    requires c.Lawful() && Parse(c, raw).Some? && Solid(phase)
    ensures var r := Parse(c, raw).value;
            Parse(c, Print(c, r.(phase := phase))) == Some(r.(phase := phase))
  {
    ParsedIsPrintable(c, raw);
    PrintParse(c, Parse(c, raw).value.(phase := phase));
  }

  // ----- the lease as the protocol sees it -----

  datatype File = Absent | Unreadable | Held(lease: Lease)

  function View(c: Clockwork, text: Option<string>): File {
    match text
    case None => Absent
    case Some(raw) =>
      match Parse(c, raw)
      case None => Unreadable
      case Some(r) => Held(r)
  }

  predicate Reclaimable(r: Lease, now: int, live: Liveness) {
    || r.Expired(now)
    || (r.EarlyPhase() && live == Dead)
  }

  function Fresh(token: string, pid: int, now: int, ttl: int): Lease {
    Lease(token, pid, now, ttl, PHASE_CAPACITY)
  }

  /** An acquisition attempt: the new file and whether the caller now holds the lease. */
  function Hold(f: File, token: string, pid: int, now: int, ttl: int, live: Liveness): (File, bool) {
    match f
    case Absent => (Held(Fresh(token, pid, now, ttl)), true)
    case Unreadable => (f, false)
    case Held(r) => if Reclaimable(r, now, live) then (Held(Fresh(token, pid, now, ttl)), true) else (f, false)
  }

  /** Who gets the lease: it is free, or its TTL (ten minutes when none is recorded) is over,
      or its owner is dead and had started nothing. */
  lemma HoldExactly(f: File, token: string, pid: int, now: int, ttl: int, live: Liveness)
    ensures var (file, held) := Hold(f, token, pid, now, ttl, live);
            && (held <==>
                || f.Absent?
                || (f.Held? && now - f.lease.taken > (if f.lease.ttl <= 0 then 600_000_000_000 else f.lease.ttl))
                || (f.Held? && live == Dead && (f.lease.phase == "capacity" || f.lease.phase == "candidate")))
            && file == if held then Held(Lease(token, pid, now, ttl, "capacity")) else f
  {
  }

  function Update(f: File, token: string, phase: string): (File, bool) {
    if f.Held? && f.lease.token == token then (Held(f.lease.(phase := phase)), true) else (f, false)
  }

  function Release(f: File, token: string): File {
    if f.Held? && f.lease.token == token then Absent else f
  }

  /** The lease file. Every method runs with the lock file held, so it is one atomic step. */
  class Store {
    const c: Clockwork
    var text: Option<string>

    constructor (c: Clockwork, text: Option<string>)
      ensures this.c == c && this.text == text
    {
      this.c, this.text := c, text;
    }

    ghost function Contents(): File
      reads this
    {
      View(c, text)
    }

    /** O_CREATE|O_EXCL: writes a fresh record unless the file exists. */
    method WriteExclusive(token: string, pid: int, now: int, ttl: int) returns (ok: bool)
      requires c.Lawful() && Fresh(token, pid, now, ttl).Printable()
      modifies this
      ensures ok == old(text).None?
      ensures Contents() == if ok then Held(Fresh(token, pid, now, ttl)) else old(Contents())
      ensures text.Some? && (!ok ==> text == old(text))
    {
      ok := text.None?;
      if ok {
        PrintParse(c, Fresh(token, pid, now, ttl));
        text := Some(Print(c, Fresh(token, pid, now, ttl)));
      }
    }

    method HoldLease(token: string, pid: int, now: int, ttl: int, live: Liveness) returns (held: bool)
      requires c.Lawful() && Fresh(token, pid, now, ttl).Printable()
      modifies this
      ensures (Contents(), held) == Hold(old(Contents()), token, pid, now, ttl, live)
      ensures var was := old(Contents());
              held <==>
              || was.Absent?
              || (was.Held? && now - was.lease.taken > (if was.lease.ttl <= 0 then 600_000_000_000 else was.lease.ttl))
              || (was.Held? && live == Dead && (was.lease.phase == "capacity" || was.lease.phase == "candidate"))
      ensures held ==> Contents() == Held(Lease(token, pid, now, ttl, "capacity"))
      ensures !held ==> text == old(text)
    {
      hide Parse, Print, Hold;
      HoldExactly(Contents(), token, pid, now, ttl, live);
      held := WriteExclusive(token, pid, now, ttl);
      if !held {
        var observed := ParseLease(c, text.value);
        if observed.None? {
          return;
        }
        var r := observed.value;
        var age := now - r.taken;
        var early := r.EarlyPhase() && live == Dead && age <= r.EffectiveTTL();
        var expired := age > r.EffectiveTTL();
        if early || expired {
          text := None;
          held := WriteExclusive(token, pid, now, ttl);
        }
      }
    }

    method UpdatePhase(token: string, phase: string) returns (ok: bool)
      requires c.Lawful() && Solid(phase)
      modifies this
      ensures (Contents(), ok) == Update(old(Contents()), token, phase)
      ensures ok <==> old(Contents()).Held? && old(Contents()).lease.token == token
      ensures ok ==> Contents() == Held(old(Contents()).lease.(phase := phase))
      ensures !ok ==> text == old(text)
    {
      ok := false;
      if text.Some? {
        var record := ParseLease(c, text.value);
        if record.Some? && record.value.token == token {
          PhaseRewriteKeepsIdentity(c, text.value, phase);
          ParsedIsPrintable(c, text.value);
          text := Some(Print(c, record.value.(phase := phase)));
          ok := true;
        }
      }
    }

    method ReleaseLease(token: string)
      modifies this
      ensures Contents() == Release(old(Contents()), token)
      ensures old(Contents()).Held? && old(Contents()).lease.token == token ==> text.None?
      ensures !(old(Contents()).Held? && old(Contents()).lease.token == token) ==> text == old(text)
    {
      if text.Some? {
        var record := ParseLease(c, text.value);
        if record.Some? && record.value.token == token {
          text := None;
        }
      }
    }
  }
}
