/** The authentication audit log: a hash chain without sequence numbers, whose entries are
    refused when they are too long. Logging is sequential; the hash and the canonical length
    are parameters. */
module AuditLog {
  import opened Options

  type Hash = string

  const GENESIS: Hash := "0000000000000000000000000000000000000000000000000000000000000000"

  /** What the caller gives, the time included. */
  datatype Facts = Facts(timestamp: int, eventType: string, actor: string, status: string, detail: string)

  /** An entry without its own hash. */
  datatype Event = Event(eventId: string, facts: Facts, prevHash: Hash)

  datatype Entry = Entry(event: Event, entryHash: Hash)

  /** A parsed line without entry_hash is not produced by the logger, but can be read. */
  datatype Line = Blank | Parsed(entry: Entry) | Unhashed(event: Event) | Garbage

  datatype Scheme = Scheme(hash: Event -> Hash, length: Event -> nat, idOf: (int, nat) -> string, maxEntrySize: int)

  // ---------------------------------------------------------------- verification

  /** The verdict of a scan; None stands for the exception on a line that does not parse. */
  function Verdict(c: Scheme, lines: seq<Line>, prev: Hash): Option<bool> {
    if lines == [] then Some(true)
    else
      match lines[0]
      case Blank => Verdict(c, lines[1..], prev)
      case Garbage => None
      case Unhashed(event) =>
        if event.prevHash != prev || c.hash(event) != "" then Some(false) else Verdict(c, lines[1..], "")
      case Parsed(e) =>
        if e.event.prevHash != prev || c.hash(e.event) != e.entryHash then Some(false)
        else Verdict(c, lines[1..], e.entryHash)
  }

  /** The events of the log, in order. */
  function Events(lines: seq<Line>): seq<Event> {
    if lines == [] then []
    else
      match lines[0]
      case Parsed(e) => [e.event] + Events(lines[1..])
      case Unhashed(event) => [event] + Events(lines[1..])
      case _ => Events(lines[1..])
  }

  ghost predicate LinksAt(c: Scheme, es: seq<Event>, prev: Hash, i: nat)
    requires i < |es|
  {
    es[i].prevHash == if i == 0 then prev else c.hash(es[i - 1])
  }

  ghost predicate Chained(c: Scheme, es: seq<Event>, prev: Hash) {
    forall i | 0 <= i < |es| :: LinksAt(c, es, prev, i)
  }

  /** The line parses and carries the hash of its event; one without a hash field reads as
      carrying the empty hash. */
  predicate SealedLine(c: Scheme, line: Line) {
    match line
    case Blank => true
    case Garbage => false
    case Unhashed(event) => c.hash(event) == ""
    case Parsed(e) => c.hash(e.event) == e.entryHash
  }

  predicate Sealed(c: Scheme, lines: seq<Line>) {
    forall i | 0 <= i < |lines| :: SealedLine(c, lines[i])
  }

  lemma SealedCons(c: Scheme, lines: seq<Line>)
    requires lines != []
    ensures Sealed(c, lines) <==> SealedLine(c, lines[0]) && Sealed(c, lines[1..])
  {
    assert lines == [lines[0]] + lines[1..];
  }

  lemma ChainedCons(c: Scheme, e: Event, tail: seq<Event>, prev: Hash)
    ensures Chained(c, [e] + tail, prev) <==> e.prevHash == prev && Chained(c, tail, c.hash(e))
  {
    var es := [e] + tail;
    assert forall i: nat | i < |tail| :: LinksAt(c, es, prev, i + 1) <==> LinksAt(c, tail, c.hash(e), i);
    if Chained(c, es, prev) {
      assert LinksAt(c, es, prev, 0);
      forall i: nat | i < |tail| ensures LinksAt(c, tail, c.hash(e), i) { assert LinksAt(c, es, prev, i + 1); }
    }
    if e.prevHash == prev && Chained(c, tail, c.hash(e)) {
      forall i: nat | i < |es| ensures LinksAt(c, es, prev, i) {
        assert i > 0 ==> LinksAt(c, tail, c.hash(e), i - 1);
      }
    }
  }

  /** A log verifies exactly when it is sealed and a chain: every event points at the hash of
      the one before it. */
  lemma {:induction false} VerifiedMeansChained(c: Scheme, lines: seq<Line>, prev: Hash)
    ensures Verdict(c, lines, prev) == Some(true) <==> Sealed(c, lines) && Chained(c, Events(lines), prev)
  {
    if lines != [] {
      SealedCons(c, lines);
      match lines[0]
      case Blank => VerifiedMeansChained(c, lines[1..], prev);
      case Garbage =>
      case Unhashed(event) =>
        VerifiedMeansChained(c, lines[1..], "");
        ChainedCons(c, event, Events(lines[1..]), prev);
        hide Sealed, Chained;
      case Parsed(e) =>
        VerifiedMeansChained(c, lines[1..], e.entryHash);
        ChainedCons(c, e.event, Events(lines[1..]), prev);
        hide Sealed, Chained;
    }
  }

  function Tip(c: Scheme, es: seq<Event>): Hash {
    if es == [] then GENESIS else c.hash(es[|es| - 1])
  }

  /** Two different events of these logs have the same hash. */
  ghost predicate Collide(c: Scheme, a: seq<Event>, b: seq<Event>) {
    exists e, d :: e in a && d in b && e != d && c.hash(e) == c.hash(d)
  }

  /** The hash of one of these events is the marker of an empty chain. */
  ghost predicate HitsGenesis(c: Scheme, a: seq<Event>) {
    exists e :: e in a && c.hash(e) == GENESIS
  }

  /** Two verified audit logs with the same tip hash hold the same events, although the
      entries carry no numbers, unless the hash collides on events that are in them. */
  lemma SameTipSameLog(c: Scheme, a: seq<Line>, b: seq<Line>)
    requires Verdict(c, a, GENESIS) == Some(true) && Verdict(c, b, GENESIS) == Some(true)
    requires Tip(c, Events(a)) == Tip(c, Events(b))
    ensures Events(a) == Events(b) || Collide(c, Events(a), Events(b))
            || HitsGenesis(c, Events(a)) || HitsGenesis(c, Events(b))
  {
    VerifiedMeansChained(c, a, GENESIS);
    VerifiedMeansChained(c, b, GENESIS);
    SameTipSameEvents(c, Events(a), Events(b));
  }

  lemma PrefixCollides(c: Scheme, a: seq<Event>, b: seq<Event>, m: nat, n: nat)
    requires m <= |a| && n <= |b|
    ensures Collide(c, a[..m], b[..n]) ==> Collide(c, a, b)
    ensures HitsGenesis(c, a[..m]) ==> HitsGenesis(c, a)
    ensures HitsGenesis(c, b[..n]) ==> HitsGenesis(c, b)
  {
    assert a == a[..m] + a[m..] && b == b[..n] + b[n..];
  }

  lemma LastLinks(c: Scheme, es: seq<Event>, n: nat)
    requires Chained(c, es, GENESIS) && |es| == n + 1
    ensures Chained(c, es[..n], GENESIS) && Tip(c, es[..n]) == es[n].prevHash && es == es[..n] + [es[n]]
  {
    PrefixIsChained(c, es, n);
    assert LinksAt(c, es, GENESIS, n);
  }

  lemma TipHitsGenesis(c: Scheme, es: seq<Event>)
    requires es != [] && Tip(c, es) == GENESIS
    ensures HitsGenesis(c, es)
  {
    assert es[|es| - 1] in es;
  }

  lemma TipsCollide(c: Scheme, a: seq<Event>, b: seq<Event>)
    requires a != [] && b != [] && Tip(c, a) == Tip(c, b) && a[|a| - 1] != b[|b| - 1]
    ensures Collide(c, a, b)
  {
    assert a[|a| - 1] in a && b[|b| - 1] in b;
  }

  lemma {:induction false} SameTipSameEvents(c: Scheme, a: seq<Event>, b: seq<Event>)
    requires Chained(c, a, GENESIS) && Chained(c, b, GENESIS) && Tip(c, a) == Tip(c, b)
    ensures a == b || Collide(c, a, b) || HitsGenesis(c, a) || HitsGenesis(c, b)
    decreases |a|
  {
    hide Chained, Collide, HitsGenesis;
    if a == [] && b == [] {
    } else if b == [] {
      TipHitsGenesis(c, a);
    } else if a == [] {
      TipHitsGenesis(c, b);
    } else if a[|a| - 1] != b[|b| - 1] {
      TipsCollide(c, a, b);
    } else {
      var m, n := |a| - 1, |b| - 1;
      LastLinks(c, a, m);
      LastLinks(c, b, n);
      SameTipSameEvents(c, a[..m], b[..n]);
      PrefixCollides(c, a, b, m, n);
    }
  }

  lemma PrefixIsChained(c: Scheme, es: seq<Event>, n: nat)
    requires Chained(c, es, GENESIS) && n <= |es|
    ensures Chained(c, es[..n], GENESIS)
  {
    forall i | 0 <= i < n ensures LinksAt(c, es[..n], GENESIS, i) {
      assert LinksAt(c, es, GENESIS, i);
    }
  }

  // ---------------------------------------------------------------- operations

  datatype State = State(lines: seq<Line>, lastHash: Hash, counter: nat)

  function EntryFor(c: Scheme, s: State, facts: Facts): Entry {
    var event := Event(c.idOf(facts.timestamp, s.counter + 1), facts, s.lastHash);
    Entry(event, c.hash(event))
  }

  /** An entry whose canonical form is too long is refused; only the counter has moved. */
  function Logged(c: Scheme, s: State, facts: Facts): State {
    var e := EntryFor(c, s, facts);
    if c.length(e.event) > c.maxEntrySize then s.(counter := s.counter + 1)
    else State(s.lines + [Parsed(e)], e.entryHash, s.counter + 1)
  }

  function TailHash(lines: seq<Line>, last: Hash): Hash {
    if lines == [] then last
    else
      match lines[0]
      case Blank => TailHash(lines[1..], last)
      case Garbage => last
      case Unhashed(_) => TailHash(lines[1..], last)
      case Parsed(e) => TailHash(lines[1..], e.entryHash)
  }

  /** The tail is read up to the first line that does not parse; lines without a hash are passed. */
  lemma {:induction false} TailHashStops(lines: seq<Line>, more: seq<Line>, last: Hash)
    requires Garbage !in lines
    ensures TailHash(lines + [Garbage] + more, last) == TailHash(lines, last)
  {
    var file := lines + [Garbage] + more;
    if lines != [] {
      assert file[0] == lines[0] && file[1..] == lines[1..] + [Garbage] + more;
      match lines[0]
      case Parsed(e) => TailHashStops(lines[1..], more, e.entryHash);
      case Garbage =>
      case _ => TailHashStops(lines[1..], more, last);
    }
  }

  function Opened(lines: seq<Line>): State {
    State(lines, TailHash(lines, GENESIS), 0)
  }

  datatype Op = Log(facts: Facts) | Restart

  function Step(c: Scheme, s: State, op: Op): State {
    match op
    case Log(facts) => Logged(c, s, facts)
    case Restart => Opened(s.lines)
  }

  function Run(c: Scheme, s: State, ops: seq<Op>): State {
    if ops == [] then s else Step(c, Run(c, s, ops[..|ops| - 1]), ops[|ops| - 1])
  }

  /** The facts of the entries that a run accepts, in order. */
  function Accepted(c: Scheme, s: State, ops: seq<Op>): seq<Facts> {
    if ops == [] then []
    else
      var n := |ops| - 1;
      var before := Run(c, s, ops[..n]);
      Accepted(c, s, ops[..n]) +
        if ops[n].Log? && c.length(EntryFor(c, before, ops[n].facts).event) <= c.maxEntrySize then [ops[n].facts] else []
  }

  // ---------------------------------------------------------------- completeness

  /** The log verifies, and the logger remembers its last hash. */
  ghost predicate Consistent(c: Scheme, s: State) {
    Verdict(c, s.lines, GENESIS) == Some(true) && s.lastHash == TailHash(s.lines, GENESIS)
    && forall i | 0 <= i < |s.lines| :: !s.lines[i].Unhashed?
  }

  lemma {:induction false} AppendVerifies(c: Scheme, lines: seq<Line>, prev: Hash, e: Entry)
    requires Verdict(c, lines, prev) == Some(true) && forall i | 0 <= i < |lines| :: !lines[i].Unhashed?
    requires e.event.prevHash == TailHash(lines, prev) && e.entryHash == c.hash(e.event)
    ensures Verdict(c, lines + [Parsed(e)], prev) == Some(true)
    ensures TailHash(lines + [Parsed(e)], prev) == e.entryHash
    ensures Events(lines + [Parsed(e)]) == Events(lines) + [e.event]
  {
    if lines == [] {
      assert (lines + [Parsed(e)])[1..] == [];
    } else {
      assert (lines + [Parsed(e)])[1..] == lines[1..] + [Parsed(e)];
      match lines[0]
      case Parsed(d) => AppendVerifies(c, lines[1..], d.entryHash, e);
      case Blank => AppendVerifies(c, lines[1..], prev, e);
      case Unhashed(_) =>
      case Garbage =>
    }
  }

  function FactsOf(es: seq<Event>): (r: seq<Facts>)
    ensures |r| == |es| && forall i | 0 <= i < |es| :: r[i] == es[i].facts
  {
    seq(|es|, i requires 0 <= i < |es| => es[i].facts)
  }

  /** Any run of logging and restarting from an empty file leaves a log that verifies, and
      that holds exactly the accepted entries: a refused one leaves no trace. */
  lemma {:induction false} EveryRunVerifies(c: Scheme, ops: seq<Op>)
    ensures var s := Run(c, Opened([]), ops);
            Consistent(c, s) && FactsOf(Events(s.lines)) == Accepted(c, Opened([]), ops)
  {
    if ops != [] {
      var n := |ops| - 1;
      var before := Run(c, Opened([]), ops[..n]);
      EveryRunVerifies(c, ops[..n]);
      match ops[n]
      case Restart =>
      case Log(facts) =>
        var e := EntryFor(c, before, facts);
        AppendVerifies(c, before.lines, GENESIS, e);
        assert FactsOf(Events(before.lines) + [e.event]) == FactsOf(Events(before.lines)) + [facts];
    }
  }

  // ---------------------------------------------------------------- the class

  class AuditLogger {
    var lines: seq<Line>
    var lastHash: Hash
    var counter: nat
    const scheme: Scheme

    ghost function Abs(): State
      reads this
    {
      State(lines, lastHash, counter)
    }

    constructor (scheme: Scheme, lines: seq<Line>)
      ensures this.scheme == scheme && Abs() == Opened(lines)
    {
      this.scheme, this.lines, lastHash, counter := scheme, lines, GENESIS, 0;
      new;
      for i := 0 to |lines|
        invariant TailHash(lines[i..], lastHash) == TailHash(lines, GENESIS)
        invariant this.lines == lines && counter == 0
      {
        match lines[i] {
          case Blank =>
          case Garbage => return;
          case Unhashed(_) =>
          case Parsed(e) => lastHash := e.entryHash;
        }
      }
    }

    /** Some(entry) is the entry written; None stands for the refusal. */
    method LogEvent(facts: Facts) returns (r: Option<Entry>)
      modifies this
      ensures Abs() == Logged(scheme, old(Abs()), facts)
      ensures r == if TooLong(old(Abs()), facts) then None else Some(EntryFor(scheme, old(Abs()), facts))
    {
      counter := counter + 1;
      var event := Event(scheme.idOf(facts.timestamp, counter), facts, lastHash);
      var e := Entry(event, scheme.hash(event));
      if scheme.length(event) > scheme.maxEntrySize { return None; }
      lines := lines + [Parsed(e)];
      lastHash := e.entryHash;
      r := Some(e);
    }

    ghost predicate TooLong(s: State, facts: Facts) {
      scheme.length(EntryFor(scheme, s, facts).event) > scheme.maxEntrySize
    }

    method VerifyChain() returns (ok: Option<bool>)
      ensures ok == Verdict(scheme, lines, GENESIS)
    {
      var prev := GENESIS;
      for i := 0 to |lines|
        invariant Verdict(scheme, lines[i..], prev) == Verdict(scheme, lines, GENESIS)
      {
        match lines[i] {
          case Blank =>
          case Garbage => return None;
          case Unhashed(event) =>
            if event.prevHash != prev || scheme.hash(event) != "" { return Some(false); }
            prev := "";
          case Parsed(e) =>
            if e.event.prevHash != prev || scheme.hash(e.event) != e.entryHash { return Some(false); }
            prev := e.entryHash;
        }
      }
      ok := Some(true);
    }
  }
}
