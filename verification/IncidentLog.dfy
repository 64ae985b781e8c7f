/** The hash-chained incident log: appending, notes, restarts and verification. The hash and
    the formatting of ids are parameters. */
module IncidentLog {
  import opened Options

  type Hash = string

  const GENESIS: Hash := "0000000000000000000000000000000000000000000000000000000000000000"

  datatype Content = Content(
    timestamp: real, title: string, description: string, severity: string, threatType: string, status: string,
    source: string, alertIds: seq<string>, evidence: map<string, string>, responseActions: seq<string>,
    operator: string, notes: seq<string>)

  /** What is hashed: everything but the record hash itself. */
  datatype Payload = Payload(seqNo: int, id: string, content: Content, previousHash: Hash)

  datatype Record = Record(payload: Payload, recordHash: Hash)

  /** A line of the chain file: blank, a parsed record, or text that does not parse. */
  datatype Line = Blank | Entry(rec: Record) | Garbage

  /** The hash function and the rendering of incident ids. */
  datatype Scheme = Scheme(hash: Payload -> Hash, idOf: int -> string)

  /** A digest is never the empty string. */
  ghost predicate Digest(c: Scheme) {
    forall p :: c.hash(p) != ""
  }

  // ---------------------------------------------------------------- what verification means

  predicate Fits(c: Scheme, r: Record, prev: Hash, seen: int) {
    r.payload.seqNo == seen + 1 && r.payload.previousHash == prev && r.recordHash == c.hash(r.payload)
  }

  /** Every record fits the one before it, and every line parses. */
  predicate Intact(c: Scheme, lines: seq<Line>, prev: Hash, seen: int) {
    if lines == [] then true
    else
      match lines[0]
      case Blank => Intact(c, lines[1..], prev, seen)
      case Garbage => false
      case Entry(r) => Fits(c, r, prev, seen) && Intact(c, lines[1..], r.recordHash, r.payload.seqNo)
  }

  /** The line number once for every condition that a record breaks. */
  function FaultsOf(c: Scheme, r: Record, prev: Hash, seen: int, line: nat): seq<nat> {
    (if r.payload.seqNo != seen + 1 then [line] else [])
    + (if r.payload.previousHash != prev then [line] else [])
    + (if r.recordHash != c.hash(r.payload) then [line] else [])
  }

  /** The faults of a file from the given line on; a line that does not parse ends the scan. */
  function Faults(c: Scheme, lines: seq<Line>, prev: Hash, seen: int, line: nat): seq<nat> {
    if lines == [] then []
    else
      match lines[0]
      case Blank => Faults(c, lines[1..], prev, seen, line + 1)
      case Garbage => [line]
      case Entry(r) => FaultsOf(c, r, prev, seen, line) + Faults(c, lines[1..], r.recordHash, r.payload.seqNo, line + 1)
  }

  lemma {:induction false} NoFaults(c: Scheme, lines: seq<Line>, prev: Hash, seen: int, line: nat)
    ensures Faults(c, lines, prev, seen, line) == [] <==> Intact(c, lines, prev, seen)
  {
    if lines != [] {
      match lines[0]
      case Blank => NoFaults(c, lines[1..], prev, seen, line + 1);
      case Garbage =>
      case Entry(r) => NoFaults(c, lines[1..], r.recordHash, r.payload.seqNo, line + 1);
    }
  }

  /** A record adds its line once for every one of the three conditions that it breaks, whatever
      comes before it and behind it. */
  lemma {:induction false} EveryFaultIsListed(c: Scheme, lines: seq<Line>, r: Record, more: seq<Line>,
                                              prev: Hash, seen: int, line: nat)
    requires Garbage !in lines
    ensures var (p, n) := EndOf(lines, prev, seen);
            Faults(c, lines + [Entry(r)] + more, prev, seen, line)
            == Faults(c, lines, prev, seen, line) + FaultsOf(c, r, p, n, line + |lines|)
               + Faults(c, more, r.recordHash, r.payload.seqNo, line + |lines| + 1)
  {
    hide FaultsOf;
    var file := lines + [Entry(r)] + more;
    if lines == [] {
      assert file[0] == Entry(r) && file[1..] == more;
    } else {
      assert file[0] == lines[0] && file[1..] == lines[1..] + [Entry(r)] + more;
      assert lines == [lines[0]] + lines[1..];
      match lines[0]
      case Blank => EveryFaultIsListed(c, lines[1..], r, more, prev, seen, line + 1);
      case Garbage =>
      case Entry(q) => EveryFaultIsListed(c, lines[1..], r, more, q.recordHash, q.payload.seqNo, line + 1);
    }
  }

  /** The hash and number that the scan expects the next record to follow. */
  function EndOf(lines: seq<Line>, prev: Hash, seen: int): (Hash, int) {
    if lines == [] then (prev, seen)
    else
      match lines[0]
      case Entry(r) => EndOf(lines[1..], r.recordHash, r.payload.seqNo)
      case _ => EndOf(lines[1..], prev, seen)
  }

  lemma FaultsOfRecord(c: Scheme, r: Record, prev: Hash, seen: int, line: nat)
    ensures forall l | l in FaultsOf(c, r, prev, seen, line) :: l == line
    ensures |FaultsOf(c, r, prev, seen, line)|
         == (if r.payload.seqNo != seen + 1 then 1 else 0) + (if r.payload.previousHash != prev then 1 else 0)
            + (if r.recordHash != c.hash(r.payload) then 1 else 0)
  {
  }

  function Records(lines: seq<Line>): seq<Record> {
    if lines == [] then []
    else
      match lines[0]
      case Entry(r) => [r] + Records(lines[1..])
      case _ => Records(lines[1..])
  }

  /** The same, as a property of the records: record i has number seen + i + 1, points at the
      hash of its predecessor, and carries its own hash. */
  ghost predicate Chained(c: Scheme, rs: seq<Record>, prev: Hash, seen: int) {
    forall i | 0 <= i < |rs| :: FitsAt(c, rs, prev, seen, i)
  }

  ghost predicate FitsAt(c: Scheme, rs: seq<Record>, prev: Hash, seen: int, i: nat)
    requires i < |rs|
  {
    Fits(c, rs[i], if i == 0 then prev else rs[i - 1].recordHash, seen + i)
  }

  lemma {:induction false} IntactMeansChained(c: Scheme, lines: seq<Line>, prev: Hash, seen: int)
    ensures Intact(c, lines, prev, seen) <==> (Garbage !in lines && Chained(c, Records(lines), prev, seen))
  {
    if lines != [] {
      var rest := lines[1..];
      assert lines == [lines[0]] + rest;
      match lines[0]
      case Blank => IntactMeansChained(c, rest, prev, seen);
      case Garbage =>
      case Entry(r) =>
        IntactMeansChained(c, rest, r.recordHash, r.payload.seqNo);
        var rs, tail := Records(lines), Records(rest);
        assert rs == [r] + tail;
        if Chained(c, rs, prev, seen) {
          assert FitsAt(c, rs, prev, seen, 0);
          forall i | 0 <= i < |tail| ensures FitsAt(c, tail, r.recordHash, r.payload.seqNo, i) {
            assert FitsAt(c, rs, prev, seen, i + 1);
          }
        }
        if Fits(c, r, prev, seen) && Chained(c, tail, r.recordHash, r.payload.seqNo) {
          forall i | 0 <= i < |rs| ensures FitsAt(c, rs, prev, seen, i) {
            assert i > 0 ==> FitsAt(c, tail, r.recordHash, r.payload.seqNo, i - 1);
          }
        }
    }
  }

  function Tip(rs: seq<Record>): Hash {
    if rs == [] then GENESIS else rs[|rs| - 1].recordHash
  }

  /** Two different payloads of these records have the same hash. */
  ghost predicate Collide(c: Scheme, a: seq<Record>, b: seq<Record>) {
    exists r, q :: r in a && q in b && r.payload != q.payload && c.hash(r.payload) == c.hash(q.payload)
  }

  /** The hash of one of these records is the marker of an empty chain. */
  ghost predicate HitsGenesis(c: Scheme, a: seq<Record>) {
    exists r :: r in a && c.hash(r.payload) == GENESIS
  }

  /** Two verified logs with the same tip hash hold the same records, unless the hash collides
      on payloads that are in them. */
  lemma SameTipSameLog(c: Scheme, a: seq<Line>, b: seq<Line>)
    requires Intact(c, a, GENESIS, 0) && Intact(c, b, GENESIS, 0)
    requires Tip(Records(a)) == Tip(Records(b))
    ensures Records(a) == Records(b) || Collide(c, Records(a), Records(b))
            || HitsGenesis(c, Records(a)) || HitsGenesis(c, Records(b))
  {
    IntactMeansChained(c, a, GENESIS, 0);
    IntactMeansChained(c, b, GENESIS, 0);
    SameTipSameRecords(c, Records(a), Records(b));
  }

  lemma PrefixIsChained(c: Scheme, rs: seq<Record>, n: nat)
    requires Chained(c, rs, GENESIS, 0) && n <= |rs|
    ensures Chained(c, rs[..n], GENESIS, 0)
  {
    forall i | 0 <= i < n ensures FitsAt(c, rs[..n], GENESIS, 0, i) {
      assert FitsAt(c, rs, GENESIS, 0, i);
    }
  }

  lemma TipIsDigest(c: Scheme, rs: seq<Record>)
    requires Chained(c, rs, GENESIS, 0)
    ensures rs != [] ==> Tip(rs) == c.hash(rs[|rs| - 1].payload)
  {
    assert rs != [] ==> FitsAt(c, rs, GENESIS, 0, |rs| - 1);
  }

  lemma {:induction false} SameTipSameRecords(c: Scheme, a: seq<Record>, b: seq<Record>)
    requires Chained(c, a, GENESIS, 0) && Chained(c, b, GENESIS, 0) && Tip(a) == Tip(b)
    ensures a == b || Collide(c, a, b) || HitsGenesis(c, a) || HitsGenesis(c, b)
    decreases |a|
  {
    TipIsDigest(c, a);
    TipIsDigest(c, b);
    if a != [] && b != [] {
      var m, n := |a| - 1, |b| - 1;
      assert FitsAt(c, a, GENESIS, 0, m) && FitsAt(c, b, GENESIS, 0, n);
      assert a == a[..m] + [a[m]] && b == b[..n] + [b[n]];
      if a[m].payload == b[n].payload {
        PrefixIsChained(c, a, m);
        PrefixIsChained(c, b, n);
        SameTipSameRecords(c, a[..m], b[..n]);
        hide Chained;
      }
    } else if a != [] {
      assert a[|a| - 1] in a;
    } else if b != [] {
      assert b[|b| - 1] in b;
    }
  }

  // ---------------------------------------------------------------- operations

  /** The file (missing, or its lines), and what the logger remembers of its end. */
  datatype State = State(file: Option<seq<Line>>, lastSeq: int, lastHash: Hash)

  function Lines(s: State): seq<Line> {
    match s.file case None => [] case Some(lines) => lines
  }

  function Logged(c: Scheme, s: State, content: Content): State {
    var payload := Payload(s.lastSeq + 1, c.idOf(s.lastSeq + 1), content, s.lastHash);
    var rec := Record(payload, c.hash(payload));
    State(Some(Lines(s) + [Entry(rec)]), rec.payload.seqNo, rec.recordHash)
  }

  /** What a new logger reads from the file: it stops at the first line that does not parse. */
  function Loaded(lines: seq<Line>, lastSeq: int, lastHash: Hash): (int, Hash) {
    if lines == [] then (lastSeq, lastHash)
    else
      match lines[0]
      case Blank => Loaded(lines[1..], lastSeq, lastHash)
      case Garbage => (lastSeq, lastHash)
      case Entry(r) =>
        Loaded(lines[1..], if r.payload.seqNo > lastSeq then r.payload.seqNo else lastSeq,
               if r.recordHash == "" then GENESIS else r.recordHash)
  }

  /** Nothing behind a line that does not parse is read. */
  lemma {:induction false} LoadedStops(lines: seq<Line>, more: seq<Line>, lastSeq: int, lastHash: Hash)
    requires Garbage !in lines
    ensures Loaded(lines + [Garbage] + more, lastSeq, lastHash) == Loaded(lines, lastSeq, lastHash)
  {
    var file := lines + [Garbage] + more;
    if lines != [] {
      assert file[0] == lines[0] && file[1..] == lines[1..] + [Garbage] + more;
      match lines[0]
      case Blank => LoadedStops(lines[1..], more, lastSeq, lastHash);
      case Garbage =>
      case Entry(r) =>
        LoadedStops(lines[1..], more, if r.payload.seqNo > lastSeq then r.payload.seqNo else lastSeq,
                    if r.recordHash == "" then GENESIS else r.recordHash);
    }
  }

  function Restarted(file: Option<seq<Line>>): State {
    var (lastSeq, lastHash) := Loaded(match file case None => [] case Some(ls) => ls, 0, GENESIS);
    State(file, lastSeq, lastHash)
  }

  /** The last record with the given id; an empty id matches every record. */
  function Find(rs: seq<Record>, id: string): (r: Option<Record>)
    ensures r.Some? ==> r.value in rs && (id == "" || r.value.payload.id == id)
    ensures r.None? ==> forall x | x in rs :: id != "" && x.payload.id != id
  {
    if rs == [] then None
    else if id == "" || rs[|rs| - 1].payload.id == id then Some(rs[|rs| - 1])
    else
      assert rs == rs[..|rs| - 1] + [rs[|rs| - 1]];
      Find(rs[..|rs| - 1], id)
  }

  function NoteOn(original: Record, id: string, note: string, operator: string, timestamp: real): Content {
    var o := original.payload.content;
    Content(timestamp, "Update: " + o.title, "Note added to " + id + " by " + (if operator == "" then "system" else operator),
            o.severity, o.threatType, "open", "incident_logger", [id], map[], [], operator, o.notes + [note])
  }

  datatype Op =
    | LogIncident(content: Content)
    | AddNote(id: string, note: string, operator: string, timestamp: real)
    | Restart

  function Step(c: Scheme, s: State, op: Op): State {
    match op
    case LogIncident(content) => Logged(c, s, content)
    case AddNote(id, note, operator, timestamp) =>
      (match Find(Records(Lines(s)), id)
       case None => s
       case Some(original) => Logged(c, s, NoteOn(original, id, note, operator, timestamp)))
    case Restart => Restarted(s.file)
  }

  function Run(c: Scheme, s: State, ops: seq<Op>): State {
    if ops == [] then s else Step(c, Run(c, s, ops[..|ops| - 1]), ops[|ops| - 1])
  }

  // ---------------------------------------------------------------- completeness

  /** The file verifies, and the logger remembers exactly its end. */
  ghost predicate Consistent(c: Scheme, s: State) {
    var rs := Records(Lines(s));
    && Intact(c, Lines(s), GENESIS, 0) && s.lastSeq == |rs| && s.lastHash == Tip(rs)
    && forall i | 0 <= i < |rs| :: rs[i].payload.id == c.idOf(i + 1)
  }

  lemma {:induction false} RecordsOfAppend(lines: seq<Line>, r: Record)
    ensures Records(lines + [Entry(r)]) == Records(lines) + [r]
  {
    if lines != [] {
      assert (lines + [Entry(r)])[1..] == lines[1..] + [Entry(r)];
      RecordsOfAppend(lines[1..], r);
    }
  }

  lemma LoggingKeepsConsistent(c: Scheme, s: State, content: Content)
    requires Consistent(c, s)
    ensures Consistent(c, Logged(c, s, content))
    ensures Records(Lines(s)) <= Records(Lines(Logged(c, s, content)))
  {
    var s' := Logged(c, s, content);
    var rs := Records(Lines(s));
    var payload := Payload(s.lastSeq + 1, c.idOf(s.lastSeq + 1), content, s.lastHash);
    var r := Record(payload, c.hash(payload));
    RecordsOfAppend(Lines(s), r);
    IntactMeansChained(c, Lines(s), GENESIS, 0);
    IntactMeansChained(c, Lines(s'), GENESIS, 0);
    forall i | 0 <= i <= |rs| ensures FitsAt(c, rs + [r], GENESIS, 0, i) {
      assert i < |rs| ==> FitsAt(c, rs, GENESIS, 0, i);
    }
  }

  /** Loading an intact file finds its last number and its last hash. */
  lemma {:induction false} LoadedIsTheEnd(c: Scheme, lines: seq<Line>, prev: Hash, seen: int)
    requires Digest(c) && Intact(c, lines, prev, seen)
    ensures Loaded(lines, seen, prev)
            == (seen + |Records(lines)|, if Records(lines) == [] then prev else Tip(Records(lines)))
  {
    if lines != [] {
      match lines[0]
      case Blank => LoadedIsTheEnd(c, lines[1..], prev, seen);
      case Garbage =>
      case Entry(r) => LoadedIsTheEnd(c, lines[1..], r.recordHash, r.payload.seqNo);
    }
  }

  /** Nothing is ever rewritten: an incident or a note is one more record with the content given,
      and a restart adds none. A note goes to the latest record with the id it names, and repeats
      its notes before the new one. */
  lemma StepAppends(c: Scheme, s: State, op: Op)
    requires Consistent(c, s)
    ensures var rs, rs' := Records(Lines(s)), Records(Lines(Step(c, s, op)));
            match op
            case LogIncident(content) => |rs'| == |rs| + 1 && rs' == rs + [rs'[|rs|]] && rs'[|rs|].payload.content == content
            case Restart => rs' == rs
            case AddNote(id, note, operator, timestamp) =>
              if id == "" || exists r :: r in rs && r.payload.id == id then
                if rs == [] then rs' == rs
                else
                  && |rs'| == |rs| + 1 && rs' == rs + [rs'[|rs|]]
                  && exists i: nat :: Latest(rs, id, i) && Notes(rs[i], id, note, operator, timestamp, rs'[|rs|].payload.content)
              else rs' == rs
  {
    var rs := Records(Lines(s));
    match op
    case LogIncident(content) => LogAppends(c, s, content);
    case Restart =>
    case AddNote(id, note, operator, timestamp) =>
      FindIsLatest(rs, id);
      match Find(rs, id) {
        case None =>
        case Some(original) => LogAppends(c, s, NoteOn(original, id, note, operator, timestamp));
      }
  }

  lemma LogAppends(c: Scheme, s: State, content: Content)
    ensures var rs, rs' := Records(Lines(s)), Records(Lines(Logged(c, s, content)));
            |rs'| == |rs| + 1 && rs' == rs + [rs'[|rs|]] && rs'[|rs|].payload.content == content
  {
    var payload := Payload(s.lastSeq + 1, c.idOf(s.lastSeq + 1), content, s.lastHash);
    RecordsOfAppend(Lines(s), Record(payload, c.hash(payload)));
  }

  /** Record i is the last one with the id; an empty id stands for any. */
  ghost predicate Latest(rs: seq<Record>, id: string, i: nat) {
    && i < |rs| && (id == "" || rs[i].payload.id == id)
    && forall j | i < j < |rs| :: id != "" && rs[j].payload.id != id
  }

  /** The content of a note refers to the record, keeps its notes and adds one. */
  ghost predicate Notes(r: Record, id: string, note: string, operator: string, timestamp: real, n: Content) {
    var o := r.payload.content;
    && n.notes == o.notes + [note] && n.alertIds == [id] && n.timestamp == timestamp && n.operator == operator
    && n.title == "Update: " + o.title && n.severity == o.severity && n.threatType == o.threatType
  }

  lemma LastIsLatest(rs: seq<Record>, id: string, n: nat)
    requires n + 1 == |rs| && (id == "" || rs[n].payload.id == id)
    ensures Latest(rs, id, n)
  {
  }

  lemma LatestStays(rs: seq<Record>, id: string, n: nat, i: nat)
    requires n + 1 == |rs| && Latest(rs[..n], id, i) && id != "" && rs[n].payload.id != id
    ensures Latest(rs, id, i) && rs[i] == rs[..n][i]
  {
    forall j | i < j < |rs| ensures rs[j].payload.id != id { assert j < n ==> rs[..n][j].payload.id != id; }
  }

  lemma {:induction false} FindIsLatest(rs: seq<Record>, id: string)
    ensures match Find(rs, id)
            case None => rs == [] || (id != "" && forall r | r in rs :: r.payload.id != id)
            case Some(r) => exists i: nat :: Latest(rs, id, i) && rs[i] == r
  {
    if rs != [] {
      var n := |rs| - 1;
      if id == "" || rs[n].payload.id == id {
        LastIsLatest(rs, id, n);
      } else {
        FindIsLatest(rs[..n], id);
        if Find(rs[..n], id).Some? {
          var i: nat :| Latest(rs[..n], id, i) && rs[..n][i] == Find(rs[..n], id).value;
          LatestStays(rs, id, n, i);
        } else {
          assert rs == rs[..n] + [rs[n]];
        }
      }
    }
  }

  lemma StepKeepsConsistent(c: Scheme, s: State, op: Op)
    requires Digest(c) && Consistent(c, s)
    ensures Consistent(c, Step(c, s, op))
    ensures Records(Lines(s)) <= Records(Lines(Step(c, s, op)))
  {
    match op
    case LogIncident(content) => LoggingKeepsConsistent(c, s, content);
    case AddNote(id, note, operator, timestamp) =>
      match Find(Records(Lines(s)), id) {
        case None =>
        case Some(original) => LoggingKeepsConsistent(c, s, NoteOn(original, id, note, operator, timestamp));
      }
    case Restart => LoadedIsTheEnd(c, Lines(s), GENESIS, 0);
  }

  /** Any run of log, note and restart from a missing file leaves a file that verifies. */
  lemma {:induction false} EveryRunVerifies(c: Scheme, ops: seq<Op>)
    requires Digest(c)
    ensures Consistent(c, Run(c, Restarted(None), ops))
  {
    if ops != [] {
      EveryRunVerifies(c, ops[..|ops| - 1]);
      StepKeepsConsistent(c, Run(c, Restarted(None), ops[..|ops| - 1]), ops[|ops| - 1]);
    }
  }

  /** No id is given twice, restarts included, and a note finds the one incident it names. */
  lemma IdsAreUnique(c: Scheme, s: State, i: nat, j: nat)
    requires Consistent(c, s) && i < |Records(Lines(s))| && j < |Records(Lines(s))|
    requires forall m, n :: c.idOf(m) == c.idOf(n) ==> m == n
    requires Records(Lines(s))[i].payload.id == Records(Lines(s))[j].payload.id
    ensures i == j
  {
  }

  // ---------------------------------------------------------------- the class

  class IncidentLogger {
    var file: Option<seq<Line>>
    var lastSeq: int
    var lastHash: Hash
    const scheme: Scheme

    ghost function Abs(): State
      reads this
    {
      State(file, lastSeq, lastHash)
    }

    constructor (scheme: Scheme, file: Option<seq<Line>>)
      ensures this.scheme == scheme && Abs() == Restarted(file)
    {
      this.scheme, this.file, lastSeq, lastHash := scheme, file, 0, GENESIS;
      new;
      LoadExistingChain();
    }

    method LoadExistingChain()
      requires lastSeq == 0 && lastHash == GENESIS
      modifies this`lastSeq, this`lastHash
      ensures Abs() == Restarted(file)
    {
      if file == None { return; }
      var lines := file.value;
      for i := 0 to |lines|
        invariant Loaded(lines[i..], lastSeq, lastHash) == Loaded(lines, 0, GENESIS)
      {
        match lines[i] {
          case Blank =>
          case Garbage => return;
          case Entry(r) =>
            lastSeq := if r.payload.seqNo > lastSeq then r.payload.seqNo else lastSeq;
            lastHash := if r.recordHash == "" then GENESIS else r.recordHash;
        }
      }
    }

    method LogIncident(content: Content) returns (rec: Record)
      modifies this
      ensures Abs() == Logged(scheme, old(Abs()), content)
      ensures Lines(Abs()) == Lines(old(Abs())) + [Entry(rec)]
    {
      var payload := Payload(lastSeq + 1, scheme.idOf(lastSeq + 1), content, lastHash);
      rec := Record(payload, scheme.hash(payload));
      file := Some((if file == None then [] else file.value) + [Entry(rec)]);
      lastSeq, lastHash := rec.payload.seqNo, rec.recordHash;
    }

    method AddNote(id: string, note: string, operator: string, timestamp: real) returns (ok: bool)
      modifies this
      ensures Abs() == Step(scheme, old(Abs()), Op.AddNote(id, note, operator, timestamp))
      ensures ok <==> Find(Records(Lines(old(Abs()))), id).Some?
    {
      var target := Find(Records(if file == None then [] else file.value), id);
      match target
      case None => ok := false;
      case Some(original) =>
        var _ := LogIncident(NoteOn(original, id, note, operator, timestamp));
        ok := true;
    }

    /** Succeeds exactly on intact files, and lists the faults of the others line by line. */
    method VerifyChain() returns (ok: bool, errors: seq<nat>)
      ensures errors == Faults(scheme, Lines(Abs()), GENESIS, 0, 1)
      ensures ok == (errors == []) && (ok <==> Intact(scheme, Lines(Abs()), GENESIS, 0))
    {
      NoFaults(scheme, Lines(Abs()), GENESIS, 0, 1);
      errors := [];
      if file == None { return true, []; }
      var lines := file.value;
      var prev, seen := GENESIS, 0;
      var i := 0;
      while i < |lines|
        invariant 0 <= i <= |lines|
        invariant errors + Faults(scheme, lines[i..], prev, seen, i + 1) == Faults(scheme, lines, GENESIS, 0, 1)
      {
        assert lines[i..][1..] == lines[i + 1..];
        i := i + 1;
        match lines[i - 1] {
          case Blank =>
          case Garbage =>
            errors := errors + [i];
            break;
          case Entry(r) =>
            errors := errors + FaultsOf(scheme, r, prev, seen, i);
            prev := r.recordHash;
            seen := r.payload.seqNo;
        }
      }
      ok := errors == [];
    }
  }
}
