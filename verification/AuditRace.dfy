/** Overlapping calls of the audit logger. A call reads the tail hash and seals its entry before
    it takes the lock, and only the append is done under the lock. */
module AuditRace {
  import opened AuditLog
  import opened Options

  /** A sealed entry that is not written yet; begun is the length of the log when it was made. */
  datatype Draft = Draft(entry: Entry, begun: nat)

  datatype Shared = Shared(lines: seq<Line>, lastHash: Hash, drafts: map<nat, Draft>)

  const EMPTY := Shared([], GENESIS, map[])

  /** One step of a thread. Event ids come from an unguarded counter, so any id is possible. A
      restart loses the calls that are under way. */
  datatype Step = Begin(thread: nat, eventId: string, facts: Facts) | Commit(thread: nat) | Restart

  function EntryOf(c: Scheme, s: Shared, eventId: string, facts: Facts): Entry {
    var event := Event(eventId, facts, s.lastHash);
    Entry(event, c.hash(event))
  }

  function Next(c: Scheme, s: Shared, step: Step): Shared {
    match step
    case Begin(t, eventId, facts) =>
      var e := EntryOf(c, s, eventId, facts);
      if t in s.drafts || c.length(e.event) > c.maxEntrySize then s
      else s.(drafts := s.drafts[t := Draft(e, |s.lines|)])
    case Commit(t) =>
      if t !in s.drafts then s
      else Shared(s.lines + [Parsed(s.drafts[t].entry)], s.drafts[t].entry.entryHash, s.drafts - {t})
    case Restart => Shared(s.lines, TailHash(s.lines, GENESIS), map[])
  }

  function Run(c: Scheme, steps: seq<Step>): Shared {
    if steps == [] then EMPTY else Next(c, Run(c, steps[..|steps| - 1]), steps[|steps| - 1])
  }

  /** The step writes a draft. */
  predicate Writes(s: Shared, step: Step) {
    step.Commit? && step.thread in s.drafts
  }

  /** The events written, in order. */
  function Committed(c: Scheme, steps: seq<Step>): seq<Event> {
    if steps == [] then []
    else
      var n := |steps| - 1;
      var s := Run(c, steps[..n]);
      Committed(c, steps[..n]) + if Writes(s, steps[n]) then [s.drafts[steps[n].thread].entry.event] else []
  }

  /** Every draft still points at the tail of the log when it is written. */
  ghost predicate OnTail(c: Scheme, steps: seq<Step>) {
    forall i | 0 <= i < |steps| && Writes(Run(c, steps[..i]), steps[i]) ::
      Run(c, steps[..i]).drafts[steps[i].thread].entry.event.prevHash == Run(c, steps[..i]).lastHash
  }

  /** Nothing else is written between the start of a call and its own write. */
  ghost predicate NoOverlap(c: Scheme, steps: seq<Step>) {
    forall i | 0 <= i < |steps| && Writes(Run(c, steps[..i]), steps[i]) ::
      Run(c, steps[..i]).drafts[steps[i].thread].begun == |Run(c, steps[..i]).lines|
  }

  // ---------------------------------------------------------------- what every run keeps

  /** The draft is sealed, and points at what was the tail when it was begun. */
  ghost predicate Pending(c: Scheme, es: seq<Event>, d: Draft) {
    && d.begun <= |es| && d.entry.event.prevHash == Tip(c, es[..d.begun])
    && d.entry.entryHash == c.hash(d.entry.event)
  }

  ghost predicate Kept(c: Scheme, s: Shared, es: seq<Event>) {
    && Sealed(c, s.lines) && Events(s.lines) == es && |s.lines| == |es|
    && s.lastHash == TailHash(s.lines, GENESIS) == Tip(c, es)
    && forall t | t in s.drafts :: Pending(c, es, s.drafts[t])
  }

  lemma {:induction false} EventsAppend(lines: seq<Line>, e: Entry)
    ensures Events(lines + [Parsed(e)]) == Events(lines) + [e.event]
  {
    if lines == [] {
      assert (lines + [Parsed(e)])[1..] == [];
    } else {
      assert (lines + [Parsed(e)])[1..] == lines[1..] + [Parsed(e)];
      EventsAppend(lines[1..], e);
    }
  }

  lemma {:induction false} TailAppend(c: Scheme, lines: seq<Line>, last: Hash, e: Entry)
    requires Sealed(c, lines)
    ensures TailHash(lines + [Parsed(e)], last) == e.entryHash
  {
    if lines == [] {
      assert (lines + [Parsed(e)])[1..] == [];
    } else {
      assert (lines + [Parsed(e)])[1..] == lines[1..] + [Parsed(e)];
      SealedCons(c, lines);
      TailAppend(c, lines[1..], if lines[0].Parsed? then lines[0].entry.entryHash else last, e);
    }
  }

  lemma CommitKeeps(c: Scheme, s: Shared, es: seq<Event>, t: nat)
    requires Kept(c, s, es) && t in s.drafts
    ensures Kept(c, Next(c, s, Commit(t)), es + [s.drafts[t].entry.event])
  {
    var d := s.drafts[t];
    var es' := es + [d.entry.event];
    EventsAppend(s.lines, d.entry);
    TailAppend(c, s.lines, GENESIS, d.entry);
    assert Pending(c, es, d);
    forall u | u in s.drafts ensures Pending(c, es', s.drafts[u]) {
      assert Pending(c, es, s.drafts[u]);
      assert es'[..s.drafts[u].begun] == es[..s.drafts[u].begun];
    }
  }

  lemma BeginKeeps(c: Scheme, s: Shared, es: seq<Event>, step: Step)
    requires Kept(c, s, es) && step.Begin?
    ensures Kept(c, Next(c, s, step), es)
  {
    assert es[..|es|] == es;
    hide TailHash, Tip, Sealed, Events;
  }

  lemma StepKeeps(c: Scheme, s: Shared, es: seq<Event>, step: Step)
    requires Kept(c, s, es)
    ensures Kept(c, Next(c, s, step), es + if Writes(s, step) then [s.drafts[step.thread].entry.event] else [])
  {
    match step
    case Begin(_, _, _) => BeginKeeps(c, s, es, step); hide Kept, Next;
    case Commit(t) => if t in s.drafts { CommitKeeps(c, s, es, t); } hide Kept, TailHash;
    case Restart => RestartKeeps(c, s, es); hide Kept, Next;
  }

  lemma RestartKeeps(c: Scheme, s: Shared, es: seq<Event>)
    requires Kept(c, s, es)
    ensures Kept(c, Next(c, s, Step.Restart), es)
  {
    hide TailHash, Tip, Sealed, Events;
  }

  lemma {:induction false} EveryRunKeeps(c: Scheme, steps: seq<Step>)
    ensures Kept(c, Run(c, steps), Committed(c, steps))
  {
    if steps != [] {
      var n := |steps| - 1;
      EveryRunKeeps(c, steps[..n]);
      StepKeeps(c, Run(c, steps[..n]), Committed(c, steps[..n]), steps[n]);
      hide Kept, Next;
    }
  }

  // ---------------------------------------------------------------- when the log verifies

  lemma ChainedAppend(c: Scheme, es: seq<Event>, e: Event)
    ensures Chained(c, es + [e], GENESIS) <==> Chained(c, es, GENESIS) && e.prevHash == Tip(c, es)
  {
    var es' := es + [e];
    if Chained(c, es', GENESIS) {
      PrefixIsChained(c, es', |es|);
      assert es'[..|es|] == es && LinksAt(c, es', GENESIS, |es|);
    }
    if Chained(c, es, GENESIS) && e.prevHash == Tip(c, es) {
      forall i: nat | i < |es'| ensures LinksAt(c, es', GENESIS, i) {
        assert i < |es| ==> LinksAt(c, es, GENESIS, i);
      }
    }
  }

  lemma OnTailSplit(c: Scheme, steps: seq<Step>)
    requires steps != []
    ensures var n := |steps| - 1;
            var s := Run(c, steps[..n]);
            OnTail(c, steps) <==>
              OnTail(c, steps[..n])
              && (Writes(s, steps[n]) ==> s.drafts[steps[n].thread].entry.event.prevHash == s.lastHash)
  {
    var n := |steps| - 1;
    hide Run, Writes;
    assert forall i | 0 <= i < n :: steps[..n][..i] == steps[..i] && steps[..n][i] == steps[i];
  }

  lemma NothingWritten(c: Scheme)
    ensures Chained(c, [], GENESIS) && OnTail(c, [])
  {
  }

  lemma {:induction false} ChainedExactly(c: Scheme, steps: seq<Step>)
    ensures Chained(c, Committed(c, steps), GENESIS) <==> OnTail(c, steps)
  {
    hide OnTail, Chained, Run, Tip, TailHash, Sealed, Pending, Events, LinksAt;
    if steps == [] {
      NothingWritten(c);
    } else {
      var n := |steps| - 1;
      ChainedExactly(c, steps[..n]);
      EveryRunKeeps(c, steps[..n]);
      OnTailSplit(c, steps);
      var s := Run(c, steps[..n]);
      var es := Committed(c, steps[..n]);
      if Writes(s, steps[n]) {
        var e := s.drafts[steps[n].thread].entry.event;
        ChainedAppend(c, es, e);
        assert Committed(c, steps) == es + [e] && s.lastHash == Tip(c, es);
      } else {
        assert Committed(c, steps) == es;
      }
    }
  }

  /** With any number of threads, a log written from an empty file holds the written drafts in
      order, and verifies if and only if each of them points at the tail when it is written. */
  lemma VerifiesExactly(c: Scheme, steps: seq<Step>)
    ensures Events(Run(c, steps).lines) == Committed(c, steps)
    ensures Verdict(c, Run(c, steps).lines, GENESIS) == Some(true) <==> OnTail(c, steps)
  {
    EveryRunKeeps(c, steps);
    ChainedExactly(c, steps);
    VerifiedMeansChained(c, Run(c, steps).lines, GENESIS);
    hide OnTail, Chained, Run;
  }

  /** So calls that do not overlap keep the log verified, and overlapping ones break it, unless
      the hash collides on events of the log or yields the marker of the empty chain. */
  lemma OverlapBreaks(c: Scheme, steps: seq<Step>)
    ensures NoOverlap(c, steps) ==> Verdict(c, Run(c, steps).lines, GENESIS) == Some(true)
    ensures var es := Committed(c, steps);
            Verdict(c, Run(c, steps).lines, GENESIS) == Some(true) ==>
              NoOverlap(c, steps) || Collide(c, es, es) || HitsGenesis(c, es)
  {
    VerifiesExactly(c, steps);
    var es := Committed(c, steps);
    forall i: nat | i < |steps| && Writes(Run(c, steps[..i]), steps[i])
      ensures var s := Run(c, steps[..i]);
              var d := s.drafts[steps[i].thread];
              && (d.begun == |s.lines| ==> d.entry.event.prevHash == s.lastHash)
              && (OnTail(c, steps) && d.begun != |s.lines| && d.entry.event.prevHash == s.lastHash ==>
                    Collide(c, es, es) || HitsGenesis(c, es))
    {
      if OnTail(c, steps) { ChainedExactly(c, steps); }
      DraftOnTail(c, steps, i);
      hide OnTail, Collide, HitsGenesis, Run;
    }
    hide Collide, HitsGenesis, Run, Committed;
  }

  lemma DraftOnTail(c: Scheme, steps: seq<Step>, i: nat)
    requires i < |steps| && Writes(Run(c, steps[..i]), steps[i])
    ensures var s, es := Run(c, steps[..i]), Committed(c, steps);
            var d := s.drafts[steps[i].thread];
            && (d.begun == |s.lines| ==> d.entry.event.prevHash == s.lastHash)
            && (Chained(c, es, GENESIS) && d.begun != |s.lines| && d.entry.event.prevHash == s.lastHash ==>
                  Collide(c, es, es) || HitsGenesis(c, es))
  {
    var s, es, now := Run(c, steps[..i]), Committed(c, steps), Committed(c, steps[..i]);
    var d := s.drafts[steps[i].thread];
    EveryRunKeeps(c, steps[..i]);
    CommittedGrows(c, steps, i);
    assert now[..|now|] == now;
    assert Pending(c, now, d);
    if Chained(c, es, GENESIS) && d.begun != |now| && d.entry.event.prevHash == s.lastHash {
      PrefixIsChained(c, es, |now|);
      PrefixIsChained(c, es, d.begun);
      assert now == es[..|now|] && now[..d.begun] == es[..d.begun];
      SameTipSameEvents(c, es[..d.begun], es[..|now|]);
      PrefixCollides(c, es, es, d.begun, |now|);
    }
    hide Run, Committed;
  }

  lemma {:induction false} CommittedGrows(c: Scheme, steps: seq<Step>, i: nat)
    requires i <= |steps|
    ensures Committed(c, steps[..i]) <= Committed(c, steps)
  {
    hide Run;
    if i == |steps| {
      assert steps[..i] == steps;
    } else {
      var n := |steps| - 1;
      assert steps[..n][..i] == steps[..i];
      CommittedGrows(c, steps[..n], i);
    }
  }

  /** Two overlapping calls break the log, whatever they record. */
  lemma TwoCallsRace(c: Scheme, first: Facts, second: Facts, a: string, b: string)
    requires var s := EMPTY;
             && c.length(EntryOf(c, s, a, first).event) <= c.maxEntrySize
             && c.length(EntryOf(c, s, b, second).event) <= c.maxEntrySize
             && EntryOf(c, s, a, first).entryHash != GENESIS
    ensures Verdict(c, Run(c, [Begin(0, a, first), Begin(1, b, second), Commit(0), Commit(1)]).lines, GENESIS) == Some(false)
  {
    var steps := [Begin(0, a, first), Begin(1, b, second), Commit(0), Commit(1)];
    var d, e := EntryOf(c, EMPTY, a, first), EntryOf(c, EMPTY, b, second);
    assert steps[..3][..2][..1] == [Begin(0, a, first)] && [Begin(0, a, first)][..0] == [];
    assert Run(c, []) == EMPTY;
    assert Run(c, steps[..3][..2][..1]) == EMPTY.(drafts := map[0 := Draft(d, 0)]);
    assert Run(c, steps[..3][..2]) == EMPTY.(drafts := map[0 := Draft(d, 0), 1 := Draft(e, 0)]);
    assert Run(c, steps[..3]).lines == [Parsed(d)];
    assert Run(c, steps).lines == [Parsed(d), Parsed(e)];
    assert [Parsed(d), Parsed(e)][1..] == [Parsed(e)];
  }
}
