/** Biometric templates: the store with its two-level index by subject and modality, and the
    choice of the best match. */
module Biometric {
  import opened Options
  import opened LinearAlgebra
  import opened CosineScore
  import opened IdLists

  // ---------------------------------------------------------------- the store

  datatype Modality = Face | Fingerprint | Voice

  datatype Template = Template(subject: nat, modality: Modality, embedding: Vec)

  /** Templates by id, and for every subject and modality the ids in order of enrolment. */
  datatype Store = Store(templates: map<nat, Template>, bySubject: map<nat, map<Modality, seq<nat>>>)

  function Slot(s: Store, subject: nat, m: Modality): seq<nat> {
    if subject in s.bySubject && m in s.bySubject[subject] then s.bySubject[subject][m] else []
  }

  ghost predicate SlotHolds(s: Store, subject: nat, m: Modality) {
    var slot := Slot(s, subject, m);
    && Distinct(slot)
    && forall id | id in slot :: id in s.templates && s.templates[id].subject == subject && s.templates[id].modality == m
  }

  predicate NothingEmpty(s: Store) {
    && (forall subject | subject in s.bySubject :: s.bySubject[subject] != map[])
    && (forall subject, m | subject in s.bySubject && m in s.bySubject[subject] :: s.bySubject[subject][m] != [])
  }

  /** Every template is in its slot, exactly once, and there are no empty slots or subjects. */
  ghost predicate Indexed(s: Store) {
    && (forall id | id in s.templates :: id in Slot(s, s.templates[id].subject, s.templates[id].modality))
    && (forall subject, m :: SlotHolds(s, subject, m))
    && NothingEmpty(s)
  }

  function Enrolled(s: Store, id: nat, t: Template): Store {
    var mods := if t.subject in s.bySubject then s.bySubject[t.subject] else map[];
    Store(s.templates[id := t], s.bySubject[t.subject := mods[t.modality := Slot(s, t.subject, t.modality) + [id]]])
  }

  /** The list without the first occurrence of an id. */
  function Removed(slot: seq<nat>, id: nat): seq<nat> {
    if slot == [] then []
    else if slot[0] == id then slot[1..]
    else [slot[0]] + Removed(slot[1..], id)
  }

  function Deleted(s: Store, id: nat): Store {
    if id !in s.templates then s
    else
      var t := s.templates[id];
      var slot := Removed(Slot(s, t.subject, t.modality), id);
      var mods := if t.subject in s.bySubject then s.bySubject[t.subject] else map[];
      var rest := if slot == [] then mods - {t.modality} else mods[t.modality := slot];
      Store(s.templates - {id}, if rest == map[] then s.bySubject - {t.subject} else s.bySubject[t.subject := rest])
  }

  lemma {:induction false} RemovedHolds(slot: seq<nat>, id: nat)
    requires Distinct(slot)
    ensures Distinct(Removed(slot, id)) && forall x :: x in Removed(slot, id) <==> x in slot && x != id
  {
    if slot != [] && slot[0] != id {
      RemovedHolds(slot[1..], id);
      assert slot == [slot[0]] + slot[1..];
      assert slot[0] !in slot[1..];
    } else if slot != [] {
      assert slot == [slot[0]] + slot[1..];
    }
  }

  lemma EnrolledSlots(s: Store, id: nat, t: Template, subject: nat, m: Modality)
    ensures Slot(Enrolled(s, id, t), subject, m)
         == Slot(s, subject, m) + if subject == t.subject && m == t.modality then [id] else []
  {
  }

  lemma DeletedSlots(s: Store, id: nat, subject: nat, m: Modality)
    requires id in s.templates
    ensures Slot(Deleted(s, id), subject, m)
         == if subject == s.templates[id].subject && m == s.templates[id].modality then Removed(Slot(s, subject, m), id)
            else Slot(s, subject, m)
  {
    assert Removed([], id) == [];
    hide Removed;
    var t := s.templates[id];
    var mods := if t.subject in s.bySubject then s.bySubject[t.subject] else map[];
    forall other | other in mods && other != t.modality ensures mods - {t.modality} != map[] {
      assert other in mods - {t.modality};
    }
    assert t.modality in mods[t.modality := Removed(Slot(s, t.subject, t.modality), id)];
  }

  lemma EnrolledNothingEmpty(s: Store, id: nat, t: Template)
    requires NothingEmpty(s)
    ensures NothingEmpty(Enrolled(s, id, t))
  {
    hide Slot;
    var s' := Enrolled(s, id, t);
    assert t.modality in s'.bySubject[t.subject];
  }

  lemma EnrolledIsIndexed(s: Store, id: nat, t: Template)
    requires Indexed(s) && id !in s.templates
    ensures Indexed(Enrolled(s, id, t))
  {
    hide Slot, NothingEmpty;
    EnrolledNothingEmpty(s, id, t);
    var s' := Enrolled(s, id, t);
    assert s'.templates == s.templates[id := t];
    hide Enrolled;
    forall subject, m ensures SlotHolds(s', subject, m) {
      EnrolledSlots(s, id, t, subject, m);
      assert SlotHolds(s, subject, m);
    }
    hide SlotHolds;
    forall x | x in s'.templates ensures x in Slot(s', s'.templates[x].subject, s'.templates[x].modality) {
      EnrolledSlots(s, id, t, s'.templates[x].subject, s'.templates[x].modality);
    }
  }

  lemma DeletedKeepsSlots(s: Store, id: nat, subject: nat, m: Modality)
    requires id in s.templates && SlotHolds(s, subject, m)
    ensures SlotHolds(Deleted(s, id), subject, m)
    ensures forall x | x in Slot(s, subject, m) && x != id :: x in Slot(Deleted(s, id), subject, m)
  {
    DeletedSlots(s, id, subject, m);
    RemovedHolds(Slot(s, subject, m), id);
    hide Removed, Slot;
  }

  lemma DeletedNothingEmpty(s: Store, id: nat)
    requires NothingEmpty(s)
    ensures NothingEmpty(Deleted(s, id))
  {
  }

  lemma DeletedIsIndexed(s: Store, id: nat)
    requires Indexed(s)
    ensures Indexed(Deleted(s, id))
  {
    hide Slot, SlotHolds, NothingEmpty, Removed;
    DeletedNothingEmpty(s, id);
    if id in s.templates {
      var s' := Deleted(s, id);
      assert s'.templates == s.templates - {id};
      hide Deleted;
      forall subject, m ensures SlotHolds(s', subject, m) { DeletedKeepsSlots(s, id, subject, m); }
      forall x | x in s'.templates ensures x in Slot(s', s'.templates[x].subject, s'.templates[x].modality) {
        DeletedKeepsSlots(s, id, s'.templates[x].subject, s'.templates[x].modality);
      }
    }
  }

  datatype Step = Enroll(id: nat, template: Template) | Delete(id: nat)

  function Next(s: Store, step: Step): Store {
    match step
    case Enroll(id, t) => if t.embedding == [] then s else Enrolled(s, id, t)
    case Delete(id) => Deleted(s, id)
  }

  /** Template ids are drawn fresh. */
  ghost predicate Run(states: seq<Store>, steps: seq<Step>) {
    && |states| == |steps| + 1 && states[0] == Store(map[], map[])
    && forall i | 0 <= i < |steps| ::
         && states[i + 1] == Next(states[i], steps[i])
         && (steps[i].Enroll? ==> steps[i].id !in states[i].templates)
  }

  lemma {:induction false} EveryRunIsIndexed(states: seq<Store>, steps: seq<Step>, i: nat)
    requires Run(states, steps) && i <= |steps|
    ensures Indexed(states[i]) && forall id | id in states[i].templates :: states[i].templates[id].embedding != []
  {
    if i > 0 {
      EveryRunIsIndexed(states, steps, i - 1);
      var s, step := states[i - 1], steps[i - 1];
      match step
      case Enroll(id, t) => EnrolledIsIndexed(s, id, t);
      case Delete(id) => DeletedIsIndexed(s, id);
    }
  }

  // ---------------------------------------------------------------- all templates of a subject

  function OwnedBy(s: Store, subject: nat): set<nat> {
    set id | id in s.templates && s.templates[id].subject == subject
  }

  function AllSlots(s: Store, subject: nat): seq<nat> {
    Slot(s, subject, Face) + Slot(s, subject, Fingerprint) + Slot(s, subject, Voice)
  }

  lemma AllSlotsHold(s: Store, subject: nat)
    requires Indexed(s)
    ensures Distinct(AllSlots(s, subject)) && Elements(AllSlots(s, subject)) == OwnedBy(s, subject)
    ensures |AllSlots(s, subject)| == |OwnedBy(s, subject)|
  {
    assert SlotHolds(s, subject, Face) && SlotHolds(s, subject, Fingerprint) && SlotHolds(s, subject, Voice);
    var a, b, c := Slot(s, subject, Face), Slot(s, subject, Fingerprint), Slot(s, subject, Voice);
    forall id ensures id in a + b + c <==> id in OwnedBy(s, subject) {
      if id in OwnedBy(s, subject) { match s.templates[id].modality { case Face => case Fingerprint => case Voice => } }
    }
    hide Slot, Indexed, OwnedBy;
    DistinctConcat(a, b);
    DistinctConcat(a + b, c);
    ElementsCount(a + b + c);
  }

  lemma ElementsStart(ids: seq<nat>)
    ensures Elements(ids[..0]) == {}
  {
  }

  /** Deleting one of the subject's templates leaves the index of the other subjects alone. */
  lemma DeletedOwned(s: Store, now: Store, ids: seq<nat>, k: nat, subject: nat)
    requires k < |ids| && Elements(ids) == OwnedBy(s, subject)
    requires now.templates == s.templates - Elements(ids[..k]) && now.bySubject - {subject} == s.bySubject - {subject}
    ensures var later := Deleted(now, ids[k]);
            && later.templates == now.templates - {ids[k]} && later.bySubject - {subject} == s.bySubject - {subject}
  {
    assert ids[k] in Elements(ids);
    hide Removed, Slot;
  }

  lemma OwnedGone(s: Store, s': Store, subject: nat)
    requires s'.templates == s.templates - OwnedBy(s, subject)
    ensures forall id | id in s'.templates :: s'.templates[id].subject != subject
  {
  }

  lemma OwnerGone(s: Store, subject: nat)
    requires Indexed(s) && forall id | id in s.templates :: s.templates[id].subject != subject
    ensures subject !in s.bySubject
  {
    if subject in s.bySubject {
      var m :| m in s.bySubject[subject];
      assert SlotHolds(s, subject, m);
      HeadIsIn(Slot(s, subject, m));
    }
  }

  // ---------------------------------------------------------------- matching

  /** The templates an attempt is compared with. */
  function Eligible(s: Store, m: Modality, restrict: Option<nat>): set<nat> {
    set id | id in s.templates && s.templates[id].modality == m && (restrict.None? || s.templates[id].subject == restrict.value)
  }

  function Score(root: real -> real, s: Store, id: nat, candidate: Vec): real
    requires id in s.templates
  {
    Similarity(root, s.templates[id].embedding, candidate)
  }

  /** What an attempt reports: the subject of a best eligible template, as a match exactly when
      the best score reaches the threshold. The loop starts below no score at all, so it finds
      nothing, and fails its assertion, when every score is the lowest possible one. */
  ghost predicate Reports(root: real -> real, s: Store, m: Modality, restrict: Option<nat>, candidate: Vec,
                          threshold: real, r: Outcome) {
    var eligible := Eligible(s, m, restrict);
    if candidate == [] then r == EmptyEmbedding
    else if eligible == {} then r == NoTemplates
    else if forall id | id in eligible :: Score(root, s, id, candidate) == -1.0 then r == AssertionError
    else
      && (r.Success? || r.BelowThreshold?)
      && r.id in eligible && r.subject == s.templates[r.id].subject && r.score == Score(root, s, r.id, candidate)
      && (forall id | id in eligible :: Score(root, s, id, candidate) <= r.score)
      && (r.Success? <==> r.score >= threshold)
  }

  /** An attempt succeeds exactly when some eligible template reaches the threshold, unless all
      of them point exactly the opposite way of the candidate; then it crashes. */
  lemma AttemptMeans(root: real -> real, s: Store, m: Modality, restrict: Option<nat>, candidate: Vec,
                                        threshold: real, r: Outcome)
    requires SquareRoot(root) && Reports(root, s, m, restrict, candidate, threshold, r)
    ensures r.AssertionError? <==>
              && candidate != [] && Eligible(s, m, restrict) != {}
              && forall id | id in Eligible(s, m, restrict) :: Opposite(root, s.templates[id].embedding, candidate)
    ensures r.Success? <==>
              && candidate != [] && !r.AssertionError?
              && exists id :: id in Eligible(s, m, restrict) && Score(root, s, id, candidate) >= threshold
  {
    forall id | id in Eligible(s, m, restrict)
      ensures Score(root, s, id, candidate) == -1.0 <==> Opposite(root, s.templates[id].embedding, candidate)
    {
      LowestScoreIsOpposite(root, s.templates[id].embedding, candidate);
    }
    hide Similarity, Opposite;
  }

  lemma SelfScore(root: real -> real, v: Vec)
    requires SquareRoot(root) && Dot(v, v) > 0.0
    ensures Similarity(root, v, v) == 1.0
  {
    hide Dot, Similarity;
    ScoreIsCosine(root, v, v);
    var n := root(Dot(v, v));
    WholeQuotient(Similarity(root, v, v), n * n, Dot(v, v));
  }

  lemma WholeQuotient(s: real, p: real, d: real)
    requires s * p == d && p == d > 0.0
    ensures s == 1.0
  {
    PositiveFactor(p, s - 1.0);
    assert p * (s - 1.0) == s * p - p;
  }

  /** Whoever enrolled is recognized: right after an enrolment, the same embedding verifies its
      subject, and is identified, whatever else is enrolled and for every threshold up to one. */
  lemma EnrolledIsRecognized(root: real -> real, s: Store, id: nat, t: Template, identify: bool, threshold: real, r: Outcome)
    requires SquareRoot(root) && id !in s.templates && |t.embedding| > 0 && Dot(t.embedding, t.embedding) > 0.0
    requires threshold <= 1.0
    requires Reports(root, Next(s, Step.Enroll(id, t)), t.modality, if identify then None else Some(t.subject),
                     t.embedding, threshold, r)
    ensures r.Success? && r.score == 1.0 && (!identify ==> r.subject == t.subject)
  {
    SelfScore(root, t.embedding);
    var s' := Next(s, Step.Enroll(id, t));
    assert s'.templates == s.templates[id := t];
    var eligible := Eligible(s', t.modality, if identify then None else Some(t.subject));
    assert id in eligible && Score(root, s', id, t.embedding) == 1.0;
    if r.Success? || r.BelowThreshold? { ScoreIsBounded(root, s'.templates[r.id].embedding, t.embedding); }
    hide Similarity, Dot;
  }

  /** A template of another modality, or for verification of another subject, makes no
      difference to an attempt. */
  lemma OthersAreIgnored(s: Store, id: nat, t: Template, m: Modality, restrict: Option<nat>)
    requires id !in s.templates
    requires t.modality != m || (restrict.Some? && t.subject != restrict.value)
    ensures Eligible(Next(s, Step.Enroll(id, t)), m, restrict) == Eligible(s, m, restrict)
  {
  }

  /** One template of one number fails the assertion for the opposite number. */
  lemma AssertionCanFail(root: real -> real, s: Store, m: Modality, id: nat, r: Outcome)
    requires SquareRoot(root) && id in s.templates && s.templates[id].embedding == [1.0]
    requires Eligible(s, m, None) == {id} && Reports(root, s, m, None, [-1.0], 0.9, r)
    ensures r == AssertionError
  {
    OneNumberIsOpposite(root);
    LowestScoreIsOpposite(root, [1.0], [-1.0]);
    hide Similarity, Opposite;
  }

  lemma OneNumberIsOpposite(root: real -> real)
    requires SquareRoot(root)
    ensures Opposite(root, [1.0], [-1.0])
  {
    assert [1.0][..0] == [] && [-1.0][..0] == [];
    assert Dot([1.0], [1.0]) == 1.0 && Dot([-1.0], [-1.0]) == 1.0;
    assert root(1.0) != 0.0;
    VecEq(Comb(root(1.0), [1.0], root(1.0), [-1.0]), Zero(1));
  }

  datatype Outcome =
    | Success(id: nat, subject: nat, score: real)
    | BelowThreshold(id: nat, subject: nat, score: real)
    | EmptyEmbedding
    | NoTemplates
    | AssertionError

  class BiometricAuthenticator {
    const root: real -> real
    var templates: map<nat, Template>
    var bySubject: map<nat, map<Modality, seq<nat>>>

    ghost function Abs(): Store
      reads this
    {
      Store(templates, bySubject)
    }

    constructor (root: real -> real)
      ensures this.root == root && Abs() == Store(map[], map[])
    {
      this.root, templates, bySubject := root, map[], map[];
    }

    /** An empty embedding is refused with a ValueError. */
    method Enroll(subject: nat, m: Modality, embedding: Vec, id: nat) returns (r: Option<Template>)
      requires Indexed(Abs()) && id !in templates
      modifies this`templates, this`bySubject
      ensures Indexed(Abs()) && Abs() == Next(old(Abs()), Step.Enroll(id, Template(subject, m, embedding)))
      ensures r == if embedding == [] then None else Some(Template(subject, m, embedding))
    {
      if |embedding| == 0 { return None; }
      var t := Template(subject, m, embedding);
      EnrolledIsIndexed(Abs(), id, t);
      hide Indexed, Eligible;
      templates := templates[id := t];
      var mods := if subject in bySubject then bySubject[subject] else map[];
      var slot := if m in mods then mods[m] else [];
      bySubject := bySubject[subject := mods[m := slot + [id]]];
      r := Some(t);
    }

    /** The ids of the eligible templates; in the index none is missing from the store. */
    method Candidates(m: Modality, restrict: Option<nat>) returns (ids: seq<nat>)
      requires Indexed(Abs())
      ensures Elements(ids) == Eligible(Abs(), m, restrict)
    {
      if restrict.Some? {
        ids := if restrict.value in bySubject && m in bySubject[restrict.value] then bySubject[restrict.value][m] else [];
        assert SlotHolds(Abs(), restrict.value, m);
        return;
      }
      ids := [];
      var rest := templates.Keys;
      hide Indexed;
      while rest != {}
        invariant rest <= templates.Keys
        invariant forall id :: id in ids <==> id in templates.Keys - rest && templates[id].modality == m
        decreases rest
      {
        var id :| id in rest;
        if templates[id].modality == m { ids := ids + [id]; }
        rest := rest - {id};
      }
    }

    method Authenticate(m: Modality, candidate: Vec, restrict: Option<nat>, threshold: real) returns (r: Outcome)
      requires SquareRoot(root) && Indexed(Abs())
      ensures Reports(root, Abs(), m, restrict, candidate, threshold, r)
    {
      hide Indexed, Similarity, SquareRoot, Score;
      if |candidate| == 0 { return EmptyEmbedding; }
      var ids := Candidates(m, restrict);
      ghost var eligible := Eligible(Abs(), m, restrict);
      assert forall id :: id in ids <==> id in eligible;
      if |ids| == 0 { return NoTemplates; }
      assert ids[0] in eligible;
      assert forall id | id in ids :: id in templates;
      hide Eligible, Elements;
      var best, bestScore := Best(ids, candidate);
      if best.None? {
        r := AssertionError;
      } else if bestScore >= threshold {
        r := Success(best.value, templates[best.value].subject, bestScore);
      } else {
        r := BelowThreshold(best.value, templates[best.value].subject, bestScore);
      }
    }

    /** The matching loop; the best score so far starts at the lowest possible one. */
    method Best(ids: seq<nat>, candidate: Vec) returns (best: Option<nat>, bestScore: real)
      requires SquareRoot(root) && ids != [] && forall id | id in ids :: id in templates
      ensures best.None? <==> forall id | id in ids :: Score(root, Abs(), id, candidate) == -1.0
      ensures best.Some? ==> best.value in ids && bestScore == Score(root, Abs(), best.value, candidate)
      ensures forall id | id in ids :: Score(root, Abs(), id, candidate) <= bestScore
    {
      hide Similarity, SquareRoot;
      best := None;
      bestScore := -1.0;
      for k := 0 to |ids|
        invariant best.None? ==> bestScore == -1.0
        invariant best.Some? ==> best.value in ids && bestScore == Score(root, Abs(), best.value, candidate) > -1.0
        invariant forall id | id in ids[..k] :: -1.0 <= Score(root, Abs(), id, candidate) <= bestScore
      {
        assert ids[k] in ids && ids[..k + 1] == ids[..k] + [ids[k]];
        ScoreIsBounded(root, templates[ids[k]].embedding, candidate);
        var score := Similarity(root, templates[ids[k]].embedding, candidate);
        if score > bestScore {
          bestScore := score;
          best := Some(ids[k]);
        }
      }
      assert ids[..|ids|] == ids;
    }

    method DeleteTemplate(id: nat) returns (deleted: bool)
      requires Indexed(Abs())
      modifies this`templates, this`bySubject
      ensures Indexed(Abs()) && Abs() == Deleted(old(Abs()), id) && deleted == (id in old(templates))
    {
      DeletedIsIndexed(Abs(), id);
      hide Indexed, Removed;
      deleted := id in templates;
      if !deleted { return; }
      var t := templates[id];
      templates := templates - {id};
      var mods := if t.subject in bySubject then bySubject[t.subject] else map[];
      var slot := if t.modality in mods then mods[t.modality] else [];
      slot := Removed(slot, id);
      mods := if slot == [] then mods - {t.modality} else mods[t.modality := slot];
      bySubject := if mods == map[] then bySubject - {t.subject} else bySubject[t.subject := mods];
    }

    /** Deletes every template of the subject and no other. */
    method DeleteAllForSubject(subject: nat) returns (n: nat)
      requires Indexed(Abs())
      modifies this`templates, this`bySubject
      ensures Indexed(Abs()) && n == |OwnedBy(old(Abs()), subject)|
      ensures templates == old(templates) - OwnedBy(old(Abs()), subject) && bySubject == old(bySubject) - {subject}
    {
      ghost var s := Abs();
      var mods := if subject in bySubject then bySubject[subject] else map[];
      var ids := [];
      if Face in mods { ids := ids + mods[Face]; }
      if Fingerprint in mods { ids := ids + mods[Fingerprint]; }
      if Voice in mods { ids := ids + mods[Voice]; }
      assert ids == AllSlots(s, subject);
      AllSlotsHold(s, subject);
      hide AllSlots, OwnedBy, Indexed;
      DeleteEach(ids, subject);
      OwnedGone(s, Abs(), subject);
      OwnerGone(Abs(), subject);
      assert bySubject - {subject} == bySubject;
      n := |ids|;
    }

    method DeleteEach(ids: seq<nat>, ghost subject: nat)
      requires Indexed(Abs()) && Elements(ids) == OwnedBy(Abs(), subject)
      modifies this`templates, this`bySubject
      ensures Indexed(Abs()) && templates == old(templates) - Elements(ids)
      ensures bySubject - {subject} == old(bySubject) - {subject}
    {
      ghost var s := Abs();
      ElementsStart(ids);
      hide OwnedBy, Indexed, Deleted, Elements;
      for k := 0 to |ids|
        invariant Indexed(Abs()) && templates == s.templates - Elements(ids[..k])
        invariant bySubject - {subject} == s.bySubject - {subject}
      {
        DeletedOwned(s, Abs(), ids, k, subject);
        ElementsNext(ids, k);
        var _ := DeleteTemplate(ids[k]);
      }
      assert ids[..|ids|] == ids;
    }
  }
}
