/** Coobie's patrol: causes grouped into dens, the patch weight, and the injection into a briefing. */
module Palace {
  import opened Basics
  import opened Sorting

  datatype Den = Den(id: string, title: string, residents: seq<string>)

  const DENS: seq<Den> := [
    Den("spec_den", "Spec Den", ["SPEC_AMBIGUITY", "BROAD_SCOPE"]),
    Den("test_den", "Test Den", ["TEST_BLIND_SPOT"]),
    Den("twin_den", "Twin Den", ["TWIN_GAP"]),
    Den("pack_den", "Pack Den", ["PACK_BREAKDOWN"]),
    Den("memory_den", "Memory Den", ["NO_PRIOR_MEMORY"])
  ]

  datatype Cause = Cause(id: string, occurrences: nat, passRate: real, streak: nat, escalate: bool)

  datatype Lesson = Lesson(id: string, tags: seq<string>, pattern: string, intervention: Option<string>, strength: real)

  /** The texts a den contributes to the briefing. */
  datatype Texts = Texts(checks: seq<string>, guardrails: seq<string>, questions: seq<string>)

  datatype DenScent = DenScent(
    den: Den, activeResidents: nat, occurrences: nat, peakStreak: nat, escalated: bool, texts: Texts,
    lessons: seq<Lesson>)

  datatype PatchPatrol = PatchPatrol(activeDens: seq<DenScent>, weight: real, summary: string)

  /** How dens and patrols are put into words, and how the standard library folds letter case. */
  datatype Wording = Wording(
    scent: (Den, seq<Cause>, nat, bool) -> Texts, summary: (seq<DenScent>, real) -> string, fold: string -> string)

  // Dens and their causes

  function Residents(den: Den, causes: seq<Cause>): seq<Cause> {
    if causes == [] then []
    else
      var k := |causes| - 1;
      var before := Residents(den, causes[..k]);
      if causes[k].id in den.residents then before + [causes[k]] else before
  }

  function Occurrences(causes: seq<Cause>): nat {
    if causes == [] then 0 else Occurrences(causes[..|causes| - 1]) + causes[|causes| - 1].occurrences
  }

  function PeakStreak(causes: seq<Cause>): nat {
    if causes == [] then 0 else Max(PeakStreak(causes[..|causes| - 1]), causes[|causes| - 1].streak)
  }

  predicate Escalated(causes: seq<Cause>) {
    |causes| >= 2 || exists c <- causes :: c.escalate
  }

  // Lessons

  predicate TagMatches(den: Den, tag: string, fold: string -> string) {
    (exists r <- den.residents :: fold(tag) == fold(r)) || fold(tag) == den.id
  }

  predicate LessonMatches(den: Den, lesson: Lesson, fold: string -> string) {
    exists tag <- lesson.tags :: TagMatches(den, tag, fold)
  }

  function Matching(den: Den, lessons: seq<Lesson>, fold: string -> string): seq<Lesson> {
    if lessons == [] then []
    else
      var k := |lessons| - 1;
      var before := Matching(den, lessons[..k], fold);
      if LessonMatches(den, lessons[k], fold) then before + [lessons[k]] else before
  }

  predicate StrongerFirst(a: Lesson, b: Lesson) { a.strength >= b.strength }

  function MatchLessons(den: Den, lessons: seq<Lesson>, fold: string -> string): seq<Lesson> {
    TopK(Matching(den, lessons, fold), 3, StrongerFirst)
  }

  lemma {:induction false} MatchingMeans(den: Den, lessons: seq<Lesson>, lesson: Lesson, fold: string -> string)
    ensures lesson in Matching(den, lessons, fold) <==> lesson in lessons && LessonMatches(den, lesson, fold)
  {
    if lessons != [] { MatchingMeans(den, lessons[..|lessons| - 1], lesson, fold); }
  }

  /** A tag of the lesson names one of the den's causes, in any case, or is the den's own id once it is folded. */
  predicate Concerns(lesson: Lesson, den: Den, fold: string -> string) {
    exists tag <- lesson.tags :: fold(tag) == den.id || exists cause <- den.residents :: fold(cause) == fold(tag)
  }

  /** A den carries at most three lessons, all that concern it, and none it leaves out is stronger. */
  lemma MatchedLessonsAreStrongest(den: Den, lessons: seq<Lesson>, other: Lesson, fold: string -> string)
    ensures |MatchLessons(den, lessons, fold)| == Min(3, |Matching(den, lessons, fold)|)
    ensures forall i, j :: 0 <= i < j < |MatchLessons(den, lessons, fold)| ==>
              MatchLessons(den, lessons, fold)[i].strength >= MatchLessons(den, lessons, fold)[j].strength
    ensures forall l <- MatchLessons(den, lessons, fold) :: l in lessons && Concerns(l, den, fold)
    ensures other in lessons && Concerns(other, den, fold) && other !in MatchLessons(den, lessons, fold) ==>
              && |MatchLessons(den, lessons, fold)| == 3
              && forall l <- MatchLessons(den, lessons, fold) :: l.strength >= other.strength
  {
    forall l: Lesson ensures Concerns(l, den, fold) <==> LessonMatches(den, l, fold) {
      ConcernsMatch(l, den, fold);
    }
    var matching, best := Matching(den, lessons, fold), MatchLessons(den, lessons, fold);
    var rest := Omitted(matching, 3, StrongerFirst);
    TopKIsBest(matching, 3, StrongerFirst);
    forall l | l in best ensures l in lessons && LessonMatches(den, l, fold) {
      assert l in multiset(best) && l in multiset(matching);
      MatchingMeans(den, lessons, l, fold);
    }
    MatchingMeans(den, lessons, other, fold);
    if other in matching && other !in best {
      assert other in multiset(matching) && other !in multiset(best);
      assert other in multiset(rest);
      assert forall l <- best :: StrongerFirst(l, other);
      assert |rest| > 0;
    }
    assert forall i, j :: 0 <= i < j < |best| ==> StrongerFirst(best[i], best[j]);
  }

  lemma ConcernsMatch(lesson: Lesson, den: Den, fold: string -> string)
    ensures Concerns(lesson, den, fold) <==> LessonMatches(den, lesson, fold)
  {
    forall tag <- lesson.tags
      ensures TagMatches(den, tag, fold)
              <==> fold(tag) == den.id || exists cause <- den.residents :: fold(cause) == fold(tag)
    {
    }
  }

  // The patrol

  function Scent(den: Den, causes: seq<Cause>, lessons: seq<Lesson>, words: Wording): DenScent {
    var residents := Residents(den, causes);
    var peak, escalated := PeakStreak(residents), Escalated(residents);
    DenScent(den, |residents|, Occurrences(residents), peak, escalated,
             words.scent(den, residents, peak, escalated), MatchLessons(den, lessons, words.fold))
  }

  /** The dens with at least one resident among the causes. */
  function ActiveDens(dens: seq<Den>, causes: seq<Cause>, lessons: seq<Lesson>, words: Wording): seq<DenScent> {
    if dens == [] then []
    else
      var k := |dens| - 1;
      var before := ActiveDens(dens[..k], causes, lessons, words);
      if Residents(dens[k], causes) == [] then before else before + [Scent(dens[k], causes, lessons, words)]
  }

  function DenWeight(peakStreak: nat, escalated: bool): real {
    var scaled := peakStreak as real / 5.0;
    var base := if scaled < 1.0 then scaled else 1.0;
    if !escalated then base else if base + 0.2 < 1.0 then base + 0.2 else 1.0
  }

  function WeightSum(scents: seq<DenScent>): real {
    if scents == [] then 0.0
    else WeightSum(scents[..|scents| - 1]) + DenWeight(scents[|scents| - 1].peakStreak, scents[|scents| - 1].escalated)
  }

  function PatchWeight(scents: seq<DenScent>): real {
    if scents == [] then 0.0
    else
      var average := WeightSum(scents) / |scents| as real;
      if average < 1.0 then average else 1.0
  }

  method SumOccurrences(causes: seq<Cause>) returns (total: nat)
    ensures total == Occurrences(causes)
  {
    total := 0;
    for i := 0 to |causes|
      invariant total == Occurrences(causes[..i])
    {
      total := total + causes[i].occurrences;
      assert causes[..i + 1][..i] == causes[..i];
    }
    assert causes[..|causes|] == causes;
  }

  method SniffDen(den: Den, residents: seq<Cause>, lessons: seq<Lesson>, words: Wording) returns (scent: DenScent)
    ensures scent == DenScent(den, |residents|, Occurrences(residents), PeakStreak(residents), Escalated(residents),
                              words.scent(den, residents, PeakStreak(residents), Escalated(residents)), lessons)
  {
    var total := SumOccurrences(residents);
    var peak := PeakStreak(residents);
    var anyEscalated := exists c <- residents :: c.escalate;
    var escalated := anyEscalated || |residents| >= 2;
    return DenScent(den, |residents|, total, peak, escalated, words.scent(den, residents, peak, escalated), lessons);
  }

  const CLEAR := "Patch is clear \U{2014} no prior causal signals for this spec."

  method Patrol(causes: seq<Cause>, lessons: seq<Lesson>, words: Wording) returns (patrol: PatchPatrol)
    ensures patrol.activeDens == ActiveDens(DENS, causes, lessons, words)
    ensures patrol.weight == PatchWeight(patrol.activeDens)
    ensures patrol.summary == if causes == [] then CLEAR else words.summary(patrol.activeDens, patrol.weight)
  {
    if causes == [] {
      NoCausesNoDens(DENS, lessons, words);
      return PatchPatrol([], 0.0, CLEAR);
    }
    var activeDens: seq<DenScent> := [];
    var i := 0;
    while i < |DENS|
      invariant 0 <= i <= |DENS|
      invariant activeDens == ActiveDens(DENS[..i], causes, lessons, words)
    {
      var den := DENS[i];
      assert DENS[..i + 1][..i] == DENS[..i];
      var residents := Residents(den, causes);
      i := i + 1;
      if residents == [] { continue; }
      var scent := SniffDen(den, residents, MatchLessons(den, lessons, words.fold), words);
      activeDens := activeDens + [scent];
    }
    assert DENS[..|DENS|] == DENS;
    var weight := PatchWeight(activeDens);
    return PatchPatrol(activeDens, weight, words.summary(activeDens, weight));
  }

  lemma {:induction false} NoCausesNoDens(dens: seq<Den>, lessons: seq<Lesson>, words: Wording)
    ensures ActiveDens(dens, [], lessons, words) == []
  {
    if dens != [] { NoCausesNoDens(dens[..|dens| - 1], lessons, words); }
  }

  // The briefing

  datatype Lists = Lists(checks: seq<string>, guardrails: seq<string>, questions: seq<string>)

  function PushAll(items: seq<string>, values: seq<string>): seq<string> {
    if values == [] then items
    else PushUnique(PushAll(items, values[..|values| - 1]), values[|values| - 1])
  }

  function LessonGuardrail(den: Den, lesson: Lesson): seq<string> {
    match lesson.intervention
    case None => []
    case Some(text) => ["[" + den.title + " lesson] " + lesson.pattern + " \U{2192} " + text]
  }

  function LessonGuardrails(den: Den, lessons: seq<Lesson>): seq<string> {
    if lessons == [] then []
    else LessonGuardrails(den, lessons[..|lessons| - 1]) + LessonGuardrail(den, lessons[|lessons| - 1])
  }

  /** Everything the active dens say, den after den. */
  function Said(scents: seq<DenScent>): Texts {
    if scents == [] then Texts([], [], [])
    else
      var before, s := Said(scents[..|scents| - 1]), scents[|scents| - 1];
      Texts(before.checks + s.texts.checks,
            before.guardrails + s.texts.guardrails + LessonGuardrails(s.den, s.lessons),
            before.questions + s.texts.questions)
  }

  function BriefedBy(lists: Lists, summary: string, scents: seq<DenScent>): Lists {
    var said := Said(scents);
    Lists(PushAll(lists.checks, [summary] + said.checks),
          PushAll(lists.guardrails, said.guardrails),
          PushAll(lists.questions, said.questions))
  }

  /** What a patrol makes of the three lists: each new text once, at the end, the summary first. */
  function Briefed(lists: Lists, patrol: PatchPatrol): Lists {
    if patrol.activeDens == [] then lists
    else BriefedBy(lists, "[Patch Patrol] " + patrol.summary, patrol.activeDens)
  }

  function Injected(lists: Lists, scent: DenScent): Lists {
    Lists(PushAll(lists.checks, scent.texts.checks),
          PushAll(PushAll(lists.guardrails, scent.texts.guardrails), LessonGuardrails(scent.den, scent.lessons)),
          PushAll(lists.questions, scent.texts.questions))
  }

  lemma BriefedStart(lists: Lists, summary: string)
    ensures BriefedBy(lists, summary, []) == lists.(checks := PushUnique(lists.checks, summary))
  {
    assert [summary] + [] == [summary] && [summary][..0] == [];
    assert PushAll(lists.checks, [summary]) == PushUnique(PushAll(lists.checks, []), summary);
  }

  lemma BriefedStep(lists: Lists, summary: string, scents: seq<DenScent>, i: nat)
    requires i < |scents|
    ensures BriefedBy(lists, summary, scents[..i + 1]) == Injected(BriefedBy(lists, summary, scents[..i]), scents[i])
  {
    var scent, said := scents[i], Said(scents[..i]);
    assert scents[..i + 1][..i] == scents[..i];
    assert [summary] + said.checks + scent.texts.checks == [summary] + (said.checks + scent.texts.checks);
    PushAllConcat(lists.checks, [summary] + said.checks, scent.texts.checks);
    PushAllConcat(lists.guardrails, said.guardrails, scent.texts.guardrails);
    PushAllConcat(lists.guardrails, said.guardrails + scent.texts.guardrails,
                  LessonGuardrails(scent.den, scent.lessons));
    PushAllConcat(lists.questions, said.questions, scent.texts.questions);
  }

  lemma {:induction false} PushAllConcat(items: seq<string>, xs: seq<string>, ys: seq<string>)
    ensures PushAll(items, xs + ys) == PushAll(PushAll(items, xs), ys)
  {
    if ys == [] {
      assert xs + ys == xs;
    } else {
      assert (xs + ys)[..|xs + ys| - 1] == xs + ys[..|ys| - 1];
      PushAllConcat(items, xs, ys[..|ys| - 1]);
    }
  }

  method PushEach(items: seq<string>, values: seq<string>) returns (items': seq<string>)
    ensures items' == PushAll(items, values)
  {
    items' := items;
    for i := 0 to |values|
      invariant items' == PushAll(items, values[..i])
    {
      if values[i] !in items' { items' := items' + [values[i]]; }
      assert values[..i + 1][..i] == values[..i];
    }
    assert values[..|values|] == values;
  }

  method PushLessons(items: seq<string>, den: Den, lessons: seq<Lesson>) returns (items': seq<string>)
    ensures items' == PushAll(items, LessonGuardrails(den, lessons))
  {
    items' := items;
    for i := 0 to |lessons|
      invariant items' == PushAll(items, LessonGuardrails(den, lessons[..i]))
    {
      assert lessons[..i + 1][..i] == lessons[..i];
      PushAllConcat(items, LessonGuardrails(den, lessons[..i]), LessonGuardrail(den, lessons[i]));
      items' := PushEach(items', LessonGuardrail(den, lessons[i]));
    }
    assert lessons[..|lessons|] == lessons;
  }

  class Briefing {
    var checks: seq<string>
    var guardrails: seq<string>
    var questions: seq<string>

    ghost function Value(): Lists
      reads this
    {
      Lists(checks, guardrails, questions)
    }

    method InjectDen(scent: DenScent)
      modifies this
      ensures Value() == Injected(old(Value()), scent)
    {
      checks := PushEach(checks, scent.texts.checks);
      guardrails := PushEach(guardrails, scent.texts.guardrails);
      questions := PushEach(questions, scent.texts.questions);
      guardrails := PushLessons(guardrails, scent.den, scent.lessons);
    }

    method ApplyPatrol(patrol: PatchPatrol)
      modifies this
      ensures Value() == Briefed(old(Value()), patrol)
    {
      if patrol.activeDens == [] { return; }
      ghost var start := Value();
      var summary := "[Patch Patrol] " + patrol.summary;
      BriefedStart(start, summary);
      if summary !in checks { checks := checks + [summary]; }
      assert patrol.activeDens[..0] == [];
      var i := 0;
      while i < |patrol.activeDens|
        invariant 0 <= i <= |patrol.activeDens|
        invariant Value() == BriefedBy(start, summary, patrol.activeDens[..i])
      {
        BriefedStep(start, summary, patrol.activeDens, i);
        InjectDen(patrol.activeDens[i]);
        i := i + 1;
      }
      assert patrol.activeDens[..i] == patrol.activeDens;
    }
  }
}
