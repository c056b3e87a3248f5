/** What a patrol conserves, how its weight behaves, and why injecting it again changes nothing. */
module PalaceLaws {
  import opened Basics
  import opened Palace

  // Dens partition the known causes

  ghost predicate Apart(dens: seq<Den>) {
    forall i, j, id :: 0 <= i < j < |dens| && id in dens[i].residents ==> id !in dens[j].residents
  }

  predicate Lives(dens: seq<Den>, id: string) {
    exists den <- dens :: id in den.residents
  }

  /** No cause belongs to two dens. */
  lemma DensAreApart()
    ensures Apart(DENS)
  {
    assert "SPEC_AMBIGUITY"[0] != "PACK_BREAKDOWN"[0] && "TEST_BLIND_SPOT"[0] != "NO_PRIOR_MEMORY"[0];
    assert |"SPEC_AMBIGUITY"| == 14 && |"BROAD_SCOPE"| == 11 && |"TEST_BLIND_SPOT"| == 15 && |"TWIN_GAP"| == 8;
    assert |"PACK_BREAKDOWN"| == 14 && |"NO_PRIOR_MEMORY"| == 15;
  }

  function Known(dens: seq<Den>, causes: seq<Cause>): seq<Cause> {
    if causes == [] then []
    else
      var k := |causes| - 1;
      var before := Known(dens, causes[..k]);
      if Lives(dens, causes[k].id) then before + [causes[k]] else before
  }

  function ScentOccurrences(scents: seq<DenScent>): nat {
    if scents == [] then 0 else ScentOccurrences(scents[..|scents| - 1]) + scents[|scents| - 1].occurrences
  }

  function ScentResidents(scents: seq<DenScent>): nat {
    if scents == [] then 0 else ScentResidents(scents[..|scents| - 1]) + scents[|scents| - 1].activeResidents
  }

  lemma SumsOfSnoc(scents: seq<DenScent>, s: DenScent)
    ensures ScentOccurrences(scents + [s]) == ScentOccurrences(scents) + s.occurrences
    ensures ScentResidents(scents + [s]) == ScentResidents(scents) + s.activeResidents
    ensures WeightSum(scents + [s]) == WeightSum(scents) + DenWeight(s.peakStreak, s.escalated)
  {
    assert (scents + [s])[..|scents|] == scents;
  }

  /** The same sums den by den, with nothing said about which dens are active. */
  function DenOccurrences(dens: seq<Den>, causes: seq<Cause>): nat {
    if dens == [] then 0
    else DenOccurrences(dens[..|dens| - 1], causes) + Occurrences(Residents(dens[|dens| - 1], causes))
  }

  function DenResidents(dens: seq<Den>, causes: seq<Cause>): nat {
    if dens == [] then 0
    else DenResidents(dens[..|dens| - 1], causes) + |Residents(dens[|dens| - 1], causes)|
  }

  lemma ActiveSums(init: seq<DenScent>, den: Den, causes: seq<Cause>, lessons: seq<Lesson>, words: Wording)
    ensures var s := Scent(den, causes, lessons, words);
            && ScentOccurrences(init + [s]) == ScentOccurrences(init) + Occurrences(Residents(den, causes))
            && ScentResidents(init + [s]) == ScentResidents(init) + |Residents(den, causes)|
  {
    SumsOfSnoc(init, Scent(den, causes, lessons, words));
  }

  lemma LastDenSums(dens: seq<Den>, causes: seq<Cause>, lessons: seq<Lesson>, words: Wording)
    requires dens != []
    ensures var all := ActiveDens(dens, causes, lessons, words);
            var init := ActiveDens(dens[..|dens| - 1], causes, lessons, words);
            var residents := Residents(dens[|dens| - 1], causes);
            && ScentOccurrences(all) == ScentOccurrences(init) + Occurrences(residents)
            && ScentResidents(all) == ScentResidents(init) + |residents|
  {
    var den := dens[|dens| - 1];
    if Residents(den, causes) != [] {
      ActiveSums(ActiveDens(dens[..|dens| - 1], causes, lessons, words), den, causes, lessons, words);
    }
  }

  lemma {:induction false} ScentSums(dens: seq<Den>, causes: seq<Cause>, lessons: seq<Lesson>, words: Wording)
    ensures var scents := ActiveDens(dens, causes, lessons, words);
            && ScentOccurrences(scents) == DenOccurrences(dens, causes)
            && ScentResidents(scents) == DenResidents(dens, causes)
  {
    if dens != [] {
      ScentSums(dens[..|dens| - 1], causes, lessons, words);
      LastDenSums(dens, causes, lessons, words);
    }
  }

  lemma ResidentsOfSnoc(den: Den, causes: seq<Cause>, c: Cause)
    ensures var before, after := Residents(den, causes), Residents(den, causes + [c]);
            && |after| == |before| + (if c.id in den.residents then 1 else 0)
            && Occurrences(after) == Occurrences(before) + (if c.id in den.residents then c.occurrences else 0)
  {
    assert (causes + [c])[..|causes|] == causes;
    OccurrencesOfSnoc(Residents(den, causes), c);
  }

  lemma OccurrencesOfSnoc(causes: seq<Cause>, c: Cause)
    ensures Occurrences(causes + [c]) == Occurrences(causes) + c.occurrences
  {
    assert (causes + [c])[..|causes|] == causes;
  }

  lemma LivesInOne(dens: seq<Den>, id: string)
    requires Apart(dens) && dens != []
    ensures Lives(dens, id) <==> Lives(dens[..|dens| - 1], id) || id in dens[|dens| - 1].residents
    ensures !(Lives(dens[..|dens| - 1], id) && id in dens[|dens| - 1].residents)
  {
    assert dens == dens[..|dens| - 1] + [dens[|dens| - 1]];
  }

  /** One more cause adds its occurrences exactly when it has a den, and then once. */
  lemma {:induction false} OneMoreCause(dens: seq<Den>, causes: seq<Cause>, c: Cause)
    requires Apart(dens)
    ensures DenOccurrences(dens, causes + [c])
         == DenOccurrences(dens, causes) + (if Lives(dens, c.id) then c.occurrences else 0)
    ensures DenResidents(dens, causes + [c]) == DenResidents(dens, causes) + (if Lives(dens, c.id) then 1 else 0)
  {
    if dens != [] {
      var k := |dens| - 1;
      OneMoreCause(dens[..k], causes, c);
      ResidentsOfSnoc(dens[k], causes, c);
      LivesInOne(dens, c.id);
    }
  }

  lemma {:induction false} NoCauses(dens: seq<Den>)
    ensures DenOccurrences(dens, []) == 0 && DenResidents(dens, []) == 0
  {
    if dens != [] { NoCauses(dens[..|dens| - 1]); }
  }

  lemma {:induction false} Conserved(dens: seq<Den>, causes: seq<Cause>)
    requires Apart(dens)
    ensures DenOccurrences(dens, causes) == Occurrences(Known(dens, causes))
    ensures DenResidents(dens, causes) == |Known(dens, causes)|
    decreases |causes|
  {
    if causes == [] {
      NoCauses(dens);
    } else {
      var k := |causes| - 1;
      Conserved(dens, causes[..k]);
      OneMoreCause(dens, causes[..k], causes[k]);
      OccurrencesOfSnoc(Known(dens, causes[..k]), causes[k]);
      assert causes[..k] + [causes[k]] == causes;
    }
  }

  /** The occurrences over all active dens are those of the causes with a den, each counted once. */
  lemma OccurrencesAreConserved(causes: seq<Cause>, lessons: seq<Lesson>, words: Wording)
    ensures var scents := ActiveDens(DENS, causes, lessons, words);
            && ScentOccurrences(scents) == Occurrences(Known(DENS, causes))
            && ScentResidents(scents) == |Known(DENS, causes)|
  {
    DensAreApart();
    ScentSums(DENS, causes, lessons, words);
    Conserved(DENS, causes);
  }

  // Counting the residents of a den

  function Ids(causes: seq<Cause>): set<string> { set c <- causes :: c.id }

  /** No cause of the den stands in the list twice. */
  predicate NoResidentTwice(den: Den, causes: seq<Cause>) {
    forall i, j :: 0 <= i < j < |causes| && causes[i].id in den.residents ==> causes[i].id != causes[j].id
  }

  lemma {:induction false} ResidentIds(den: Den, causes: seq<Cause>, id: string)
    ensures id in Ids(Residents(den, causes)) <==> id in den.residents && id in Ids(causes)
  {
    if causes != [] {
      var init, last := causes[..|causes| - 1], causes[|causes| - 1];
      assert causes == init + [last];
      ResidentIds(den, init, id);
      var r := Residents(den, init);
      assert Ids(r + [last]) == Ids(r) + {last.id};
      assert Ids(init + [last]) == Ids(init) + {last.id};
    }
  }

  /**
   active_residents counts distinct causes exactly when the list repeats no cause of the den; it never counts too
   few.
   */
  lemma {:induction false} ResidentsAreDistinctExactly(den: Den, causes: seq<Cause>)
    ensures |Residents(den, causes)| >= |Ids(Residents(den, causes))|
    ensures |Residents(den, causes)| == |Ids(Residents(den, causes))| <==> NoResidentTwice(den, causes)
  {
    if causes != [] {
      var init, last := causes[..|causes| - 1], causes[|causes| - 1];
      assert causes == init + [last];
      ResidentsAreDistinctExactly(den, init);
      ResidentIds(den, init, last.id);
      OneMoreId(Residents(den, init), last);
      LastRepeats(den, init, last);
    }
  }

  lemma OneMoreId(causes: seq<Cause>, c: Cause)
    ensures |Ids(causes + [c])| == |Ids(causes)| + if c.id in Ids(causes) then 0 else 1
  {
    assert Ids(causes + [c]) == Ids(causes) + {c.id};
  }

  lemma LastRepeats(den: Den, init: seq<Cause>, last: Cause)
    ensures NoResidentTwice(den, init + [last])
            <==> NoResidentTwice(den, init) && !(last.id in den.residents && last.id in Ids(init))
  {
    var causes := init + [last];
    if last.id in den.residents && last.id in Ids(init) {
      var c :| c in init && c.id == last.id;
      var i :| 0 <= i < |init| && init[i] == c;
      assert causes[i].id == causes[|init|].id;
    }
    if NoResidentTwice(den, causes) {
      forall i, j | 0 <= i < j < |init| && init[i].id in den.residents ensures init[i].id != init[j].id {
        assert causes[i] == init[i] && causes[j] == init[j];
      }
    }
    if NoResidentTwice(den, init) && !(last.id in den.residents && last.id in Ids(init)) {
      forall i, j | 0 <= i < j < |causes| && causes[i].id in den.residents ensures causes[i].id != causes[j].id {
        if j == |init| { assert init[i] in init; }
      }
    }
  }

  const TWIN := DENS[2]

  lemma {:induction false} ActiveConcat(a: seq<Den>, b: seq<Den>, causes: seq<Cause>, lessons: seq<Lesson>,
                                        words: Wording)
    ensures ActiveDens(a + b, causes, lessons, words)
         == ActiveDens(a, causes, lessons, words) + ActiveDens(b, causes, lessons, words)
  {
    if b == [] {
      assert a + b == a;
    } else {
      assert (a + b)[..|a + b| - 1] == a + b[..|b| - 1];
      ActiveConcat(a, b[..|b| - 1], causes, lessons, words);
    }
  }

  lemma {:induction false} QuietDens(dens: seq<Den>, causes: seq<Cause>, lessons: seq<Lesson>, words: Wording)
    requires forall den <- dens :: Residents(den, causes) == []
    ensures ActiveDens(dens, causes, lessons, words) == []
  {
    if dens != [] { QuietDens(dens[..|dens| - 1], causes, lessons, words); }
  }

  /** A patrol of one kind of cause, twin gaps, finds the Twin Den only. */
  lemma OnlyTwins(causes: seq<Cause>, lessons: seq<Lesson>, words: Wording)
    requires causes != [] && forall c <- causes :: c.id == "TWIN_GAP"
    ensures ActiveDens(DENS, causes, lessons, words) == [Scent(TWIN, causes, lessons, words)]
    ensures Residents(TWIN, causes) == causes
  {
    AllOrNone(TWIN, causes);
    forall den | den in DENS[..2] || den in DENS[3..] ensures Residents(den, causes) == [] {
      OtherDens(den);
      AllOrNone(den, causes);
    }
    QuietDens(DENS[..2], causes, lessons, words);
    QuietDens(DENS[3..], causes, lessons, words);
    JustTwins(causes, lessons, words);
    assert DENS == DENS[..2] + ([TWIN] + DENS[3..]);
    ActiveConcat([TWIN], DENS[3..], causes, lessons, words);
    ActiveConcat(DENS[..2], [TWIN] + DENS[3..], causes, lessons, words);
  }

  lemma JustTwins(causes: seq<Cause>, lessons: seq<Lesson>, words: Wording)
    requires Residents(TWIN, causes) != []
    ensures ActiveDens([TWIN], causes, lessons, words) == [Scent(TWIN, causes, lessons, words)]
  {
    assert [TWIN][..0] == [];
  }

  lemma OtherDens(den: Den)
    requires den in DENS[..2] || den in DENS[3..]
    ensures den in DENS && den != TWIN
  {
    assert DENS[0].residents[0] != TWIN.residents[0] && |DENS[0].residents| == 2;
    assert |DENS[1].id| == 8 && DENS[1].id[1] != TWIN.id[1];
    assert DENS[3].id[0] != TWIN.id[0] && DENS[4].id[0] != TWIN.id[0];
  }

  lemma {:induction false} AllOrNone(den: Den, causes: seq<Cause>)
    requires den in DENS && forall c <- causes :: c.id == "TWIN_GAP"
    ensures Residents(den, causes) == if den == TWIN then causes else []
  {
    assert |"TWIN_GAP"| == 8 && "TWIN_GAP" in TWIN.residents;
    assert den != TWIN ==> "TWIN_GAP" !in den.residents;
    if causes != [] {
      assert causes == causes[..|causes| - 1] + [causes[|causes| - 1]];
      AllOrNone(den, causes[..|causes| - 1]);
    }
  }

  /** Listed twice, one cause is counted as two active residents, and that alone escalates its den. */
  lemma RepeatedCauseCountsTwice(c: Cause, lessons: seq<Lesson>, words: Wording)
    requires c.id == "TWIN_GAP" && !c.escalate
    ensures var twice := [c, c];
            var scents := ActiveDens(DENS, twice, lessons, words);
            |scents| == 1 && scents[0].activeResidents == 2 && Ids(twice) == {"TWIN_GAP"} && scents[0].escalated
  {
    OnlyTwins([c, c], lessons, words);
  }

  /** Every active den is escalated and the weight is 0.8, not 1. */
  lemma EscalatedPatchBelowOne(c: Cause, lessons: seq<Lesson>, words: Wording)
    requires c.id == "TWIN_GAP" && c.escalate && c.streak == 3
    ensures var scents := ActiveDens(DENS, [c], lessons, words);
            && scents != [] && (forall s <- scents :: s.escalated)
            && PatchWeight(scents) == 0.8
  {
    OnlyTwins([c], lessons, words);
    var s := Scent(TWIN, [c], lessons, words);
    assert [c][..0] == [] && PeakStreak([c]) == 3;
    assert [s][..0] == [] && WeightSum([s]) == DenWeight(3, true) == 0.8;
  }

  // What a den's scent says

  /** The positions in the list of the causes that live in the den. */
  function ResidentPositions(den: Den, causes: seq<Cause>): set<nat> {
    set i: nat | i < |causes| && causes[i].id in den.residents
  }

  lemma {:induction false} ResidentsMean(den: Den, causes: seq<Cause>)
    ensures forall c :: c in Residents(den, causes) <==> c in causes && c.id in den.residents
    ensures |Residents(den, causes)| == |ResidentPositions(den, causes)|
  {
    if causes == [] {
      assert ResidentPositions(den, causes) == {};
    } else {
      var init, k := causes[..|causes| - 1], |causes| - 1;
      ResidentsMean(den, init);
      assert causes == init + [causes[k]];
      assert ResidentPositions(den, causes)
          == ResidentPositions(den, init) + if causes[k].id in den.residents then {k} else {};
    }
  }

  lemma {:induction false} PeakIsGreatest(causes: seq<Cause>)
    ensures forall c <- causes :: c.streak <= PeakStreak(causes)
    ensures causes != [] ==> exists c <- causes :: c.streak == PeakStreak(causes)
    ensures causes == [] ==> PeakStreak(causes) == 0
  {
    if causes != [] {
      var init, last := causes[..|causes| - 1], causes[|causes| - 1];
      PeakIsGreatest(init);
      assert causes == init + [last];
      if last.streak < PeakStreak(causes) {
        var c :| c in init && c.streak == PeakStreak(init);
        assert c in causes;
      } else {
        assert last in causes;
      }
    }
  }

  /** A den's scent in terms of the listed causes that live there, each counted as often as it is listed. */
  lemma ScentMeans(den: Den, causes: seq<Cause>, lessons: seq<Lesson>, words: Wording)
    ensures var s := Scent(den, causes, lessons, words);
            && s.den == den && s.activeResidents == |ResidentPositions(den, causes)|
            && (forall c <- causes :: c.id in den.residents ==> c.streak <= s.peakStreak)
            && (s.activeResidents > 0 ==> exists c <- causes :: c.id in den.residents && c.streak == s.peakStreak)
            && (s.escalated <==> s.activeResidents >= 2 || exists c <- causes :: c.id in den.residents && c.escalate)
  {
    var residents := Residents(den, causes);
    ResidentsMean(den, causes);
    PeakIsGreatest(residents);
    if residents != [] {
      var c :| c in residents && c.streak == PeakStreak(residents);
      assert c in causes;
    }
  }

  /** The active dens are those with a listed resident, in the order of the dens. */
  lemma ActiveOne(den: Den, causes: seq<Cause>, lessons: seq<Lesson>, words: Wording)
    ensures ActiveDens([den], causes, lessons, words)
         == if exists c <- causes :: c.id in den.residents then [Scent(den, causes, lessons, words)] else []
  {
    ResidentsMean(den, causes);
    if c :| c in causes && c.id in den.residents { assert c in Residents(den, causes); }
    var residents := Residents(den, causes);
    if residents != [] { assert residents[0] in residents; }
    assert [den][..0] == [];
  }

  // The patch weight

  /** Fifths: one for each run of the streak, one more when escalated, five at most. */
  function Fifths(s: DenScent): nat { Min(5, s.peakStreak + if s.escalated then 1 else 0) }

  function AllFifths(scents: seq<DenScent>): nat {
    if scents == [] then 0 else Fifths(scents[0]) + AllFifths(scents[1..])
  }

  lemma DenWeightIsFifths(s: DenScent)
    ensures DenWeight(s.peakStreak, s.escalated) == Fifths(s) as real / 5.0
  {
  }

  lemma {:induction false} AllFifthsSnoc(scents: seq<DenScent>, s: DenScent)
    ensures AllFifths(scents + [s]) == AllFifths(scents) + Fifths(s)
  {
    if scents != [] {
      assert (scents + [s])[1..] == scents[1..] + [s];
      AllFifthsSnoc(scents[1..], s);
    } else {
      assert [s][1..] == [];
    }
  }

  lemma {:induction false} WeightSumIsFifths(scents: seq<DenScent>)
    ensures WeightSum(scents) == AllFifths(scents) as real / 5.0
  {
    if scents != [] {
      var init, last := scents[..|scents| - 1], scents[|scents| - 1];
      WeightSumIsFifths(init);
      DenWeightIsFifths(last);
      AllFifthsSnoc(init, last);
      assert scents == init + [last];
    }
  }

  /** The weight of the patch is the average of its dens' fifths. */
  lemma WeightIsAverage(scents: seq<DenScent>)
    ensures scents == [] ==> PatchWeight(scents) == 0.0
    ensures scents != [] ==> PatchWeight(scents) == AllFifths(scents) as real / 5.0 / |scents| as real
  {
    WeightSumIsFifths(scents);
    WeightSumBounds(scents);
    if scents != [] { RatioBounds(WeightSum(scents), |scents| as real); }
  }

  lemma DenWeightBounds(peak: nat, escalated: bool)
    ensures 0.0 <= DenWeight(peak, escalated) <= 1.0
    ensures DenWeight(peak, escalated) == 0.0 <==> peak == 0 && !escalated
    ensures DenWeight(peak, escalated) == 1.0 <==> peak >= 5 || (escalated && peak >= 4)
  {
  }

  lemma DenWeightGrows(peak: nat, peak': nat, escalated: bool, escalated': bool)
    requires peak <= peak' && (escalated ==> escalated')
    ensures DenWeight(peak, escalated) <= DenWeight(peak', escalated')
  {
  }

  predicate Silent(s: DenScent) { s.peakStreak == 0 && !s.escalated }

  predicate Saturated(s: DenScent) { s.peakStreak >= 5 || (s.escalated && s.peakStreak >= 4) }

  lemma {:induction false} WeightSumBounds(scents: seq<DenScent>)
    ensures 0.0 <= WeightSum(scents) <= |scents| as real
  {
    if scents != [] {
      var init, last := scents[..|scents| - 1], scents[|scents| - 1];
      WeightSumBounds(init);
      DenWeightBounds(last.peakStreak, last.escalated);
    }
  }

  lemma {:induction false} WeightSumZero(scents: seq<DenScent>)
    ensures WeightSum(scents) == 0.0 <==> forall s <- scents :: Silent(s)
  {
    if scents != [] {
      var init, last := scents[..|scents| - 1], scents[|scents| - 1];
      WeightSumZero(init);
      WeightSumBounds(init);
      DenWeightBounds(last.peakStreak, last.escalated);
      assert (forall s <- scents :: Silent(s)) <==> Silent(last) && forall s <- init :: Silent(s) by {
        assert scents == init + [last];
      }
    }
  }

  lemma {:induction false} WeightSumFull(scents: seq<DenScent>)
    ensures WeightSum(scents) == |scents| as real <==> forall s <- scents :: Saturated(s)
  {
    if scents != [] {
      var init, last := scents[..|scents| - 1], scents[|scents| - 1];
      WeightSumFull(init);
      WeightSumBounds(init);
      DenWeightBounds(last.peakStreak, last.escalated);
      assert (forall s <- scents :: Saturated(s)) <==> Saturated(last) && forall s <- init :: Saturated(s) by {
        assert scents == init + [last];
      }
    }
  }

  lemma RatioBounds(x: real, n: real)
    requires n > 0.0 && 0.0 <= x <= n
    ensures 0.0 <= x / n <= 1.0
    ensures x / n == 0.0 <==> x == 0.0
    ensures x / n == 1.0 <==> x == n
  {
  }

  /** The weight lies in [0, 1]; it is 0 exactly for silent patches and 1 exactly when every active den is saturated. */
  lemma PatchWeightBounds(scents: seq<DenScent>)
    ensures 0.0 <= PatchWeight(scents) <= 1.0
    ensures PatchWeight(scents) == 0.0 <==> forall s <- scents :: Silent(s)
    ensures PatchWeight(scents) == 1.0 <==> scents != [] && forall s <- scents :: Saturated(s)
  {
    WeightSumBounds(scents);
    WeightSumZero(scents);
    WeightSumFull(scents);
    if scents != [] { RatioBounds(WeightSum(scents), |scents| as real); }
  }

  /** The same causes with streaks that went on and escalations that stayed. */
  ghost predicate Worse(causes: seq<Cause>, causes': seq<Cause>) {
    && |causes| == |causes'|
    && forall i :: 0 <= i < |causes| ==>
         && causes[i].id == causes'[i].id && causes[i].streak <= causes'[i].streak
         && (causes[i].escalate ==> causes'[i].escalate)
  }

  lemma {:induction false} WorseResidents(den: Den, causes: seq<Cause>, causes': seq<Cause>)
    requires Worse(causes, causes')
    ensures Worse(Residents(den, causes), Residents(den, causes'))
  {
    if causes != [] { WorseResidents(den, causes[..|causes| - 1], causes'[..|causes| - 1]); }
  }

  lemma {:induction false} WorsePeak(causes: seq<Cause>, causes': seq<Cause>)
    requires Worse(causes, causes')
    ensures PeakStreak(causes) <= PeakStreak(causes') && (Escalated(causes) ==> Escalated(causes'))
  {
    if causes != [] { WorsePeak(causes[..|causes| - 1], causes'[..|causes| - 1]); }
    if c :| c in causes && c.escalate {
      var i :| 0 <= i < |causes| && causes[i] == c;
      assert causes'[i].escalate && causes'[i] in causes';
    }
  }

  lemma WorseDen(den: Den, causes: seq<Cause>, causes': seq<Cause>, lessons: seq<Lesson>, words: Wording)
    requires Worse(causes, causes')
    ensures Residents(den, causes) == [] <==> Residents(den, causes') == []
    ensures var s, s' := Scent(den, causes, lessons, words), Scent(den, causes', lessons, words);
            DenWeight(s.peakStreak, s.escalated) <= DenWeight(s'.peakStreak, s'.escalated)
  {
    var r, r' := Residents(den, causes), Residents(den, causes');
    WorseResidents(den, causes, causes');
    WorsePeak(r, r');
    DenWeightGrows(PeakStreak(r), PeakStreak(r'), Escalated(r), Escalated(r'));
  }

  lemma AddHeavier(init: seq<DenScent>, init': seq<DenScent>, s: DenScent, s': DenScent)
    requires |init| == |init'| && WeightSum(init) <= WeightSum(init')
    requires DenWeight(s.peakStreak, s.escalated) <= DenWeight(s'.peakStreak, s'.escalated)
    ensures |init + [s]| == |init' + [s']| && WeightSum(init + [s]) <= WeightSum(init' + [s'])
  {
    SumsOfSnoc(init, s);
    SumsOfSnoc(init', s');
  }

  lemma {:induction false} WorseWeight(
      dens: seq<Den>, causes: seq<Cause>, causes': seq<Cause>, lessons: seq<Lesson>, words: Wording)
    requires Worse(causes, causes')
    ensures var scents, scents' := ActiveDens(dens, causes, lessons, words), ActiveDens(dens, causes', lessons, words);
            |scents| == |scents'| && WeightSum(scents) <= WeightSum(scents')
  {
    if dens != [] {
      var k := |dens| - 1;
      WorseWeight(dens[..k], causes, causes', lessons, words);
      WorseDen(dens[k], causes, causes', lessons, words);
      AddHeavier(ActiveDens(dens[..k], causes, lessons, words), ActiveDens(dens[..k], causes', lessons, words),
                 Scent(dens[k], causes, lessons, words), Scent(dens[k], causes', lessons, words));
    }
  }

  lemma RatioGrows(x: real, y: real, n: real)
    requires n > 0.0 && x <= y
    ensures x / n <= y / n
  {
  }

  /** The weight never falls while the causes stay and their streaks grow. */
  lemma WeightNeverFalls(causes: seq<Cause>, causes': seq<Cause>, lessons: seq<Lesson>, words: Wording)
    requires Worse(causes, causes')
    ensures PatchWeight(ActiveDens(DENS, causes, lessons, words))
         <= PatchWeight(ActiveDens(DENS, causes', lessons, words))
  {
    var scents, scents' := ActiveDens(DENS, causes, lessons, words), ActiveDens(DENS, causes', lessons, words);
    WorseWeight(DENS, causes, causes', lessons, words);
    if scents != [] { RatioGrows(WeightSum(scents), WeightSum(scents'), |scents| as real); }
  }

  // Injection into a briefing

  /** The list keeps what it had, in place, and gains each missing value once, in order. */
  lemma {:induction false} PushAllMeans(items: seq<string>, values: seq<string>)
    ensures items <= PushAll(items, values)
    ensures forall x :: x in PushAll(items, values) <==> x in items || x in values
    ensures forall i, j :: |items| <= i < |PushAll(items, values)| && 0 <= j < i ==>
              PushAll(items, values)[i] != PushAll(items, values)[j]
  {
    if values != [] {
      PushAllMeans(items, values[..|values| - 1]);
      assert values == values[..|values| - 1] + [values[|values| - 1]];
    }
  }

  lemma {:induction false} NothingNew(items: seq<string>, values: seq<string>)
    requires forall x <- values :: x in items
    ensures PushAll(items, values) == items
  {
    if values != [] {
      assert forall x <- values[..|values| - 1] :: x in values;
      NothingNew(items, values[..|values| - 1]);
    }
  }

  lemma PushingTwice(items: seq<string>, values: seq<string>)
    ensures PushAll(PushAll(items, values), values) == PushAll(items, values)
  {
    PushAllMeans(items, values);
    NothingNew(PushAll(items, values), values);
  }

  /** Applying a patrol a second time changes nothing. */
  lemma PatrolTwice(lists: Lists, patrol: PatchPatrol)
    ensures Briefed(Briefed(lists, patrol), patrol) == Briefed(lists, patrol)
  {
    if patrol.activeDens != [] {
      var said := Said(patrol.activeDens);
      PushingTwice(lists.checks, ["[Patch Patrol] " + patrol.summary] + said.checks);
      PushingTwice(lists.guardrails, said.guardrails);
      PushingTwice(lists.questions, said.questions);
    }
  }

  /** How a lesson's intervention reads as a guardrail of the den that carries it. */
  predicate Reads(x: string, den: Den, lesson: Lesson) {
    lesson.intervention.Some?
    && x == "[" + den.title + " lesson] " + lesson.pattern + " \U{2192} " + lesson.intervention.value
  }

  lemma {:induction false} LessonGuardrailsMean(den: Den, lessons: seq<Lesson>, x: string)
    ensures x in LessonGuardrails(den, lessons) <==> exists l <- lessons :: Reads(x, den, l)
  {
    if lessons != [] {
      var init, last := lessons[..|lessons| - 1], lessons[|lessons| - 1];
      LessonGuardrailsMean(den, init, x);
      assert x in LessonGuardrail(den, last) <==> Reads(x, den, last);
      assert lessons == init + [last];
      assert (exists l <- lessons :: Reads(x, den, l))
        <==> (exists l <- init :: Reads(x, den, l)) || Reads(x, den, last);
    }
  }

  ghost predicate SaysGuardrail(s: DenScent, x: string) {
    x in s.texts.guardrails || exists l <- s.lessons :: Reads(x, s.den, l)
  }

  lemma {:induction false} SaidMeans(scents: seq<DenScent>, x: string)
    ensures x in Said(scents).checks <==> exists s <- scents :: x in s.texts.checks
    ensures x in Said(scents).questions <==> exists s <- scents :: x in s.texts.questions
  {
    if scents != [] {
      var init, last := scents[..|scents| - 1], scents[|scents| - 1];
      SaidMeans(init, x);
      assert scents == init + [last];
    }
  }

  lemma {:induction false} SaidGuardrailsMean(scents: seq<DenScent>, x: string)
    ensures x in Said(scents).guardrails <==> exists s <- scents :: SaysGuardrail(s, x)
  {
    if scents != [] {
      var init, last := scents[..|scents| - 1], scents[|scents| - 1];
      SaidGuardrailsMean(init, x);
      LessonGuardrailsMean(last.den, last.lessons, x);
      assert Said(scents).guardrails
          == Said(init).guardrails + last.texts.guardrails + LessonGuardrails(last.den, last.lessons);
      assert scents == init + [last];
      assert (exists s <- scents :: SaysGuardrail(s, x))
        <==> (exists s <- init :: SaysGuardrail(s, x)) || SaysGuardrail(last, x);
    }
  }

  /**
   A patrol only appends, and a clear one nothing. Otherwise the lists hold what they held, the summary, what the
   active dens say, and every lesson's intervention with the title of its den.
   */
  lemma PatrolOnlyAppends(lists: Lists, patrol: PatchPatrol, x: string)
    ensures var after := Briefed(lists, patrol);
            && lists.checks <= after.checks && lists.guardrails <= after.guardrails
            && lists.questions <= after.questions && (patrol.activeDens == [] ==> after == lists)
    ensures patrol.activeDens != [] ==>
              var after := Briefed(lists, patrol);
              && (x in after.checks <==>
                    || x in lists.checks || x == "[Patch Patrol] " + patrol.summary
                    || exists s <- patrol.activeDens :: x in s.texts.checks)
              && (x in after.guardrails <==>
                    x in lists.guardrails || exists s <- patrol.activeDens :: SaysGuardrail(s, x))
              && (x in after.questions <==>
                    x in lists.questions || exists s <- patrol.activeDens :: x in s.texts.questions)
  {
    if patrol.activeDens != [] {
      var said := Said(patrol.activeDens);
      PushAllMeans(lists.checks, ["[Patch Patrol] " + patrol.summary] + said.checks);
      PushAllMeans(lists.guardrails, said.guardrails);
      PushAllMeans(lists.questions, said.questions);
      SaidMeans(patrol.activeDens, x);
      SaidGuardrailsMean(patrol.activeDens, x);
    }
  }
}
