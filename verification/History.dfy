/** Which earlier messages of a PackChat thread go into a prompt, within a character budget. */
module History {
  import opened Basics
  import opened Text
  import opened Sorting
  import opened Retrieval
  import opened Excerpt

  const RECENT_MESSAGES := 6
  const RELEVANT_LIMIT := 10
  const NEIGHBOR_WINDOW := 1
  const MESSAGE_OVERHEAD := 24
  const OPERATOR := "operator"

  const FACT_PATTERNS := [
    "i am", "im", "i was", "i have", "i had", "i graduated", "i work", "i live", "i like", "i love", "i prefer",
    "i booked", "my favorite", "my name", "my degree", "my job", "my birthday", "i finally"]

  datatype ChatMessage = ChatMessage(role: string, content: string)

  /** A message index with its rank and the length of its excerpt. */
  datatype Ranked = Ranked(score: int, idx: nat, chars: nat)

  // Scoring

  predicate LooksLikeUserFact(msg: ChatMessage) {
    msg.role == OPERATOR && exists p :: p in FACT_PATTERNS && Contains(Retrieval.Normalized(msg.content), p)
  }

  function Overlap(normalized: string, terms: seq<string>): nat {
    if terms == [] then 0
    else (if Contains(normalized, terms[0]) then 1 else 0) + Overlap(normalized, terms[1..])
  }

  function Score(msg: ChatMessage, userContent: string, terms: seq<string>): int {
    var query, content := Retrieval.Normalized(userContent), Retrieval.Normalized(msg.content);
    if content == "" then 0
    else
      (if query != "" && Contains(content, query) then 80 else 0)
      + Overlap(content, terms) * 18
      + (if msg.role == OPERATOR then 6 else 0)
      + (if LooksLikeUserFact(msg) then 14 else 0)
      + (if Contains(content, "remember") then 4 else 0)
  }

  function Priority(history: seq<ChatMessage>, idx: nat, userContent: string, terms: seq<string>): int
    requires idx < |history|
  {
    Score(history[idx], userContent, terms)
    + (if idx >= SaturatingSub(|history|, RECENT_MESSAGES) then 1_000 else 0)
    + (if history[idx].role == OPERATOR then 25 else 0)
  }

  /** Higher rank first; among equals, the later message. */
  predicate Before(a: Ranked, b: Ranked) { a.score > b.score || (a.score == b.score && a.idx >= b.idx) }

  lemma BeforeIsTotal()
    ensures TotalPreorder(Before)
  {
  }

  // Ordered sets of indices

  /** The members of s below n, ascending: how a BTreeSet yields them. */
  function Ascending(s: set<nat>, n: nat): (r: seq<nat>)
    ensures forall j :: 0 <= j < |r| ==> r[j] < n
  {
    if n == 0 then [] else Ascending(s, n - 1) + if n - 1 in s then [n - 1] else []
  }

  lemma {:induction false} AscendingMeans(s: set<nat>, n: nat)
    ensures forall i :: i in Ascending(s, n) <==> i in s && i < n
    ensures forall j, k :: 0 <= j < k < |Ascending(s, n)| ==> Ascending(s, n)[j] < Ascending(s, n)[k]
  {
    if n > 0 { AscendingMeans(s, n - 1); }
  }

  /** The messages of the given positions, in their original order. */
  function SubHistory(history: seq<ChatMessage>, kept: set<nat>): seq<ChatMessage> {
    var indices := Ascending(kept, |history|);
    seq(|indices|, j requires 0 <= j < |indices| => history[indices[j]])
  }

  ghost predicate Increasing(xs: seq<nat>) { forall j, k :: 0 <= j < k < |xs| ==> xs[j] < xs[k] }

  /** The kept positions that exist, each once and in order, and the messages at them. */
  lemma SubHistoryMeans(history: seq<ChatMessage>, kept: set<nat>) returns (picked: seq<nat>)
    ensures Increasing(picked) && forall i :: i in picked <==> i in kept && i < |history|
    ensures |SubHistory(history, kept)| == |picked|
    ensures forall j :: 0 <= j < |picked| ==>
              picked[j] in picked && SubHistory(history, kept)[j] == history[picked[j]]
  {
    picked := Ascending(kept, |history|);
    AscendingMeans(kept, |history|);
  }

  // Greedy selection under a budget

  function Cost(c: Ranked): nat { c.chars + MESSAGE_OVERHEAD }

  datatype Kept = Kept(indices: set<nat>, used: nat)

  /** The first is always kept; each later one if it still fits. */
  function Greedy(cands: seq<Ranked>, budget: nat): Kept {
    if cands == [] then Kept({}, 0)
    else
      var k, c := Greedy(cands[..|cands| - 1], budget), cands[|cands| - 1];
      if k.indices == {} || k.used + Cost(c) <= budget then Kept(k.indices + {c.idx}, k.used + Cost(c)) else k
  }

  function Candidates(history: seq<ChatMessage>, selected: seq<nat>, userContent: string, terms: seq<string>,
                      excerptBudget: nat): seq<Ranked>
    requires forall i :: i in selected ==> i < |history|
  {
    seq(|selected|, j requires 0 <= j < |selected| =>
      assert selected[j] in selected;
      RankedAt(history, selected[j], userContent, terms, excerptBudget))
  }

  function RankedAt(history: seq<ChatMessage>, idx: nat, userContent: string, terms: seq<string>,
                    excerptBudget: nat): Ranked
    requires idx < |history|
  {
    Ranked(Priority(history, idx, userContent, terms), idx, |Compacted(history[idx].content, terms, excerptBudget)|)
  }

  function KeptIndices(history: seq<ChatMessage>, selected: seq<nat>, userContent: string, terms: seq<string>,
                       historyBudget: nat, excerptBudget: nat): set<nat>
    requires forall i :: i in selected ==> i < |history|
  {
    var kept := Greedy(Sort(Candidates(history, selected, userContent, terms, excerptBudget), Before),
                       historyBudget).indices;
    if kept == {} && history != [] then {|history| - 1} else kept
  }

  method TrimSelectedHistoryToBudget(history: seq<ChatMessage>, selected: seq<nat>, userContent: string,
                                     terms: seq<string>, historyBudget: nat, excerptBudget: nat)
      returns (r: seq<ChatMessage>)
    requires forall i :: i in selected ==> i < |history|
    ensures r == SubHistory(history, KeptIndices(history, selected, userContent, terms, historyBudget, excerptBudget))
  {
    var candidates := Candidates(history, selected, userContent, terms, excerptBudget);
    var kept := KeepGreedily(Sort(candidates, Before), historyBudget);
    if kept == {} && history != [] {
      kept := {|history| - 1};
    }
    r := SubHistory(history, kept);
  }

  /** The loop over the ranked candidates. */
  method KeepGreedily(cands: seq<Ranked>, budget: nat) returns (kept: set<nat>)
    ensures kept == Greedy(cands, budget).indices
  {
    kept := {};
    var usedChars: nat := 0;
    for i := 0 to |cands|
      invariant Kept(kept, usedChars) == Greedy(cands[..i], budget)
    {
      assert cands[..i + 1][..i] == cands[..i];
      var messageCost := cands[i].chars + MESSAGE_OVERHEAD;
      if kept == {} || usedChars + messageCost <= budget {
        kept := kept + {cands[i].idx};
        usedChars := usedChars + messageCost;
      }
    }
    assert cands[..|cands|] == cands;
  }

  lemma KeptAreSelected(history: seq<ChatMessage>, selected: seq<nat>, userContent: string, terms: seq<string>,
                        historyBudget: nat, excerptBudget: nat)
    requires forall i :: i in selected ==> i < |history|
    ensures var cands := Candidates(history, selected, userContent, terms, excerptBudget);
            forall i :: i in Greedy(Sort(cands, Before), historyBudget).indices ==> i in selected
    ensures forall i :: i in KeptIndices(history, selected, userContent, terms, historyBudget, excerptBudget) ==>
              i < |history|
  {
    var cands := Candidates(history, selected, userContent, terms, excerptBudget);
    GreedyFromCandidates(Sort(cands, Before), historyBudget);
    forall i | i in Greedy(Sort(cands, Before), historyBudget).indices ensures i in selected {
      var c :| c in Sort(cands, Before) && c.idx == i;
      SortedMembership(cands, Before, c);
    }
  }

  lemma {:induction false} GreedyFromCandidates(cands: seq<Ranked>, budget: nat)
    ensures forall i :: i in Greedy(cands, budget).indices ==> exists c :: c in cands && c.idx == i
  {
    if cands != [] {
      var init := cands[..|cands| - 1];
      GreedyFromCandidates(init, budget);
      assert cands == init + [cands[|cands| - 1]];
      forall i | i in Greedy(cands, budget).indices ensures exists c :: c in cands && c.idx == i {
        if i in Greedy(init, budget).indices {
          var c :| c in init && c.idx == i;
          assert c in cands;
        } else {
          assert cands[|cands| - 1] in cands;
        }
      }
    }
  }

  // Choosing the candidates

  /** The scored messages above zero, best first, at most ten. */
  function TopScored(history: seq<ChatMessage>, userContent: string, terms: seq<string>): seq<Ranked> {
    var positive := Positive(Sort(AllScored(history, userContent, terms), Before));
    if |positive| <= RELEVANT_LIMIT then positive else positive[..RELEVANT_LIMIT]
  }

  function AllScored(history: seq<ChatMessage>, userContent: string, terms: seq<string>): seq<Ranked> {
    seq(|history|, i requires 0 <= i < |history| => Ranked(Score(history[i], userContent, terms), i, 0))
  }

  function Positive(cands: seq<Ranked>): seq<Ranked> {
    if cands == [] then []
    else (if cands[0].score > 0 then [cands[0]] else []) + Positive(cands[1..])
  }

  /** Positions within the window around idx, clipped to the history. */
  function Neighbors(idx: nat, n: nat): set<nat> {
    Range(SaturatingSub(idx, NEIGHBOR_WINDOW), Min(idx + NEIGHBOR_WINDOW + 1, n))
  }

  function Recent(n: nat): set<nat> { Range(SaturatingSub(n, RECENT_MESSAGES), n) }

  function NeighborsOf(top: seq<Ranked>, n: nat): set<nat> {
    if top == [] then {} else NeighborsOf(top[..|top| - 1], n) + Neighbors(top[|top| - 1].idx, n)
  }

  function SelectedIndices(history: seq<ChatMessage>, userContent: string, terms: seq<string>): set<nat> {
    Recent(|history|) + NeighborsOf(TopScored(history, userContent, terms), |history|)
  }

  /** What select_relevant_history keeps: a short history whole, a long one trimmed. */
  function RelevantIndices(history: seq<ChatMessage>, userContent: string, historyBudget: nat,
                           excerptBudget: nat): set<nat>
  {
    if |history| <= RECENT_MESSAGES + 2 then Range(0, |history|)
    else
      var terms := TermsOf(Tokens(userContent));
      KeptIndices(history, Ascending(SelectedIndices(history, userContent, terms), |history|), userContent, terms,
                  historyBudget, excerptBudget)
  }

  method SelectRelevantHistory(history: seq<ChatMessage>, userContent: string, historyBudget: nat, excerptBudget: nat)
      returns (r: seq<ChatMessage>)
    ensures r == SubHistory(history, RelevantIndices(history, userContent, historyBudget, excerptBudget))
  {
    if |history| <= RECENT_MESSAGES + 2 {
      WholeHistory(history);
      return history;
    }
    var terms := RetrievalTerms(userContent);
    var selected := Recent(|history|);
    var top := TopScored(history, userContent, terms);
    for i := 0 to |top|
      invariant selected == Recent(|history|) + NeighborsOf(top[..i], |history|)
    {
      assert top[..i + 1][..i] == top[..i];
      selected := selected + Neighbors(top[i].idx, |history|);
    }
    assert top[..|top|] == top;
    r := TrimSelectedHistoryToBudget(history, Ascending(selected, |history|), userContent, terms, historyBudget,
                                     excerptBudget);
  }

  lemma WholeHistory(history: seq<ChatMessage>)
    ensures SubHistory(history, Range(0, |history|)) == history
  {
    AscendingAll(Range(0, |history|), |history|);
  }

  lemma {:induction false} AscendingAll(s: set<nat>, n: nat)
    requires forall i: nat :: i < n ==> i in s
    ensures |Ascending(s, n)| == n && forall j :: 0 <= j < n ==> Ascending(s, n)[j] == j
  {
    if n > 0 { AscendingAll(s, n - 1); }
  }

  // What is chosen

  lemma {:induction false} PositiveMeans(cands: seq<Ranked>)
    requires SortedBy(cands, Before)
    ensures SortedBy(Positive(cands), Before)
    ensures forall c :: c in Positive(cands) <==> c in cands && c.score > 0
  {
    if cands != [] {
      var rest := Positive(cands[1..]);
      PositiveMeans(cands[1..]);
      assert cands == [cands[0]] + cands[1..];
      forall j | 0 <= j < |rest| ensures Before(cands[0], rest[j]) {
        assert rest[j] in rest;
        var k :| 0 <= k < |cands[1..]| && cands[1..][k] == rest[j];
        assert cands[k + 1] == rest[j];
      }
    }
  }

  /** The scored messages are at most ten with a positive score, and one left out ranks behind all ten. */
  lemma TopScoredMeans(history: seq<ChatMessage>, userContent: string, terms: seq<string>, i: nat)
    requires i < |history| && Score(history[i], userContent, terms) > 0
    ensures var top := TopScored(history, userContent, terms);
            var self := Ranked(Score(history[i], userContent, terms), i, 0);
            && |top| <= RELEVANT_LIMIT
            && (forall t :: t in top ==> t in AllScored(history, userContent, terms) && t.score > 0)
            && (self !in top ==> |top| == RELEVANT_LIMIT && forall t :: t in top ==> Before(t, self))
  {
    var all := AllScored(history, userContent, terms);
    var positive, self := Positive(Sort(all, Before)), all[i];
    PositiveScored(all);
    assert self in positive;
    PrefixLeads(positive, TopScored(history, userContent, terms), self);
  }

  lemma PositiveScored(all: seq<Ranked>)
    ensures SortedBy(Positive(Sort(all, Before)), Before)
    ensures forall c :: c in Positive(Sort(all, Before)) <==> c in all && c.score > 0
  {
    BeforeIsTotal();
    SortSorts(all, Before);
    PositiveMeans(Sort(all, Before));
    forall c ensures c in Sort(all, Before) <==> c in all { SortedMembership(all, Before, c); }
  }

  lemma PrefixLeads(positive: seq<Ranked>, top: seq<Ranked>, self: Ranked)
    requires SortedBy(positive, Before) && self in positive
    requires top == if |positive| <= RELEVANT_LIMIT then positive else positive[..RELEVANT_LIMIT]
    ensures forall t :: t in top ==> t in positive && (self !in top ==> Before(t, self))
    ensures self !in top ==> |top| == RELEVANT_LIMIT
  {
    var k :| 0 <= k < |positive| && positive[k] == self;
    forall t | t in top ensures t in positive && (self !in top ==> Before(t, self)) {
      var j :| 0 <= j < |top| && top[j] == t;
      assert positive[j] == t;
      assert self !in top ==> j < k;
    }
  }

  predicate Near(t: Ranked, i: nat) { t.idx - 1 <= i <= t.idx + 1 }

  lemma {:induction false} NeighborsMean(top: seq<Ranked>, n: nat, i: nat)
    ensures i in NeighborsOf(top, n) <==> i < n && exists t :: t in top && Near(t, i)
  {
    if top != [] {
      var init, last := top[..|top| - 1], top[|top| - 1];
      NeighborsMean(init, n, i);
      assert (exists t :: t in top && Near(t, i)) <==> (exists t :: t in init && Near(t, i)) || Near(last, i) by {
        assert top == init + [last];
      }
      assert i in Neighbors(last.idx, n) <==> i < n && Near(last, i);
    }
  }

  /** A message is a candidate exactly when it is one of the last six or next to a scored one. */
  lemma SelectionMeans(history: seq<ChatMessage>, userContent: string, terms: seq<string>, i: nat)
    ensures i in SelectedIndices(history, userContent, terms) <==>
            i < |history| && (i + 6 >= |history|
                              || exists t :: t in TopScored(history, userContent, terms) && Near(t, i))
  {
    NeighborsMean(TopScored(history, userContent, terms), |history|, i);
  }

  // Main results

  /** The weights of the kept positions among the first n, added up. */
  function SumOf(weights: seq<nat>, kept: set<nat>, n: nat): nat
    requires n <= |weights|
  {
    if n == 0 then 0 else SumOf(weights, kept, n - 1) + if n - 1 in kept then weights[n - 1] else 0
  }

  lemma {:induction false} SumAdd(weights: seq<nat>, kept: set<nat>, n: nat, i: nat)
    requires n <= |weights| && i !in kept && i < |weights|
    ensures SumOf(weights, kept + {i}, n) == SumOf(weights, kept, n) + if i < n then weights[i] else 0
  {
    if n > 0 { SumAdd(weights, kept, n - 1, i); }
  }

  lemma {:induction false} SumBound(weights: seq<nat>, kept: set<nat>, n: nat, each: nat)
    requires n <= |weights| && forall i :: 0 <= i < |weights| ==> weights[i] <= each
    ensures SumOf(weights, kept, n) <= n * each
  {
    if n > 0 {
      SumBound(weights, kept, n - 1, each);
      assert n * each == (n - 1) * each + each;
    }
  }

  lemma {:induction false} SumEmpty(weights: seq<nat>, n: nat)
    requires n <= |weights|
    ensures SumOf(weights, {}, n) == 0
  {
    if n > 0 { SumEmpty(weights, n - 1); }
  }

  function Costs(history: seq<ChatMessage>, terms: seq<string>, excerptBudget: nat): seq<nat> {
    seq(|history|, i requires 0 <= i < |history| => MessageCost(history[i], terms, excerptBudget))
  }

  /** Total cost of the kept messages. */
  function TotalCost(history: seq<ChatMessage>, kept: set<nat>, terms: seq<string>, excerptBudget: nat): nat {
    SumOf(Costs(history, terms, excerptBudget), kept, |history|)
  }

  function MessageCost(msg: ChatMessage, terms: seq<string>, excerptBudget: nat): nat {
    |Compacted(msg.content, terms, excerptBudget)| + MESSAGE_OVERHEAD
  }

  /** Candidates that describe distinct messages of the history by their true cost. */
  ghost predicate Describes(cands: seq<Ranked>, history: seq<ChatMessage>, terms: seq<string>, excerptBudget: nat) {
    && (forall j :: 0 <= j < |cands| ==>
          cands[j].idx < |history| && Cost(cands[j]) == MessageCost(history[cands[j].idx], terms, excerptBudget))
    && (forall j, k :: 0 <= j < k < |cands| ==> cands[j].idx != cands[k].idx)
  }

  lemma {:induction false} GreedyCost(cands: seq<Ranked>, budget: nat, history: seq<ChatMessage>, terms: seq<string>,
                                      excerptBudget: nat)
    requires Describes(cands, history, terms, excerptBudget)
    ensures Greedy(cands, budget).used
            == TotalCost(history, Greedy(cands, budget).indices, terms, excerptBudget)
  {
    if cands == [] {
      SumEmpty(Costs(history, terms, excerptBudget), |history|);
    } else {
      var init, c := cands[..|cands| - 1], cands[|cands| - 1];
      GreedyCost(init, budget, history, terms, excerptBudget);
      GreedyFromCandidates(init, budget);
      SumAdd(Costs(history, terms, excerptBudget), Greedy(init, budget).indices, |history|, c.idx);
    }
  }

  /** The greedy walk keeps its first candidate, is over budget only with that one, and is maximal. */
  lemma {:induction false} GreedyIsMaximal(cands: seq<Ranked>, budget: nat)
    ensures var k := Greedy(cands, budget);
            && (k.indices == {} <==> cands == [])
            && (cands != [] ==> cands[0].idx in k.indices && (k.used <= budget || k.indices == {cands[0].idx}))
            && (forall j :: 0 <= j < |cands| && cands[j].idx !in k.indices ==> k.used + Cost(cands[j]) > budget)
  {
    if cands != [] {
      var init := cands[..|cands| - 1];
      GreedyIsMaximal(init, budget);
      assert forall j :: 0 <= j < |init| ==> cands[j] == init[j];
    }
  }

  /** The candidate the trimming ranks first. */
  ghost predicate TopPriority(history: seq<ChatMessage>, selected: seq<nat>, userContent: string, terms: seq<string>,
                              top: nat)
    requires forall i :: i in selected ==> i < |history|
  {
    top in selected && forall i :: i in selected ==>
      var p, q := Priority(history, top, userContent, terms), Priority(history, i, userContent, terms);
      p > q || (p == q && top >= i)
  }

  lemma SortedDescribes(history: seq<ChatMessage>, selected: seq<nat>, userContent: string, terms: seq<string>,
                        excerptBudget: nat)
    requires Increasing(selected) && forall i :: i in selected ==> i < |history|
    ensures var sorted := Sort(Candidates(history, selected, userContent, terms, excerptBudget), Before);
            && Describes(sorted, history, terms, excerptBudget) && |sorted| == |selected|
            && (forall i :: i in selected ==> RankedAt(history, i, userContent, terms, excerptBudget) in sorted)
            && (forall c :: c in sorted ==>
                  c.idx in selected && c == RankedAt(history, c.idx, userContent, terms, excerptBudget))
  {
    var cands := Candidates(history, selected, userContent, terms, excerptBudget);
    var sorted := Sort(cands, Before);
    SortKeepsElements(cands, Before);
    SortStaysDistinct(cands);
    forall c
      ensures c in sorted <==> c.idx in selected && c == RankedAt(history, c.idx, userContent, terms, excerptBudget)
    {
      SortedMembership(cands, Before, c);
      CandidatesAre(history, selected, userContent, terms, excerptBudget, c);
    }
    assert forall j :: 0 <= j < |sorted| ==> sorted[j] in sorted;
  }

  lemma CandidatesAre(history: seq<ChatMessage>, selected: seq<nat>, userContent: string, terms: seq<string>,
                      excerptBudget: nat, c: Ranked)
    requires forall i :: i in selected ==> i < |history|
    ensures c in Candidates(history, selected, userContent, terms, excerptBudget)
            <==> c.idx in selected && c == RankedAt(history, c.idx, userContent, terms, excerptBudget)
  {
    var cands := Candidates(history, selected, userContent, terms, excerptBudget);
    if c.idx in selected {
      var j :| 0 <= j < |selected| && selected[j] == c.idx;
      assert cands[j] in cands;
    }
    if c in cands {
      var j :| 0 <= j < |cands| && cands[j] == c;
    }
  }

  ghost predicate DistinctIndices(cands: seq<Ranked>) {
    forall j, k :: 0 <= j < k < |cands| ==> cands[j].idx != cands[k].idx
  }

  lemma {:induction false} InsertStaysDistinct(c: Ranked, cands: seq<Ranked>)
    requires DistinctIndices(cands) && forall d :: d in cands ==> d.idx != c.idx
    ensures DistinctIndices(Insert(c, cands, Before))
  {
    if cands != [] && !Before(c, cands[0]) {
      var rest := Insert(c, cands[1..], Before);
      InsertStaysDistinct(c, cands[1..]);
      InsertKeepsElements(c, cands[1..], Before);
      forall k | 0 <= k < |rest| ensures rest[k].idx != cands[0].idx {
        assert rest[k] in multiset(rest);
        assert rest[k] == c || rest[k] in cands[1..];
      }
    } else {
      forall k | 0 <= k < |cands| ensures cands[k].idx != c.idx { assert cands[k] in cands; }
    }
  }

  lemma {:induction false} SortStaysDistinct(cands: seq<Ranked>)
    requires DistinctIndices(cands)
    ensures DistinctIndices(Sort(cands, Before))
  {
    if cands != [] {
      SortStaysDistinct(cands[1..]);
      forall d | d in Sort(cands[1..], Before) ensures d.idx != cands[0].idx {
        SortedMembership(cands[1..], Before, d);
      }
      InsertStaysDistinct(cands[0], Sort(cands[1..], Before));
    }
  }

  /**
   Trimming keeps only selected messages, always the top-ranked one; it exceeds the budget only
   when that one alone does; and every message it drops would have overflowed the final total.
   */
  lemma TrimmingMeans(history: seq<ChatMessage>, selected: seq<nat>, userContent: string, terms: seq<string>,
                      historyBudget: nat, excerptBudget: nat) returns (top: nat)
    requires selected != [] && Increasing(selected) && forall i :: i in selected ==> i < |history|
    ensures TopPriority(history, selected, userContent, terms, top)
    ensures var kept := KeptIndices(history, selected, userContent, terms, historyBudget, excerptBudget);
            var total := TotalCost(history, kept, terms, excerptBudget);
            && top in kept && (forall i :: i in kept ==> i in selected)
            && (total <= historyBudget || kept == {top})
            && (forall i :: i in selected && i !in kept ==>
                  total + MessageCost(history[i], terms, excerptBudget) > historyBudget)
  {
    var sorted := Sort(Candidates(history, selected, userContent, terms, excerptBudget), Before);
    SortedDescribes(history, selected, userContent, terms, excerptBudget);
    BeforeIsTotal();
    SortSorts(Candidates(history, selected, userContent, terms, excerptBudget), Before);
    GreedyCost(sorted, historyBudget, history, terms, excerptBudget);
    GreedyIsMaximal(sorted, historyBudget);
    KeptAreSelected(history, selected, userContent, terms, historyBudget, excerptBudget);
    top := sorted[0].idx;
    assert sorted[0] in sorted;
    forall i | i in selected
      ensures Before(sorted[0], RankedAt(history, i, userContent, terms, excerptBudget))
      ensures exists j :: 0 <= j < |sorted| && sorted[j] == RankedAt(history, i, userContent, terms, excerptBudget)
    {
      var j :| 0 <= j < |sorted| && sorted[j] == RankedAt(history, i, userContent, terms, excerptBudget);
    }
  }
}
