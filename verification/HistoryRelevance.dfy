/** What a match with the query is worth, from the score of one message to the selection from a long history. */
module HistoryRelevance {
  import opened Basics
  import opened Text
  import opened Sorting
  import opened Retrieval
  import opened History
  import Excerpt

  ghost predicate Occurs(text: string, part: string) { exists k :: OccursAt(text, part, k) }

  lemma ContainsMeans(text: string, part: string)
    ensures Contains(text, part) <==> Occurs(text, part)
  {
    FindMeans(text, part);
  }

  // The score of one message

  /** The query's terms that the message mentions. */
  ghost function Matched(msg: ChatMessage, userContent: string): set<string> {
    set t | t in TermsOf(Tokens(userContent)) && Occurs(Retrieval.Normalized(msg.content), t)
  }

  lemma {:induction false} OverlapCounts(normalized: string, terms: seq<string>)
    requires forall i, j :: 0 <= i < j < |terms| ==> terms[i] != terms[j]
    ensures Overlap(normalized, terms) == |set t | t in terms && Occurs(normalized, t)|
  {
    if terms == [] {
      assert (set t | t in terms && Occurs(normalized, t)) == {};
    } else {
      OverlapCounts(normalized, terms[1..]);
      ContainsMeans(normalized, terms[0]);
      OneMoreTerm(normalized, terms[0], terms[1..]);
      assert terms == [terms[0]] + terms[1..];
    }
  }

  lemma OneMoreTerm(normalized: string, term: string, rest: seq<string>)
    requires term !in rest
    ensures |set t | t in [term] + rest && Occurs(normalized, t)|
         == |set t | t in rest && Occurs(normalized, t)| + if Occurs(normalized, term) then 1 else 0
  {
    var found := set t | t in rest && Occurs(normalized, t);
    assert (set t | t in [term] + rest && Occurs(normalized, t))
        == found + if Occurs(normalized, term) then {term} else {};
  }

  predicate IsOperator(msg: ChatMessage) { msg.role == "operator" }

  ghost predicate SaysQuery(msg: ChatMessage, userContent: string) {
    var query := Retrieval.Normalized(userContent);
    query != "" && Occurs(Retrieval.Normalized(msg.content), query)
  }

  ghost predicate StatesFact(msg: ChatMessage) {
    IsOperator(msg) && exists p :: p in FACT_PATTERNS && Occurs(Retrieval.Normalized(msg.content), p)
  }

  ghost predicate SaysRemember(msg: ChatMessage) { Occurs(Retrieval.Normalized(msg.content), "remember") }

  predicate Wordless(msg: ChatMessage) { Tokens(msg.content) == [] }

  ghost function Extras(msg: ChatMessage, userContent: string): int {
    (if SaysQuery(msg, userContent) then 80 else 0) + (if IsOperator(msg) then 6 else 0)
    + (if StatesFact(msg) then 14 else 0) + (if SaysRemember(msg) then 4 else 0)
  }

  lemma WordlessIsEmpty(msg: ChatMessage)
    ensures Retrieval.Normalized(msg.content) == "" <==> Wordless(msg)
  {
    TokensAreTokens(msg.content);
    var ts := Tokens(msg.content);
    if ts != [] { assert Token(ts[0]); }
  }

  lemma FactMeans(msg: ChatMessage)
    ensures LooksLikeUserFact(msg) <==> StatesFact(msg)
  {
    forall p | p in FACT_PATTERNS ensures Contains(Retrieval.Normalized(msg.content), p)
                                          <==> Occurs(Retrieval.Normalized(msg.content), p) {
      ContainsMeans(Retrieval.Normalized(msg.content), p);
    }
  }

  /** A message with any word scores 18 for every term of the query it mentions, and its extras. */
  lemma ScoreMeans(msg: ChatMessage, userContent: string)
    ensures Score(msg, userContent, TermsOf(Tokens(userContent)))
         == if Wordless(msg) then 0 else 18 * |Matched(msg, userContent)| + Extras(msg, userContent)
    ensures Wordless(msg) ==> Matched(msg, userContent) == {}
  {
    var terms, content := TermsOf(Tokens(userContent)), Retrieval.Normalized(msg.content);
    WordlessIsEmpty(msg);
    TermsMean(Tokens(userContent));
    OverlapCounts(content, terms);
    assert Matched(msg, userContent) == set t | t in terms && Occurs(content, t);
    ContainsMeans(content, Retrieval.Normalized(userContent));
    ContainsMeans(content, "remember");
    FactMeans(msg);
    if Wordless(msg) {
      forall t | t in terms ensures !Occurs(content, t) { assert |t| >= MIN_TERM_LENGTH; }
    }
  }

  /** Messages that differ in nothing but the terms they mention. */
  ghost predicate Alike(a: ChatMessage, b: ChatMessage, userContent: string) {
    && (SaysQuery(a, userContent) <==> SaysQuery(b, userContent)) && (IsOperator(a) <==> IsOperator(b))
    && (StatesFact(a) <==> StatesFact(b)) && (SaysRemember(a) <==> SaysRemember(b))
    && (Wordless(a) <==> Wordless(b))
  }

  /** Among alike messages only the number of matched terms counts; six more of them outweigh everything else. */
  lemma MatchesDecide(a: ChatMessage, b: ChatMessage, userContent: string)
    ensures var terms := TermsOf(Tokens(userContent));
            var x, y := Score(a, userContent, terms), Score(b, userContent, terms);
            && x >= 18 * |Matched(a, userContent)|
            && (Alike(a, b, userContent) && !Wordless(a) ==>
                  x - y == 18 * (|Matched(a, userContent)| - |Matched(b, userContent)|))
            && (|Matched(a, userContent)| >= |Matched(b, userContent)| + 6 ==> x > y)
  {
    ScoreMeans(a, userContent);
    ScoreMeans(b, userContent);
  }

  // The selection from a long history

  lemma TopIsDistinct(history: seq<ChatMessage>, userContent: string, terms: seq<string>)
    ensures DistinctIndices(TopScored(history, userContent, terms))
  {
    var all := AllScored(history, userContent, terms);
    SortStaysDistinct(all);
    PositiveStaysDistinct(Sort(all, Before));
  }

  lemma {:induction false} PositiveStaysDistinct(cands: seq<Ranked>)
    requires DistinctIndices(cands)
    ensures DistinctIndices(Positive(cands)) && forall c :: c in Positive(cands) ==> c in cands
  {
    if cands != [] {
      var rest := Positive(cands[1..]);
      PositiveStaysDistinct(cands[1..]);
      forall k | 0 <= k < |rest| ensures rest[k].idx != cands[0].idx { assert rest[k] in cands[1..]; }
    }
  }

  ghost function IndicesOf(cands: seq<Ranked>): set<nat> { set c | c in cands :: c.idx }

  lemma IndicesSnoc(cands: seq<Ranked>, last: Ranked)
    ensures IndicesOf(cands + [last]) == IndicesOf(cands) + {last.idx}
  {
    var all := cands + [last];
    assert forall c :: c in all <==> c in cands || c == last;
    assert IndicesOf(all) <= IndicesOf(cands) + {last.idx};
    forall i | i in IndicesOf(cands) ensures i in IndicesOf(all) {
      var c :| c in cands && c.idx == i;
      assert c in all;
    }
    assert last in all;
  }

  lemma NewIndex(cands: seq<Ranked>, last: Ranked)
    requires DistinctIndices(cands + [last])
    ensures DistinctIndices(cands) && last.idx !in IndicesOf(cands)
  {
    var all := cands + [last];
    assert forall j :: 0 <= j < |cands| ==> all[j] == cands[j];
    forall c | c in cands ensures c.idx != last.idx {
      var j :| 0 <= j < |cands| && cands[j] == c;
      assert all[j].idx != all[|cands|].idx;
    }
  }

  lemma {:induction false} AsManyIndices(cands: seq<Ranked>)
    requires DistinctIndices(cands)
    ensures |IndicesOf(cands)| == |cands|
  {
    if cands == [] {
      assert IndicesOf(cands) == {};
    } else {
      var init, last := cands[..|cands| - 1], cands[|cands| - 1];
      assert cands == init + [last];
      NewIndex(init, last);
      AsManyIndices(init);
      IndicesSnoc(init, last);
    }
  }

  /** Message j ranks before message i in the search for candidates. */
  ghost predicate Outranks(history: seq<ChatMessage>, userContent: string, j: nat, i: nat) {
    && j < |history| && i < |history|
    && var terms := TermsOf(Tokens(userContent));
       var x, y := Score(history[j], userContent, terms), Score(history[i], userContent, terms);
       x > y || (x == y && j > i)
  }

  /**
   A message that mentions a term of the query is a candidate, however old it is, unless ten others outrank it.
   Each of those mentions at most five terms fewer, and if it is alike otherwise, not one fewer.
   */
  lemma MatchIsCandidate(history: seq<ChatMessage>, userContent: string, i: nat) returns (rivals: set<nat>)
    requires i < |history| && Matched(history[i], userContent) != {}
    ensures i in SelectedIndices(history, userContent, TermsOf(Tokens(userContent))) || |rivals| == 10
    ensures forall j :: j in rivals ==>
              && j != i && Outranks(history, userContent, j, i)
              && |Matched(history[j], userContent)| + 6 > |Matched(history[i], userContent)|
              && (Alike(history[i], history[j], userContent) ==>
                    |Matched(history[j], userContent)| >= |Matched(history[i], userContent)|)
  {
    var terms := TermsOf(Tokens(userContent));
    var top, self := TopScored(history, userContent, terms), Ranked(Score(history[i], userContent, terms), i, 0);
    ScoreMeans(history[i], userContent);
    TopScoredMeans(history, userContent, terms, i);
    rivals := {};
    if self in top {
      SelectionMeans(history, userContent, terms, i);
      assert Near(self, i);
    } else {
      rivals := IndicesOf(top);
      TopIsDistinct(history, userContent, terms);
      AsManyIndices(top);
      forall j | j in rivals
        ensures j != i && Outranks(history, userContent, j, i)
        ensures |Matched(history[j], userContent)| + 6 > |Matched(history[i], userContent)|
        ensures Alike(history[i], history[j], userContent) ==>
                  |Matched(history[j], userContent)| >= |Matched(history[i], userContent)|
      {
        var t :| t in top && t.idx == j;
        assert t in AllScored(history, userContent, terms) && Before(t, self);
        MatchesDecide(history[i], history[j], userContent);
      }
    }
  }

  // The order in which the trimming keeps the candidates

  /** The rank in the trimming: the score, 1000 for the last six messages, and 25 for the operator's. */
  lemma PriorityMeans(history: seq<ChatMessage>, i: nat, userContent: string)
    requires i < |history|
    ensures Priority(history, i, userContent, TermsOf(Tokens(userContent)))
         == (if Wordless(history[i]) then 0
             else 18 * |Matched(history[i], userContent)| + Extras(history[i], userContent))
            + (if i + 6 >= |history| then 1_000 else 0) + (if IsOperator(history[i]) then 25 else 0)
  {
    ScoreMeans(history[i], userContent);
  }

  /** One of the last six goes before any older message, unless that one mentions 49 terms of the query. */
  lemma RecentGoFirst(history: seq<ChatMessage>, i: nat, j: nat, userContent: string)
    requires i < |history| && j < |history| && j + 6 < |history| <= i + 6
    requires |Matched(history[j], userContent)| <= 48
    ensures var terms := TermsOf(Tokens(userContent));
            Priority(history, i, userContent, terms) > Priority(history, j, userContent, terms)
  {
    PriorityMeans(history, i, userContent);
    PriorityMeans(history, j, userContent);
  }

  // What a prompt gets to see of a history

  lemma ShortHistoryIsWhole(history: seq<ChatMessage>, userContent: string, b: nat, e: nat)
    requires |history| <= 8
    ensures SubHistory(history, RelevantIndices(history, userContent, b, e)) == history
  {
    WholeHistory(history);
  }

  /** What is kept of the chosen messages, by what they cost. */
  ghost predicate CutTo(history: seq<ChatMessage>, chosen: set<nat>, kept: set<nat>, terms: seq<string>, b: nat, e: nat)
  {
    var total := TotalCost(history, kept, terms, e);
    && kept != {} && kept <= chosen && (total <= b || exists i :: kept == {i})
    && forall i :: i in chosen && i < |history| && i !in kept ==> total + MessageCost(history[i], terms, e) > b
  }

  /**
   A history of more than eight messages is cut to candidates, never to nothing. They cost no more than the budget,
   unless there is just one; and every candidate that is left out would have cost more than what remains.
   */
  lemma LongHistoryIsCut(history: seq<ChatMessage>, userContent: string, b: nat, e: nat)
    requires |history| > 8
    ensures var terms := TermsOf(Tokens(userContent));
            CutTo(history, SelectedIndices(history, userContent, terms), RelevantIndices(history, userContent, b, e),
                  terms, b, e)
  {
    var terms := TermsOf(Tokens(userContent));
    var chosen := SelectedIndices(history, userContent, terms);
    SelectionMeans(history, userContent, terms, |history| - 1);
    CutIsTrimming(history, chosen, userContent, terms, b, e);
  }

  lemma CutIsTrimming(history: seq<ChatMessage>, chosen: set<nat>, userContent: string, terms: seq<string>, b: nat,
                      e: nat)
    requires history != [] && |history| - 1 in chosen
    ensures var selected := Ascending(chosen, |history|);
            CutTo(history, chosen, KeptIndices(history, selected, userContent, terms, b, e), terms, b, e)
  {
    AscendingMeans(chosen, |history|);
    var selected := Ascending(chosen, |history|);
    assert |history| - 1 in selected;
    var top := TrimmingMeans(history, selected, userContent, terms, b, e);
  }

  /** A message costs its excerpt and 24 more. */
  lemma MessageCostMeans(msg: ChatMessage, terms: seq<string>, e: nat)
    ensures MessageCost(msg, terms, e) == |Excerpt.Compacted(msg.content, terms, e)| + 24
  {
  }
}
