/** Asking the provider, with halved budgets after every context overflow. */
module Reply {
  import opened Basics
  import opened Text
  import opened Retrieval
  import opened Excerpt
  import opened History
  import opened Prompt

  datatype Answer = Completed(text: string) | ContextOverflow(error: string) | Failed(error: string)

  /** What the provider says to the n-th call; it may answer the same prompt differently each time. */
  type Provider = (nat, seq<Message>) -> Answer

  datatype Outcome = Outcome(answer: Answer, calls: nat)

  function Halved(b: Budgets): Budgets {
    Budgets(
      Max(b.history / 2, MINIMUM.history), Max(b.excerpt / 2, MINIMUM.excerpt), Max(b.assistant / 2, MINIMUM.assistant))
  }

  predicate AtLeastMinimum(b: Budgets) {
    b.history >= MINIMUM.history && b.excerpt >= MINIMUM.excerpt && b.assistant >= MINIMUM.assistant
  }

  function Total(b: Budgets): nat { b.history + b.excerpt + b.assistant }

  /** The budgets of the k-th attempt. */
  function BudgetsAt(k: nat): Budgets { if k == 0 then INITIAL else Halved(BudgetsAt(k - 1)) }

  /** A retry stays above the minima and takes strictly less in total, unless nothing is left to take. */
  lemma RetryShrinks(b: Budgets)
    requires AtLeastMinimum(b)
    ensures AtLeastMinimum(Halved(b))
    ensures Halved(b) == b || Total(Halved(b)) < Total(b)
  {
  }

  lemma {:induction false} FourAttempts(k: nat)
    ensures BudgetsAt(k) == match k
                            case 0 => Budgets(18_000, 1_200, 2_400)
                            case 1 => Budgets(9_000, 600, 1_200)
                            case 2 => Budgets(4_500, 300, 600)
                            case _ => Budgets(3_000, 300, 600)
  {
    if k > 0 { FourAttempts(k - 1); }
  }

  lemma NextAttempt(k: nat)
    requires k <= 3
    ensures Halved(BudgetsAt(k)) == BudgetsAt(k + 1) && AtLeastMinimum(BudgetsAt(k))
    ensures BudgetsAt(k + 1) == BudgetsAt(k) <==> k == 3
    ensures k < 3 ==> Total(BudgetsAt(k + 1)) < Total(BudgetsAt(k))
  {
    FourAttempts(k);
    FourAttempts(k + 1);
  }

  /** What the provider answers at the k-th attempt, given how a prompt is built from budgets. */
  function Ask(provider: Provider, build: Budgets -> seq<Message>, k: nat): Answer { provider(k, build(BudgetsAt(k))) }

  /** r is the first answer that is no overflow, among at most four attempts. */
  ghost predicate FirstFitting(r: Outcome, provider: Provider, build: Budgets -> seq<Message>) {
    && 1 <= r.calls <= 4 && r.answer == Ask(provider, build, r.calls - 1)
    && (forall k: nat :: k < r.calls - 1 ==> Ask(provider, build, k).ContextOverflow?)
    && (r.answer.ContextOverflow? ==> r.calls == 4)
  }

  /** build gives the thread's prompt for every choice of budgets. */
  ghost predicate Builds(build: Budgets -> seq<Message>, agentPrompt: string, prior: seq<ChatMessage>,
                         userContent: string)
  {
    forall b {:trigger PromptFor(agentPrompt, prior, userContent, b)} ::
      build(b) == PromptFor(agentPrompt, prior, userContent, b)
  }

  /** One attempt: assemble the prompt within the budgets and ask. */
  method Attempt(agentPrompt: string, prior: seq<ChatMessage>, userContent: string, provider: Provider, calls: nat,
                 b: Budgets, ghost build: Budgets -> seq<Message>)
      returns (answer: Answer)
    requires b == BudgetsAt(calls) && Builds(build, agentPrompt, prior, userContent)
    ensures answer == Ask(provider, build, calls)
  {
    var terms := RetrievalTerms(userContent);
    var messages := AssemblePrompt(agentPrompt, prior, userContent, terms, b);
    answer := provider(calls, messages);
  }

  /** The retry loop: ask, and halve the budgets on overflow until nothing is left to halve. */
  method RetryWithSmallerBudgets(agentPrompt: string, prior: seq<ChatMessage>, userContent: string, provider: Provider,
                                 ghost build: Budgets -> seq<Message>)
      returns (r: Outcome)
    requires Builds(build, agentPrompt, prior, userContent)
    ensures FirstFitting(r, provider, build)
  {
    var budgets := INITIAL;
    var calls: nat := 0;
    while true
      invariant calls <= 3 && budgets == BudgetsAt(calls)
      invariant forall k: nat :: k < calls ==> Ask(provider, build, k).ContextOverflow?
      decreases Total(budgets)
    {
      NextAttempt(calls);
      var answer := Attempt(agentPrompt, prior, userContent, provider, calls, budgets, build);
      calls := calls + 1;
      if !answer.ContextOverflow? { return Outcome(answer, calls); }
      var next := Halved(budgets);
      if next == budgets { return Outcome(answer, calls); }
      budgets := next;
    }
  }

  /** complete_agent_reply_for_thread: the last message of the history is the one being answered. */
  method CompleteAgentReply(agentPrompt: string, history: seq<ChatMessage>, userContent: string, provider: Provider)
      returns (r: Outcome)
    ensures forall older, asked :: history == older + [asked] ==>
              FirstFitting(r, provider, b => PromptFor(agentPrompt, older, userContent, b))
    ensures history == [] ==> FirstFitting(r, provider, b => PromptFor(agentPrompt, [], userContent, b))
  {
    var prior := history[..SaturatingSub(|history|, 1)];
    ghost var build := (b: Budgets) => PromptFor(agentPrompt, prior, userContent, b);
    r := RetryWithSmallerBudgets(agentPrompt, prior, userContent, provider, build);
    forall older, asked | history == older + [asked]
      ensures FirstFitting(r, provider, b => PromptFor(agentPrompt, older, userContent, b))
    {
      assert older == prior;
      FittingAgrees(r, provider, build, b => PromptFor(agentPrompt, older, userContent, b));
    }
    if history == [] {
      FittingAgrees(r, provider, build, b => PromptFor(agentPrompt, [], userContent, b));
    }
  }

  lemma FittingAgrees(r: Outcome, provider: Provider, build: Budgets -> seq<Message>, other: Budgets -> seq<Message>)
    requires FirstFitting(r, provider, build) && forall b :: other(b) == build(b)
    ensures FirstFitting(r, provider, other)
  {
    forall k: nat ensures Ask(provider, other, k) == Ask(provider, build, k) {
      assert other(BudgetsAt(k)) == build(BudgetsAt(k));
    }
  }

  // Budgets hold

  lemma CostBound(history: seq<ChatMessage>, kept: set<nat>, terms: seq<string>, excerptBudget: nat)
    ensures TotalCost(history, kept, terms, excerptBudget) <= |history| * (excerptBudget + 6 + MESSAGE_OVERHEAD)
  {
    var costs := Costs(history, terms, excerptBudget);
    forall i | 0 <= i < |costs| ensures costs[i] <= excerptBudget + 6 + MESSAGE_OVERHEAD {
      CompactedLength(history[i].content, terms, excerptBudget);
    }
    SumBound(costs, kept, |history|, excerptBudget + 6 + MESSAGE_OVERHEAD);
  }

  lemma SingleCost(history: seq<ChatMessage>, top: nat, terms: seq<string>, excerptBudget: nat)
    requires top < |history|
    ensures TotalCost(history, {top}, terms, excerptBudget) == MessageCost(history[top], terms, excerptBudget)
  {
    var costs := Costs(history, terms, excerptBudget);
    SumEmpty(costs, |history|);
    SumAdd(costs, {}, |history|, top);
    assert {} + {top} == {top};
  }

  predicate Roomy(b: Budgets) {
    (RECENT_MESSAGES + 2) * (b.excerpt + 6 + MESSAGE_OVERHEAD) <= b.history
  }

  lemma ShortHistoryFits(history: seq<ChatMessage>, kept: set<nat>, terms: seq<string>, b: Budgets)
    requires Roomy(b) && |history| <= RECENT_MESSAGES + 2
    ensures TotalCost(history, kept, terms, b.excerpt) <= b.history
  {
    var each := b.excerpt + 6 + MESSAGE_OVERHEAD;
    CostBound(history, kept, terms, b.excerpt);
    assert |history| * each <= (RECENT_MESSAGES + 2) * each;
  }

  lemma TrimmedHistoryFits(history: seq<ChatMessage>, selected: seq<nat>, userContent: string, terms: seq<string>,
                           b: Budgets)
    requires Roomy(b) && selected != [] && Increasing(selected) && forall i :: i in selected ==> i < |history|
    ensures var kept := KeptIndices(history, selected, userContent, terms, b.history, b.excerpt);
            TotalCost(history, kept, terms, b.excerpt) <= b.history
  {
    var top := TrimmingMeans(history, selected, userContent, terms, b.history, b.excerpt);
    SingleCost(history, top, terms, b.excerpt);
    CompactedLength(history[top].content, terms, b.excerpt);
  }

  lemma SomethingSelected(history: seq<ChatMessage>, userContent: string, terms: seq<string>)
    requires history != []
    ensures var selected := Ascending(SelectedIndices(history, userContent, terms), |history|);
            selected != [] && Increasing(selected) && forall i :: i in selected ==> i < |history|
  {
    var chosen := SelectedIndices(history, userContent, terms);
    AscendingMeans(chosen, |history|);
    assert |history| - 1 in Recent(|history|);
    assert |history| - 1 in Ascending(chosen, |history|);
  }

  /** At every attempt, short history or long, the excerpts with their overhead fit the history budget. */
  lemma BudgetHoldsAtEveryAttempt(history: seq<ChatMessage>, userContent: string, k: nat)
    ensures var b := BudgetsAt(k);
            var kept := RelevantIndices(history, userContent, b.history, b.excerpt);
            TotalCost(history, kept, TermsOf(Tokens(userContent)), b.excerpt) <= b.history
  {
    var b, terms := BudgetsAt(k), TermsOf(Tokens(userContent));
    assert Roomy(b) by { FourAttempts(k); }
    if |history| <= RECENT_MESSAGES + 2 {
      ShortHistoryFits(history, RelevantIndices(history, userContent, b.history, b.excerpt), terms, b);
    } else {
      SomethingSelected(history, userContent, terms);
      var selected := Ascending(SelectedIndices(history, userContent, terms), |history|);
      TrimmedHistoryFits(history, selected, userContent, terms, b);
    }
  }
}
