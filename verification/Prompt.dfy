/** Building the prompt for an agent reply, and retrying with smaller budgets when it does not fit. */
module Prompt {
  import opened Basics
  import opened Text
  import opened Retrieval
  import opened Excerpt
  import opened History

  const BREAK := "\n\n"
  const PREFER_FACTS :=
    "\n\nPrefer explicit user-stated facts, previously confirmed preferences, "
    + "and concrete operator details over generic assistant prose."
  const TRIMMED_NOTE :=
    "\n\nThe conversation thread is longer than the context shown below. The supplied history has been "
    + "trimmed to the most relevant and most recent slices for the current question."
  const CONTEXT_HEADER := "\n\nConversation context from earlier assistant turns:\n"
  const DEFAULT_REQUEST := "Please respond to the latest operator message using the available conversation context."

  /** The three roles the provider distinguishes. */
  datatype Role = SYSTEM | USER | ASSISTANT

  datatype Message = Message(role: Role, content: string)

  datatype Budgets = Budgets(history: nat, excerpt: nat, assistant: nat)

  const INITIAL := Budgets(18_000, 1_200, 2_400)
  const MINIMUM := Budgets(3_000, 300, 600)

  function RoleOf(msg: ChatMessage): Role { if msg.role == OPERATOR then USER else ASSISTANT }

  function ExcerptOf(msg: ChatMessage, terms: seq<string>, excerptBudget: nat): string {
    Compacted(msg.content, terms, excerptBudget)
  }

  // Turns

  /** Consecutive excerpts of one role, before they are written as one message. */
  datatype Turn = Turn(role: Role, parts: seq<string>)

  datatype Assembly = Assembly(leading: seq<string>, turns: seq<Turn>)

  /** Assistant excerpts before the first user message stand aside; then each run of one role is one turn. */
  function Assembled(selected: seq<ChatMessage>, terms: seq<string>, excerptBudget: nat): Assembly {
    if selected == [] then Assembly([], [])
    else
      var a := Assembled(selected[..|selected| - 1], terms, excerptBudget);
      var msg := selected[|selected| - 1];
      Extended(a, RoleOf(msg), ExcerptOf(msg, terms, excerptBudget))
  }

  function Extended(a: Assembly, role: Role, part: string): Assembly {
    if a.turns == [] && role == ASSISTANT then a.(leading := a.leading + [part])
    else if a.turns != [] && a.turns[|a.turns| - 1].role == role then
      var last := a.turns[|a.turns| - 1];
      a.(turns := a.turns[..|a.turns| - 1] + [last.(parts := last.parts + [part])])
    else a.(turns := a.turns + [Turn(role, [part])])
  }

  /** Text appended to a message: a blank line goes between unless the message is still empty. */
  function Appended(content: string, part: string): string {
    if content == "" then part else content + BREAK + part
  }

  function Content(parts: seq<string>): string {
    if parts == [] then "" else Appended(Content(parts[..|parts| - 1]), parts[|parts| - 1])
  }

  function Rendered(turns: seq<Turn>): seq<Message> {
    seq(|turns|, i requires 0 <= i < |turns| => Message(turns[i].role, Content(turns[i].parts)))
  }

  function SystemText(agentPrompt: string, trimmed: bool, leading: seq<string>, terms: seq<string>,
                      assistantBudget: nat): string
  {
    agentPrompt + PREFER_FACTS + (if trimmed then TRIMMED_NOTE else "")
    + if leading == [] then "" else CONTEXT_HEADER + Compacted(Join(leading, BREAK), terms, assistantBudget)
  }

  /** The request joins the last user message, or becomes a message of its own. */
  function Closed(messages: seq<Message>, request: string): seq<Message> {
    if messages != [] && messages[|messages| - 1].role == USER then
      var last := messages[|messages| - 1];
      messages[..|messages| - 1] + [Message(USER, Appended(last.content, request))]
    else messages + [Message(USER, request)]
  }

  function PromptFor(agentPrompt: string, prior: seq<ChatMessage>, userContent: string, b: Budgets): seq<Message> {
    var terms := TermsOf(Tokens(userContent));
    var selected := SubHistory(prior, RelevantIndices(prior, userContent, b.history, b.excerpt));
    var a := Assembled(selected, terms, b.excerpt);
    var system := SystemText(agentPrompt, prior != [] && |selected| < |prior|, a.leading, terms, b.assistant);
    Closed([Message(SYSTEM, system)] + Rendered(a.turns), RequestText(userContent))
  }

  function RequestText(userContent: string): string {
    var trimmed := Trim(userContent, Whitespace);
    if trimmed == "" then DEFAULT_REQUEST else trimmed
  }

  method AssemblePrompt(agentPrompt: string, prior: seq<ChatMessage>, userContent: string, terms: seq<string>,
                        b: Budgets)
      returns (messages: seq<Message>)
    requires terms == TermsOf(Tokens(userContent))
    ensures messages == PromptFor(agentPrompt, prior, userContent, b)
  {
    var selected := SelectRelevantHistory(prior, userContent, b.history, b.excerpt);
    var leading, priorMessages := MergeTurns(selected, terms, b.excerpt);
    var system := agentPrompt + PREFER_FACTS;
    system := system + if prior != [] && |selected| < |prior| then TRIMMED_NOTE else "";
    if leading != [] {
      var context := CompactHistoryMessage(Join(leading, BREAK), terms, b.assistant);
      system := system + (CONTEXT_HEADER + context);
    } else {
      assert system + "" == system;
    }
    messages := Closed([Message(SYSTEM, system)] + priorMessages, RequestText(userContent));
  }

  /** The loop over the selected messages. */
  method MergeTurns(selected: seq<ChatMessage>, terms: seq<string>, excerptBudget: nat)
      returns (leading: seq<string>, priorMessages: seq<Message>)
    ensures var a := Assembled(selected, terms, excerptBudget);
            leading == a.leading && priorMessages == Rendered(a.turns)
  {
    leading, priorMessages := [], [];
    for i := 0 to |selected|
      invariant leading == Assembled(selected[..i], terms, excerptBudget).leading
      invariant priorMessages == Rendered(Assembled(selected[..i], terms, excerptBudget).turns)
    {
      assert selected[..i + 1][..i] == selected[..i];
      var msg := selected[i];
      var role := if msg.role == OPERATOR then USER else ASSISTANT;
      var content := CompactHistoryMessage(msg.content, terms, excerptBudget);
      ghost var a := Assembled(selected[..i], terms, excerptBudget);
      leading, priorMessages := MergeTurn(leading, priorMessages, a, role, content);
    }
    assert selected[..|selected|] == selected;
  }

  /** One turn of the loop: into the leading context, onto the last message, or a message of its own. */
  method MergeTurn(leading: seq<string>, priorMessages: seq<Message>, ghost a: Assembly, role: Role, content: string)
      returns (leading': seq<string>, priorMessages': seq<Message>)
    requires leading == a.leading && priorMessages == Rendered(a.turns)
    ensures leading' == Extended(a, role, content).leading
            && priorMessages' == Rendered(Extended(a, role, content).turns)
  {
    leading', priorMessages' := leading, priorMessages;
    RenderedStep(a, role, content);
    if priorMessages == [] && role == ASSISTANT {
      leading' := leading + [content];
    } else if priorMessages != [] && priorMessages[|priorMessages| - 1].role == role {
      var last := priorMessages[|priorMessages| - 1];
      last := last.(content := Appended(last.content, content));
      priorMessages' := priorMessages[..|priorMessages| - 1] + [last];
    } else {
      priorMessages' := priorMessages + [Message(role, content)];
    }
  }

  lemma RenderedStep(a: Assembly, role: Role, part: string)
    ensures var m, m' := Rendered(a.turns), Rendered(Extended(a, role, part).turns);
            if m == [] && role == ASSISTANT then m' == m
            else if m != [] && m[|m| - 1].role == role then
              m' == m[..|m| - 1] + [Message(role, Appended(m[|m| - 1].content, part))]
            else m' == m + [Message(role, part)]
  {
    if a.turns != [] {
      var parts := a.turns[|a.turns| - 1].parts;
      assert (parts + [part])[..|parts|] == parts;
    }
    assert [part][..0] == [] && Content([part]) == part;
  }

  // What every prompt looks like

  /** One system message, then user and assistant in strict alternation, user first and user last. */
  ghost predicate WellFormed(messages: seq<Message>) {
    && |messages| >= 2 && messages[0].role == SYSTEM
    && messages[1].role == USER && messages[|messages| - 1].role == USER
    && (forall i :: 1 <= i < |messages| ==> messages[i].role != SYSTEM)
    && (forall i, j :: 1 <= i && j == i + 1 < |messages| ==> messages[i].role != messages[j].role)
  }

  ghost predicate Alternating(turns: seq<Turn>) {
    && (turns != [] ==> turns[0].role == USER)
    && (forall i :: 0 <= i < |turns| ==> turns[i].role != SYSTEM && turns[i].parts != [])
    && (forall i :: 0 <= i < |turns| - 1 ==> turns[i].role != turns[i + 1].role)
  }

  lemma {:induction false} TurnsAlternate(selected: seq<ChatMessage>, terms: seq<string>, excerptBudget: nat)
    ensures Alternating(Assembled(selected, terms, excerptBudget).turns)
  {
    if selected != [] {
      var init, msg := selected[..|selected| - 1], selected[|selected| - 1];
      TurnsAlternate(init, terms, excerptBudget);
      ExtendedAlternates(Assembled(init, terms, excerptBudget), RoleOf(msg), ExcerptOf(msg, terms, excerptBudget));
    }
  }

  lemma ExtendedAlternates(a: Assembly, role: Role, part: string)
    requires Alternating(a.turns) && role != SYSTEM
    ensures Alternating(Extended(a, role, part).turns)
  {
  }

  lemma PromptIsWellFormed(agentPrompt: string, prior: seq<ChatMessage>, userContent: string, b: Budgets)
    ensures WellFormed(PromptFor(agentPrompt, prior, userContent, b))
  {
    var terms := TermsOf(Tokens(userContent));
    var selected := SubHistory(prior, RelevantIndices(prior, userContent, b.history, b.excerpt));
    var a := Assembled(selected, terms, b.excerpt);
    TurnsAlternate(selected, terms, b.excerpt);
    ClosedIsWellFormed(
      SystemText(agentPrompt, prior != [] && |selected| < |prior|, a.leading, terms, b.assistant), a.turns,
      RequestText(userContent));
  }

  lemma ClosedIsWellFormed(system: string, turns: seq<Turn>, request: string)
    requires Alternating(turns)
    ensures WellFormed(Closed([Message(SYSTEM, system)] + Rendered(turns), request))
  {
    var open := [Message(SYSTEM, system)] + Rendered(turns);
    assert forall i :: 1 <= i < |open| ==> open[i].role == turns[i - 1].role;
    var m := Closed(open, request);
    forall i | 1 <= i < |m| ensures m[i].role != SYSTEM {
      if i < |open| { assert turns[i - 1].role != SYSTEM; }
    }
    forall i, j | 1 <= i && j == i + 1 < |m| ensures m[i].role != m[j].role {
      if j < |open| { assert turns[i - 1].role != turns[i - 1 + 1].role; }
    }
  }

  // Every excerpt is carried over, in order

  function Parts(turns: seq<Turn>): seq<string> {
    if turns == [] then [] else Parts(turns[..|turns| - 1]) + turns[|turns| - 1].parts
  }

  /** The role under which each part is spoken. */
  function PartRoles(turns: seq<Turn>): seq<Role> {
    if turns == [] then []
    else PartRoles(turns[..|turns| - 1]) + seq(|turns[|turns| - 1].parts|, _ => turns[|turns| - 1].role)
  }

  function Excerpts(selected: seq<ChatMessage>, terms: seq<string>, excerptBudget: nat): seq<string> {
    seq(|selected|, i requires 0 <= i < |selected| => ExcerptOf(selected[i], terms, excerptBudget))
  }

  function Roles(selected: seq<ChatMessage>): seq<Role> {
    seq(|selected|, i requires 0 <= i < |selected| => RoleOf(selected[i]))
  }

  /** The leading excerpts and the turns' parts are exactly the excerpts, in order, each under its own role. */
  lemma {:induction false} NothingIsLost(selected: seq<ChatMessage>, terms: seq<string>, excerptBudget: nat)
    ensures var a := Assembled(selected, terms, excerptBudget);
            && a.leading + Parts(a.turns) == Excerpts(selected, terms, excerptBudget)
            && seq(|a.leading|, _ => ASSISTANT) + PartRoles(a.turns) == Roles(selected)
  {
    if selected != [] {
      var init, msg := selected[..|selected| - 1], selected[|selected| - 1];
      NothingIsLost(init, terms, excerptBudget);
      ExtendedParts(Assembled(init, terms, excerptBudget), RoleOf(msg), ExcerptOf(msg, terms, excerptBudget));
      ExcerptsSnoc(selected, terms, excerptBudget);
      RolesSnoc(selected);
    }
  }

  lemma ExcerptsSnoc(selected: seq<ChatMessage>, terms: seq<string>, excerptBudget: nat)
    requires selected != []
    ensures var init, msg := selected[..|selected| - 1], selected[|selected| - 1];
            Excerpts(selected, terms, excerptBudget)
            == Excerpts(init, terms, excerptBudget) + [ExcerptOf(msg, terms, excerptBudget)]
  {
    var init := selected[..|selected| - 1];
    forall i | 0 <= i < |init|
      ensures Excerpts(selected, terms, excerptBudget)[i] == Excerpts(init, terms, excerptBudget)[i]
    {
      assert selected[i] == init[i];
    }
  }

  lemma RolesSnoc(selected: seq<ChatMessage>)
    requires selected != []
    ensures Roles(selected) == Roles(selected[..|selected| - 1]) + [RoleOf(selected[|selected| - 1])]
  {
  }

  lemma ExtendedParts(a: Assembly, role: Role, part: string)
    ensures var e := Extended(a, role, part);
            && e.leading + Parts(e.turns) == a.leading + Parts(a.turns) + [part]
            && seq(|e.leading|, _ => ASSISTANT) + PartRoles(e.turns)
               == seq(|a.leading|, _ => ASSISTANT) + PartRoles(a.turns) + [role]
  {
    var e := Extended(a, role, part);
    if a.turns == [] && role == ASSISTANT {
      assert seq(|e.leading|, _ => ASSISTANT) == seq(|a.leading|, _ => ASSISTANT) + [ASSISTANT];
    } else {
      assert e.turns[..|e.turns| - 1] ==
             if a.turns != [] && a.turns[|a.turns| - 1].role == role then a.turns[..|a.turns| - 1] else a.turns;
    }
  }

  /** The parts without the empty ones in front. */
  function DropEmptyFront(parts: seq<string>): seq<string> {
    if parts == [] then []
    else
      var init, last := DropEmptyFront(parts[..|parts| - 1]), parts[|parts| - 1];
      if init == [] && last == "" then [] else init + [last]
  }

  /** A message shows its parts in order, a blank line between any two. */
  lemma {:induction false} ContentIsJoin(parts: seq<string>)
    ensures Content(parts) == Join(DropEmptyFront(parts), BREAK)
    ensures Content(parts) == "" <==> DropEmptyFront(parts) == []
    ensures DropEmptyFront(parts) != [] ==> DropEmptyFront(parts)[0] != ""
  {
    if parts != [] {
      ContentIsJoin(parts[..|parts| - 1]);
      JoinSnoc(DropEmptyFront(parts[..|parts| - 1]), parts[|parts| - 1], BREAK);
    }
  }

  // The finished prompt

  /** Closing the prompt is one more user part. */
  lemma ClosedIsOneMorePart(system: Message, a: Assembly, request: string)
    requires system.role == SYSTEM
    ensures Closed([system] + Rendered(a.turns), request) == [system] + Rendered(Extended(a, USER, request).turns)
  {
    RenderedStep(a, USER, request);
    ClosedBehind(system, Rendered(a.turns), request);
  }

  lemma ClosedBehind(system: Message, messages: seq<Message>, request: string)
    requires system.role == SYSTEM
    ensures Closed([system] + messages, request) == [system] + Closed(messages, request)
  {
    if messages != [] {
      assert ([system] + messages)[..|messages|] == [system] + messages[..|messages| - 1];
    }
  }

  /** Where the user and assistant messages begin: at the first operator message. */
  ghost predicate FirstOperator(selected: seq<ChatMessage>, n: nat) {
    && n <= |selected| && (forall i :: 0 <= i < n ==> RoleOf(selected[i]) == ASSISTANT)
    && (n < |selected| ==> RoleOf(selected[n]) == USER)
  }

  lemma {:induction false} FirstPartSpeaks(turns: seq<Turn>)
    requires turns != [] && forall i :: 0 <= i < |turns| ==> turns[i].parts != []
    ensures PartRoles(turns) != [] && PartRoles(turns)[0] == turns[0].role
  {
    if |turns| == 1 {
      assert turns[..0] == [];
    } else {
      FirstPartSpeaks(turns[..|turns| - 1]);
    }
  }

  lemma LeadingEndsAtFirstOperator(selected: seq<ChatMessage>, terms: seq<string>, excerptBudget: nat)
    ensures FirstOperator(selected, |Assembled(selected, terms, excerptBudget).leading|)
  {
    var a := Assembled(selected, terms, excerptBudget);
    NothingIsLost(selected, terms, excerptBudget);
    TurnsAlternate(selected, terms, excerptBudget);
    if a.turns != [] { FirstPartSpeaks(a.turns); }
    RolesSplit(selected, |a.leading|, PartRoles(a.turns));
  }

  lemma RolesSplit(selected: seq<ChatMessage>, n: nat, spoken: seq<Role>)
    requires seq(n, _ => ASSISTANT) + spoken == Roles(selected)
    requires spoken != [] ==> spoken[0] == USER
    ensures FirstOperator(selected, n)
  {
    var all := seq(n, _ => ASSISTANT) + spoken;
    assert |all| == |selected|;
    forall i | 0 <= i < n ensures RoleOf(selected[i]) == ASSISTANT { assert all[i] == ASSISTANT; }
    if n < |selected| { assert all[n] == spoken[0]; }
  }

  /** The excerpts and the request, as the finished prompt holds them. */
  ghost predicate Shows(messages: seq<Message>, turns: seq<Turn>, excerpts: seq<string>, roles: seq<Role>,
                        request: string)
  {
    && |messages| == |turns| + 1
    && (forall i :: 0 <= i < |turns| ==>
          messages[i + 1] == Message(turns[i].role, Join(DropEmptyFront(turns[i].parts), BREAK)))
    && Parts(turns) == excerpts + [request] && PartRoles(turns) == roles + [USER]
  }

  /** The request as the prompt shows it: what the operator wrote without the blanks around it, if that is anything. */
  predicate Requests(request: string, userContent: string) {
    if Trim(userContent, Whitespace) != "" then request == Trim(userContent, Whitespace)
    else request == "Please respond to the latest operator message using the available conversation context."
  }

  /** The messages at the picked positions, each compacted, and who spoke them. */
  function ExcerptsAt(history: seq<ChatMessage>, picked: seq<nat>, terms: seq<string>, excerptBudget: nat): seq<string>
    requires forall i :: i in picked ==> i < |history|
  {
    seq(|picked|, j requires 0 <= j < |picked| =>
      assert picked[j] in picked; Compacted(history[picked[j]].content, terms, excerptBudget))
  }

  function RolesAt(history: seq<ChatMessage>, picked: seq<nat>): seq<Role>
    requires forall i :: i in picked ==> i < |history|
  {
    seq(|picked|, j requires 0 <= j < |picked| =>
      assert picked[j] in picked; if history[picked[j]].role == "operator" then USER else ASSISTANT)
  }

  /** The first n are not spoken by the operator, and the next one is. */
  ghost predicate LeadingRoles(roles: seq<Role>, n: nat) {
    n <= |roles| && (forall j :: 0 <= j < n ==> roles[j] == ASSISTANT) && (n < |roles| ==> roles[n] == USER)
  }

  /**
   What the finished prompt says. The picked messages of the history are those within the budget, in order. From
   the first of the operator's on, the messages after the system message show each one's excerpt and then the
   request, in order, each under its own role. The excerpts before that stand in the system text, joined by blank
   lines and cut to the assistant budget as one piece.
   */
  lemma PromptShowsEverything(agentPrompt: string, prior: seq<ChatMessage>, userContent: string, b: Budgets)
      returns (picked: seq<nat>, n: nat, turns: seq<Turn>, request: string)
    ensures Increasing(picked) && forall i :: i in picked <==>
              i in RelevantIndices(prior, userContent, b.history, b.excerpt) && i < |prior|
    ensures var terms := TermsOf(Tokens(userContent));
            var excerpts, roles := ExcerptsAt(prior, picked, terms, b.excerpt), RolesAt(prior, picked);
            var messages := PromptFor(agentPrompt, prior, userContent, b);
            && LeadingRoles(roles, n) && Requests(request, userContent)
            && Shows(messages, turns, excerpts[n..], roles[n..], request)
            && messages[0].role == SYSTEM
            && messages[0].content
               == agentPrompt + PREFER_FACTS + (if |picked| < |prior| then TRIMMED_NOTE else "")
                  + if n == 0 then ""
                    else CONTEXT_HEADER + Compacted(Join(excerpts[..n], "\n\n"), terms, b.assistant)
  {
    var terms := TermsOf(Tokens(userContent));
    var kept := RelevantIndices(prior, userContent, b.history, b.excerpt);
    var selected := SubHistory(prior, kept);
    picked := SubHistoryMeans(prior, kept);
    request := RequestText(userContent);
    PickedExcerpts(prior, selected, picked, terms, b.excerpt);
    n, turns := PromptShows(agentPrompt, prior, selected, userContent, b);
  }

  lemma PickedExcerpts(prior: seq<ChatMessage>, selected: seq<ChatMessage>, picked: seq<nat>, terms: seq<string>,
                       excerptBudget: nat)
    requires |selected| == |picked|
    requires forall j :: 0 <= j < |picked| ==>
               picked[j] in picked && picked[j] < |prior| && selected[j] == prior[picked[j]]
    ensures Excerpts(selected, terms, excerptBudget) == ExcerptsAt(prior, picked, terms, excerptBudget)
    ensures Roles(selected) == RolesAt(prior, picked)
  {
  }

  lemma PromptShows(agentPrompt: string, prior: seq<ChatMessage>, selected: seq<ChatMessage>, userContent: string,
                    b: Budgets)
      returns (n: nat, turns: seq<Turn>)
    requires selected == SubHistory(prior, RelevantIndices(prior, userContent, b.history, b.excerpt))
    ensures var terms := TermsOf(Tokens(userContent));
            var excerpts := Excerpts(selected, terms, b.excerpt);
            var messages := PromptFor(agentPrompt, prior, userContent, b);
            && FirstOperator(selected, n)
            && Shows(messages, turns, excerpts[n..], Roles(selected)[n..], RequestText(userContent))
            && messages[0] == Message(SYSTEM,
                 SystemText(agentPrompt, prior != [] && |selected| < |prior|, excerpts[..n], terms, b.assistant))
  {
    var terms := TermsOf(Tokens(userContent));
    var a := Assembled(selected, terms, b.excerpt);
    var system := SystemText(agentPrompt, prior != [] && |selected| < |prior|, a.leading, terms, b.assistant);
    n, turns := |a.leading|, Extended(a, USER, RequestText(userContent)).turns;
    ClosedIsOneMorePart(Message(SYSTEM, system), a, RequestText(userContent));
    LeadingEndsAtFirstOperator(selected, terms, b.excerpt);
    PartsFromLeading(selected, terms, b.excerpt, RequestText(userContent));
    var excerpts := Excerpts(selected, terms, b.excerpt);
    RenderedShows(Message(SYSTEM, system), turns, excerpts[n..], Roles(selected)[n..], RequestText(userContent));
  }

  lemma RenderedShows(system: Message, turns: seq<Turn>, excerpts: seq<string>, roles: seq<Role>, request: string)
    requires Parts(turns) == excerpts + [request] && PartRoles(turns) == roles + [USER]
    ensures Shows([system] + Rendered(turns), turns, excerpts, roles, request)
  {
    forall i | 0 <= i < |turns| ensures Content(turns[i].parts) == Join(DropEmptyFront(turns[i].parts), BREAK) {
      ContentIsJoin(turns[i].parts);
    }
  }

  lemma PartsFromLeading(selected: seq<ChatMessage>, terms: seq<string>, excerptBudget: nat, request: string)
    ensures var a := Assembled(selected, terms, excerptBudget);
            var n, turns := |a.leading|, Extended(a, USER, request).turns;
            var excerpts := Excerpts(selected, terms, excerptBudget);
            && n <= |selected| && a.leading == excerpts[..n]
            && Parts(turns) == excerpts[n..] + [request] && PartRoles(turns) == Roles(selected)[n..] + [USER]
  {
    var a := Assembled(selected, terms, excerptBudget);
    var excerpts := Excerpts(selected, terms, excerptBudget);
    NothingIsLost(selected, terms, excerptBudget);
    ExtendedParts(a, USER, request);
    CutAfter(a.leading, Parts(a.turns), [request], Parts(Extended(a, USER, request).turns));
    var before := seq(|a.leading|, _ => ASSISTANT);
    CutAfter(before, PartRoles(a.turns), [USER], PartRoles(Extended(a, USER, request).turns));
    assert excerpts[..|a.leading|] == a.leading;
  }

  lemma CutAfter<T>(front: seq<T>, back: seq<T>, more: seq<T>, longer: seq<T>)
    requires front + longer == front + back + more
    ensures longer == (front + back)[|front|..] + more
  {
    assert (front + longer)[|front|..] == longer;
    assert (front + back + more)[|front|..] == back + more;
    assert (front + back)[|front|..] == back;
  }

  /** The context in the system text: whole when it fits the assistant budget, and never more than six over it. */
  lemma LeadingContextFits(agentPrompt: string, trimmed: bool, leading: seq<string>, terms: seq<string>,
                           assistantBudget: nat)
      returns (context: string)
    requires leading != []
    ensures SystemText(agentPrompt, trimmed, leading, terms, assistantBudget)
         == SystemText(agentPrompt, trimmed, [], terms, assistantBudget) + (CONTEXT_HEADER + context)
    ensures |context| <= assistantBudget + 6
    ensures |Trim(Join(leading, BREAK), Whitespace)| <= assistantBudget ==>
              context == Trim(Join(leading, BREAK), Whitespace)
  {
    context := Compacted(Join(leading, BREAK), terms, assistantBudget);
    CompactedLength(Join(leading, BREAK), terms, assistantBudget);
    var front := agentPrompt + PREFER_FACTS + if trimmed then TRIMMED_NOTE else "";
    assert front + "" == front;
  }

  /** Exactly the empty parts in front are dropped. */
  lemma {:induction false} DropEmptyFrontMeans(parts: seq<string>) returns (k: nat)
    ensures k <= |parts| && DropEmptyFront(parts) == parts[k..]
    ensures (forall j :: 0 <= j < k ==> parts[j] == "") && (k < |parts| ==> parts[k] != "")
  {
    if parts == [] {
      k := 0;
    } else {
      k := DropEmptyFrontMeans(parts[..|parts| - 1]);
      if k == |parts| - 1 && parts[|parts| - 1] == "" { k := |parts|; }
    }
  }
}
