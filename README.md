# Argument-based negotiation agents — a Dafny model

This project models the negotiation core of a multi-agent simulation. In it,
agents choose among a catalogue of items (engines, in the original scenario)
by exchanging messages: PROPOSE, ACCEPT, ASK_WHY, ARGUE and COMMIT.

Each agent has:
- its preferences: the criteria ranked by importance, and facts of the form
  "item rates value on criterion";
- a mailbox of unread and read messages;
- a map of open discussions, one argument history per peer;
- counters of deals won and agreements reached.

One step of an agent (`step_final`) first proposes its most preferred item to
every peer it has no discussion with. It then drains its unread messages one
performative at a time, in the order ARGUE, COMMIT, PROPOSE, ACCEPT, ASK_WHY,
and answers each one. Arguments are built by the agent's argument engine
(`generate_argument`). It either opens with the most important supporting
premise, or rebuts an incoming argument by one of five rules. It answers
"no argument" when it has nothing left to say.

Module layout, following the source files:

| module | models |
|---|---|
| `Wrappers` | `Option`, and `Outcome` = a returned value or a raised Python exception |
| `Sorting` | Python's stable `sorted`, `filter` and `list.index`, with their properties |
| `Values` | the rating scale (`Value.py`) |
| `PreferenceModel` | criteria, items, facts and the `Preferences` class (`Preferences.py`) |
| `Arguments` | premises and the `Argument` class (`Argument.py`) |
| `Messages` | messages and performatives |
| `Mailboxes` | the `Mailbox` class (`Mailbox.py`) |
| `CommunicatingAgents` | the `CommunicatingAgent` class (`CommunicatingAgent.py`) |
| `ArgumentGeneration` | the argument engine (`argument_agent.py`, `generate_argument`) |
| `ArgumentAgents` | the step, as functions and as the `ArgumentAgent` class (`argument_agent.py`, `step_final`) |
| `StepProperties` | what one message and one whole step do |

The code that works on values is modelled as functions. The classes that
update fields in place are classes whose methods are proved to compute what
those functions compute:
- `Preferences`, `Argument`, `Mailbox` and `CommunicatingAgent`;
- `ArgumentAgent`, whose `StepFinal` performs the step on its fields and mailbox.

`StepFinal` is proved to end in exactly the state `StepSpec` computes, with
every unread message moved to the read list in the order the step handled them.
`StepSpec` is the step with its one bug corrected; `StepAsWritten` is the step
as written, and it ends as `StepSpec` does unless it raises AttributeError.

Modelling decisions:
- An exception is the `Raised` case of an `Outcome`. `KeyError`, `IndexError`,
  `ValueError`, `TypeError` and `AttributeError` are raised where the source
  raises them, with two exceptions:
  - the step (`StepSpec`, `Handle`, `StepFinal`) uses the corrected ASK_WHY
    fallback, which proposes where the source raises AttributeError (see
    Findings); `StepAsWritten` is the step as written;
  - `AnswerComparison` raises TypeError where the source builds a couple with
    a None value (see Left out).
- Items are compared by name. `Item.get_score` is a caller-supplied score
  function, so every selection property holds for any score.
- `random.choice` is a caller-supplied chooser function.
- The message service is the agent's outbox: the messages it has sent, in order.
- The scheduler's agent list is a parameter of the step.

Behaviour of the code worth noting, which the model follows:
- Top 10 percent: the code tests `rank < n * 0.1`, not `rank < floor(n / 10)`.
  With 11 items, rank 1 is in the top 10 percent.
- Reversed comparison: when the agent ranks the comparison the other way
  round, the counter-attack cites the value of the comparison's *best*
  criterion, not its worst.
- An ARGUE from a peer with no open discussion raises `KeyError`. It does not
  open a fresh discussion.
- An empty catalogue makes the step raise `IndexError`, and so does an ASK_WHY
  fallback with no other item. Neither is a "no candidate" signal.
- "Get last unread message" returns the *earliest* matching unread message.

## Model

| member | source | states |
|---|---|---|
| Values.Rank | communication/preferences/Value.py:13-17 | every level's integer lies between 0 and 4 and is never the reserved 2 |
| Values.LessThan | communication/preferences/Value.py:19-22 | `<` between two levels compares their integers; a foreign operand gives NotImplemented (None), and only then |
| Values.LevelsAscend | communication/preferences/Value.py:13-28 | VERY_BAD < BAD < GOOD < VERY_GOOD, including the module's own check VERY_BAD < GOOD |
| Values.FourLevels | communication/preferences/Value.py:13-17 | there are exactly four levels and none is the reserved middle one |
| Values.LessIsStrictTotalOrder | communication/preferences/Value.py:19-21 | `<` is irreflexive, transitive and total on levels |
| Values.DerivedOperatorsAgree | communication/preferences/Value.py:7-22 | `<=`, `>` and `>=`, derived from `<`, agree with the order of the integers |
| Values.Less | communication/preferences/Value.py:19-22 | `a < b` between two levels holds iff `__lt__` returns True |
| Values.LessOrEqual | communication/preferences/Value.py:7-22 | the `<=` that total_ordering derives holds iff the integer of a is at most that of b |
| Values.Greater | communication/preferences/Value.py:7-22 | the `>` that total_ordering derives holds iff the integer of a is above that of b |
| Values.GreaterOrEqual | communication/preferences/Value.py:7-22 | the `>=` that total_ordering derives holds iff the integer of a is at least that of b |
| PreferenceModel.FirstMatch | communication/preferences/Preferences.py:47-53 | the position of the first matching fact: nothing before it matches, and it matches unless it is the end |
| PreferenceModel.ValueOf | communication/preferences/Preferences.py:45-53 | None exactly when no fact matches; otherwise the value of the first matching fact |
| PreferenceModel.AppendKeepsValue | communication/preferences/Preferences.py:41-53 | appending a fact never changes an existing answer of `get_value`; it only answers a query that had none |
| PreferenceModel.CriteriaForItem | communication/preferences/Preferences.py:29-31 | exactly the facts about an item of that name |
| PreferenceModel.CriteriaForItemAppend | communication/preferences/Preferences.py:29-43 | the per-item filter distributes over concatenation, so it keeps insertion order |
| PreferenceModel.Precedence | communication/preferences/Preferences.py:55-63 | None iff neither criterion is ranked; True iff the first is ranked and no later than the second |
| PreferenceModel.IsPreferredItemIsStrict | communication/preferences/Preferences.py:65-67 | item preference is irreflexive and asymmetric |
| PreferenceModel.IsPreferredItem | communication/preferences/Preferences.py:65-67 | an item preferred to another is a different item and scores at least as much |
| PreferenceModel.MostPreferred | communication/preferences/Preferences.py:69-75 | a listed item that no item outscores, and the earliest listed among the tied best |
| PreferenceModel.MostPreferredIsUnbeaten | communication/preferences/Preferences.py:65-75 | no listed item is preferred to the most preferred one |
| PreferenceModel.IsItemAmongTop10Percent | communication/preferences/Preferences.py:77-87 | true iff 10 × (items scoring higher + tied items listed before it) < n, with the rank derived without the sort |
| PreferenceModel.RankIsAboveAndTiedBefore | communication/preferences/Preferences.py:83-87 | an item's position in the stable ranking = items scoring higher + tied items listed before it |
| PreferenceModel.Top10Examples | communication/preferences/Preferences.py:172-180 | the file's three top-10 checks hold for every score under which diesel scores at least electric |
| PreferenceModel.Preferences.constructor | communication/preferences/Preferences.py:20-23 | a new object has no criteria and no facts |
| PreferenceModel.Preferences.SetCriterionNameList | communication/preferences/Preferences.py:37-39 | replaces the order and keeps the facts |
| PreferenceModel.Preferences.AddCriterionValue | communication/preferences/Preferences.py:41-43 | appends one fact, without de-duplication, and keeps the order |
| PreferenceModel.Preferences.GetValue | communication/preferences/Preferences.py:45-53 | the early-return loop computes the value of the first matching fact |
| PreferenceModel.Preferences.IsPreferredCriterion | communication/preferences/Preferences.py:55-63 | the early-return loop computes the precedence of the two criteria |
| Sorting.SortBy | communication/preferences/Preferences.py:72-74 | `sorted` returns a permutation of its input, ordered by key |
| Sorting.SortedPosition | communication/preferences/Preferences.py:83-87 | stability: an element lands after the smaller keys and after the equal keys listed before it |
| Sorting.SortedHead | communication/preferences/Preferences.py:72-75 | the head of the sort has a least key and is the earliest listed among the ties |
| Sorting.FirstIndex | communication/preferences/Preferences.py:87 | `list.index`: a position holding the element, with no earlier copy |
| Sorting.Filter | argument_agent.py:134 | `filter` never lengthens a list |
| Sorting.FilterMembers | argument_agent.py:134 | the filtered list holds exactly the kept elements |
| Sorting.FilterSorted | argument_agent.py:170-171 | filtering a sorted list keeps it sorted |
| Sorting.FilterHead | argument_agent.py:153-158 | the first kept element is the first element that satisfies the filter; none kept means none satisfies it |
| Sorting.FilterKeepsOrder | argument_agent.py:134 | `filter` keeps the relative order of the elements it keeps |
| Sorting.StableOrder | argument_agent.py:137 | `sorted` is stable: elements with equal keys keep their relative order |
| Sorting.SortedHeadIsLeast | argument_agent.py:137-138 | the head of a sorted list has the least key |
| Arguments.QualifiesForExactlyOne | communication/arguments/Argument.py:66-88 | every level is either supporting (GOOD, VERY_GOOD) or attacking (BAD, VERY_BAD), never both |
| Arguments.Candidates | communication/arguments/Argument.py:63-70 | the loop keeps only couples whose value qualifies |
| Arguments.CandidateFromFact | communication/arguments/Argument.py:63-70 | every kept couple comes from one of the facts |
| Arguments.FactGivesCandidate | communication/arguments/Argument.py:63-70 | every qualifying fact contributes its couple |
| Arguments.CandidatesSplit | communication/arguments/Argument.py:63-92 | the supporting and attacking couples of a list of facts together are all its couples, as multisets |
| Arguments.Premises | communication/arguments/Argument.py:59-101 | raises ValueError iff a qualifying criterion is unranked; otherwise a permutation of the qualifying couples, ordered by importance |
| Arguments.PremisesFromFacts | communication/arguments/Argument.py:59-79 | each returned premise qualifies, is ranked, and is the couple of a fact about the item |
| Arguments.PremisesByImportance | communication/arguments/Argument.py:71-78 | returned premises run from the most to the least important criterion |
| Arguments.SupportingAndAttackingPartition | communication/arguments/Argument.py:59-101 | the supporting and attacking premises of an item share no couple and together are all its couples |
| Arguments.PremisesTotal | communication/arguments/Argument.py:71-78 | when every criterion is ranked, both helpers return |
| Arguments.Couples | communication/arguments/Argument.py:65-69 | one couple per criterion value, position by position, carrying its criterion and value |
| Arguments.TopTwo | communication/arguments/Argument.py:108-109 | a criterion is important iff it is listed and its first position is 0 or 1 |
| Arguments.AllAmong | communication/arguments/Argument.py:110-113 | the early-return scan is true iff every couple names an important criterion |
| Arguments.IsImportantForUser | communication/arguments/Argument.py:106-113 | true iff every couple premise names one of the first two criteria of the order |
| Arguments.LastValue | communication/arguments/Argument.py:119-122 | the dictionary built from facts holds, per criterion, the value of the last fact about it |
| Arguments.ScanNotRespected | communication/arguments/Argument.py:123-129 | without missing criteria: true iff some couple states a value below the agent's own; KeyError only for a missing criterion |
| Arguments.HasCriterionNotRespected | communication/arguments/Argument.py:115-129 | the scan over the facts about the argument's item; its only error is KeyError |
| Arguments.Argument.constructor | communication/arguments/Argument.py:26-31 | a new argument has the given polarity and item and no premises |
| Arguments.Argument.AddPremissComparison | communication/arguments/Argument.py:47-53 | appends one comparison and leaves everything else unchanged |
| Arguments.Argument.AddPremissCoupleValues | communication/arguments/Argument.py:55-57 | appends one couple and leaves everything else unchanged |
| Arguments.Argument.ListSupportingProposals | communication/arguments/Argument.py:59-79 | computes the supporting premises |
| Arguments.Argument.ListAttackingProposal | communication/arguments/Argument.py:81-101 | computes the attacking premises |
| Arguments.Argument.CollectPremises | communication/arguments/Argument.py:63-78 | the loop followed by the sort computes the premises, raising where `index` raises |
| Arguments.Argument.QualifyingCouples | communication/arguments/Argument.py:64-70 | the loop collects the qualifying couples in order |
| Mailboxes.Selected | communication/mailbox/Mailbox.py:61-70 | the selection is never longer than the list and holds only messages of the list |
| Mailboxes.SelectedMembers | communication/mailbox/Mailbox.py:61-70 | a message is selected iff it is in the list and matches the performative and sender |
| Mailboxes.FromSender | communication/mailbox/Mailbox.py:53-59 | selecting by sender never lengthens the list |
| Mailboxes.FromSenderMembers | communication/mailbox/Mailbox.py:53-59 | a message is selected iff it is in the list and comes from that sender |
| Mailboxes.FirstSelected | communication/mailbox/Mailbox.py:85-90 | the earliest match: nothing before it matches, and it matches unless it is the end |
| Mailboxes.FirstSelectedHeads | communication/mailbox/Mailbox.py:72-90 | a match exists iff the earliest-match index is inside the list, and that message heads the matches |
| Mailboxes.SelectedAppend | communication/mailbox/Mailbox.py:47-51 | selecting from unread + read is selecting from each in turn |
| Mailboxes.RemoveFirstSelected | communication/mailbox/Mailbox.py:85-89 | popping the earliest match removes exactly the head of its matches and leaves the other performatives' matches alone |
| Mailboxes.DrainIsSelected | communication/mailbox/Mailbox.py:81-90 | repeatedly taking the earliest match hands out the matches in order of arrival |
| Mailboxes.FirstSelectedAt | communication/mailbox/Mailbox.py:85-90 | the loop's stopping index is the earliest-match index |
| Mailboxes.TakingPreservesMessages | communication/mailbox/Mailbox.py:88-89 | reading a message neither loses nor invents a message |
| Mailboxes.Mailbox.constructor | communication/mailbox/Mailbox.py:20-23 | a new mailbox is empty |
| Mailboxes.Mailbox.ReceiveMessages | communication/mailbox/Mailbox.py:25-27 | the message joins the end of the unread list |
| Mailboxes.Mailbox.GetNewMessages | communication/mailbox/Mailbox.py:29-37 | returns the unread messages and moves them, in order, to the end of the read list |
| Mailboxes.Mailbox.GetMessages | communication/mailbox/Mailbox.py:39-43 | returns everything received, all of it now read |
| Mailboxes.Mailbox.GetMessagesFromPerformative | communication/mailbox/Mailbox.py:45-51 | the messages of that performative, unread first; nothing changes |
| Mailboxes.Mailbox.GetMessagesFromExp | communication/mailbox/Mailbox.py:53-59 | the messages from that sender, unread first; nothing changes |
| Mailboxes.Mailbox.UnreadMessagesWithPerformative | communication/mailbox/Mailbox.py:61-70 | the matching unread messages, in order |
| Mailboxes.Mailbox.HasUnreadMessageWithPerformative | communication/mailbox/Mailbox.py:72-79 | true iff some unread message matches |
| Mailboxes.Mailbox.GetLastUnreadMessageWithPerformative | communication/mailbox/Mailbox.py:81-90 | the earliest match leaves the unread list and joins the end of the read list; with no match, None and nothing changes |
| CommunicatingAgents.ProposeDestination | communication/agent/CommunicatingAgent.py:74-83 | `receiver.unique_id` succeeds iff the receiver is an agent; a bare id raises AttributeError |
| CommunicatingAgents.CommunicatingAgent.constructor | communication/agent/CommunicatingAgent.py:26-31 | a new agent has its own empty mailbox and has sent nothing |
| CommunicatingAgents.CommunicatingAgent.ReceiveMessage | communication/agent/CommunicatingAgent.py:42-44 | the message is stored as unread |
| CommunicatingAgents.CommunicatingAgent.SendMessage | communication/agent/CommunicatingAgent.py:46-48 | the message joins the outbox |
| CommunicatingAgents.CommunicatingAgent.GetNewMessages | communication/agent/CommunicatingAgent.py:50-52 | delegates to the mailbox: the unread messages are returned and read |
| CommunicatingAgents.CommunicatingAgent.GetMessages | communication/agent/CommunicatingAgent.py:54-56 | delegates to the mailbox: everything received, now read |
| CommunicatingAgents.CommunicatingAgent.GetMessagesFromPerformative | communication/agent/CommunicatingAgent.py:58-60 | delegates to the mailbox |
| CommunicatingAgents.CommunicatingAgent.GetMessagesFromExp | communication/agent/CommunicatingAgent.py:62-64 | delegates to the mailbox |
| CommunicatingAgents.CommunicatingAgent.HasUnreadMessageWithPerformative | communication/agent/CommunicatingAgent.py:66-67 | true iff some unread message matches |
| CommunicatingAgents.CommunicatingAgent.GetLastUnreadMessageWithPerformative | communication/agent/CommunicatingAgent.py:69-72 | takes the earliest match out of the unread list |
| CommunicatingAgents.CommunicatingAgent.Propose | communication/agent/CommunicatingAgent.py:74-83 | sends PROPOSE to the receiver's id; raises AttributeError iff the receiver is a bare id, and then sends nothing |
| CommunicatingAgents.CommunicatingAgent.Accept | communication/agent/CommunicatingAgent.py:85-94 | sends ACCEPT of the item to the proposer |
| CommunicatingAgents.CommunicatingAgent.AskWhy | communication/agent/CommunicatingAgent.py:96-105 | sends ASK_WHY about the item |
| CommunicatingAgents.CommunicatingAgent.Commit | communication/agent/CommunicatingAgent.py:107-116 | sends COMMIT with the reply flag, false by default |
| CommunicatingAgents.CommunicatingAgent.Argue | communication/agent/CommunicatingAgent.py:118-127 | sends ARGUE carrying the argument |
| ArgumentGeneration.Talked | argument_agent.py:109 | exactly the items of the past arguments |
| ArgumentGeneration.BetterOn | argument_agent.py:130-133 | raises TypeError iff another item has no value on the criterion; otherwise the other items rated strictly above the value, in order |
| ArgumentGeneration.BelowGood | argument_agent.py:153 | raises TypeError iff the item lacks a value on one of the criteria; otherwise those rated below GOOD, in order |
| ArgumentGeneration.AlternativesByValueMeaning | argument_agent.py:130-137 | the alternatives are exactly the undiscussed other items beating the value; the first has the best value on the criterion |
| ArgumentGeneration.AlternativesByScoreMeaning | argument_agent.py:167-171 | the alternatives are exactly the undiscussed other items beating the value; the first has the best score |
| ArgumentGeneration.Opening | argument_agent.py:112-123 | an opening argument supports the item with one couple; its only error is ValueError |
| ArgumentGeneration.AnswerCouple | argument_agent.py:125-159 | a reply has one couple and at most one comparison, and supports an item iff it is not the disputed one |
| ArgumentGeneration.AnswerComparison | argument_agent.py:161-185 | a reply has one couple and at most one comparison, and supports an item iff it is not the disputed one |
| ArgumentGeneration.GenerateArgument | argument_agent.py:105-188 | only TypeError or ValueError; every argument has one couple and at most one comparison; an opening supports the item; other shapes get no answer |
| ArgumentGeneration.GenerateArgumentTotal | argument_agent.py:105-188 | with every criterion ranked and every item rated on every criterion, the engine never raises for a listed item |
| ArgumentGeneration.BetterOnTotal | argument_agent.py:130-133 | with every item rated, the comprehension never raises |
| ArgumentGeneration.AnswerCoupleTotal | argument_agent.py:125-159 | with everything ranked and rated, the (c = v) answer never raises |
| ArgumentGeneration.OpeningArgument | argument_agent.py:112-123 | the opening cites the most important supporting premise, itself a fact about the item; none iff no fact about the item is GOOD or VERY_GOOD |
| ArgumentGeneration.CounterProposalOnValue | argument_agent.py:129-141 | a counter-proposal names an undiscussed other item beating the value, citing its own value, with the best value of all such items, and the earliest listed among those tied on that value |
| ArgumentGeneration.AttackOnValue | argument_agent.py:143-148 | the attack cites the item's own value, no better than the one argued and below GOOD; only when no alternative exists |
| ArgumentGeneration.AttackOnMoreImportantCriterion | argument_agent.py:150-159 | the attack cites the most important criterion ranked above c on which the item is below GOOD; only when the first two rules fail |
| ArgumentGeneration.CounterProposalOnScore | argument_agent.py:166-176 | a counter-proposal names an undiscussed other item beating the value, with the best score of all such items, and the earliest listed among those tied on that score |
| ArgumentGeneration.AttackByReversal | argument_agent.py:178-185 | when this agent ranks worst above best: the reversed comparison and the item's value on best; only when no alternative exists |
| ArgumentGeneration.CounterProposalIsFresh | argument_agent.py:109-176 | an argument in favour is never about an item already discussed in the thread |
| ArgumentGeneration.AlternativesByValueTieBreak | argument_agent.py:130-137 | the first alternative by value is listed no later than any qualifying item with the same value |
| ArgumentGeneration.AlternativesByScoreTieBreak | argument_agent.py:166-171 | the first alternative by score is listed no later than any qualifying item with the same score |
| ArgumentGeneration.BestAlternativeByValue | argument_agent.py:130-137 | the first alternative by value qualifies, has the best value of all qualifying items, and beats every qualifying item listed before it |
| ArgumentGeneration.BestAlternativeByScore | argument_agent.py:166-171 | the first alternative by score qualifies, has the best score of all qualifying items, and beats every qualifying item listed before it |
| ArgumentGeneration.AlternativeByValueExists | argument_agent.py:130-137 | an alternative by value exists iff some undiscussed other item beats the value on the criterion |
| ArgumentGeneration.AlternativeByScoreExists | argument_agent.py:166-171 | an alternative by score exists iff some undiscussed other item beats the value on the criterion |
| ArgumentGeneration.AnswerCoupleThirdRule | argument_agent.py:150-159 | when the first two rules do not apply: no argument iff the item rates GOOD or better on every criterion above c; otherwise the attack cites a comparison |
| ArgumentGeneration.AnswerCoupleRules | argument_agent.py:125-159 | the reply to c = v is in favour iff an alternative exists; otherwise the attack on the value iff the item's own value is no better and below GOOD; no argument iff neither applies and the item is GOOD or better on every criterion above c; else the attack by a more important criterion |
| ArgumentGeneration.AnswerComparisonRules | argument_agent.py:161-185 | the reply to a comparison is in favour iff an alternative exists; otherwise no argument iff both criteria are ranked and best is not ranked after worst; a reversed ranking always gets the reversal attack |
| ArgumentAgents.Peers | argument_agent.py:192-198 | exactly the scheduled agents other than me |
| ArgumentAgents.OpenThreads | argument_agent.py:38-43 | the opening loop leaves the counters and deals untouched; its discussions and sends are stated by the OpenThreads lemmas |
| ArgumentAgents.HandleArgue | argument_agent.py:46-55 | KeyError for a sender with no discussion; other errors only the engine's TypeError or ValueError; on return the argument is appended to the sender's history and exactly one answer is sent to the sender, earlier sends kept |
| ArgumentAgents.HandleCommit | argument_agent.py:59-71 | raises (KeyError) iff a reply COMMIT names an item with no deal counter; on return the discussion is closed, earlier sends kept, and exactly one of the two counters grows by one |
| ArgumentAgents.HandlePropose | argument_agent.py:75-84 | raises (IndexError) iff there are no items; on return the sender's discussion is empty and one answer about the same item is sent to the sender |
| ArgumentAgents.HandleAccept | argument_agent.py:87-90 | never raises; the discussions are kept, agreements grow by one and one answer goes to the sender |
| ArgumentAgents.HandleAskWhy | argument_agent.py:94-102 | corrected handler: only IndexError, TypeError or ValueError; on return discussions and counters are kept and one answer goes to the asker |
| ArgumentAgents.HandleAskWhyAsWritten | argument_agent.py:94-102 | the handler as written returns only what the corrected one returns, and otherwise raises its error or AttributeError where the corrected one returns |
| ArgumentAgents.Handle | argument_agent.py:45-102 | one message of any performative: never AttributeError; on return at most one message is added to the outbox, earlier sends kept |
| ArgumentAgents.HandleAll | argument_agent.py:45-102 | a run of messages: never AttributeError; on return at most one message per handled message is added, earlier sends kept |
| ArgumentAgents.Phases | argument_agent.py:46-94 | the messages in handling order are unread messages, well typed when the unread ones are |
| ArgumentAgents.StepSpec | argument_agent.py:35-102 | the corrected step (opening, then `HandleAll` over `Phases`): IndexError with no items, never AttributeError |
| ArgumentAgents.HandleAsWritten | argument_agent.py:45-102 | one message handled as the source writes it: on return at most one message added, earlier sends kept |
| ArgumentAgents.HandleAllAsWritten | argument_agent.py:45-102 | a run handled as the source writes it: on return at most one message per handled message added, earlier sends kept |
| ArgumentAgents.StepAsWritten | argument_agent.py:35-102 | the step as the source writes it: IndexError with no items; its agreement with the corrected step is `StepAsWrittenAgrees` |
| ArgumentAgents.LoopPosition | argument_agent.py:46-94 | each performative has one of the five drain loops |
| ArgumentAgents.PhaseAt | argument_agent.py:46-94 | the k-th drain loop is the loop of the performative at position k |
| ArgumentAgents.PhaseAtPosition | argument_agent.py:46-94 | every performative's drain loop is among the five |
| ArgumentAgents.PhasePrefix | argument_agent.py:46-94 | the messages the first k drain loops handle are well typed whenever the unread ones are |
| ArgumentAgents.HandleAllAppend | argument_agent.py:45-102 | handling a + b is handling a, then b from where a left off |
| ArgumentAgents.HandleAllPrefix | argument_agent.py:45-102 | a run that gets through a list of messages gets through every prefix of it |
| ArgumentAgents.PhaseNext | argument_agent.py:46-102 | a finished drain loop advances the step by one phase |
| ArgumentAgents.PhasesComplete | argument_agent.py:46-102 | after the last drain loop every unread message has been handled and read |
| ArgumentAgents.DrainStep | argument_agent.py:46-47 | reading and handling the earliest unread message of a performative keeps the drain on track and shrinks it |
| ArgumentAgents.DrainDone | argument_agent.py:46 | when no message of the performative is left, the drain has handled exactly its messages, in order of arrival |
| ArgumentAgents.ArgumentAgent.constructor | argument_agent.py:21-29 | a new agent has an empty mailbox, empty preferences, no discussion and zero counters |
| ArgumentAgents.ArgumentAgent.OnArgue | argument_agent.py:47-55 | the ARGUE loop body ends in the state `HandleArgue` computes |
| ArgumentAgents.ArgumentAgent.OnCommit | argument_agent.py:60-71 | the COMMIT loop body ends in the state `HandleCommit` computes |
| ArgumentAgents.ArgumentAgent.OnPropose | argument_agent.py:76-84 | the PROPOSE loop body ends in the state `HandlePropose` computes |
| ArgumentAgents.ArgumentAgent.OnAccept | argument_agent.py:88-90 | the ACCEPT loop body ends in the state `HandleAccept` computes |
| ArgumentAgents.ArgumentAgent.OnAskWhy | argument_agent.py:95-102 | the ASK_WHY loop body, with the receiver corrected, ends in the state `HandleAskWhy` computes |
| ArgumentAgents.ArgumentAgent.OnMessage | argument_agent.py:45-102 | one message, dispatched on its performative |
| ArgumentAgents.ArgumentAgent.HandleNext | argument_agent.py:46-47 | one round of a drain loop keeps the drain invariant and shrinks what is left |
| ArgumentAgents.ArgumentAgent.Drain | argument_agent.py:46-102 | a drain loop handles the performative's unread messages in order of arrival and reads them; the others stay unread |
| ArgumentAgents.ArgumentAgent.OpenDiscussions | argument_agent.py:39-43 | the opening loop ends in the state `OpenThreads` computes |
| ArgumentAgents.ArgumentAgent.StepFinal | argument_agent.py:35-102 | the step ends in the state `StepSpec` computes; every unread message is read, in the order handled |
| StepProperties.ProposeAnswered | argument_agent.py:75-84 | IndexError iff there are no items; else a fresh discussion and one answer: ACCEPT iff the item is my most preferred one (then nothing outscores it), else ASK_WHY |
| StepProperties.ArgueAnswered | argument_agent.py:46-55 | KeyError for an unknown sender; else the argument joins the history and one answer goes back: ACCEPT iff the engine has nothing, else its counter-argument |
| StepProperties.CommitCounted | argument_agent.py:59-71 | closes the discussion; a reply COMMIT counts a won deal and sends nothing (KeyError without a deal counter); others count an agreement and send a reply COMMIT |
| StepProperties.AcceptCommits | argument_agent.py:87-90 | an ACCEPT never fails: a COMMIT of the item goes back and one agreement is counted |
| StepProperties.NoFactsNoOpening | argument_agent.py:112-118 | with no facts the engine has no opening argument for any item |
| StepProperties.AskWhyAnswered | argument_agent.py:94-99 | the engine's error propagates; an opening argument goes back to the asker and supports the asked item |
| StepProperties.AskWhyFallsBackToProposal | argument_agent.py:100-102 | corrected fallback: returns iff another item is listed, then proposes a listed item other than the asked one to the asker; otherwise IndexError |
| StepProperties.AskWhyAsWrittenRaises | argument_agent.py:101-102 | as written, every fallback with another item listed raises AttributeError, where the corrected one returns |
| StepProperties.AskWhyAsWrittenFailsWithoutFacts | argument_agent.py:101-102 | the case is reachable: with no facts and two items, the step as written raises; the corrected one proposes the other item |
| StepProperties.HandleAsWrittenAgrees | argument_agent.py:45-102 | one message handled as written differs from the corrected handling only for an ASK_WHY, and then raises AttributeError where the corrected one returns |
| StepProperties.HandleAllAsWrittenAgrees | argument_agent.py:45-102 | a run handled as written ends as the corrected run does, unless it raises AttributeError |
| StepProperties.StepAsWrittenAgrees | argument_agent.py:35-102 | the step as written ends as the corrected step does unless it raises AttributeError, so every whole-step lemma holds of it whenever it returns |
| StepProperties.StepAsWrittenFailsWithoutFacts | argument_agent.py:35-102 | the steps do differ: with no facts, two items and one ASK_WHY about the first, the step as written raises AttributeError and the corrected step returns |
| StepProperties.HandleEffect | argument_agent.py:45-102 | one message moves the counters by its indicator; every message except a reply COMMIT gets exactly one answer, from me, to its sender |
| StepProperties.HandleAllEffect | argument_agent.py:45-102 | over a run, counters grow by the counts, one answer per non-reply COMMIT, every answer addressed to a sender of the run |
| StepProperties.OpenThreadsDiscussions | argument_agent.py:39-43 | every peer gets a discussion, empty for the new ones; existing ones, counters and deals unchanged |
| StepProperties.OpenThreadsProposals | argument_agent.py:39-43 | one PROPOSE of the item per peer without a discussion, and nothing else |
| StepProperties.OpenThreadsReachesAll | argument_agent.py:40-43 | every peer without a discussion receives the opening PROPOSE |
| StepProperties.OpenThreadsSends | argument_agent.py:39-43 | the opening sends exactly one well-typed message from me per peer without a discussion |
| StepProperties.PhasesPermutation | argument_agent.py:45-102 | the step reads every unread message exactly once: the phases are a permutation of the unread list |
| StepProperties.PhasesCount | argument_agent.py:45-102 | counting over the messages in handling order equals counting over the unread ones |
| StepProperties.PhasesLength | argument_agent.py:45-102 | the step handles as many messages as were unread |
| StepProperties.StepCounters | argument_agent.py:35-102 | a whole step adds the unread reply COMMITs to `nbrWon` and the unread agreements to `nbrAgreements` |
| StepProperties.StepOutbox | argument_agent.py:35-102 | a step sends one PROPOSE per new peer plus one answer per non-reply-COMMIT message, all from me and well typed; earlier sends are kept |

## Left out

- Logging, `print`, the `__main__` demos other than the checks restated as lemmas, and the `step` wrapper: they have no effect on state.
- The scheduler, the model object and the message service are not modelled. The agent list is a parameter, and sending appends to the agent's outbox; delivery to other mailboxes is outside the model.
- Concurrency and ticks: one step of one agent is modelled, from a given mailbox.
- `random.choice` is a caller-supplied chooser (read with the number of messages sent so far), so the model holds for any choice.
- Item descriptions and `Item.get_score`: `Item.py` is not part of this model. Items are names and the score is a parameter.
- `Message.py`, `MessagePerformative.py` and `MessageService.py` are not part of this model. Messages are modelled from how the core uses them, and only the five performatives the core uses are modelled.
- `preferences_agent.py` (the generation of random preferences) is not part of this model; the preferences are inputs.
- `Argument.__eq__` and `__str__` are left out. `__eq__` reads an attribute that does not exist (`comparision_list`) and is never called by the core. Argument histories hold argument values, so identity and aliasing of argument objects are not modelled.
- `previous_argument` is stored and never read. `CommunicatingAgent.name` is read only to name the logger (argument_agent.py:24) and in the step's guard `self.name == "Agent1" or True` (argument_agent.py:38), which is always true. Neither read has an effect, so both attributes are left out.
- `ArgumentAgents.StepSpec`, `ArgumentAgents.Handle` and `ArgumentAgents.ArgumentAgent.StepFinal`: use the corrected ASK_WHY fallback (see Findings), where the source raises AttributeError. `ArgumentAgents.StepAsWritten` is the step as written, and `StepAsWrittenAgrees` shows that every whole-step lemma holds of it whenever it returns.
- `ArgumentAgents.ArgumentAgent.StepFinal`: requires the unread messages to be well typed and the step not to raise; the step's exceptions are stated on `StepSpec`, not performed by the method.
- `ArgumentAgents.ArgumentAgent.OnArgue`: requires `HandleArgue` to return; its KeyError and the engine's errors are stated on the function.
- `ArgumentAgents.ArgumentAgent.OnCommit`: requires `HandleCommit` to return; its KeyError is stated on the function.
- `ArgumentAgents.ArgumentAgent.OnPropose`: requires `HandlePropose` to return; its IndexError is stated on the function.
- `ArgumentAgents.ArgumentAgent.OnMessage`: requires `Handle` to return, for the same reason.
- `ArgumentAgents.ArgumentAgent.Drain`: requires the drain loop not to raise, for the same reason.
- `ArgumentAgents.ArgumentAgent.OnAskWhy`: requires `HandleAskWhy` to return, and performs the corrected fallback (see Findings), where the source raises AttributeError.
- `PreferenceModel.MostPreferred`: requires a non-empty list. The IndexError on an empty list is modelled by its callers (`HandlePropose`, `StepSpec`).
- `PreferenceModel.IsItemAmongTop10Percent`: requires the item to be listed; the ValueError of `list.index` for an unlisted item is not modelled.
- `ArgumentGeneration.AnswerComparison`: the source builds a couple with a None value when the item has no value on the best criterion. That is not a `CoupleValue` of the model, so it is modelled as TypeError.
- Message contents of the wrong shape (an ARGUE without an argument, say) are excluded by the handlers' requires; the source would fail on them in ways not modelled.
- The `done_deals` counters live on the model and are shared by all agents; here they are a field of the agent's state, which is the same within one step.
- The bounded length of an argument chain (the termination of a discussion) is not proved. Only its local step is proved: a counter-proposal is never about an item already discussed (`CounterProposalIsFresh`).
- `get_messages` returns the read list itself, so later reads change the returned list. The model returns a copy.

## Findings

| source | as written | input that shows it | evidently intended | confidence | as-written member | corrected member |
|---|---|---|---|---|---|---|
| argument_agent.py:101-102 | the ASK_WHY fallback passes the asker's bare id as `receiver` to `propose`, which reads `receiver.unique_id` (communication/agent/CommunicatingAgent.py:79), so it raises AttributeError | an agent with no criterion values, two distinct items, asked why about the first | propose a different item to the asker | not executed | ArgumentAgents.HandleAskWhyAsWritten, ArgumentAgents.StepAsWritten, StepProperties.AskWhyAsWrittenRaises, StepProperties.AskWhyAsWrittenFailsWithoutFacts, StepProperties.StepAsWrittenFailsWithoutFacts | ArgumentAgents.HandleAskWhy, StepProperties.AskWhyFallsBackToProposal |
