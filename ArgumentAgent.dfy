/**
 * The negotiating agent and its step (`step_final`).  One step opens a
 * discussion with every other agent it has not talked to yet by proposing
 * its most preferred item, then drains its unread messages one performative
 * at a time, in the order ARGUE, COMMIT, PROPOSE, ACCEPT, ASK_WHY, each in
 * order of arrival, replying to each.
 *
 * The step is specified by pure functions over an `AgentState` value; the
 * class below performs it on its fields and mailbox and is proved to end in
 * the state those functions compute.
 */
module ArgumentAgents {
  import opened Wrappers
  import opened Values
  import opened PreferenceModel
  import opened Arguments
  import opened Messages
  import opened Mailboxes
  import opened CommunicatingAgents
  import opened ArgumentGeneration
  import Sorting

  /** What a step reads besides the agent's own state. */
  datatype Context = Context(
    me: AgentId,
    order: seq<CriterionName>,
    facts: seq<CriterionValue>,
    items: seq<Item>,
    score: Item -> int,
    /** Stands for `random.choice`: consulted with the number of messages sent so far, reduced modulo the number of choices. */
    chooser: nat -> nat)

  /** The parts of the agent a step changes. */
  datatype AgentState = AgentState(
    discussions: map<AgentId, seq<ArgumentData>>,
    nbrWon: nat,
    nbrAgreements: nat,
    doneDeals: map<string, nat>,
    outbox: seq<Message>)

  function Send(s: AgentState, m: Message): AgentState {
    s.(outbox := s.outbox + [m])
  }

  /** `get_all_agents_except_me`: the ids of the scheduled agents other than me, in schedule order. */
  function Peers(agents: seq<AgentId>, me: AgentId): (r: seq<AgentId>)
    ensures forall x :: x in r <==> x in agents && x != me
  {
    if agents == [] then []
    else
      var rest := Peers(agents[1..], me);
      assert forall x :: x in agents <==> x == agents[0] || x in agents[1..];
      (if agents[0] != me then [agents[0]] else []) + rest
  }

  /** The opening loop: an empty discussion and a PROPOSE of `item` for every peer without a discussion. */
  function OpenThreads(me: AgentId, peers: seq<AgentId>, item: Item, s: AgentState): (r: AgentState)
    ensures r.nbrWon == s.nbrWon && r.nbrAgreements == s.nbrAgreements && r.doneDeals == s.doneDeals
    decreases |peers|
  {
    if peers == [] then s
    else
      var p := peers[0];
      var s' := if p in s.discussions then s
                else Send(s.(discussions := s.discussions[p := []]), Message(me, p, Messages.Propose, ItemContent(item)));
      OpenThreads(me, peers[1..], item, s')
  }

  /** An ARGUE: record the argument in the sender's discussion, then answer with the engine's counter-argument, or ACCEPT when it has none. */
  function HandleArgue(ctx: Context, s: AgentState, m: Message): (r: Outcome<AgentState>)
    requires m.content.ArgumentContent?
    ensures m.exp !in s.discussions ==> r == Raised(KeyError)
    ensures r.Raised? ==> r.error == KeyError || r.error == TypeError || r.error == ValueError
    ensures r.Returned? ==>
      m.exp in s.discussions && m.exp in r.value.discussions &&
      r.value.discussions[m.exp] == s.discussions[m.exp] + [m.content.argument] &&
      |r.value.outbox| == |s.outbox| + 1 && r.value.outbox[..|s.outbox|] == s.outbox && r.value.outbox[|s.outbox|].dest == m.exp
  {
    var argument := m.content.argument;
    if m.exp !in s.discussions then Raised(KeyError)
    else
      var history := s.discussions[m.exp] + [argument];
      var s' := s.(discussions := s.discussions[m.exp := history]);
      match GenerateArgument(ctx.order, ctx.facts, ctx.items, ctx.score, argument.item, Some(argument), history)
      case Raised(e) => Raised(e)
      case Returned(None) => Returned(Send(s', Message(ctx.me, m.exp, Messages.Accept, ItemContent(argument.item))))
      case Returned(Some(reply)) => Returned(Send(s', Message(ctx.me, m.exp, Messages.Argue, ArgumentContent(reply))))
  }

  /** A COMMIT: close the discussion; a reply to my own COMMIT is a won deal, otherwise an agreement confirmed with a reply COMMIT. */
  function HandleCommit(ctx: Context, s: AgentState, m: Message): (r: Outcome<AgentState>)
    requires m.content.CommitContent?
    ensures r.Raised? <==> m.content.replyToCommit && m.content.item.name !in s.doneDeals
    ensures r.Raised? ==> r.error == KeyError
    ensures r.Returned? ==>
      m.exp !in r.value.discussions && |s.outbox| <= |r.value.outbox| && r.value.outbox[..|s.outbox|] == s.outbox &&
      r.value.nbrWon + r.value.nbrAgreements == s.nbrWon + s.nbrAgreements + 1
  {
    var s' := s.(discussions := s.discussions - {m.exp});
    var item := m.content.item;
    if m.content.replyToCommit then
      if item.name !in s.doneDeals then Raised(KeyError)
      else Returned(s'.(doneDeals := s.doneDeals[item.name := s.doneDeals[item.name] + 1], nbrWon := s.nbrWon + 1))
    else
      Returned(Send(s'.(nbrAgreements := s.nbrAgreements + 1), Message(ctx.me, m.exp, Messages.Commit, CommitContent(item, true))))
  }

  /** A PROPOSE: restart the discussion; ACCEPT my most preferred item, ASK_WHY about any other. */
  function HandlePropose(ctx: Context, s: AgentState, m: Message): (r: Outcome<AgentState>)
    requires m.content.ItemContent?
    ensures r.Raised? <==> |ctx.items| == 0
    ensures r.Raised? ==> r.error == IndexError
    ensures r.Returned? ==>
      m.exp in r.value.discussions && r.value.discussions[m.exp] == [] &&
      |r.value.outbox| == |s.outbox| + 1 && r.value.outbox[..|s.outbox|] == s.outbox &&
      r.value.outbox[|s.outbox|].dest == m.exp && r.value.outbox[|s.outbox|].content == m.content
  {
    var s' := s.(discussions := s.discussions[m.exp := []]);
    var item := m.content.item;
    if |ctx.items| == 0 then Raised(IndexError)
    else if MostPreferred(ctx.items, ctx.score) == item then
      Returned(Send(s', Message(ctx.me, m.exp, Messages.Accept, ItemContent(item))))
    else
      Returned(Send(s', Message(ctx.me, m.exp, Messages.AskWhy, ItemContent(item))))
  }

  /** An ACCEPT: COMMIT to the item and count the agreement. */
  function HandleAccept(ctx: Context, s: AgentState, m: Message): (r: Outcome<AgentState>)
    requires m.content.ItemContent?
    ensures r.Returned? && r.value.discussions == s.discussions && r.value.nbrAgreements == s.nbrAgreements + 1
    ensures |r.value.outbox| == |s.outbox| + 1 && r.value.outbox[..|s.outbox|] == s.outbox && r.value.outbox[|s.outbox|].dest == m.exp
  {
    Returned(Send(s.(nbrAgreements := s.nbrAgreements + 1), Message(ctx.me, m.exp, Messages.Commit, CommitContent(m.content.item, false))))
  }

  /** The items other than `item`, from which the fallback proposal is drawn. */
  function OtherItems(items: seq<Item>, item: Item): seq<Item> {
    Sorting.Filter(items, (x: Item) => x != item)
  }

  /** The item `random.choice` picks from the other items. */
  function Chosen(ctx: Context, s: AgentState, item: Item): Item
    requires |OtherItems(ctx.items, item)| > 0
  {
    OtherItems(ctx.items, item)[ctx.chooser(|s.outbox|) % |OtherItems(ctx.items, item)|]
  }

  /**
   * An ASK_WHY: justify the item with an opening argument; without one,
   * propose another item to the asker instead.  (The source hands the
   * asker's id, not the asker, to `propose`: see `HandleAskWhyAsWritten`.)
   */
  function HandleAskWhy(ctx: Context, s: AgentState, m: Message): (r: Outcome<AgentState>)
    requires m.content.ItemContent?
    ensures r.Raised? ==> r.error == IndexError || r.error == TypeError || r.error == ValueError
    ensures r.Returned? ==>
      r.value.discussions == s.discussions && r.value.nbrAgreements == s.nbrAgreements &&
      |r.value.outbox| == |s.outbox| + 1 && r.value.outbox[..|s.outbox|] == s.outbox && r.value.outbox[|s.outbox|].dest == m.exp
  {
    var item := m.content.item;
    match GenerateArgument(ctx.order, ctx.facts, ctx.items, ctx.score, item, None, [])
    case Raised(e) => Raised(e)
    case Returned(Some(argument)) => Returned(Send(s, Message(ctx.me, m.exp, Messages.Argue, ArgumentContent(argument))))
    case Returned(None) =>
      if |OtherItems(ctx.items, item)| == 0 then Raised(IndexError)
      else Returned(Send(s, Message(ctx.me, m.exp, Messages.Propose, ItemContent(Chosen(ctx, s, item)))))
  }

  /** The ASK_WHY handler as the source writes it: the fallback passes the bare id of the asker as the receiver of `propose`. */
  function HandleAskWhyAsWritten(ctx: Context, s: AgentState, m: Message): (r: Outcome<AgentState>)
    requires m.content.ItemContent?
    ensures r.Returned? ==> r == HandleAskWhy(ctx, s, m)
    ensures r.Raised? ==> r == HandleAskWhy(ctx, s, m) || (r.error == AttributeError && HandleAskWhy(ctx, s, m).Returned?)
  {
    var item := m.content.item;
    match GenerateArgument(ctx.order, ctx.facts, ctx.items, ctx.score, item, None, [])
    case Raised(e) => Raised(e)
    case Returned(Some(argument)) => Returned(Send(s, Message(ctx.me, m.exp, Messages.Argue, ArgumentContent(argument))))
    case Returned(None) =>
      if |OtherItems(ctx.items, item)| == 0 then Raised(IndexError)
      else
        var chosen := Chosen(ctx, s, item);
        match ProposeDestination(BareId(m.exp))
        case Raised(e) => Raised(e)
        case Returned(to) => Returned(Send(s, Message(ctx.me, to, Messages.Propose, ItemContent(chosen))))
  }

  /** One message, handled by the loop of its performative. */
  function Handle(ctx: Context, s: AgentState, m: Message): (r: Outcome<AgentState>)
    requires WellTyped(m)
    ensures r.Raised? ==> r.error != AttributeError
    ensures r.Returned? ==> |s.outbox| <= |r.value.outbox| <= |s.outbox| + 1 && r.value.outbox[..|s.outbox|] == s.outbox
  {
    match m.performative
    case Argue => HandleArgue(ctx, s, m)
    case Commit => HandleCommit(ctx, s, m)
    case Propose => HandlePropose(ctx, s, m)
    case Accept => HandleAccept(ctx, s, m)
    case AskWhy => HandleAskWhy(ctx, s, m)
  }

  predicate AllWellTyped(msgs: seq<Message>) {
    forall m :: m in msgs ==> WellTyped(m)
  }

  /** The messages handled in turn; the first exception ends the step. */
  function HandleAll(ctx: Context, s: AgentState, msgs: seq<Message>): (r: Outcome<AgentState>)
    requires AllWellTyped(msgs)
    ensures r.Raised? ==> r.error != AttributeError
    ensures r.Returned? ==> |s.outbox| <= |r.value.outbox| <= |s.outbox| + |msgs| && r.value.outbox[..|s.outbox|] == s.outbox
    decreases |msgs|
  {
    if msgs == [] then Returned(s)
    else
      match HandleAll(ctx, s, msgs[..|msgs| - 1])
      case Raised(e) => Raised(e)
      case Returned(s') => Handle(ctx, s', msgs[|msgs| - 1])
  }

  /** `step_final` has one drain loop per performative. */
  const PhaseCount: nat := 5

  /** The position of `q`'s drain loop in `step_final`. */
  function LoopPosition(q: Performative): (i: nat)
    ensures i < PhaseCount
  {
    match q
    case Argue => 0
    case Commit => 1
    case Propose => 2
    case Accept => 3
    case AskWhy => 4
  }

  /** The performative the `k`-th drain loop handles: ARGUE, COMMIT, PROPOSE, ACCEPT, then ASK_WHY. */
  function PhaseAt(k: nat): (p: Performative)
    requires k < PhaseCount
    ensures LoopPosition(p) == k
  {
    if k == 0 then Messages.Argue
    else if k == 1 then Messages.Commit
    else if k == 2 then Messages.Propose
    else if k == 3 then Messages.Accept
    else Messages.AskWhy
  }

  /** Each performative has exactly one drain loop. */
  lemma PhaseAtPosition(q: Performative)
    ensures PhaseAt(LoopPosition(q)) == q
  {
  }

  /** The unread messages of the first `k` performatives of the loop order, each performative's in order of arrival. */
  function PhasePrefix(unread: seq<Message>, k: nat): (r: seq<Message>)
    requires k <= PhaseCount
    ensures AllWellTyped(unread) ==> AllWellTyped(r)
    ensures forall x :: x in r ==> x in unread
  {
    if k == 0 then [] else PhasePrefix(unread, k - 1) + Selected(unread, PhaseAt(k - 1), None)
  }

  /** The unread messages in the order the step reads them: by performative in loop order, each in order of arrival. */
  function Phases(unread: seq<Message>): (r: seq<Message>)
    ensures AllWellTyped(unread) ==> AllWellTyped(r)
    ensures forall x :: x in r ==> x in unread
  {
    PhasePrefix(unread, PhaseCount)
  }

  /** The whole step from state `s` with unread messages `unread`. */
  function StepSpec(ctx: Context, agents: seq<AgentId>, s: AgentState, unread: seq<Message>): (r: Outcome<AgentState>)
    requires AllWellTyped(unread)
    ensures |ctx.items| == 0 ==> r == Raised(IndexError)
    ensures r.Raised? ==> r.error != AttributeError
  {
    if |ctx.items| == 0 then Raised(IndexError)
    else
      HandleAll(ctx, OpenThreads(ctx.me, Peers(agents, ctx.me), MostPreferred(ctx.items, ctx.score), s), Phases(unread))
  }

  /** One message as the source handles it: `Handle` with the ASK_WHY fallback as written. */
  function HandleAsWritten(ctx: Context, s: AgentState, m: Message): (r: Outcome<AgentState>)
    requires WellTyped(m)
    ensures r.Returned? ==> |s.outbox| <= |r.value.outbox| <= |s.outbox| + 1 && r.value.outbox[..|s.outbox|] == s.outbox
  {
    match m.performative
    case Argue => HandleArgue(ctx, s, m)
    case Commit => HandleCommit(ctx, s, m)
    case Propose => HandlePropose(ctx, s, m)
    case Accept => HandleAccept(ctx, s, m)
    case AskWhy => HandleAskWhyAsWritten(ctx, s, m)
  }

  /** The messages handled in turn as the source handles them; the first exception ends the step. */
  function HandleAllAsWritten(ctx: Context, s: AgentState, msgs: seq<Message>): (r: Outcome<AgentState>)
    requires AllWellTyped(msgs)
    ensures r.Returned? ==> |s.outbox| <= |r.value.outbox| <= |s.outbox| + |msgs| && r.value.outbox[..|s.outbox|] == s.outbox
    decreases |msgs|
  {
    if msgs == [] then Returned(s)
    else
      match HandleAllAsWritten(ctx, s, msgs[..|msgs| - 1])
      case Raised(e) => Raised(e)
      case Returned(s') => HandleAsWritten(ctx, s', msgs[|msgs| - 1])
  }

  /** The whole step as the source writes it. */
  function StepAsWritten(ctx: Context, agents: seq<AgentId>, s: AgentState, unread: seq<Message>): (r: Outcome<AgentState>)
    requires AllWellTyped(unread)
    ensures |ctx.items| == 0 ==> r == Raised(IndexError)
  {
    if |ctx.items| == 0 then Raised(IndexError)
    else
      HandleAllAsWritten(ctx, OpenThreads(ctx.me, Peers(agents, ctx.me), MostPreferred(ctx.items, ctx.score), s), Phases(unread))
  }

  /** Continue handling `msgs` after an outcome. */
  function Then(ctx: Context, o: Outcome<AgentState>, msgs: seq<Message>): Outcome<AgentState>
    requires AllWellTyped(msgs)
  {
    match o
    case Raised(e) => Raised(e)
    case Returned(s) => HandleAll(ctx, s, msgs)
  }

  /** Handling `a + b` is handling `a`, then `b` from where `a` left off. */
  lemma {:induction false} HandleAllAppend(ctx: Context, s: AgentState, a: seq<Message>, b: seq<Message>)
    requires AllWellTyped(a) && AllWellTyped(b)
    ensures AllWellTyped(a + b)
    ensures HandleAll(ctx, s, a + b) == Then(ctx, HandleAll(ctx, s, a), b)
    decreases |b|
  {
    if b == [] {
      assert a + b == a;
    } else {
      var b' := b[..|b| - 1];
      assert (a + b)[..|a + b| - 1] == a + b';
      assert (a + b)[|a + b| - 1] == b[|b| - 1];
      HandleAllAppend(ctx, s, a, b');
    }
  }

  /** A step that gets through a list of messages gets through every prefix of it. */
  lemma {:induction false} HandleAllPrefix(ctx: Context, s: AgentState, msgs: seq<Message>, k: nat)
    requires AllWellTyped(msgs) && k <= |msgs| && HandleAll(ctx, s, msgs).Returned?
    ensures HandleAll(ctx, s, msgs[..k]).Returned?
    decreases |msgs| - k
  {
    if k < |msgs| {
      assert HandleAll(ctx, s, msgs[..|msgs| - 1]).Returned?;
      HandleAllPrefix(ctx, s, msgs[..|msgs| - 1], k);
      assert msgs[..|msgs| - 1][..k] == msgs[..k];
    } else {
      assert msgs[..k] == msgs;
    }
  }

  /** A list with no message of any performative is empty. */
  lemma AllDrainedIsEmpty(s: seq<Message>)
    requires forall q :: Selected(s, q, None) == []
    ensures s == []
  {
    if s != [] {
      SelectedMembers(s, s[0].performative, None, s[0]);
    }
  }

  /**
   * Where the drain loops of `step_final` stand after the first `k`
   * performatives of the loop order: their messages handled from `s1` and
   * read, none of them left unread, the later ones untouched.
   */
  ghost predicate PhasesProgress(ctx: Context, s1: AgentState, u0: seq<Message>, r0: seq<Message>,
                                 k: nat, s: AgentState, u: seq<Message>, r: seq<Message>)
  {
    k <= PhaseCount && AllWellTyped(u0) && AllWellTyped(u) &&
    HandleAll(ctx, s1, Phases(u0)).Returned? &&
    HandleAll(ctx, s1, PhasePrefix(u0, k)) == Returned(s) &&
    r == r0 + PhasePrefix(u0, k) &&
    (forall q :: Selected(u, q, None) == if LoopPosition(q) < k then [] else Selected(u0, q, None))
  }

  /** When handling every phase returns, so does handling the first `k`. */
  lemma {:induction false} PhasePrefixReturned(ctx: Context, s: AgentState, u: seq<Message>, k: nat)
    requires AllWellTyped(u) && k <= PhaseCount
    requires HandleAll(ctx, s, Phases(u)).Returned?
    ensures HandleAll(ctx, s, PhasePrefix(u, k)).Returned?
    decreases PhaseCount - k
  {
    if k < PhaseCount {
      PhasePrefixReturned(ctx, s, u, k + 1);
      HandleAllAppend(ctx, s, PhasePrefix(u, k), Selected(u, PhaseAt(k), None));
    }
  }

  /** Before the first drain loop nothing is done. */
  lemma PhasesStart(ctx: Context, s1: AgentState, u0: seq<Message>, r0: seq<Message>)
    requires AllWellTyped(u0) && HandleAll(ctx, s1, Phases(u0)).Returned?
    ensures PhasesProgress(ctx, s1, u0, r0, 0, s1, u0, r0)
  {
  }

  /** The next drain loop starts from a state in which its messages cannot raise. */
  lemma PhaseReady(ctx: Context, s1: AgentState, u0: seq<Message>, r0: seq<Message>,
                   k: nat, s: AgentState, u: seq<Message>, r: seq<Message>)
    requires PhasesProgress(ctx, s1, u0, r0, k, s, u, r) && k < PhaseCount
    ensures HandleAll(ctx, s, Selected(u, PhaseAt(k), None)).Returned?
  {
    PhaseReturns(ctx, s1, u0, k, s);
    assert Selected(u, PhaseAt(k), None) == Selected(u0, PhaseAt(k), None);
  }

  /** Where the first `k` phases leave off, the next one returns too. */
  lemma PhaseReturns(ctx: Context, s1: AgentState, u0: seq<Message>, k: nat, s: AgentState)
    requires AllWellTyped(u0) && k < PhaseCount
    requires HandleAll(ctx, s1, Phases(u0)).Returned?
    requires HandleAll(ctx, s1, PhasePrefix(u0, k)) == Returned(s)
    ensures HandleAll(ctx, s, Selected(u0, PhaseAt(k), None)).Returned?
  {
    var next := Selected(u0, PhaseAt(k), None);
    PhasePrefixReturned(ctx, s1, u0, k + 1);
    assert PhasePrefix(u0, k + 1) == PhasePrefix(u0, k) + next;
    HandleAllAppend(ctx, s1, PhasePrefix(u0, k), next);
  }

  /** A finished drain loop of the `k`-th performative advances the step by one phase. */
  lemma PhaseNext(ctx: Context, s1: AgentState, u0: seq<Message>, r0: seq<Message>,
                  k: nat, s: AgentState, u: seq<Message>, r: seq<Message>,
                  s': AgentState, u': seq<Message>, r': seq<Message>)
    requires PhasesProgress(ctx, s1, u0, r0, k, s, u, r) && k < PhaseCount
    requires AllWellTyped(u')
    requires Returned(s') == HandleAll(ctx, s, Selected(u, PhaseAt(k), None))
    requires Selected(u', PhaseAt(k), None) == []
    requires forall q :: q != PhaseAt(k) ==> Selected(u', q, None) == Selected(u, q, None)
    requires r' == r + Selected(u, PhaseAt(k), None)
    ensures PhasesProgress(ctx, s1, u0, r0, k + 1, s', u', r')
  {
    assert Selected(u, PhaseAt(k), None) == Selected(u0, PhaseAt(k), None);
    PhaseHandled(ctx, s1, u0, k, s, s');
    Associates(r0, PhasePrefix(u0, k), Selected(u0, PhaseAt(k), None));
    PhaseUnread(u0, k, u, u');
  }

  /** Handling the `k`-th phase where the first `k` left off is handling the first `k + 1`. */
  lemma PhaseHandled(ctx: Context, s1: AgentState, u0: seq<Message>, k: nat, s: AgentState, s': AgentState)
    requires AllWellTyped(u0) && k < PhaseCount
    requires HandleAll(ctx, s1, PhasePrefix(u0, k)) == Returned(s)
    requires Returned(s') == HandleAll(ctx, s, Selected(u0, PhaseAt(k), None))
    ensures HandleAll(ctx, s1, PhasePrefix(u0, k + 1)) == Returned(s')
  {
    HandleAllAppend(ctx, s1, PhasePrefix(u0, k), Selected(u0, PhaseAt(k), None));
  }

  /** After the `k`-th drain loop its performative joins the drained ones. */
  lemma PhaseUnread(u0: seq<Message>, k: nat, u: seq<Message>, u': seq<Message>)
    requires k < PhaseCount
    requires forall q :: Selected(u, q, None) == if LoopPosition(q) < k then [] else Selected(u0, q, None)
    requires Selected(u', PhaseAt(k), None) == []
    requires forall q :: q != PhaseAt(k) ==> Selected(u', q, None) == Selected(u, q, None)
    ensures forall q :: Selected(u', q, None) == if LoopPosition(q) < k + 1 then [] else Selected(u0, q, None)
  {
    forall q ensures Selected(u', q, None) == if LoopPosition(q) < k + 1 then [] else Selected(u0, q, None) {
      PhaseAtPosition(q);
    }
  }

  /** After the last drain loop every unread message has been handled and read. */
  lemma PhasesComplete(ctx: Context, s1: AgentState, u0: seq<Message>, r0: seq<Message>,
                       s: AgentState, u: seq<Message>, r: seq<Message>)
    requires PhasesProgress(ctx, s1, u0, r0, PhaseCount, s, u, r)
    ensures Returned(s) == HandleAll(ctx, s1, Phases(u0))
    ensures u == [] && r == r0 + Phases(u0)
  {
    AllDrainedIsEmpty(u);
  }

  /** Where the drain loop of performative `p` stands: `done` handled and read, the rest of `p` still unread. */
  ghost predicate DrainProgress(ctx: Context, p: Performative, s0: AgentState, u0: seq<Message>, r0: seq<Message>,
                                done: seq<Message>, s: AgentState, u: seq<Message>, r: seq<Message>)
  {
    AllWellTyped(u0) && AllWellTyped(u) && AllWellTyped(done) &&
    done + Selected(u, p, None) == Selected(u0, p, None) &&
    (forall q :: q != p ==> Selected(u, q, None) == Selected(u0, q, None)) &&
    r == r0 + done &&
    HandleAll(ctx, s0, Selected(u0, p, None)).Returned? &&
    HandleAll(ctx, s0, done) == Returned(s)
  }

  /** Taking the earliest unread message of `p` and handling it keeps the drain on track, and cannot raise. */
  lemma DrainStep(ctx: Context, p: Performative, s0: AgentState, u0: seq<Message>, r0: seq<Message>,
                  done: seq<Message>, s: AgentState, u: seq<Message>, r: seq<Message>)
    requires DrainProgress(ctx, p, s0, u0, r0, done, s, u, r)
    requires FirstSelected(u, p, None) < |u|
    ensures var k := FirstSelected(u, p, None);
      WellTyped(u[k]) && Handle(ctx, s, u[k]).Returned? &&
      DrainProgress(ctx, p, s0, u0, r0, done + [u[k]], Handle(ctx, s, u[k]).value, RemoveAt(u, k), r + [u[k]]) &&
      |Selected(RemoveAt(u, k), p, None)| < |Selected(u, p, None)|
  {
    var k := FirstSelected(u, p, None);
    var m := u[k];
    var all := Selected(u0, p, None);
    RemoveFirstSelected(u, p, None);
    var done' := done + [m];
    assert all == done' + Selected(RemoveAt(u, k), p, None);
    assert done' == all[..|done'|];
    HandleAllPrefix(ctx, s0, all, |done'|);
    assert done'[..|done'| - 1] == done;
    forall x | x in RemoveAt(u, k) ensures x in u {
    }
  }

  /** Once no unread message of `p` is left, the drain has handled exactly the messages of `p`. */
  lemma DrainDone(ctx: Context, p: Performative, s0: AgentState, u0: seq<Message>, r0: seq<Message>,
                  done: seq<Message>, s: AgentState, u: seq<Message>, r: seq<Message>)
    requires DrainProgress(ctx, p, s0, u0, r0, done, s, u, r)
    requires !exists m :: m in u && Selects(m, p, None)
    ensures Selected(u, p, None) == [] && done == Selected(u0, p, None)
    ensures Returned(s) == HandleAll(ctx, s0, Selected(u0, p, None)) && r == r0 + Selected(u0, p, None)
    ensures AllWellTyped(u) && forall q :: q != p ==> Selected(u, q, None) == Selected(u0, q, None)
  {
    if Selected(u, p, None) != [] {
      SelectedMembers(u, p, None, Selected(u, p, None)[0]);
    }
  }

  class ArgumentAgent {
    const comm: CommunicatingAgent
    const preference: Preferences
    var currentDiscussions: map<AgentId, seq<ArgumentData>>
    var nbrWon: nat
    var nbrAgreements: nat
    /** The deal counter per item name; the source keeps it on the model, shared by all agents. */
    var doneDeals: map<string, nat>

    /** A new agent: empty mailbox, empty preferences, no discussion, nothing won or agreed. */
    constructor (uniqueId: AgentId, name: string, doneDeals: map<string, nat>)
      ensures fresh(comm) && fresh(comm.mailbox) && fresh(preference)
      ensures comm.uniqueId == uniqueId && comm.name == name
      ensures comm.mailbox.unread == [] && comm.mailbox.read == []
      ensures preference.criterionNameList == [] && preference.criterionValueList == []
      ensures State() == AgentState(map[], 0, 0, doneDeals, [])
    {
      comm := new CommunicatingAgent(uniqueId, name);
      preference := new Preferences();
      currentDiscussions := map[];
      nbrWon := 0;
      nbrAgreements := 0;
      this.doneDeals := doneDeals;
    }

    function State(): AgentState
      reads this, comm
    {
      AgentState(currentDiscussions, nbrWon, nbrAgreements, doneDeals, comm.outbox)
    }

    function Ctx(items: seq<Item>, score: Item -> int, chooser: nat -> nat): Context
      reads preference
    {
      Context(comm.uniqueId, preference.criterionNameList, preference.criterionValueList, items, score, chooser)
    }

    method OnArgue(m: Message, items: seq<Item>, score: Item -> int, chooser: nat -> nat)
      requires m.content.ArgumentContent? && HandleArgue(Ctx(items, score, chooser), State(), m).Returned?
      modifies this, comm
      ensures Returned(State()) == HandleArgue(Ctx(items, score, chooser), old(State()), m)
    {
      var argument := m.content.argument;
      currentDiscussions := currentDiscussions[m.exp := currentDiscussions[m.exp] + [argument]];
      var newArgument := GenerateArgument(preference.criterionNameList, preference.criterionValueList, items, score,
                                          argument.item, Some(argument), currentDiscussions[m.exp]);
      if newArgument.value.None? {
        comm.Accept(m.exp, argument.item);
      } else {
        comm.Argue(m.exp, newArgument.value.value);
      }
    }

    method OnCommit(m: Message, items: seq<Item>, score: Item -> int, chooser: nat -> nat)
      requires m.content.CommitContent? && HandleCommit(Ctx(items, score, chooser), State(), m).Returned?
      modifies this, comm
      ensures Returned(State()) == HandleCommit(Ctx(items, score, chooser), old(State()), m)
    {
      if m.exp in currentDiscussions {
        currentDiscussions := currentDiscussions - {m.exp};
      } else {
        assert currentDiscussions - {m.exp} == currentDiscussions;
      }
      var item, replyToCommit := m.content.item, m.content.replyToCommit;
      if replyToCommit {
        doneDeals := doneDeals[item.name := doneDeals[item.name] + 1];
        nbrWon := nbrWon + 1;
      } else {
        nbrAgreements := nbrAgreements + 1;
        comm.Commit(m.exp, item, true);
      }
    }

    method OnPropose(m: Message, items: seq<Item>, score: Item -> int, chooser: nat -> nat)
      requires m.content.ItemContent? && HandlePropose(Ctx(items, score, chooser), State(), m).Returned?
      modifies this, comm
      ensures Returned(State()) == HandlePropose(Ctx(items, score, chooser), old(State()), m)
    {
      currentDiscussions := currentDiscussions[m.exp := []];
      var item := m.content.item;
      if MostPreferred(items, score) == item {
        comm.Accept(m.exp, item);
      } else {
        comm.AskWhy(m.exp, item);
      }
    }

    method OnAccept(m: Message, items: seq<Item>, score: Item -> int, chooser: nat -> nat)
      requires m.content.ItemContent?
      modifies this, comm
      ensures Returned(State()) == HandleAccept(Ctx(items, score, chooser), old(State()), m)
    {
      comm.Commit(m.exp, m.content.item);
      nbrAgreements := nbrAgreements + 1;
    }

    method OnAskWhy(m: Message, items: seq<Item>, score: Item -> int, chooser: nat -> nat)
      requires m.content.ItemContent? && HandleAskWhy(Ctx(items, score, chooser), State(), m).Returned?
      modifies this, comm
      ensures Returned(State()) == HandleAskWhy(Ctx(items, score, chooser), old(State()), m)
    {
      var item := m.content.item;
      var argument := GenerateArgument(preference.criterionNameList, preference.criterionValueList, items, score, item, None, []);
      if argument.value.Some? {
        comm.Argue(m.exp, argument.value.value);
      } else {
        var others := OtherItems(items, item);
        var newItem := others[chooser(|comm.outbox|) % |others|];
        var _ := comm.Propose(newItem, AgentHandle(m.exp));
      }
    }

    /** One message, dispatched on its performative. */
    method OnMessage(m: Message, items: seq<Item>, score: Item -> int, chooser: nat -> nat)
      requires WellTyped(m) && Handle(Ctx(items, score, chooser), State(), m).Returned?
      modifies this, comm
      ensures Returned(State()) == Handle(Ctx(items, score, chooser), old(State()), m)
    {
      match m.performative
      case Argue => OnArgue(m, items, score, chooser);
      case Commit => OnCommit(m, items, score, chooser);
      case Propose => OnPropose(m, items, score, chooser);
      case Accept => OnAccept(m, items, score, chooser);
      case AskWhy => OnAskWhy(m, items, score, chooser);
    }

    /** One round of a drain loop: read the earliest unread message of `p` and handle it. */
    method HandleNext(p: Performative, items: seq<Item>, score: Item -> int, chooser: nat -> nat,
                      ghost s0: AgentState, ghost u0: seq<Message>, ghost r0: seq<Message>, ghost done: seq<Message>)
      returns (ghost done': seq<Message>)
      requires DrainProgress(Ctx(items, score, chooser), p, s0, u0, r0, done, State(), comm.mailbox.unread, comm.mailbox.read)
      requires FirstSelected(comm.mailbox.unread, p, None) < |comm.mailbox.unread|
      modifies this, comm, comm.mailbox
      ensures DrainProgress(Ctx(items, score, chooser), p, s0, u0, r0, done', State(), comm.mailbox.unread, comm.mailbox.read)
      ensures |Selected(comm.mailbox.unread, p, None)| < |Selected(old(comm.mailbox.unread), p, None)|
    {
      ghost var ctx := Ctx(items, score, chooser);
      ghost var s, u, r := State(), comm.mailbox.unread, comm.mailbox.read;
      var message := comm.GetLastUnreadMessageWithPerformative(p, None);
      DrainStep(ctx, p, s0, u0, r0, done, s, u, r);
      var m := message.value;
      OnMessage(m, items, score, chooser);
      done' := done + [m];
    }

    /**
     * `while has_unread_message_with_performative(p): m =
     * get_last_unread_message_with_performative(p); ...`: handles the
     * unread messages of `p` in order of arrival and moves them to the read
     * list; the unread messages of other performatives stay as they were.
     */
    method Drain(p: Performative, items: seq<Item>, score: Item -> int, chooser: nat -> nat)
      requires AllWellTyped(comm.mailbox.unread)
      requires HandleAll(Ctx(items, score, chooser), State(), Selected(comm.mailbox.unread, p, None)).Returned?
      modifies this, comm, comm.mailbox
      ensures Returned(State()) == HandleAll(Ctx(items, score, chooser), old(State()), Selected(old(comm.mailbox.unread), p, None))
      ensures AllWellTyped(comm.mailbox.unread)
      ensures Selected(comm.mailbox.unread, p, None) == []
      ensures forall q :: q != p ==> Selected(comm.mailbox.unread, q, None) == Selected(old(comm.mailbox.unread), q, None)
      ensures comm.mailbox.read == old(comm.mailbox.read) + Selected(old(comm.mailbox.unread), p, None)
    {
      ghost var ctx := Ctx(items, score, chooser);
      ghost var s0 := State();
      ghost var u0 := comm.mailbox.unread;
      ghost var r0 := comm.mailbox.read;
      ghost var done: seq<Message> := [];
      var more := comm.HasUnreadMessageWithPerformative(p, None);
      while more
        invariant ctx == Ctx(items, score, chooser)
        invariant more <==> exists m :: m in comm.mailbox.unread && Selects(m, p, None)
        invariant DrainProgress(ctx, p, s0, u0, r0, done, State(), comm.mailbox.unread, comm.mailbox.read)
        decreases |Selected(comm.mailbox.unread, p, None)|
      {
        done := HandleNext(p, items, score, chooser, s0, u0, r0, done);
        more := comm.HasUnreadMessageWithPerformative(p, None);
      }
      DrainDone(ctx, p, s0, u0, r0, done, State(), comm.mailbox.unread, comm.mailbox.read);
    }

    /** The opening loop of `step_final`. */
    method OpenDiscussions(peers: seq<AgentId>, itemToSend: Item)
      modifies this, comm
      ensures State() == OpenThreads(comm.uniqueId, peers, itemToSend, old(State()))
    {
      var i := 0;
      while i < |peers|
        invariant 0 <= i <= |peers|
        invariant OpenThreads(comm.uniqueId, peers[i..], itemToSend, State()) == OpenThreads(comm.uniqueId, peers, itemToSend, old(State()))
      {
        var agent := peers[i];
        assert peers[i..][1..] == peers[i + 1..];
        if agent !in currentDiscussions {
          currentDiscussions := currentDiscussions[agent := []];
          var _ := comm.Propose(itemToSend, AgentHandle(agent));
        }
        i := i + 1;
      }
    }

    /**
     * `step_final`: open the missing discussions, then drain the unread
     * ARGUE, COMMIT, PROPOSE, ACCEPT and ASK_WHY messages in that order.
     * The end state is the one `StepSpec` computes; every unread message has
     * been read, in the order the step handled them.
     */
    method StepFinal(agents: seq<AgentId>, items: seq<Item>, score: Item -> int, chooser: nat -> nat)
      requires AllWellTyped(comm.mailbox.unread)
      requires StepSpec(Ctx(items, score, chooser), agents, State(), comm.mailbox.unread).Returned?
      modifies this, comm, comm.mailbox
      ensures Returned(State()) == StepSpec(Ctx(items, score, chooser), agents, old(State()), old(comm.mailbox.unread))
      ensures comm.mailbox.unread == [] && comm.mailbox.read == old(comm.mailbox.read) + Phases(old(comm.mailbox.unread))
    {
      ghost var ctx := Ctx(items, score, chooser);
      ghost var u0, r0 := comm.mailbox.unread, comm.mailbox.read;
      var itemToSend := MostPreferred(items, score);
      OpenDiscussions(Peers(agents, comm.uniqueId), itemToSend);
      ghost var s1 := State();
      PhasesStart(ctx, s1, u0, r0);
      for k := 0 to PhaseCount
        invariant ctx == Ctx(items, score, chooser)
        invariant PhasesProgress(ctx, s1, u0, r0, k, State(), comm.mailbox.unread, comm.mailbox.read)
      {
        ghost var s, u, r := State(), comm.mailbox.unread, comm.mailbox.read;
        PhaseReady(ctx, s1, u0, r0, k, s, u, r);
        Drain(PhaseAt(k), items, score, chooser);
        PhaseNext(ctx, s1, u0, r0, k, s, u, r, State(), comm.mailbox.unread, comm.mailbox.read);
      }
      PhasesComplete(ctx, s1, u0, r0, State(), comm.mailbox.unread, comm.mailbox.read);
    }
  }
}
