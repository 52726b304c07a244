/**
 * What one message and one step of the negotiating agent do, stated about
 * the functions that specify `step_final`.
 */
module StepProperties {
  import opened Wrappers
  import opened PreferenceModel
  import opened Arguments
  import opened Messages
  import opened Mailboxes
  import opened CommunicatingAgents
  import opened ArgumentGeneration
  import opened ArgumentAgents
  import Sorting

  /** `s'` is `s` with the one message `reply` sent and the counters and deals untouched. */
  predicate RepliedWith(s: AgentState, s': AgentState, reply: Message) {
    s'.outbox == s.outbox + [reply] &&
    s'.nbrWon == s.nbrWon && s'.nbrAgreements == s.nbrAgreements && s'.doneDeals == s.doneDeals
  }

  /**
   * A PROPOSE fails only when there are no items; otherwise the sender's
   * discussion starts afresh and the sender gets one answer about the same
   * item: ACCEPT exactly when it is my most preferred item, and then no
   * listed item scores higher, ASK_WHY otherwise.
   */
  lemma ProposeAnswered(ctx: Context, s: AgentState, m: Message)
    requires m.content.ItemContent?
    ensures HandlePropose(ctx, s, m).Raised? <==> |ctx.items| == 0
    ensures HandlePropose(ctx, s, m).Raised? ==> HandlePropose(ctx, s, m).error == IndexError
    ensures HandlePropose(ctx, s, m).Returned? ==>
      var s' := HandlePropose(ctx, s, m).value;
      var reply := s'.outbox[|s'.outbox| - 1];
      s'.discussions == s.discussions[m.exp := []] &&
      RepliedWith(s, s', reply) && reply.exp == ctx.me && reply.dest == m.exp && reply.content == m.content &&
      (reply.performative == Messages.Accept || reply.performative == Messages.AskWhy) &&
      (reply.performative == Messages.Accept <==> m.content.item == MostPreferred(ctx.items, ctx.score)) &&
      (reply.performative == Messages.Accept ==> forall i :: 0 <= i < |ctx.items| ==> ctx.score(ctx.items[i]) <= ctx.score(m.content.item))
  {
  }

  /**
   * An ARGUE from a sender I have no discussion with raises KeyError.
   * Otherwise the argument joins that discussion, and unless the engine
   * raises, the sender gets one answer: ACCEPT of the argued item exactly
   * when the engine has no counter-argument, else the counter-argument,
   * which supports an item exactly when that item is not the argued one.
   */
  lemma ArgueAnswered(ctx: Context, s: AgentState, m: Message)
    requires m.content.ArgumentContent?
    ensures m.exp !in s.discussions ==> HandleArgue(ctx, s, m) == Raised(KeyError)
    ensures m.exp in s.discussions ==>
      var a := m.content.argument;
      var history := s.discussions[m.exp] + [a];
      var engine := GenerateArgument(ctx.order, ctx.facts, ctx.items, ctx.score, a.item, Some(a), history);
      (HandleArgue(ctx, s, m).Raised? <==> engine.Raised?) &&
      (HandleArgue(ctx, s, m).Returned? ==>
        var s' := HandleArgue(ctx, s, m).value;
        var reply := s'.outbox[|s'.outbox| - 1];
        s'.discussions == s.discussions[m.exp := history] &&
        RepliedWith(s, s', reply) && reply.exp == ctx.me && reply.dest == m.exp &&
        (reply.performative == Messages.Accept <==> engine.value.None?) &&
        (reply.performative == Messages.Accept ==> reply.content == ItemContent(a.item)) &&
        (reply.performative != Messages.Accept ==>
          reply.performative == Messages.Argue && reply.content.ArgumentContent? &&
          (reply.content.argument.decision <==> reply.content.argument.item != a.item)))
  {
  }

  /**
   * A COMMIT closes the sender's discussion.  A reply to my own COMMIT is a
   * won deal: the item's deal count and `nbrWon` go up by one and nothing is
   * sent; it raises KeyError when the item has no deal counter.  Any other
   * COMMIT is an agreement: `nbrAgreements` goes up by one and a reply
   * COMMIT of the same item goes back.
   */
  lemma CommitCounted(ctx: Context, s: AgentState, m: Message)
    requires m.content.CommitContent?
    ensures var item := m.content.item;
      (HandleCommit(ctx, s, m).Raised? <==> m.content.replyToCommit && item.name !in s.doneDeals) &&
      (HandleCommit(ctx, s, m).Raised? ==> HandleCommit(ctx, s, m).error == KeyError)
    ensures HandleCommit(ctx, s, m).Returned? ==>
      var s' := HandleCommit(ctx, s, m).value;
      var item := m.content.item;
      m.exp !in s'.discussions && s'.discussions == s.discussions - {m.exp} &&
      if m.content.replyToCommit then
        s'.nbrWon == s.nbrWon + 1 && s'.nbrAgreements == s.nbrAgreements && s'.outbox == s.outbox &&
        s'.doneDeals.Keys == s.doneDeals.Keys && s'.doneDeals[item.name] == s.doneDeals[item.name] + 1 &&
        forall n :: n in s.doneDeals && n != item.name ==> s'.doneDeals[n] == s.doneDeals[n]
      else
        s'.nbrAgreements == s.nbrAgreements + 1 && s'.nbrWon == s.nbrWon && s'.doneDeals == s.doneDeals &&
        s'.outbox == s.outbox + [Message(ctx.me, m.exp, Messages.Commit, CommitContent(item, true))]
  {
  }

  /** An ACCEPT never fails: a COMMIT of the accepted item goes back and the agreement is counted. */
  lemma AcceptCommits(ctx: Context, s: AgentState, m: Message)
    requires m.content.ItemContent?
    ensures HandleAccept(ctx, s, m).Returned?
    ensures var s' := HandleAccept(ctx, s, m).value;
      s'.discussions == s.discussions && s'.nbrAgreements == s.nbrAgreements + 1 && s'.nbrWon == s.nbrWon &&
      s'.doneDeals == s.doneDeals &&
      s'.outbox == s.outbox + [Message(ctx.me, m.exp, Messages.Commit, CommitContent(m.content.item, false))]
  {
  }

  /** With no criterion values at all there is nothing to argue in favour of any item. */
  lemma NoFactsNoOpening(order: seq<CriterionName>, items: seq<Item>, score: Item -> int, item: Item, past: seq<ArgumentData>)
    ensures GenerateArgument(order, [], items, score, item, None, past) == Returned(None)
  {
    assert CriteriaForItem([], item) == [];
    assert Candidates([], Supporting) == [];
  }

  /**
   * An ASK_WHY is answered with an argument in favour of the asked item
   * when the engine has one; otherwise, when some other item is listed, the
   * asker is sent a PROPOSE of a listed item other than the asked one.
   */
  lemma AskWhyAnswered(ctx: Context, s: AgentState, m: Message)
    requires m.content.ItemContent?
    ensures var item := m.content.item;
      var engine := GenerateArgument(ctx.order, ctx.facts, ctx.items, ctx.score, item, None, []);
      (engine.Raised? ==> HandleAskWhy(ctx, s, m) == Raised(engine.error)) &&
      (engine.Returned? && engine.value.Some? ==>
        HandleAskWhy(ctx, s, m).Returned? &&
        var s' := HandleAskWhy(ctx, s, m).value;
        var reply := s'.outbox[|s'.outbox| - 1];
        RepliedWith(s, s', reply) && s'.discussions == s.discussions &&
        reply.exp == ctx.me && reply.dest == m.exp && reply.performative == Messages.Argue &&
        reply.content.ArgumentContent? && reply.content.argument.decision && reply.content.argument.item == item)
  {
  }

  /**
   * The fallback as intended: when the engine has no argument for the asked
   * item and another item is listed, the asker gets a PROPOSE of a listed
   * item other than the asked one; with no other item it raises IndexError.
   */
  lemma AskWhyFallsBackToProposal(ctx: Context, s: AgentState, m: Message)
    requires m.content.ItemContent?
    requires GenerateArgument(ctx.order, ctx.facts, ctx.items, ctx.score, m.content.item, None, []) == Returned(None)
    ensures (exists x :: x in ctx.items && x != m.content.item) <==> HandleAskWhy(ctx, s, m).Returned?
    ensures HandleAskWhy(ctx, s, m).Raised? ==> HandleAskWhy(ctx, s, m).error == IndexError
    ensures HandleAskWhy(ctx, s, m).Returned? ==>
      var s' := HandleAskWhy(ctx, s, m).value;
      var reply := s'.outbox[|s'.outbox| - 1];
      RepliedWith(s, s', reply) && s'.discussions == s.discussions &&
      reply.exp == ctx.me && reply.dest == m.exp && reply.performative == Messages.Propose &&
      reply.content.ItemContent? && reply.content.item in ctx.items && reply.content.item != m.content.item
  {
    var item := m.content.item;
    var others := OtherItems(ctx.items, item);
    if exists x :: x in ctx.items && x != item {
      var x :| x in ctx.items && x != item;
      Sorting.FilterMembers(ctx.items, (y: Item) => y != item, x);
    } else if |others| > 0 {
      Sorting.FilterMembers(ctx.items, (y: Item) => y != item, others[0]);
    }
    if |others| > 0 {
      var chosen := Chosen(ctx, s, item);
      Sorting.FilterMembers(ctx.items, (y: Item) => y != item, chosen);
    }
  }

  /**
   * The fallback as written: whenever it is reached with another item
   * listed, the step raises AttributeError instead of proposing, because
   * `propose` is handed the asker's bare id.
   */
  lemma AskWhyAsWrittenRaises(ctx: Context, s: AgentState, m: Message)
    requires m.content.ItemContent?
    requires GenerateArgument(ctx.order, ctx.facts, ctx.items, ctx.score, m.content.item, None, []) == Returned(None)
    requires exists x :: x in ctx.items && x != m.content.item
    ensures HandleAskWhyAsWritten(ctx, s, m) == Raised(AttributeError)
    ensures HandleAskWhy(ctx, s, m).Returned?
  {
    AskWhyFallsBackToProposal(ctx, s, m);
  }

  /**
   * The case is reachable: an agent without criterion values that is asked
   * why about one of two distinct items fails as written and proposes the
   * other item when corrected.
   */
  lemma AskWhyAsWrittenFailsWithoutFacts(ctx: Context, s: AgentState, m: Message)
    requires ctx.facts == [] && m.content.ItemContent?
    requires |ctx.items| == 2 && ctx.items[0] != ctx.items[1] && m.content.item == ctx.items[0]
    ensures HandleAskWhyAsWritten(ctx, s, m) == Raised(AttributeError)
    ensures HandleAskWhy(ctx, s, m).Returned? &&
      HandleAskWhy(ctx, s, m).value.outbox == s.outbox + [Message(ctx.me, m.exp, Messages.Propose, ItemContent(ctx.items[1]))]
  {
    NoFactsNoOpening(ctx.order, ctx.items, ctx.score, m.content.item, []);
    assert ctx.items[1] in ctx.items;
    AskWhyAsWrittenRaises(ctx, s, m);
    AskWhyFallsBackToProposal(ctx, s, m);
  }

  /** A reply to my own COMMIT: the only message a step handles without answering it. */
  predicate IsReplyCommit(m: Message) {
    m.performative == Messages.Commit && m.content.CommitContent? && m.content.replyToCommit
  }

  /** An ACCEPT, or a COMMIT that is not a reply: the messages that count as agreements. */
  predicate IsAgreement(m: Message) {
    m.performative == Messages.Accept || (m.performative == Messages.Commit && m.content.CommitContent? && !m.content.replyToCommit)
  }

  /** How many of `msgs` satisfy `f`. */
  function Count(msgs: seq<Message>, f: Message -> bool): (n: nat)
    ensures n <= |msgs|
  {
    if msgs == [] then 0 else Count(msgs[..|msgs| - 1], f) + (if f(msgs[|msgs| - 1]) then 1 else 0)
  }

  /**
   * One handled message: the won and agreement counters go up by one for a
   * reply COMMIT and an agreement respectively; every message but a reply
   * COMMIT is answered by exactly one message, from me, well typed, to its
   * sender; nothing already sent changes.
   */
  lemma HandleEffect(ctx: Context, s: AgentState, m: Message)
    requires WellTyped(m) && Handle(ctx, s, m).Returned?
    ensures var s' := Handle(ctx, s, m).value;
      s'.nbrWon == s.nbrWon + (if IsReplyCommit(m) then 1 else 0) &&
      s'.nbrAgreements == s.nbrAgreements + (if IsAgreement(m) then 1 else 0) &&
      |s'.outbox| == |s.outbox| + (if IsReplyCommit(m) then 0 else 1) &&
      s'.outbox[..|s.outbox|] == s.outbox &&
      SentBy(ctx.me, s'.outbox[|s.outbox|..]) &&
      forall i :: |s.outbox| <= i < |s'.outbox| ==> s'.outbox[i].dest == m.exp
  {
    var s' := Handle(ctx, s, m).value;
    match m.performative
    case Argue =>
      ArgueAnswered(ctx, s, m);
      assert s'.outbox[|s.outbox|..] == [s'.outbox[|s.outbox|]];
    case Commit =>
      CommitCounted(ctx, s, m);
      if !m.content.replyToCommit {
        assert s'.outbox[|s.outbox|..] == [s'.outbox[|s.outbox|]];
      }
    case Propose =>
      ProposeAnswered(ctx, s, m);
      assert s'.outbox[|s.outbox|..] == [s'.outbox[|s.outbox|]];
    case Accept =>
      AcceptCommits(ctx, s, m);
      assert s'.outbox[|s.outbox|..] == [s'.outbox[|s.outbox|]];
    case AskWhy =>
      var engine := GenerateArgument(ctx.order, ctx.facts, ctx.items, ctx.score, m.content.item, None, []);
      AskWhyAnswered(ctx, s, m);
      if engine.value.None? {
        AskWhyFallsBackToProposal(ctx, s, m);
      }
      assert s'.outbox[|s.outbox|..] == [s'.outbox[|s.outbox|]];
  }

  /**
   * Handling a sequence of messages adds the reply COMMITs among them to
   * `nbrWon` and their agreements to `nbrAgreements`, and sends one message
   * for every other one, each from me and to the sender of a handled
   * message; nothing already sent changes.
   */
  lemma {:induction false} HandleAllEffect(ctx: Context, s: AgentState, msgs: seq<Message>)
    requires AllWellTyped(msgs) && HandleAll(ctx, s, msgs).Returned?
    ensures var s' := HandleAll(ctx, s, msgs).value;
      s'.nbrWon == s.nbrWon + Count(msgs, IsReplyCommit) &&
      s'.nbrAgreements == s.nbrAgreements + Count(msgs, IsAgreement) &&
      |s'.outbox| == |s.outbox| + |msgs| - Count(msgs, IsReplyCommit) &&
      s'.outbox[..|s.outbox|] == s.outbox &&
      SentBy(ctx.me, s'.outbox[|s.outbox|..]) &&
      forall i :: |s.outbox| <= i < |s'.outbox| ==> exists j :: 0 <= j < |msgs| && msgs[j].exp == s'.outbox[i].dest
    decreases |msgs|
  {
    if msgs != [] {
      var init, m := msgs[..|msgs| - 1], msgs[|msgs| - 1];
      assert forall x :: x in init ==> x in msgs;
      assert HandleAll(ctx, s, init).Returned?;
      HandleAllEffect(ctx, s, init);
      var mid := HandleAll(ctx, s, init).value;
      var s' := HandleAll(ctx, s, msgs).value;
      HandleEffect(ctx, mid, m);
      ExtendsTrans(ctx.me, s.outbox, mid.outbox, s'.outbox);
      forall i | |s.outbox| <= i < |s'.outbox|
        ensures exists j :: 0 <= j < |msgs| && msgs[j].exp == s'.outbox[i].dest
      {
        if i < |mid.outbox| {
          assert s'.outbox[i] == mid.outbox[i];
          var j :| 0 <= j < |init| && init[j].exp == mid.outbox[i].dest;
          assert msgs[j] == init[j];
        } else {
          assert msgs[|msgs| - 1] == m;
        }
      }
    }
  }

  /** The peers without a discussion in `s`. */
  function Unopened(peers: seq<AgentId>, s: AgentState): set<AgentId> {
    set p | p in peers && p !in s.discussions
  }

  /**
   * The opening loop gives every peer a discussion, empty for the ones that
   * had none, keeps the existing discussions as they were, and leaves the
   * counters and deals untouched.
   */
  lemma {:induction false} OpenThreadsDiscussions(me: AgentId, peers: seq<AgentId>, item: Item, s: AgentState)
    ensures var s' := OpenThreads(me, peers, item, s);
      s'.nbrWon == s.nbrWon && s'.nbrAgreements == s.nbrAgreements && s'.doneDeals == s.doneDeals &&
      s'.discussions.Keys == s.discussions.Keys + (set p | p in peers) &&
      (forall p :: p in s.discussions ==> s'.discussions[p] == s.discussions[p]) &&
      (forall p :: p in Unopened(peers, s) ==> s'.discussions[p] == [])
    decreases |peers|
  {
    if peers != [] {
      var p := peers[0];
      var rest := peers[1..];
      assert forall x :: x in peers <==> x == p || x in rest;
      var t := if p in s.discussions then s
               else Send(s.(discussions := s.discussions[p := []]), Message(me, p, Messages.Propose, ItemContent(item)));
      OpenThreadsDiscussions(me, rest, item, t);
      if p in s.discussions {
        assert Unopened(peers, s) == Unopened(rest, t);
      } else {
        assert Unopened(peers, s) == Unopened(rest, t) + {p};
      }
    }
  }

  /**
   * The opening loop sends one PROPOSE of the item, from me, to each peer
   * without a discussion, and nothing else; what was sent before stays.
   */
  lemma {:induction false} OpenThreadsProposals(me: AgentId, peers: seq<AgentId>, item: Item, s: AgentState)
    ensures var s' := OpenThreads(me, peers, item, s);
      |s'.outbox| == |s.outbox| + |Unopened(peers, s)| &&
      s'.outbox[..|s.outbox|] == s.outbox &&
      forall i :: |s.outbox| <= i < |s'.outbox| ==>
        s'.outbox[i] == Message(me, s'.outbox[i].dest, Messages.Propose, ItemContent(item)) &&
        s'.outbox[i].dest in Unopened(peers, s)
    decreases |peers|
  {
    if peers != [] {
      var p := peers[0];
      var rest := peers[1..];
      assert forall x :: x in peers <==> x == p || x in rest;
      var t := if p in s.discussions then s
               else Send(s.(discussions := s.discussions[p := []]), Message(me, p, Messages.Propose, ItemContent(item)));
      OpenThreadsProposals(me, rest, item, t);
      var s' := OpenThreads(me, rest, item, t);
      if p in s.discussions {
        assert Unopened(peers, s) == Unopened(rest, t);
      } else {
        assert Unopened(peers, s) == Unopened(rest, t) + {p};
        assert p !in Unopened(rest, t);
        assert s'.outbox[..|t.outbox|] == t.outbox;
        assert s'.outbox[|s.outbox|] == t.outbox[|s.outbox|];
        assert s'.outbox[..|s.outbox|] == s'.outbox[..|t.outbox|][..|s.outbox|];
      }
    }
  }

  /** Every peer without a discussion receives the opening PROPOSE. */
  lemma {:induction false} OpenThreadsReachesAll(me: AgentId, peers: seq<AgentId>, item: Item, s: AgentState, p: AgentId)
    requires p in Unopened(peers, s)
    ensures var s' := OpenThreads(me, peers, item, s);
      exists i :: |s.outbox| <= i < |s'.outbox| && s'.outbox[i] == Message(me, p, Messages.Propose, ItemContent(item))
    decreases |peers|
  {
    var q := peers[0];
    var rest := peers[1..];
    var t := if q in s.discussions then s
             else Send(s.(discussions := s.discussions[q := []]), Message(me, q, Messages.Propose, ItemContent(item)));
    var s' := OpenThreads(me, rest, item, t);
    assert s' == OpenThreads(me, peers, item, s);
    OpenThreadsProposals(me, rest, item, t);
    if q == p {
      assert s'.outbox[..|t.outbox|] == t.outbox;
      assert s'.outbox[|s.outbox|] == t.outbox[|s.outbox|] == Message(me, p, Messages.Propose, ItemContent(item));
    } else {
      assert p in rest && p !in t.discussions;
      OpenThreadsReachesAll(me, rest, item, t, p);
      var i :| |t.outbox| <= i < |s'.outbox| && s'.outbox[i] == Message(me, p, Messages.Propose, ItemContent(item));
      assert |s.outbox| <= i;
    }
  }

  lemma {:induction false} CountAppend(a: seq<Message>, b: seq<Message>, f: Message -> bool)
    ensures Count(a + b, f) == Count(a, f) + Count(b, f)
    decreases |b|
  {
    if b == [] {
      assert a + b == a;
    } else {
      var init := b[..|b| - 1];
      assert (a + b)[..|a + b| - 1] == a + init;
      assert (a + b)[|a + b| - 1] == b[|b| - 1];
      CountAppend(a, init, f);
    }
  }

  lemma {:induction false} PhasePrefixEmpty(k: nat)
    requires k <= PhaseCount
    ensures PhasePrefix([], k) == []
  {
    if k > 0 {
      PhasePrefixEmpty(k - 1);
    }
  }

  lemma SelectedSnoc(v: seq<Message>, x: Message, q: Performative)
    ensures Selected(v + [x], q, None) == Selected(v, q, None) + (if x.performative == q then [x] else [])
  {
    SelectedAppend(v, [x], q, None);
    assert [x][1..] == [];
  }

  lemma CountSingle(x: Message, f: Message -> bool)
    ensures Count([x], f) == if f(x) then 1 else 0
  {
    assert [x][..0] == [];
  }

  /** A message that arrives last joins the phase of its performative, if that phase is among the first `k`. */
  lemma {:induction false} PhasePrefixSnoc(v: seq<Message>, x: Message, k: nat)
    requires k <= PhaseCount
    ensures multiset(PhasePrefix(v + [x], k)) ==
      multiset(PhasePrefix(v, k)) + (if LoopPosition(x.performative) < k then multiset{x} else multiset{})
  {
    if k > 0 {
      PhasePrefixSnoc(v, x, k - 1);
      SelectedSnoc(v, x, PhaseAt(k - 1));
      PhaseAtPosition(x.performative);
    }
  }

  lemma CountSplit(a: seq<Message>, b: seq<Message>, c: seq<Message>, f: Message -> bool)
    ensures Count(a + (b + c), f) == Count(a, f) + Count(b, f) + Count(c, f)
    ensures Count(a + b, f) == Count(a, f) + Count(b, f)
  {
    CountAppend(a, b + c, f);
    CountAppend(b, c, f);
    CountAppend(a, b, f);
  }

  lemma MultisetRemove(init: seq<Message>, x: Message, pre: seq<Message>, post: seq<Message>)
    requires multiset(init + [x]) == multiset(pre + ([x] + post))
    ensures multiset(pre + post) == multiset(init)
  {
    assert multiset(init + [x]) == multiset(init) + multiset{x};
    assert multiset(pre + ([x] + post)) == multiset(pre) + multiset{x} + multiset(post);
    assert multiset(pre + post) == multiset(pre) + multiset(post);
    var left, right := multiset(init), multiset(pre + post);
    assert left + multiset{x} == right + multiset{x};
    forall y
      ensures left[y] == right[y]
    {
      assert (left + multiset{x})[y] == (right + multiset{x})[y];
    }
  }

  /** Two sequences with the same messages, in any order, count the same. */
  lemma {:induction false} CountMultiset(a: seq<Message>, b: seq<Message>, f: Message -> bool)
    requires multiset(a) == multiset(b)
    ensures Count(a, f) == Count(b, f)
    decreases |a|
  {
    if a == [] {
      assert |b| == |multiset(b)| == 0;
    } else {
      var init, x := a[..|a| - 1], a[|a| - 1];
      assert a == init + [x];
      assert x in multiset(b);
      var i :| 0 <= i < |b| && b[i] == x;
      var pre, post := b[..i], b[i + 1..];
      assert b == pre + ([x] + post);
      MultisetRemove(init, x, pre, post);
      CountMultiset(init, pre + post, f);
      CountSplit(pre, [x], post, f);
      CountAppend(pre, post, f);
      CountSingle(x, f);
    }
  }

  /** The step reads every unread message exactly once. */
  lemma {:induction false} PhasesPermutation(u: seq<Message>)
    ensures multiset(Phases(u)) == multiset(u)
    decreases |u|
  {
    if u == [] {
      PhasePrefixEmpty(PhaseCount);
    } else {
      var v, x := u[..|u| - 1], u[|u| - 1];
      assert u == v + [x];
      PhasesPermutation(v);
      PhasePrefixSnoc(v, x, PhaseCount);
    }
  }

  /** Counting over the messages in the order the step reads them is counting over the unread messages. */
  lemma PhasesCount(u: seq<Message>, f: Message -> bool)
    ensures Count(Phases(u), f) == Count(u, f)
  {
    PhasesPermutation(u);
    CountMultiset(Phases(u), u, f);
  }


  /** Reordering the unread messages into phases keeps their number. */
  lemma PhasesLength(u: seq<Message>)
    ensures |Phases(u)| == |u|
  {
    PhasesPermutation(u);
    assert |Phases(u)| == |multiset(Phases(u))|;
  }

  /** `after` keeps `before` and adds only well-typed messages from `me`. */
  predicate Extends(me: AgentId, before: seq<Message>, after: seq<Message>) {
    |before| <= |after| && after[..|before|] == before && SentBy(me, after[|before|..])
  }

  lemma ExtendsTrans(me: AgentId, a: seq<Message>, b: seq<Message>, c: seq<Message>)
    requires Extends(me, a, b) && Extends(me, b, c)
    ensures Extends(me, a, c)
  {
    assert c[..|a|] == c[..|b|][..|a|];
    forall i | 0 <= i < |c[|a|..]|
      ensures c[|a|..][i].exp == me && WellTyped(c[|a|..][i])
    {
      var j := |a| + i;
      if j < |b| {
        assert c[j] == b[j] == b[|a|..][i];
      } else {
        assert c[|b|..][j - |b|] == c[j];
      }
    }
  }

  /** The opening loop sends one well-typed message from me per peer without a discussion. */
  lemma OpenThreadsSends(me: AgentId, peers: seq<AgentId>, item: Item, s: AgentState)
    ensures |OpenThreads(me, peers, item, s).outbox| == |s.outbox| + |Unopened(peers, s)|
    ensures Extends(me, s.outbox, OpenThreads(me, peers, item, s).outbox)
  {
    var s' := OpenThreads(me, peers, item, s);
    OpenThreadsProposals(me, peers, item, s);
    forall i | 0 <= i < |s'.outbox[|s.outbox|..]|
      ensures s'.outbox[|s.outbox|..][i].exp == me && WellTyped(s'.outbox[|s.outbox|..][i])
    {
      assert s'.outbox[|s.outbox|..][i] == s'.outbox[|s.outbox| + i];
    }
  }

  /**
   * A whole step that returns: `nbrWon` grows by the reply COMMITs among
   * the unread messages and `nbrAgreements` by their agreements.
   */
  lemma StepCounters(ctx: Context, agents: seq<AgentId>, s: AgentState, unread: seq<Message>)
    requires AllWellTyped(unread) && StepSpec(ctx, agents, s, unread).Returned?
    ensures var s' := StepSpec(ctx, agents, s, unread).value;
      s'.nbrWon == s.nbrWon + Count(unread, IsReplyCommit) &&
      s'.nbrAgreements == s.nbrAgreements + Count(unread, IsAgreement)
  {
    var item := MostPreferred(ctx.items, ctx.score);
    var start := OpenThreads(ctx.me, Peers(agents, ctx.me), item, s);
    OpenThreadsDiscussions(ctx.me, Peers(agents, ctx.me), item, s);
    HandleAllEffect(ctx, start, Phases(unread));
    PhasesCount(unread, IsReplyCommit);
    PhasesCount(unread, IsAgreement);
  }

  /**
   * A whole step that returns sends one PROPOSE per peer it had no
   * discussion with plus one answer per unread message other than a reply
   * COMMIT, all from me and well typed, and changes nothing it had sent
   * before.
   */
  lemma StepOutbox(ctx: Context, agents: seq<AgentId>, s: AgentState, unread: seq<Message>)
    requires AllWellTyped(unread) && StepSpec(ctx, agents, s, unread).Returned?
    ensures var s' := StepSpec(ctx, agents, s, unread).value;
      |s'.outbox| == |s.outbox| + |Unopened(Peers(agents, ctx.me), s)| + |unread| - Count(unread, IsReplyCommit) &&
      s'.outbox[..|s.outbox|] == s.outbox &&
      SentBy(ctx.me, s'.outbox[|s.outbox|..])
  {
    var item := MostPreferred(ctx.items, ctx.score);
    var start := OpenThreads(ctx.me, Peers(agents, ctx.me), item, s);
    var s' := StepSpec(ctx, agents, s, unread).value;
    OpenThreadsSends(ctx.me, Peers(agents, ctx.me), item, s);
    HandleAllEffect(ctx, start, Phases(unread));
    PhasesCount(unread, IsReplyCommit);
    PhasesLength(unread);
    ExtendsTrans(ctx.me, s.outbox, start.outbox, s'.outbox);
  }

  /**
   * The source's own handling of a message differs from `Handle` only in
   * the ASK_WHY fallback, where it raises AttributeError and the corrected
   * handler proposes.
   */
  lemma HandleAsWrittenAgrees(ctx: Context, s: AgentState, m: Message)
    requires WellTyped(m)
    ensures HandleAsWritten(ctx, s, m) != Handle(ctx, s, m) ==>
      m.performative == Messages.AskWhy && HandleAsWritten(ctx, s, m) == Raised(AttributeError) && Handle(ctx, s, m).Returned?
  {
  }

  /** A run of messages handled as the source writes it either ends as the corrected run does or raises AttributeError. */
  lemma {:induction false} HandleAllAsWrittenAgrees(ctx: Context, s: AgentState, msgs: seq<Message>)
    requires AllWellTyped(msgs)
    ensures HandleAllAsWritten(ctx, s, msgs) != HandleAll(ctx, s, msgs) ==> HandleAllAsWritten(ctx, s, msgs) == Raised(AttributeError)
    decreases |msgs|
  {
    if msgs != [] {
      var prefix, last := msgs[..|msgs| - 1], msgs[|msgs| - 1];
      HandleAllAsWrittenAgrees(ctx, s, prefix);
      if HandleAllAsWritten(ctx, s, prefix).Returned? {
        HandleAsWrittenAgrees(ctx, HandleAllAsWritten(ctx, s, prefix).value, last);
      }
    }
  }

  /**
   * The step as the source writes it ends as the corrected step does
   * unless it raises AttributeError; so every whole-step property proved
   * of `StepSpec` holds of the source's step whenever that step returns.
   */
  lemma StepAsWrittenAgrees(ctx: Context, agents: seq<AgentId>, s: AgentState, unread: seq<Message>)
    requires AllWellTyped(unread)
    ensures StepAsWritten(ctx, agents, s, unread) != StepSpec(ctx, agents, s, unread) ==>
      StepAsWritten(ctx, agents, s, unread) == Raised(AttributeError)
    ensures StepAsWritten(ctx, agents, s, unread).Returned? ==>
      StepAsWritten(ctx, agents, s, unread) == StepSpec(ctx, agents, s, unread)
  {
    if |ctx.items| > 0 {
      var start := OpenThreads(ctx.me, Peers(agents, ctx.me), MostPreferred(ctx.items, ctx.score), s);
      HandleAllAsWrittenAgrees(ctx, start, Phases(unread));
    }
  }

  /**
   * The two steps do differ: an agent without criterion values that is
   * asked why about the first of its two items raises AttributeError as
   * written, while the corrected step returns.
   */
  lemma StepAsWrittenFailsWithoutFacts(ctx: Context, agents: seq<AgentId>, s: AgentState, m: Message)
    requires WellTyped(m) && m.performative == Messages.AskWhy
    requires ctx.facts == [] && |ctx.items| == 2 && ctx.items[0] != ctx.items[1] && m.content.item == ctx.items[0]
    ensures StepAsWritten(ctx, agents, s, [m]) == Raised(AttributeError)
    ensures StepSpec(ctx, agents, s, [m]).Returned?
  {
    PhasesLength([m]);
    PhasesPermutation([m]);
    assert Phases([m])[0] in multiset(Phases([m]));
    assert Phases([m]) == [m];
    var start := OpenThreads(ctx.me, Peers(agents, ctx.me), MostPreferred(ctx.items, ctx.score), s);
    assert [m][..0] == [];
    assert HandleAllAsWritten(ctx, start, [m]) == HandleAskWhyAsWritten(ctx, start, m);
    assert HandleAll(ctx, start, [m]) == HandleAskWhy(ctx, start, m);
    AskWhyAsWrittenFailsWithoutFacts(ctx, start, m);
  }
}
