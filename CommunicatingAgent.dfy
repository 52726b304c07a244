/**
 * A communicating agent: a unique id, a name, a mailbox for what it
 * receives, and the messages it has handed to the message service, in the
 * order it sent them.
 */
module CommunicatingAgents {
  import opened Wrappers
  import opened PreferenceModel
  import opened Arguments
  import opened Messages
  import opened Mailboxes

  /**
   * What `propose` is given as its receiver: an agent object, whose
   * `unique_id` it reads, or a bare id, which has no such attribute.
   */
  datatype Receiver = AgentHandle(uniqueId: AgentId) | BareId(id: AgentId)

  /** `receiver.unique_id`: the destination of a proposal, or AttributeError for a bare id. */
  function ProposeDestination(receiver: Receiver): (r: Outcome<AgentId>)
    ensures r.Returned? <==> receiver.AgentHandle?
    ensures r.Returned? ==> r.value == receiver.uniqueId
    ensures r.Raised? ==> r.error == AttributeError
  {
    match receiver
    case AgentHandle(id) => Returned(id)
    case BareId(_) => Raised(AttributeError)
  }

  class CommunicatingAgent {
    const uniqueId: AgentId
    const name: string
    const mailbox: Mailbox
    /** The messages passed to the message service, oldest first. */
    var outbox: seq<Message>

    /** A new agent has an empty mailbox of its own and has sent nothing. */
    constructor (uniqueId: AgentId, name: string)
      ensures this.uniqueId == uniqueId && this.name == name
      ensures fresh(mailbox) && mailbox.unread == [] && mailbox.read == [] && outbox == []
    {
      this.uniqueId := uniqueId;
      this.name := name;
      mailbox := new Mailbox();
      outbox := [];
    }

    /** `receive_message`: stores the message as unread. */
    method ReceiveMessage(message: Message)
      modifies mailbox
      ensures mailbox.unread == old(mailbox.unread) + [message] && mailbox.read == old(mailbox.read)
    {
      mailbox.ReceiveMessages(message);
    }

    /** `send_message`: hands the message to the message service. */
    method SendMessage(message: Message)
      modifies this
      ensures outbox == old(outbox) + [message]
    {
      outbox := outbox + [message];
    }

    /** `get_new_messages`. */
    method GetNewMessages() returns (r: seq<Message>)
      modifies mailbox
      ensures r == old(mailbox.unread) && mailbox.read == old(mailbox.read) + old(mailbox.unread) && mailbox.unread == []
    {
      r := mailbox.GetNewMessages();
    }

    /** `get_messages`. */
    method GetMessages() returns (r: seq<Message>)
      modifies mailbox
      ensures r == old(mailbox.read) + old(mailbox.unread) && mailbox.read == r && mailbox.unread == []
    {
      r := mailbox.GetMessages();
    }

    /** `get_messages_from_performative`. */
    method GetMessagesFromPerformative(performative: Performative) returns (r: seq<Message>)
      ensures r == Selected(mailbox.unread + mailbox.read, performative, None)
    {
      r := mailbox.GetMessagesFromPerformative(performative);
    }

    /** `get_messages_from_exp`. */
    method GetMessagesFromExp(exp: AgentId) returns (r: seq<Message>)
      ensures r == FromSender(mailbox.unread + mailbox.read, exp)
    {
      r := mailbox.GetMessagesFromExp(exp);
    }

    /** `has_unread_message_with_performative`. */
    method HasUnreadMessageWithPerformative(performative: Performative, agentId: Option<AgentId>) returns (b: bool)
      ensures b <==> exists m :: m in mailbox.unread && Selects(m, performative, agentId)
    {
      b := mailbox.HasUnreadMessageWithPerformative(performative, agentId);
    }

    /** `get_last_unread_message_with_performative`: takes the earliest match out of the unread list. */
    method GetLastUnreadMessageWithPerformative(performative: Performative, agentId: Option<AgentId>) returns (r: Option<Message>)
      modifies mailbox
      ensures var u := old(mailbox.unread); var k := FirstSelected(u, performative, agentId);
        if k < |u| then
          r == Some(u[k]) && mailbox.unread == RemoveAt(u, k) && mailbox.read == old(mailbox.read) + [u[k]]
        else
          r == None && mailbox.unread == u && mailbox.read == old(mailbox.read)
    {
      r := mailbox.GetLastUnreadMessageWithPerformative(performative, agentId);
    }

    /**
     * `propose`: sends PROPOSE of the item to the receiver's unique id.  A bare
     * id as receiver raises AttributeError before anything is sent.
     */
    method Propose(item: Item, receiver: Receiver) returns (r: Outcome<()>)
      modifies this
      ensures r.Raised? <==> receiver.BareId?
      ensures r.Raised? ==> r.error == AttributeError && outbox == old(outbox)
      ensures r.Returned? ==> outbox == old(outbox) + [Message(uniqueId, receiver.uniqueId, Messages.Propose, ItemContent(item))]
    {
      var to := ProposeDestination(receiver);
      if to.Raised? {
        return Raised(to.error);
      }
      SendMessage(Message(uniqueId, to.value, Messages.Propose, ItemContent(item)));
      return Returned(());
    }

    /** `accept`: sends ACCEPT of the item to the proposer. */
    method Accept(proposerAgentId: AgentId, item: Item)
      modifies this
      ensures outbox == old(outbox) + [Message(uniqueId, proposerAgentId, Messages.Accept, ItemContent(item))]
    {
      SendMessage(Message(uniqueId, proposerAgentId, Messages.Accept, ItemContent(item)));
    }

    /** `ask_why`: sends ASK_WHY about the item. */
    method AskWhy(toAgent: AgentId, item: Item)
      modifies this
      ensures outbox == old(outbox) + [Message(uniqueId, toAgent, Messages.AskWhy, ItemContent(item))]
    {
      SendMessage(Message(uniqueId, toAgent, Messages.AskWhy, ItemContent(item)));
    }

    /** `commit`: sends COMMIT of the item with the reply flag (False unless given). */
    method Commit(toAgent: AgentId, item: Item, replyToCommit: bool := false)
      modifies this
      ensures outbox == old(outbox) + [Message(uniqueId, toAgent, Messages.Commit, CommitContent(item, replyToCommit))]
    {
      SendMessage(Message(uniqueId, toAgent, Messages.Commit, CommitContent(item, replyToCommit)));
    }

    /** `argue`: sends ARGUE carrying the argument. */
    method Argue(toAgent: AgentId, argument: ArgumentData)
      modifies this
      ensures outbox == old(outbox) + [Message(uniqueId, toAgent, Messages.Argue, ArgumentContent(argument))]
    {
      SendMessage(Message(uniqueId, toAgent, Messages.Argue, ArgumentContent(argument)));
    }
  }

  /** Every message an agent sends is well-typed and names that agent as its sender. */
  predicate SentBy(me: AgentId, sent: seq<Message>) {
    forall i :: 0 <= i < |sent| ==> sent[i].exp == me && WellTyped(sent[i])
  }
}
