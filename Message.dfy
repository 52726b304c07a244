/**
 * Messages exchanged by the agents: a sender, a receiver, a performative and
 * a content whose shape depends on the performative.
 */
module Messages {
  import opened PreferenceModel
  import opened Arguments

  /** Agents are told apart by their unique id. */
  type AgentId = int

  /** The performatives the negotiation uses. */
  datatype Performative = Propose | Accept | AskWhy | Argue | Commit

  /** An item (PROPOSE, ACCEPT, ASK_WHY), an argument (ARGUE), or an item with the reply-to-commit flag (COMMIT). */
  datatype Content = ItemContent(item: Item) | ArgumentContent(argument: ArgumentData) | CommitContent(item: Item, replyToCommit: bool)

  /** `exp` is the sender, `dest` the receiver. */
  datatype Message = Message(exp: AgentId, dest: AgentId, performative: Performative, content: Content)

  /** The content has the shape its performative calls for. */
  predicate WellTyped(m: Message) {
    match m.performative
    case Argue => m.content.ArgumentContent?
    case Commit => m.content.CommitContent?
    case _ => m.content.ItemContent?
  }
}
