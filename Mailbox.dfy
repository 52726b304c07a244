/**
 * The mailbox of an agent: a list of unread messages and a list of read
 * messages.  Reading moves messages from the first list to the end of the
 * second; nothing is ever dropped.
 */
module Mailboxes {
  import opened Wrappers
  import opened Messages

  /** A message matches a performative and, when a sender is given, that sender. */
  predicate Selects(m: Message, p: Performative, agentId: Option<AgentId>) {
    m.performative == p && (agentId.None? || m.exp == agentId.value)
  }

  /** The matching messages, in order. */
  function Selected(s: seq<Message>, p: Performative, agentId: Option<AgentId>): (r: seq<Message>)
    ensures |r| <= |s|
    ensures forall m :: m in r ==> m in s
  {
    if s == [] then []
    else (if Selects(s[0], p, agentId) then [s[0]] else []) + Selected(s[1..], p, agentId)
  }

  /** The selected messages are exactly the matching ones. */
  lemma {:induction false} SelectedMembers(s: seq<Message>, p: Performative, agentId: Option<AgentId>, m: Message)
    ensures m in Selected(s, p, agentId) <==> m in s && Selects(m, p, agentId)
  {
    if s != [] {
      SelectedMembers(s[1..], p, agentId, m);
      assert s == [s[0]] + s[1..];
    }
  }

  /** The messages sent by `exp`, in order. */
  function FromSender(s: seq<Message>, exp: AgentId): (r: seq<Message>)
    ensures |r| <= |s|
  {
    if s == [] then []
    else (if s[0].exp == exp then [s[0]] else []) + FromSender(s[1..], exp)
  }

  /** The messages from `exp` are exactly the messages whose sender is `exp`. */
  lemma {:induction false} FromSenderMembers(s: seq<Message>, exp: AgentId, m: Message)
    ensures m in FromSender(s, exp) <==> m in s && m.exp == exp
  {
    if s != [] {
      FromSenderMembers(s[1..], exp, m);
      assert s == [s[0]] + s[1..];
    }
  }

  /** The index of the earliest matching message, or |s| when none matches. */
  function FirstSelected(s: seq<Message>, p: Performative, agentId: Option<AgentId>): (k: nat)
    ensures k <= |s|
    ensures k < |s| ==> Selects(s[k], p, agentId)
    ensures forall j :: 0 <= j < k ==> !Selects(s[j], p, agentId)
  {
    if s == [] then 0
    else if Selects(s[0], p, agentId) then 0
    else 1 + FirstSelected(s[1..], p, agentId)
  }

  /** `s` without its element at `k`, as `list.pop(k)` leaves it. */
  function RemoveAt(s: seq<Message>, k: nat): seq<Message>
    requires k < |s|
  {
    s[..k] + s[k + 1..]
  }

  /** There is a match exactly when the first-match index falls inside the list, and then it heads the matches. */
  lemma {:induction false} FirstSelectedHeads(s: seq<Message>, p: Performative, agentId: Option<AgentId>)
    ensures FirstSelected(s, p, agentId) < |s| <==> |Selected(s, p, agentId)| > 0
    ensures FirstSelected(s, p, agentId) < |s| ==> Selected(s, p, agentId)[0] == s[FirstSelected(s, p, agentId)]
  {
    if s != [] && !Selects(s[0], p, agentId) {
      FirstSelectedHeads(s[1..], p, agentId);
    }
  }

  lemma Associates(a: seq<Message>, b: seq<Message>, c: seq<Message>)
    ensures (a + b) + c == a + (b + c)
  {
  }

  /** Selecting from a concatenation selects from each part. */
  lemma {:induction false} SelectedAppend(a: seq<Message>, b: seq<Message>, p: Performative, agentId: Option<AgentId>)
    ensures Selected(a + b, p, agentId) == Selected(a, p, agentId) + Selected(b, p, agentId)
  {
    if a != [] {
      assert (a + b)[0] == a[0] && (a + b)[1..] == a[1..] + b;
      SelectedAppend(a[1..], b, p, agentId);
      var h := if Selects(a[0], p, agentId) then [a[0]] else [];
      assert Selected(a + b, p, agentId) == h + (Selected(a[1..], p, agentId) + Selected(b, p, agentId));
      Associates(h, Selected(a[1..], p, agentId), Selected(b, p, agentId));
    } else {
      assert a + b == b;
    }
  }

  lemma {:induction false} NoneSelected(s: seq<Message>, p: Performative, agentId: Option<AgentId>)
    requires forall j :: 0 <= j < |s| ==> !Selects(s[j], p, agentId)
    ensures Selected(s, p, agentId) == []
  {
    if s != [] {
      NoneSelected(s[1..], p, agentId);
    }
  }

  /**
   * Taking the earliest match out of the unread list drops exactly the head
   * of that query's matches, and leaves the matches of every other
   * performative as they were.
   */
  lemma RemoveFirstSelected(s: seq<Message>, p: Performative, agentId: Option<AgentId>)
    requires FirstSelected(s, p, agentId) < |s|
    ensures Selected(s, p, agentId) == [s[FirstSelected(s, p, agentId)]] + Selected(RemoveAt(s, FirstSelected(s, p, agentId)), p, agentId)
    ensures forall q, a :: q != p ==> Selected(RemoveAt(s, FirstSelected(s, p, agentId)), q, a) == Selected(s, q, a)
  {
    var k := FirstSelected(s, p, agentId);
    RemoveSplits(s, k, p, agentId);
    NoneSelected(s[..k], p, agentId);
    forall q, a | q != p
      ensures Selected(RemoveAt(s, k), q, a) == Selected(s, q, a)
    {
      RemoveSplits(s, k, q, a);
    }
  }

  /** Removing the element at `k` removes it from the matches of a query exactly when it matches. */
  lemma RemoveSplits(s: seq<Message>, k: nat, p: Performative, agentId: Option<AgentId>)
    requires k < |s|
    ensures Selected(s, p, agentId) == Selected(s[..k], p, agentId) + Selected([s[k]], p, agentId) + Selected(s[k + 1..], p, agentId)
    ensures Selected(RemoveAt(s, k), p, agentId) == Selected(s[..k], p, agentId) + Selected(s[k + 1..], p, agentId)
  {
    assert s == s[..k] + ([s[k]] + s[k + 1..]);
    SelectedAppend(s[..k], [s[k]] + s[k + 1..], p, agentId);
    SelectedAppend([s[k]], s[k + 1..], p, agentId);
    SelectedAppend(s[..k], s[k + 1..], p, agentId);
    Associates(Selected(s[..k], p, agentId), Selected([s[k]], p, agentId), Selected(s[k + 1..], p, agentId));
  }

  /**
   * Repeatedly taking the earliest match until none is left hands out the
   * matches in their order of arrival: the loops of the agent's step rely on
   * this.
   */
  ghost function Drain(s: seq<Message>, p: Performative): seq<Message>
    decreases |s|
  {
    var k := FirstSelected(s, p, None);
    if k < |s| then [s[k]] + Drain(RemoveAt(s, k), p) else []
  }

  lemma {:induction false} DrainIsSelected(s: seq<Message>, p: Performative)
    ensures Drain(s, p) == Selected(s, p, None)
    decreases |s|
  {
    var k := FirstSelected(s, p, None);
    FirstSelectedHeads(s, p, None);
    if k < |s| {
      RemoveFirstSelected(s, p, None);
      DrainIsSelected(RemoveAt(s, k), p);
    }
  }

  class Mailbox {
    var unread: seq<Message>
    var read: seq<Message>

    /** A new mailbox is empty. */
    constructor ()
      ensures unread == [] && read == []
    {
      unread := [];
      read := [];
    }

    /** `receive_messages`: the message joins the end of the unread list. */
    method ReceiveMessages(message: Message)
      modifies this
      ensures unread == old(unread) + [message] && read == old(read)
    {
      unread := unread + [message];
    }

    /** `get_new_messages`: returns the unread messages and moves them, in order, to the end of the read list. */
    method GetNewMessages() returns (r: seq<Message>)
      modifies this
      ensures r == old(unread)
      ensures read == old(read) + old(unread) && unread == []
    {
      r := unread;
      var i := 0;
      while i < |r|
        invariant 0 <= i <= |r| && unread == r
        invariant read == old(read) + r[..i]
      {
        read := read + [r[i]];
        assert r[..i + 1] == r[..i] + [r[i]];
        i := i + 1;
      }
      assert r[..i] == r;
      unread := [];
    }

    /** `get_messages`: every message received so far, all of them now read. */
    method GetMessages() returns (r: seq<Message>)
      modifies this
      ensures r == old(read) + old(unread) && read == r && unread == []
    {
      if |unread| > 0 {
        var _ := GetNewMessages();
      }
      r := read;
    }

    /** `get_messages_from_performative`: the messages of that performative, unread ones first; nothing is marked read. */
    method GetMessagesFromPerformative(performative: Performative) returns (r: seq<Message>)
      ensures r == Selected(unread + read, performative, None)
    {
      var all := unread + read;
      r := [];
      var i := 0;
      while i < |all|
        invariant 0 <= i <= |all|
        invariant r == Selected(all[..i], performative, None)
      {
        assert all[..i + 1] == all[..i] + [all[i]];
        SelectedAppend(all[..i], [all[i]], performative, None);
        if all[i].performative == performative {
          r := r + [all[i]];
        }
        i := i + 1;
      }
      assert all[..i] == all;
    }

    /** `get_messages_from_exp`: the messages from that sender, unread ones first; nothing is marked read. */
    method GetMessagesFromExp(exp: AgentId) returns (r: seq<Message>)
      ensures r == FromSender(unread + read, exp)
    {
      var all := unread + read;
      r := [];
      var i := 0;
      while i < |all|
        invariant 0 <= i <= |all|
        invariant r + FromSender(all[i..], exp) == FromSender(all, exp)
      {
        assert all[i..][1..] == all[i + 1..];
        if all[i].exp == exp {
          Associates(r, [all[i]], FromSender(all[i + 1..], exp));
          r := r + [all[i]];
        }
        i := i + 1;
      }
      assert all[i..] == [];
    }

    /** `__get_unread_messages_with_performative`: the matching unread messages, in order. */
    method UnreadMessagesWithPerformative(performative: Performative, agentId: Option<AgentId>) returns (r: seq<Message>)
      ensures r == Selected(unread, performative, agentId)
    {
      r := [];
      var i := 0;
      while i < |unread|
        invariant 0 <= i <= |unread|
        invariant r == Selected(unread[..i], performative, agentId)
      {
        var message := unread[i];
        assert unread[..i + 1] == unread[..i] + [message];
        SelectedAppend(unread[..i], [message], performative, agentId);
        if message.performative == performative {
          if agentId.None? || message.exp == agentId.value {
            r := r + [message];
          }
        }
        i := i + 1;
      }
      assert unread[..i] == unread;
    }

    /** `has_unread_message_with_performative`: some unread message matches. */
    method HasUnreadMessageWithPerformative(performative: Performative, agentId: Option<AgentId>) returns (b: bool)
      ensures b <==> exists m :: m in unread && Selects(m, performative, agentId)
    {
      var matching := UnreadMessagesWithPerformative(performative, agentId);
      b := |matching| > 0;
      if b {
        SelectedMembers(unread, performative, agentId, matching[0]);
        assert matching[0] in unread && Selects(matching[0], performative, agentId);
      } else {
        forall m | m in unread ensures !Selects(m, performative, agentId) {
          SelectedMembers(unread, performative, agentId, m);
        }
      }
    }

    /**
     * `get_last_unread_message_with_performative`: despite its name, the
     * EARLIEST matching unread message; it leaves the unread list and joins
     * the end of the read list.  Without a match nothing changes.
     */
    method GetLastUnreadMessageWithPerformative(performative: Performative, agentId: Option<AgentId>) returns (r: Option<Message>)
      modifies this
      ensures var k := FirstSelected(old(unread), performative, agentId);
        if k < |old(unread)| then
          r == Some(old(unread)[k]) && unread == RemoveAt(old(unread), k) && read == old(read) + [old(unread)[k]]
        else
          r == None && unread == old(unread) && read == old(read)
    {
      var messageIdx := 0;
      while messageIdx < |unread|
        invariant 0 <= messageIdx <= |unread| && unread == old(unread) && read == old(read)
        invariant forall j :: 0 <= j < messageIdx ==> !Selects(unread[j], performative, agentId)
      {
        var message := unread[messageIdx];
        if message.performative == performative {
          if agentId.None? || agentId.value == message.exp {
            read := read + [message];
            unread := unread[..messageIdx] + unread[messageIdx + 1..];
            FirstSelectedAt(old(unread), performative, agentId, messageIdx);
            return Some(message);
          }
        }
        messageIdx := messageIdx + 1;
      }
      FirstSelectedAt(unread, performative, agentId, messageIdx);
      return None;
    }
  }

  /** The first-match index is the position before which nothing matches and at which something matches (or the end). */
  lemma {:induction false} FirstSelectedAt(s: seq<Message>, p: Performative, agentId: Option<AgentId>, k: nat)
    requires k <= |s|
    requires forall j :: 0 <= j < k ==> !Selects(s[j], p, agentId)
    requires k < |s| ==> Selects(s[k], p, agentId)
    ensures FirstSelected(s, p, agentId) == k
  {
    if k > 0 {
      FirstSelectedAt(s[1..], p, agentId, k - 1);
    }
  }

  /** Reading a message neither loses nor invents messages. */
  lemma TakingPreservesMessages(unread: seq<Message>, read: seq<Message>, p: Performative, agentId: Option<AgentId>)
    requires FirstSelected(unread, p, agentId) < |unread|
    ensures var k := FirstSelected(unread, p, agentId);
      multiset(RemoveAt(unread, k)) + multiset(read + [unread[k]]) == multiset(unread) + multiset(read)
  {
    var k := FirstSelected(unread, p, agentId);
    assert unread == unread[..k] + [unread[k]] + unread[k + 1..];
  }
}
