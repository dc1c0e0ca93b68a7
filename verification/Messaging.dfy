/** Agent messages: replies form a forest, walked breadth first without marking what
  * was visited. */
module Messaging {
  import opened Wrappers
  import opened Sequences

  datatype Kind = TaskRequest | TaskResult | Question | Challenge | Decision | OtherKind

  // What a message is about and carries.
  datatype Content = Content(
    payload: map<string, string>, project: Option<string>, task: Option<string>, priority: string,
    requiresResponse: bool)

  // created numbers the messages in the order they are sent.
  datatype Message = Message(
    id: string, created: nat, kind: Kind, sender: string, recipient: string, content: Content, answered: bool,
    responseTo: Option<string>)

  // m replies to p.
  predicate RepliesTo(m: Message, p: Message) {
    m.responseTo == Some(p.id)
  }

  /** Ids are unique, and every reply is younger than what it replies to. */
  ghost predicate Sound(messages: seq<Message>) {
    (forall i, j :: 0 <= i < j < |messages| ==> messages[i].id != messages[j].id)
    && forall m, p :: m in messages && p in messages && RepliesTo(m, p) ==> p.created < m.created
  }

  // m is root or replies, through other messages, to root.
  ghost predicate Descends(messages: seq<Message>, m: Message, root: Message)
    decreases m.created
  {
    m == root
    || exists p :: p in messages && RepliesTo(m, p) && p.created < m.created && Descends(messages, p, root)
  }

  function Replies(messages: seq<Message>, id: string): (r: seq<Message>)
    ensures forall m :: m in r <==> m in messages && m.responseTo == Some(id)
  {
    if messages == [] then []
    else
      var n := |messages| - 1;
      assert messages == messages[..n] + [messages[n]];
      Replies(messages[..n], id) + if messages[n].responseTo == Some(id) then [messages[n]] else []
  }

  // The replies to the first k messages of out, in turn.
  function RepliesInTurn(messages: seq<Message>, out: seq<Message>, k: nat): seq<Message>
    requires k <= |out|
  {
    if k == 0 then [] else RepliesInTurn(messages, out, k - 1) + Replies(messages, out[k - 1].id)
  }

  lemma {:induction false} TurnsStay(messages: seq<Message>, out: seq<Message>, more: seq<Message>, k: nat)
    requires k <= |out|
    ensures RepliesInTurn(messages, out + more, k) == RepliesInTurn(messages, out, k)
  {
    if k > 0 {
      TurnsStay(messages, out, more, k - 1);
    }
  }

  function Ids(messages: seq<Message>): (r: seq<string>)
    ensures |r| == |messages|
  {
    seq(|messages|, i requires 0 <= i < |messages| => messages[i].id)
  }

  lemma {:induction false} RepliesAreDistinct(messages: seq<Message>, id: string)
    requires Distinct(messages)
    ensures Distinct(Replies(messages, id))
  {
    if messages != [] {
      var n := |messages| - 1;
      RepliesAreDistinct(messages[..n], id);
      assert messages[n] !in messages[..n];
    }
  }

  // Everything in out other than the root replies to one of the first k.
  ghost predicate Expanded(root: Message, out: seq<Message>, k: nat) {
    forall m :: m in out && m != root ==> exists i :: 0 <= i < k && i < |out| && RepliesTo(m, out[i])
  }

  // All replies to the first k are in out.
  ghost predicate Closed(messages: seq<Message>, out: seq<Message>, k: nat) {
    forall i, m :: 0 <= i < k && i < |out| && m in messages && RepliesTo(m, out[i]) ==> m in out
  }

  ghost predicate AllDescend(messages: seq<Message>, out: seq<Message>, root: Message) {
    forall m :: m in out ==> m in messages && Descends(messages, m, root)
  }

  // The walk: the first k messages of out have been expanded, the others are waiting.
  ghost predicate Walked(messages: seq<Message>, root: Message, out: seq<Message>, k: nat) {
    k <= |out| && 0 < |out| && out[0] == root && Distinct(out)
    && AllDescend(messages, out, root) && Expanded(root, out, k) && Closed(messages, out, k)
  }

  // What is in out besides the root are the replies to the first k, in turn.
  ghost predicate InTurn(messages: seq<Message>, root: Message, out: seq<Message>, k: nat) {
    k <= |out| && out == [root] + RepliesInTurn(messages, out, k)
  }

  lemma TurnStep(messages: seq<Message>, root: Message, out: seq<Message>, k: nat)
    requires InTurn(messages, root, out, k) && k < |out|
    ensures InTurn(messages, root, out + Replies(messages, out[k].id), k + 1)
  {
    var more := Replies(messages, out[k].id);
    var earlier := RepliesInTurn(messages, out, k);
    assert RepliesInTurn(messages, out + more, k) == earlier by { TurnsStay(messages, out, more, k); }
    assert (out + more)[k] == out[k];
    assert [root] + earlier + more == [root] + (earlier + more);
  }

  lemma {:induction false} DescendantsAreYounger(messages: seq<Message>, m: Message, root: Message)
    requires Descends(messages, m, root)
    ensures m == root || root.created < m.created
    decreases m.created
  {
    if m != root {
      var p :| p in messages && RepliesTo(m, p) && p.created < m.created && Descends(messages, p, root);
      DescendantsAreYounger(messages, p, root);
    }
  }

  // No reply to the message next in line has been met before.
  lemma NextRepliesAreNew(messages: seq<Message>, root: Message, out: seq<Message>, k: nat, m: Message)
    requires Sound(messages) && Walked(messages, root, out, k) && k < |out|
    requires m in messages && RepliesTo(m, out[k])
    ensures m !in out
  {
    var p := out[k];
    DescendantsAreYounger(messages, p, root);
    assert p.created < m.created;
    if m in out {
      var i :| 0 <= i < k && i < |out| && RepliesTo(m, out[i]);
      SameId(messages, out[i], p);
    }
  }

  lemma SameId(messages: seq<Message>, a: Message, b: Message)
    requires Sound(messages) && a in messages && b in messages && a.id == b.id
    ensures a == b
  {
  }

  lemma DistinctTogether<T>(a: seq<T>, b: seq<T>)
    requires Distinct(a) && Distinct(b) && forall x :: x in b ==> x !in a
    ensures Distinct(a + b)
  {
    forall i, j | 0 <= i < j < |a + b| ensures (a + b)[i] != (a + b)[j] {
      assert j >= |a| ==> b[j - |a|] in b;
    }
  }

  lemma ExpandedStep(root: Message, out: seq<Message>, k: nat, more: seq<Message>)
    requires Expanded(root, out, k) && k < |out| && forall m :: m in more ==> RepliesTo(m, out[k])
    ensures Expanded(root, out + more, k + 1)
  {
    var after := out + more;
    forall m | m in after && m != root ensures exists i :: 0 <= i < k + 1 && i < |after| && RepliesTo(m, after[i]) {
      if m in out {
        var i :| 0 <= i < k && i < |out| && RepliesTo(m, out[i]);
        assert RepliesTo(m, after[i]);
      } else {
        assert RepliesTo(m, after[k]);
      }
    }
  }

  lemma ClosedStep(messages: seq<Message>, out: seq<Message>, k: nat, more: seq<Message>)
    requires Closed(messages, out, k) && k < |out| && forall m :: m in messages && RepliesTo(m, out[k]) ==> m in more
    ensures Closed(messages, out + more, k + 1)
  {
    forall i, m | 0 <= i < k + 1 && i < |out + more| && m in messages && RepliesTo(m, (out + more)[i])
      ensures m in out + more
    {
      assert (out + more)[i] == out[i];
    }
  }

  lemma DescendStep(messages: seq<Message>, out: seq<Message>, root: Message, p: Message, more: seq<Message>)
    requires Sound(messages) && AllDescend(messages, out, root) && p in out
    requires forall m :: m in more ==> m in messages && RepliesTo(m, p)
    ensures AllDescend(messages, out + more, root)
  {
    forall m | m in more ensures Descends(messages, m, root) {
      assert p in messages && RepliesTo(m, p) && p.created < m.created && Descends(messages, p, root);
    }
  }

  lemma WalkStep(messages: seq<Message>, root: Message, out: seq<Message>, k: nat)
    requires Sound(messages) && Distinct(messages) && Walked(messages, root, out, k) && k < |out|
    ensures Walked(messages, root, out + Replies(messages, out[k].id), k + 1)
  {
    var more := Replies(messages, out[k].id);
    assert forall m :: m in more <==> m in messages && RepliesTo(m, out[k]);
    RepliesAreDistinct(messages, out[k].id);
    forall m | m in more ensures m !in out {
      NextRepliesAreNew(messages, root, out, k, m);
    }
    DistinctTogether(out, more);
    ExpandedStep(root, out, k, more);
    ClosedStep(messages, out, k, more);
    DescendStep(messages, out, root, out[k], more);
  }

  lemma {:induction false} WalkIsComplete(messages: seq<Message>, root: Message, out: seq<Message>, m: Message)
    requires Walked(messages, root, out, |out|) && m in messages && Descends(messages, m, root)
    ensures m in out
    decreases m.created
  {
    if m != root {
      var p :| p in messages && RepliesTo(m, p) && p.created < m.created && Descends(messages, p, root);
      WalkIsComplete(messages, root, out, p);
      var i :| 0 <= i < |out| && out[i] == p;
    }
  }

  lemma {:induction false} NoLongerThan<T>(s: seq<T>, all: seq<T>)
    requires Distinct(s) && forall x :: x in s ==> x in all
    ensures |s| <= |all|
    decreases |s|
  {
    if s != [] {
      var n := |s| - 1;
      assert s[n] in s && s[n] in all;
      var i :| 0 <= i < |all| && all[i] == s[n];
      var rest := all[..i] + all[i + 1..];
      forall x | x in s[..n] ensures x in rest {
        assert x in s && x in all;
        var j :| 0 <= j < |all| && all[j] == x;
        assert rest[if j < i then j else j - 1] == x;
      }
      NoLongerThan(s[..n], rest);
    }
  }

  // ---- The bus ----

  // The reply to a message: to its sender, on its project and task.
  predicate Answers(reply: Message, original: Message, sender: string, payload: map<string, string>) {
    reply.sender == sender && reply.recipient == original.sender && reply.responseTo == Some(original.id)
    && reply.kind == (match original.kind case TaskRequest => TaskResult case _ => Question)
    && reply.content.payload == payload && !reply.answered
    && reply.content.project == original.content.project && reply.content.task == original.content.task
    && reply.content.priority == "normal" && !reply.content.requiresResponse
  }

  class MessageBus {
    var messages: seq<Message>
    var sent: nat

    ghost predicate Valid()
      reads this
    {
      Sound(messages) && forall m :: m in messages ==> m.created < sent
    }

    constructor ()
      ensures Valid() && messages == []
    {
      messages, sent := [], 0;
    }

    // A generated id: nothing has it or refers to it.
    ghost predicate Unused(id: string)
      reads this
    {
      forall m :: m in messages ==> m.id != id && m.responseTo != Some(id)
    }

    method Send(
      id: string, kind: Kind, sender: string, recipient: string, content: Content, responseTo: Option<string>)
      returns (msg: Message)
      requires Valid() && Unused(id) && responseTo != Some(id)
      modifies this
      ensures Valid() && messages == old(messages) + [msg]
      ensures msg == Message(id, old(sent), kind, sender, recipient, content, false, responseTo)
    {
      msg := Message(id, sent, kind, sender, recipient, content, false, responseTo);
      messages := messages + [msg];
      sent := sent + 1;
    }

    // Where the message with this id is.
    function Find(id: string, n: nat): (r: Option<nat>)
      reads this
      requires n <= |messages|
      ensures r.Some? ==> r.value < n && messages[r.value].id == id
      ensures r.None? ==> forall i :: 0 <= i < n ==> messages[i].id != id
    {
      if n == 0 then None else if messages[n - 1].id == id then Some(n - 1) else Find(id, n - 1)
    }

    /** Marks the message answered and replies to its sender; nothing happens when it
      * is not there. */
    method Respond(id: string, messageId: string, sender: string, payload: map<string, string>)
      returns (reply: Option<Message>)
      requires Valid() && Unused(id) && messageId != id
      modifies this
      ensures Valid()
      ensures reply.None? ==> messages == old(messages) && forall m :: m in messages ==> m.id != messageId
      ensures reply.Some? ==>
        exists i :: 0 <= i < |old(messages)| && old(messages)[i].id == messageId
          && reply.value.id == id && reply.value.created == old(sent)
          && Answers(reply.value, old(messages)[i], sender, payload)
          && messages == old(messages)[i := old(messages)[i].(answered := true)] + [reply.value]
    {
      var found := Find(messageId, |messages|);
      if found.None? {
        return None;
      }
      var i := found.value;
      var original := messages[i];
      AnswerKeepsSound(messages, i);
      messages := messages[i := original.(answered := true)];
      var kind := if original.kind == TaskRequest then TaskResult else Question;
      var content := Content(payload, original.content.project, original.content.task, "normal", false);
      var msg := Send(id, kind, sender, original.sender, content, Some(original.id));
      reply := Some(msg);
    }

    /** The root and each message that replies to it, directly or through others,
      * exactly once, breadth first: the replies to each message listed, in turn. The walk
      * ends although nothing marks what was visited. */
    method Thread(messageId: string) returns (out: seq<Message>)
      requires Valid()
      ensures out == [] <==> forall m :: m in messages ==> m.id != messageId
      ensures out != [] ==> out[0] in messages && out[0].id == messageId
      ensures out != [] ==> Distinct(out) && forall m :: m in out <==> m in messages && Descends(messages, m, out[0])
      ensures out != [] ==> out == [out[0]] + RepliesInTurn(messages, out, |out|)
    {
      var found := Find(messageId, |messages|);
      if found.None? {
        return [];
      }
      var root := messages[found.value];
      out := [root];
      var frontier := [root.id];
      ghost var k := 0;
      WalkStart(messages, root);
      while frontier != []
        invariant Walking(messages, root, out, k, frontier)
        decreases |messages| - k
      {
        var current := frontier[0];
        var replies := Replies(messages, current);
        WalkOn(messages, root, out, k, frontier);
        out := out + replies;
        frontier := frontier[1..] + Ids(replies);
        k := k + 1;
      }
      WalkEnds(messages, root, out, k);
    }
  }

  // The state of the loop: the frontier holds the ids of what is waiting.
  ghost predicate Walking(messages: seq<Message>, root: Message, out: seq<Message>, k: nat, frontier: seq<string>) {
    Walked(messages, root, out, k) && InTurn(messages, root, out, k) && frontier == Ids(out[k..])
  }

  lemma WalkStart(messages: seq<Message>, root: Message)
    requires root in messages
    ensures Walking(messages, root, [root], 0, [root.id])
  {
  }

  lemma WalkOn(messages: seq<Message>, root: Message, out: seq<Message>, k: nat, frontier: seq<string>)
    requires Sound(messages) && Walking(messages, root, out, k, frontier) && frontier != []
    ensures k < |messages|
    ensures var more := Replies(messages, frontier[0]);
      Walking(messages, root, out + more, k + 1, frontier[1..] + Ids(more))
  {
    assert Distinct(messages);
    WalkStep(messages, root, out, k);
    TurnStep(messages, root, out, k);
    assert forall m :: m in out ==> m in messages;
    NoLongerThan(out, messages);
    NextIds(out, k, Replies(messages, out[k].id));
  }

  lemma NextIds(out: seq<Message>, k: nat, more: seq<Message>)
    requires k < |out|
    ensures Ids(out[k..])[0] == out[k].id && Ids(out[k..])[1..] + Ids(more) == Ids((out + more)[k + 1..])
  {
  }

  lemma WalkEnds(messages: seq<Message>, root: Message, out: seq<Message>, k: nat)
    requires Walking(messages, root, out, k, [])
    ensures k == |out| && out[0] == root && Distinct(out) && out == [root] + RepliesInTurn(messages, out, k)
    ensures forall m :: m in out <==> m in messages && Descends(messages, m, root)
  {
    assert k == |out|;
    forall m | m in messages && Descends(messages, m, root) ensures m in out {
      WalkIsComplete(messages, root, out, m);
    }
  }

  lemma AnswerKeepsSound(messages: seq<Message>, i: nat)
    requires Sound(messages) && i < |messages|
    ensures Sound(messages[i := messages[i].(answered := true)])
  {
    var after := messages[i := messages[i].(answered := true)];
    forall m, p | m in after && p in after && RepliesTo(m, p) ensures p.created < m.created {
      var j :| 0 <= j < |after| && after[j] == m;
      var k :| 0 <= k < |after| && after[k] == p;
      assert RepliesTo(messages[j], messages[k]);
      assert messages[j] in messages && messages[k] in messages;
    }
  }
}
