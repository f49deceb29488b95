/** The `Message` record of the two TypeScript services: a role and a text. */
module Conversation {
  import opened Wrappers

  datatype Role = User | Assistant | System

  datatype Message = Message(role: Role, content: string)

  /** Index of the first message with role `user`, or |messages| if none. */
  function FirstUserIndex(messages: seq<Message>): (r: nat)
    ensures r <= |messages|
    ensures forall j :: 0 <= j < r ==> messages[j].role != User
    ensures r < |messages| ==> messages[r].role == User
  {
    if messages == [] then 0
    else if messages[0].role == User then 0
    else 1 + FirstUserIndex(messages[1..])
  }

  /** `messages.find(m => m.role === 'user')`. */
  function FirstUser(messages: seq<Message>): (r: Option<Message>)
    ensures r.None? <==> forall j :: 0 <= j < |messages| ==> messages[j].role != User
    ensures r.Some? ==> exists i ::
              && 0 <= i < |messages| && r.value == messages[i] && messages[i].role == User
              && forall j :: 0 <= j < i ==> messages[j].role != User
  {
    var i := FirstUserIndex(messages);
    if i < |messages| then Some(messages[i]) else None
  }

  /** Index of the last message with role `user`, or -1 if none. */
  function LastUserIndex(messages: seq<Message>): (r: int)
    ensures -1 <= r < |messages|
    ensures r >= 0 ==> messages[r].role == User
    ensures forall j :: r < j < |messages| ==> messages[j].role != User
    decreases |messages|
  {
    if messages == [] then -1
    else if messages[|messages| - 1].role == User then |messages| - 1
    else LastUserIndex(messages[..|messages| - 1])
  }

  /** `[...messages].reverse().find(m => m.role === 'user')`: the last
      message with role `user`. */
  function LastUser(messages: seq<Message>): (r: Option<Message>)
    ensures r.None? <==> forall j :: 0 <= j < |messages| ==> messages[j].role != User
    ensures r.Some? ==> r.value.role == User && r.value == messages[LastUserIndex(messages)]
  {
    var i := LastUserIndex(messages);
    if i >= 0 then Some(messages[i]) else None
  }

  /** The user message that no later user message follows is the one found. */
  lemma LastUserAt(messages: seq<Message>, i: nat)
    requires i < |messages| && messages[i].role == User
    requires forall j :: i < j < |messages| ==> messages[j].role != User
    ensures LastUser(messages) == Some(messages[i])
  {
    assert LastUserIndex(messages) == i;
  }
}
