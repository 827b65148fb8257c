/** The client's chat state (`devtalkx-frontend/src/utils/chatSlice.js`): for each other user,
    the messages of the conversation with them. The reducers assign into the state in place. */
module ChatSlice {
  type UserId = string

  class ChatState<M> {
    var chats: map<UserId, seq<M>>

    /** The initial state `{}`. */
    constructor ()
      ensures chats == map[]
    {
      chats := map[];
    }

    /** `setChat`: the conversation with `target` becomes `messages`; no other one changes. */
    method SetChat(target: UserId, messages: seq<M>)
      modifies this
      ensures target in chats && chats[target] == messages
      ensures forall k :: k != target ==> (k in chats <==> k in old(chats)) && (k in chats ==> chats[k] == old(chats)[k])
    {
      chats := chats[target := messages];
    }

    /** `addMessage`: an absent conversation is first started empty, then the message is
        pushed onto its end; no other conversation changes. */
    method AddMessage(target: UserId, message: M)
      modifies this
      ensures target in chats
      ensures target !in old(chats) ==> chats[target] == [message]
      ensures target in old(chats) ==> chats[target] == old(chats)[target] + [message]
      ensures |chats[target]| == (if target in old(chats) then |old(chats)[target]| else 0) + 1
      ensures forall k :: k != target ==> (k in chats <==> k in old(chats)) && (k in chats ==> chats[k] == old(chats)[k])
    {
      if target !in chats {
        chats := chats[target := []];
      }
      chats := chats[target := chats[target] + [message]];
    }

    /** `clearChat`: back to `{}`, whatever the state was. */
    method ClearChat()
      modifies this
      ensures chats == map[]
    {
      chats := map[];
    }
  }
}
