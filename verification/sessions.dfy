/** The in-memory `conversations` dict of `app.py`: a map from session id to
    the turns of that session, appended to by a chat, read by the history
    route and dropped by the clear route. */
module Sessions {

  /** One stored exchange: the dict a chat appends. */
  datatype Turn = Turn(timestamp: string, question: string, answer: string, mode: string, sources: seq<string>)

  type Conversations = map<string, seq<Turn>>

  /** The store when the server starts. */
  const NoConversations: Conversations := map[]

  /** `get_history(session_id)`: the session's turns, and an empty list for
      an unknown session rather than an error. */
  function History(conversations: Conversations, sessionId: string): (messages: seq<Turn>)
    ensures sessionId !in conversations ==> messages == []
    ensures sessionId in conversations ==> messages == conversations[sessionId]
  {
    if sessionId in conversations then conversations[sessionId] else []
  }

  /** The bookkeeping at the end of a chat: create the session's list when
      it is missing, then append the turn. */
  function AppendTurn(conversations: Conversations, sessionId: string, turn: Turn): (after: Conversations)
    ensures after.Keys == conversations.Keys + {sessionId}
    ensures after[sessionId] == History(conversations, sessionId) + [turn]
    ensures forall other :: other in conversations && other != sessionId ==> after[other] == conversations[other]
  {
    var turns := if sessionId in conversations then conversations[sessionId] else [];
    conversations[sessionId := turns + [turn]]
  }

  /** The reply of the clear route: whether the session existed and the message. */
  datatype Cleared = Cleared(conversations: Conversations, message: string)

  const ClearedPrefix: string := "History cleared for session "
  const NotFound: string := "Session not found"

  /** `clear_history(session_id)`: drop the session if present. */
  function ClearHistory(conversations: Conversations, sessionId: string): (r: Cleared)
    ensures r.conversations.Keys == conversations.Keys - {sessionId}
    ensures forall other :: other in r.conversations ==> r.conversations[other] == conversations[other]
    ensures sessionId in conversations <==> r.message != NotFound
    ensures sessionId in conversations ==>
      |r.message| == |ClearedPrefix| + |sessionId| && r.message[..|ClearedPrefix|] == ClearedPrefix
      && r.message[|ClearedPrefix|..] == sessionId
  {
    if sessionId in conversations then
      var message := ClearedPrefix + sessionId;
      assert message[..|ClearedPrefix|] == ClearedPrefix;
      assert message[|ClearedPrefix|..] == sessionId;
      assert message[0] != NotFound[0];
      Cleared(conversations - {sessionId}, message)
    else
      Cleared(conversations, NotFound)
  }

  /** A fresh store knows no session. */
  lemma NoHistoryAtStart(sessionId: string)
    ensures History(NoConversations, sessionId) == []
  {
  }

  /** The history of a session after a chat is its earlier history plus the
      new turn at the end, and every other session reads as before. */
  lemma HistoryAfterRecord(conversations: Conversations, sessionId: string, turn: Turn, other: string)
    ensures History(AppendTurn(conversations, sessionId, turn), sessionId) == History(conversations, sessionId) + [turn]
    ensures other != sessionId ==> History(AppendTurn(conversations, sessionId, turn), other) == History(conversations, other)
  {
  }

  /** After clearing, the session reads as empty, every other session reads
      as before, and a second clear finds nothing. */
  lemma HistoryAfterClear(conversations: Conversations, sessionId: string, other: string)
    ensures History(ClearHistory(conversations, sessionId).conversations, sessionId) == []
    ensures other != sessionId ==>
      History(ClearHistory(conversations, sessionId).conversations, other) == History(conversations, other)
    ensures ClearHistory(ClearHistory(conversations, sessionId).conversations, sessionId)
      == Cleared(ClearHistory(conversations, sessionId).conversations, NotFound)
  {
  }

  /** Clearing an unknown session changes nothing. */
  lemma ClearUnknown(conversations: Conversations, sessionId: string)
    requires sessionId !in conversations
    ensures ClearHistory(conversations, sessionId) == Cleared(conversations, NotFound)
  {
  }
}
