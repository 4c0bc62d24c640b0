/**
 * The in-memory conversation manager for multi-turn chat
 * (`src/reasoning/conversation.py`): sessions keyed by id, each a list of
 * messages that only ever grows at its end, the recent history of a session
 * and the message list handed to the chat model.
 *
 * The random session id (`uuid4`) is a parameter of `CreateSession`.
 */
module Conversation {
  import opened Wrappers
  import opened Sources

  /** One turn of a conversation. */
  datatype Message = Message(role: string, content: string, sources: Option<seq<Source>>)

  /** One entry of the list handed to the chat model: `{"role": …, "content": …}`. */
  datatype ChatEntry = ChatEntry(role: string, content: string)

  /** The history length `build_gpt_messages` asks for. */
  const DefaultLimit: int := 5

  /** Python's `xs[start:]` for any integer `start`: a negative start counts
      from the end and is clipped at the front, a start past the end gives
      the empty list. */
  function SliceFrom<T(==)>(xs: seq<T>, start: int): (r: seq<T>)
    ensures IsSuffixOf(r, xs)
  {
    if start < 0 then (if -start <= |xs| then xs[|xs| + start..] else xs)
    else if start <= |xs| then xs[start..]
    else []
  }

  predicate IsSuffixOf<T(==)>(r: seq<T>, xs: seq<T>) {
    |r| <= |xs| && r == xs[|xs| - |r|..]
  }

  /** The last user turn: the retrieved context and the question. */
  function ContextPrompt(context: string, query: string): string {
    "Context:\n" + context + "\n\nQuestion: " + query
  }

  class ConversationManager {
    /** session id -> the messages of that session, oldest first */
    var sessions: map<string, seq<Message>>

    constructor()
      ensures sessions == map[]
    {
      sessions := map[];
    }

    /** `create_session`: the new session starts empty; an id already in use
        (a repeated random id) has its session replaced by an empty one. */
    method CreateSession(freshId: string) returns (sessionId: string)
      modifies this
      ensures sessionId == freshId
      ensures sessions == old(sessions)[freshId := []]
    {
      sessionId := freshId;
      sessions := sessions[freshId := []];
    }

    /** `add_message`: fails, changing nothing, for an unknown session;
        otherwise appends the message to that session and to no other. */
    method AddMessage(sessionId: string, role: string, content: string, sources: Option<seq<Source>>)
      returns (r: Outcome<string>)
      modifies this
      ensures sessionId !in old(sessions) <==> r.Fail?
      ensures r.Fail? ==> r.error == "Session " + sessionId + " does not exist" && sessions == old(sessions)
      ensures r.Pass? ==> sessions == old(sessions)[sessionId := old(sessions)[sessionId] + [Message(role, content, sources)]]
    {
      if sessionId !in sessions {
        return Fail("Session " + sessionId + " does not exist");
      }
      sessions := sessions[sessionId := sessions[sessionId] + [Message(role, content, sources)]];
      r := Pass;
    }

    /** `get_history`: `sessions.get(session_id, [])[-limit:]`. A positive
        limit keeps the last `limit` messages (all of them when there are
        fewer), a limit of 0 keeps the whole session, a negative limit drops
        that many messages from the front; an unknown session has none. */
    function GetHistory(sessionId: string, limit: int): (r: seq<Message>)
      reads this
      ensures sessionId !in sessions ==> r == []
      ensures sessionId in sessions ==> IsSuffixOf(r, sessions[sessionId])
      ensures sessionId in sessions && limit > 0 ==>
                |r| == if limit < |sessions[sessionId]| then limit else |sessions[sessionId]|
      ensures sessionId in sessions && limit <= 0 ==>
                |r| == if -limit < |sessions[sessionId]| then |sessions[sessionId]| + limit else 0
    {
      SliceFrom(if sessionId in sessions then sessions[sessionId] else [], -limit)
    }

    /** `build_gpt_messages`: the system prompt, then the role and content of
        each of the last five messages of the session in order, then the
        context and question as a user turn; never more than seven entries,
        however long the session. */
    method BuildGptMessages(sessionId: string, systemPrompt: string, context: string, query: string)
      returns (messages: seq<ChatEntry>)
      ensures var history := GetHistory(sessionId, DefaultLimit);
              && |messages| == |history| + 2
              && messages[0] == ChatEntry("system", systemPrompt)
              && (forall k :: 0 <= k < |history| ==> messages[k + 1] == ChatEntry(history[k].role, history[k].content))
              && messages[|history| + 1] == ChatEntry("user", ContextPrompt(context, query))
      ensures |messages| <= DefaultLimit + 2
    {
      var history := GetHistory(sessionId, DefaultLimit);
      assert |history| <= DefaultLimit;
      messages := ChatMessages(systemPrompt, history, context, query);
    }
  }

  /** The body of `build_gpt_messages` once the history is fetched: the
      system prompt, one chat entry per history message in order (role and
      content only), then the context and question as a user turn. */
  method ChatMessages(systemPrompt: string, history: seq<Message>, context: string, query: string)
    returns (messages: seq<ChatEntry>)
    ensures |messages| == |history| + 2
    ensures messages[0] == ChatEntry("system", systemPrompt)
    ensures forall k :: 0 <= k < |history| ==> messages[k + 1] == ChatEntry(history[k].role, history[k].content)
    ensures messages[|history| + 1] == ChatEntry("user", ContextPrompt(context, query))
  {
    messages := [ChatEntry("system", systemPrompt)];
    var i := 0;
    while i < |history|
      invariant 0 <= i <= |history|
      invariant |messages| == i + 1
      invariant messages[0] == ChatEntry("system", systemPrompt)
      invariant forall k :: 0 <= k < i ==> messages[k + 1] == ChatEntry(history[k].role, history[k].content)
    {
      messages := messages + [ChatEntry(history[i].role, history[i].content)];
      i := i + 1;
    }
    messages := messages + [ChatEntry("user", ContextPrompt(context, query))];
  }

  /** Appending a message to a session makes it the last entry of the
      session's history for every limit above one, preceded by the last
      `limit - 1` messages of before. (For a limit of one the earlier history
      would be `[-0:]`, the whole session, so the limit starts at two.) */
  lemma AppendedIsLatest(before: seq<Message>, msg: Message, limit: int)
    requires limit > 1
    ensures var after := SliceFrom(before + [msg], -limit);
            && |after| > 0
            && after[|after| - 1] == msg
            && after[..|after| - 1] == SliceFrom(before, -(limit - 1))
  {
    var after := SliceFrom(before + [msg], -limit);
    if limit <= |before| + 1 {
      assert after[..|after| - 1] == before[|before| + 1 - limit..];
    } else {
      assert after == before + [msg];
    }
  }
}
