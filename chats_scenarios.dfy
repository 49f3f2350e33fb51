/**
 * Clients of the chat slice that replay the orders in which the view layer
 * triggers loads, and what the slice's contracts let them conclude.
 */
module ChatsScenarios {
  import opened Chats

  /**
   * The mark a failed load leaves in `loadingChats` never decides a fetch:
   * an id that is marked as loading with no outstanding request has an
   * entry, which stops `loadChat` on its own.
   */
  lemma LeftoverMarkHasEntry(s: ChatsSlice, id: string)
    requires s.Valid()
    ensures id in s.loadingChats && id !in s.inFlight ==> id in s.chats
    ensures (id in s.chats || id in s.loadingChats) <==> (id in s.chats || id in s.inFlight)
  {
  }

  /** Two `loadChat(id)` calls made before the first request resolves: only the first fetches. */
  method ConcurrentLoadChat(s: ChatsSlice, id: string) returns (first: bool, second: bool)
    requires s.Valid()
    modifies s
    ensures s.Valid()
    ensures first <==> id !in old(s.chats) && id !in old(s.loadingChats)
    ensures !second
    ensures id in s.chats || id in s.loadingChats
  {
    first := s.BeginLoadChat(id);
    second := s.BeginLoadChat(id);
  }

  /**
   * A failed `loadChat(id)` is final: the error is cached under `id`, `id`
   * stays marked as loading, and a later call does not fetch again.
   */
  method FailedLoadIsFinal(s: ChatsSlice, id: string, message: string) returns (retried: bool)
    requires s.Valid()
    requires id !in s.chats && id !in s.loadingChats
    modifies s
    ensures s.Valid()
    ensures s.chats == old(s.chats)[id := Failed(message)]
    ensures id in s.loadingChats
    ensures !retried
  {
    var issued := s.BeginLoadChat(id);
    s.FinishLoadChat(id, Err(message));
    retried := s.BeginLoadChat(id);
  }

  /**
   * A successful `loadChat(id)` whose response carries a different `_id`
   * leaves `id` without an entry and no longer loading, so the next call
   * fetches it again.
   */
  method MismatchedIdRefetches(s: ChatsSlice, id: string, c: Chat) returns (refetched: bool)
    requires s.Valid()
    requires id !in s.chats && id !in s.loadingChats
    requires IsValidChat(c) && c.id != id
    modifies s
    ensures s.Valid()
    ensures c.id in s.chats && s.chats[c.id] == Loaded(c)
    ensures refetched
  {
    var issued := s.BeginLoadChat(id);
    s.FinishLoadChat(id, Ok(c));
    refetched := s.BeginLoadChat(id);
  }

  /**
   * `loadChats()` run to completion and then called again: the second call
   * issues no request, whatever the first one's outcome.
   */
  method LoadChatsAtMostOnce(s: ChatsSlice, resp: Errorable<seq<Chat>>) returns (second: bool)
    requires s.Valid()
    requires resp.Ok? ==> AllValid(resp.value)
    modifies s
    ensures s.Valid()
    ensures s.userChats.Some?
    ensures !second
  {
    var first := s.BeginLoadChats();
    if first {
      s.FinishLoadChats(resp);
    }
    second := s.BeginLoadChats();
  }

  /**
   * A failed index request leaves the store untouched and records the
   * transport's message as the index.
   */
  method IndexFailureKeepsStore(s: ChatsSlice, message: string)
    requires s.Valid() && s.userChats.None?
    modifies s
    ensures s.Valid()
    ensures s.chats == old(s.chats)
    ensures s.userChats == Some(Err(message))
  {
    var issued := s.BeginLoadChats();
    if issued {
      s.FinishLoadChats(Err(message));
    }
  }

  /** The `"chat-1"` record of the single-chat scenario: a chat with no owner and no nickname. */
  function ChatOne(): (c: Chat)
    ensures IsValidChat(c) && c.id == "chat-1"
  {
    Chat(100, false, 100, ["u1"], 0, "chat-1", None, None)
  }

  /**
   * On a fresh slice, `loadChat("chat-1")` answered with a valid record stores
   * exactly that record, and a second call made while the first is pending
   * issues no request.
   */
  method LoadChatOne() returns (entry: Entry, second: bool)
    ensures entry == Loaded(ChatOne())
    ensures !second
  {
    var s := new ChatsSlice();
    var first := s.BeginLoadChat("chat-1");
    second := s.BeginLoadChat("chat-1");
    s.FinishLoadChat("chat-1", Ok(ChatOne()));
    entry := s.chats["chat-1"];
  }
}
