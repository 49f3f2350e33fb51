/**
 * The chat cache slice of the client store: the per-chat entries, the
 * index of the user's chats, and the set of chat ids whose fetch has been
 * started. The network request and the schema validation are collapsed
 * into one `Errorable` value that the caller passes in; each asynchronous
 * operation is split at its `await` into a Begin and a Finish method.
 */
module Chats {

  datatype Option<T> = None | Some(value: T)

  /** The outcome of a validated request: a value, or an error with a message. */
  datatype Errorable<T> = Ok(value: T) | Err(message: string)

  /**
   * A chat record as the server sends it. `kind` is the wire field `type`;
   * `null` is `None`. Numbers are modelled as integers.
   */
  datatype Chat = Chat(
    created: int,
    deleted: bool,
    lastActive: int,
    members: seq<string>,
    kind: int,
    id: string,
    nickname: Option<string>,
    owner: Option<string>)

  /**
   * The chat schema: a chat that is not deleted and matches one of the two
   * alternatives of the union, `{nickname: string | null, owner: string}`
   * or `{nickname: null, owner: null}`.
   */
  predicate IsValidChat(c: Chat): (r: bool)
    ensures r ==> !c.deleted
    ensures c.owner.Some? ==> (r <==> !c.deleted)
  {
    !c.deleted
    && (c.owner.Some? || (c.nickname.None? && c.owner.None?))
  }

  /** The union collapses to "a chat without owner has no nickname". */
  lemma ValidChatShape(c: Chat)
    ensures IsValidChat(c) <==> !c.deleted && (c.owner.None? ==> c.nickname.None?)
  {
  }

  predicate AllValid(cs: seq<Chat>) {
    forall i :: 0 <= i < |cs| ==> IsValidChat(cs[i])
  }

  /**
   * One entry of the chat store: a loaded chat (stored with `error: false`),
   * a failed load carrying its message, or a deletion tombstone. No
   * operation of the slice writes a tombstone.
   */
  datatype Entry = Loaded(chat: Chat) | Failed(message: string) | Tombstone

  type ChatMap = map<string, Entry>

  /** Every loaded entry holds a valid chat and sits under that chat's own id. */
  ghost predicate Coherent(m: ChatMap) {
    forall k :: k in m && m[k].Loaded? ==> m[k].chat.id == k && IsValidChat(m[k].chat)
  }

  /** The store after `addChat(c)`: `c` is stored under its own id. */
  function WithChat(m: ChatMap, c: Chat): (r: ChatMap)
    ensures r.Keys == m.Keys + {c.id}
    ensures r[c.id] == Loaded(c)
    ensures forall k :: k in m && k != c.id ==> r[k] == m[k]
  {
    m[c.id := Loaded(c)]
  }

  /** The store after adding every chat of `cs`, first to last. */
  function WithAll(m: ChatMap, cs: seq<Chat>): (r: ChatMap)
    ensures m.Keys <= r.Keys
    ensures cs != [] ==> cs[|cs| - 1].id in r && r[cs[|cs| - 1].id] == Loaded(cs[|cs| - 1])
    decreases |cs|
  {
    if cs == [] then m else WithChat(WithAll(m, cs[..|cs| - 1]), cs[|cs| - 1])
  }

  /** The ids of `cs`, in order. */
  function Ids(cs: seq<Chat>): (ids: seq<string>)
    ensures |ids| == |cs| && forall i :: 0 <= i < |cs| ==> ids[i] == cs[i].id
  {
    seq(|cs|, i requires 0 <= i < |cs| => cs[i].id)
  }

  /** Adding a list of chats adds exactly their ids to the keys. */
  lemma {:induction false} WithAllKeys(m: ChatMap, cs: seq<Chat>)
    ensures WithAll(m, cs).Keys == m.Keys + set i | 0 <= i < |cs| :: cs[i].id
  {
    if cs != [] {
      var n := |cs| - 1;
      WithAllKeys(m, cs[..n]);
      assert (set i | 0 <= i < |cs| :: cs[i].id)
          == (set i | 0 <= i < n :: cs[..n][i].id) + {cs[n].id};
    }
  }

  /** Every id of the index response is a key of the store once the chats are added. */
  lemma IndexCovered(m: ChatMap, cs: seq<Chat>)
    ensures forall i :: 0 <= i < |Ids(cs)| ==> Ids(cs)[i] in WithAll(m, cs)
  {
    WithAllKeys(m, cs);
    forall i | 0 <= i < |Ids(cs)|
      ensures Ids(cs)[i] in WithAll(m, cs)
    {
      assert cs[i].id in set j | 0 <= j < |cs| :: cs[j].id;
    }
  }

  /** A key that no chat of `cs` carries keeps its old entry (or stays absent). */
  lemma {:induction false} WithAllUntouched(m: ChatMap, cs: seq<Chat>, k: string)
    requires forall i :: 0 <= i < |cs| ==> cs[i].id != k
    ensures k in WithAll(m, cs) <==> k in m
    ensures k in m ==> WithAll(m, cs)[k] == m[k]
  {
    if cs != [] {
      WithAllUntouched(m, cs[..|cs| - 1], k);
    }
  }

  /**
   * Last write wins: a key carried by some chat of `cs` ends up holding the
   * last chat of `cs` with that id.
   */
  lemma {:induction false} WithAllLast(m: ChatMap, cs: seq<Chat>, k: string)
    requires exists i :: 0 <= i < |cs| && cs[i].id == k
    ensures k in WithAll(m, cs)
    ensures exists j :: 0 <= j < |cs| && cs[j].id == k && WithAll(m, cs)[k] == Loaded(cs[j])
                        && forall j' :: j < j' < |cs| ==> cs[j'].id != k
  {
    var n := |cs| - 1;
    if cs[n].id == k {
      assert WithAll(m, cs)[k] == Loaded(cs[n]);
    } else {
      var i :| 0 <= i < |cs| && cs[i].id == k;
      assert cs[..n][i].id == k;
      WithAllLast(m, cs[..n], k);
      var j :| 0 <= j < n && cs[..n][j].id == k && WithAll(m, cs[..n])[k] == Loaded(cs[..n][j])
               && forall j' :: j < j' < n ==> cs[..n][j'].id != k;
      assert WithAll(m, cs)[k] == Loaded(cs[j]);
      forall j' | j < j' < |cs|
        ensures cs[j'].id != k
      {
        if j' < n {
          assert cs[..n][j'] == cs[j'];
        }
      }
    }
  }

  /** Adding valid chats keeps every loaded entry valid and under its own id. */
  lemma {:induction false} WithAllCoherent(m: ChatMap, cs: seq<Chat>)
    requires Coherent(m) && AllValid(cs)
    ensures Coherent(WithAll(m, cs))
  {
    if cs != [] {
      var n := |cs| - 1;
      assert AllValid(cs[..n]) by {
        forall i | 0 <= i < n ensures IsValidChat(cs[..n][i]) {
          assert cs[..n][i] == cs[i];
        }
      }
      WithAllCoherent(m, cs[..n]);
    }
  }

  /**
   * The chats slice of the store. `inFlight` is ghost bookkeeping: the ids
   * whose `loadChat` request has been issued and has not yet resolved.
   */
  class ChatsSlice {
    var chats: ChatMap
    var userChats: Option<Errorable<seq<string>>>
    var loadingChats: set<string>
    ghost var inFlight: set<string>

    /**
     * The slice invariant: loaded entries are valid and keyed by their own id,
     * every outstanding request is marked as loading, an id still marked
     * as loading with no outstanding request (left by a failed load) has an
     * entry, and every id of a loaded index is a key of the store.
     */
    ghost predicate Valid()
      reads this
    {
      Coherent(chats)
      && inFlight <= loadingChats
      && loadingChats - inFlight <= chats.Keys
      && (userChats.Some? && userChats.value.Ok? ==>
            forall i :: 0 <= i < |userChats.value.value| ==> userChats.value.value[i] in chats)
    }

    /** The initial state: no index, no chats, nothing loading. */
    constructor ()
      ensures Valid()
      ensures userChats == None && chats == map[] && loadingChats == {}
      ensures inFlight == {}
    {
      userChats := None;
      chats := map[];
      loadingChats := {};
      inFlight := {};
    }

    /** `addChat`: store `c` under its own id; nothing else changes. */
    method AddChat(c: Chat)
      requires Valid() && IsValidChat(c)
      modifies this`chats
      ensures Valid()
      ensures chats == WithChat(old(chats), c)
    {
      chats := chats[c.id := Loaded(c)];
    }

    /** `loadChats` up to its request: it fetches only when there is no index yet. */
    method BeginLoadChats() returns (issued: bool)
      ensures issued <==> userChats.None?
    {
      issued := !userChats.Some?;
    }

    /**
     * `loadChats` after its request resolves: on success every returned chat
     * is added, in order, and then the index is committed with their ids in
     * response order; on failure only the index is set, to the error.
     */
    method FinishLoadChats(resp: Errorable<seq<Chat>>)
      requires Valid()
      requires resp.Ok? ==> AllValid(resp.value)
      modifies this`chats, this`userChats
      ensures Valid()
      ensures resp.Ok? ==> chats == WithAll(old(chats), resp.value)
                           && userChats == Some(Ok(Ids(resp.value)))
      ensures resp.Ok? ==> forall k :: k in Ids(resp.value) ==> k in chats && chats[k].Loaded?
      ensures resp.Err? ==> chats == old(chats) && userChats == Some(Err(resp.message))
    {
      if resp.Ok? {
        var cs := resp.value;
        var i := 0;
        while i < |cs|
          invariant 0 <= i <= |cs|
          invariant Valid()
          invariant userChats == old(userChats)
          invariant chats == WithAll(old(chats), cs[..i])
        {
          assert cs[..i + 1][..i] == cs[..i];
          AddChat(cs[i]);
          i := i + 1;
        }
        assert cs[..|cs|] == cs;
        IndexCovered(old(chats), cs);
        forall k | k in Ids(cs)
          ensures k in chats && chats[k].Loaded?
        {
          WithAllLast(old(chats), cs, k);
        }
        userChats := Some(Ok(Ids(cs)));
      } else {
        userChats := Some(Err(resp.message));
      }
    }

    /**
     * `loadChat(id)` up to its request: nothing happens when `id` already has
     * an entry (loaded or failed) or is already loading; otherwise `id` is
     * marked as loading before the request is issued, and no other request
     * for `id` is outstanding.
     */
    method BeginLoadChat(id: string) returns (issued: bool)
      requires Valid()
      modifies this`loadingChats, this`inFlight
      ensures Valid()
      ensures issued <==> id !in old(chats) && id !in old(loadingChats)
      ensures issued ==> id !in old(inFlight)
      ensures loadingChats == if issued then old(loadingChats) + {id} else old(loadingChats)
      ensures inFlight == if issued then old(inFlight) + {id} else old(inFlight)
    {
      if id in chats || id in loadingChats {
        return false;
      }
      loadingChats := loadingChats + {id};
      inFlight := inFlight + {id};
      issued := true;
    }

    /**
     * `loadChat(id)` after its request resolves. On failure the error is
     * stored under `id` and `id` stays in `loadingChats`; on success the chat
     * is added under its own id (which may differ from `id`) and `id` leaves
     * `loadingChats`.
     */
    method FinishLoadChat(id: string, resp: Errorable<Chat>)
      requires Valid()
      requires id in inFlight
      requires resp.Ok? ==> IsValidChat(resp.value)
      modifies this`chats, this`loadingChats, this`inFlight
      ensures Valid()
      ensures inFlight == old(inFlight) - {id}
      ensures resp.Err? ==> chats == old(chats)[id := Failed(resp.message)]
                            && loadingChats == old(loadingChats)
      ensures resp.Ok? ==> chats == WithChat(old(chats), resp.value)
                           && loadingChats == old(loadingChats) - {id}
    {
      if resp.Err? {
        chats := chats[id := Failed(resp.message)];
        inFlight := inFlight - {id};
        return;
      }
      AddChat(resp.value);
      loadingChats := loadingChats - {id};
      inFlight := inFlight - {id};
    }
  }
}
