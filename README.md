# Chat cache slice

This project models the chat slice of the client store in `src/lib/api/chats.ts`.
The slice has three parts:

- `chats`: a cache of chat entries keyed by chat id. An entry is a loaded chat, a failed load with its message, or a tombstone.
- `userChats`: the index of the user's chats. It is absent, an error, or the list of chat ids.
- `loadingChats`: the private set of chat ids whose fetch has started.

Module `Chats` (`chats.dfy`) defines the chat record and the chat schema as a predicate (`IsValidChat`).
It defines the store updates as functions on maps: `WithChat` for one `addChat`, `WithAll` for the `forEach` over an index response.
The slice itself is the class `ChatsSlice`, with one method per operation.

Each asynchronous operation is split at its `await`.
`BeginLoadChat` and `BeginLoadChats` are the synchronous check (and, for `loadChat`, the mark) before the request.
`FinishLoadChat` and `FinishLoadChats` are the write after it.
The request and its schema validation are one input, an `Errorable` value that is either `Ok(value)` or `Err(message)`.

A ghost field `inFlight` records the ids whose `loadChat` request has been issued and has not yet resolved.
The invariant `Valid()` ties it to `loadingChats`.
From that, `BeginLoadChat` proves that it never issues a second request for an id while one is outstanding.
`Valid()` also states that an id still marked as loading with no outstanding request has an entry.
It states that every loaded entry holds a valid chat under that chat's own id.
And it states that every id of a successfully loaded index is a key of `chats`.

Module `ChatsScenarios` (`chats_scenarios.dfy`) holds clients that replay call orders made by the view layer.
These include the two behaviours of the source that are kept as written:

- A failed `loadChat(id)` stores the error but leaves `id` in `loadingChats`.
- A successful `loadChat(id)` stores the chat under the response's `_id`. If that differs from `id`, the next `loadChat(id)` fetches again.

Behaviours of the code worth knowing:

- `loadChat` does not clear `loadingChats` on the error path (`src/lib/api/chats.ts:93-101` returns before `:103`). The leftover mark never decides a fetch, because the failed id always has an entry. `Valid()` states this, and `ChatsScenarios.LeftoverMarkHasEntry` derives it.
- Neither `loadChat` nor `loadChats` takes a force flag. A cached entry or index is never re-fetched.
- `addChat` overwrites any entry, tombstones included (`src/lib/api/chats.ts:52-55`).
- After an overlapping `loadChat` fails, an id listed in the index can hold a `Failed` entry. So the model's index invariant promises only that each listed id is a key of `chats`. At the moment the index is committed, `FinishLoadChats` does guarantee a `Loaded` entry for each listed id.

## Model

| member | source | states |
|---|---|---|
| `Chats.IsValidChat` | src/lib/api/chats.ts:6-27 | A valid chat is not deleted. When it has an owner, any nickname (string or null) is allowed; otherwise both owner and nickname are null. |
| `Chats.ValidChatShape` | src/lib/api/chats.ts:6-27 | The schema union is the same as "not deleted, and a chat without an owner has no nickname". |
| `Chats.WithChat` | src/lib/api/chats.ts:50-56 | Adding a chat makes its `_id` a key holding `Loaded(c)`. Every other key keeps its entry. The key set grows by exactly that id. |
| `Chats.WithAll` | src/lib/api/chats.ts:71-73 | The store after `addChat` of each returned chat, first to last: no key is lost, and the last returned chat sits under its own id. |
| `Chats.Ids` | src/lib/api/chats.ts:80 | The returned chats' ids: same length as the response, in response order. |
| `Chats.WithAllKeys` | src/lib/api/chats.ts:70-73 | After the `forEach` of `addChat`, the store's keys are the old keys plus the ids of the returned chats. |
| `Chats.IndexCovered` | src/lib/api/chats.ts:70-82 | Every id in the committed index (`autoget.map(_id)`) is a key of the store filled by the same response. |
| `Chats.WithAllUntouched` | src/lib/api/chats.ts:70-73 | A key carried by no returned chat keeps its old entry, or stays absent. |
| `Chats.WithAllLast` | src/lib/api/chats.ts:71-73 | A key carried by returned chats holds the last returned chat with that id, because later `addChat` calls overwrite earlier ones. |
| `Chats.WithAllCoherent` | src/lib/api/chats.ts:50-56 | Adding schema-valid chats keeps every loaded entry valid and keyed by its own `_id`. |
| `Chats.ChatsSlice.constructor` | src/lib/api/chats.ts:46-49 | Initially `userChats` is undefined, `chats` is empty and `loadingChats` is empty. |
| `Chats.ChatsSlice.AddChat` | src/lib/api/chats.ts:50-56 | `chats[c._id]` becomes `Loaded(c)` and the invariant is kept. The frame leaves the other keys, `userChats` and `loadingChats` unchanged. |
| `Chats.ChatsSlice.BeginLoadChats` | src/lib/api/chats.ts:58-62 | A request is issued exactly when `userChats` is undefined. A success or error index stops it. |
| `Chats.ChatsSlice.FinishLoadChats` | src/lib/api/chats.ts:70-82 | On success every returned chat is added in order, and each listed id then holds a loaded entry. Only after that is `userChats` set to the ids in response order. On failure `userChats` becomes the error and `chats` is untouched. |
| `Chats.ChatsSlice.BeginLoadChat` | src/lib/api/chats.ts:84-92 | A request is issued exactly when `id` has no entry and is not loading. When it is issued, `id` is added to `loadingChats` before the request and no other request for `id` is outstanding. Otherwise nothing changes. |
| `Chats.ChatsSlice.FinishLoadChat` | src/lib/api/chats.ts:93-103 | On failure `chats[id]` becomes `Failed(message)` and `id` stays in `loadingChats`. On success the chat is added under its own `_id` and `id` leaves `loadingChats`. |
| `ChatsScenarios.LeftoverMarkHasEntry` | src/lib/api/chats.ts:85-103 | An id that stays in `loadingChats` after its request resolved (the failed-load path) has an entry in `chats`. So the `loadChat` test at line 85 gives the same answer as it would with only the outstanding requests marked: the leftover mark never changes a fetch decision. |
| `ChatsScenarios.ConcurrentLoadChat` | src/lib/api/chats.ts:84-92 | Of two `loadChat(id)` calls before any response, the second issues no request. |
| `ChatsScenarios.FailedLoadIsFinal` | src/lib/api/chats.ts:85-101 | After a failed load the error is cached and `id` stays loading. A later `loadChat(id)` issues no request. |
| `ChatsScenarios.MismatchedIdRefetches` | src/lib/api/chats.ts:85-103 | A success whose `_id` differs from the requested id stores the chat under its `_id`. The requested id is left without an entry and is fetched again. |
| `ChatsScenarios.LoadChatsAtMostOnce` | src/lib/api/chats.ts:58-82 | In sequential use, `loadChats()` issues no second index request, whatever the outcome of the first. |
| `ChatsScenarios.IndexFailureKeepsStore` | src/lib/api/chats.ts:70-82 | A failed index request leaves `chats` unchanged and records the message as the index. |
| `ChatsScenarios.LoadChatOne` | src/lib/api/chats.ts:84-103 | On a fresh slice, `loadChat("chat-1")` answered with a valid record stores exactly that record. A second call made while the first is pending issues no request. |

## Left out

- The network request, the URL building with `encodeURIComponent`, the `Token` header taken from the credentials, and zod parsing are not modelled. Their combined outcome is the `Errorable` parameter of the Finish methods. `request` and `Errorable` come from `./utils`, which is not part of this model.
- Async interleaving and zustand's `set`/`get`/subscription machinery are not modelled. They become explicit Begin/Finish calls on one object. Any interleaving of those calls is allowed, as long as each `FinishLoadChat(id, …)` follows its own `BeginLoadChat(id)`.
- `loadChats` has no in-flight guard. Two overlapping calls can both fetch the index, and the model does not claim otherwise. "At most once" is proved only for sequential use.
- The `number` fields of a chat (`created`, `last_active`, `type`) are modelled as integers, not as floating point.
- JavaScript's `in` check at line 85 also finds names inherited from `Object.prototype` (such as `toString`). The model treats `chats` as a map with its own keys only.
- Schema validation is a precondition: `AddChat`, `FinishLoadChat` and `FinishLoadChats` require schema-valid chats. That is what the `Chat` type and the validated response guarantee in the source.
- The tombstone `{deleted: true}` is part of `Entry` only. No operation of the slice writes one.
- `loadUser`, `post`, `loadChatPosts` and the React components in `src/components/` are not modelled. The components only read the store and trigger loads. Their state is UI-only.
