# Conversational-agent wrapper: chat memory, session table and text helpers

This project models the self-contained logic of a small wrapper around an
LLM agent framework:

- **`Conversation`** (`main.py`, class `ChatBot`): the bot's conversational
  memory. `Chat` hands the user's text to the agent executor. On success it
  appends a user message and an assistant message, then keeps only the last
  ten entries (`MaxHistory`, five exchanges). If the executor raises, `Chat`
  returns a fixed apology and leaves the history alone. If the executor's
  result has no `"output"` entry, the reply is the fixed default text. The
  executor is an oracle argument (`AgentOutcome = Raised | Returned(output)`).
  The bot invariant (`BotInvariant`, which is `ChatBot.Valid` and is also
  required of every history in the session table) says the history has
  even length, holds user turns at even indices and assistant turns at odd
  ones, and has at most ten entries.
- **`Api`** (`api.py`, `chat_sessions`): the REST facade's session table.
  It is a class holding a `map` from session id to `Session(createdAt,
  history)`, plus `order`, the ids in insertion order (the order in which a
  Python dict iterates). Its operations are `chat` (get or create the
  session, then answer), `create_session`, `get_session`, `clear_session`,
  `delete_session`, `list_sessions`, `get_history` and `health_check`. An
  unknown id gives `NotFound` (HTTP 404) and leaves the table unchanged.
  Fresh ids (`uuid4`) and creation stamps (`uuid1().time`) are parameters.
  A precondition that the fresh id is not in the table stands in for UUID
  uniqueness.
- **`Utils`** (`utils.py`): `truncate_text`, `count_tokens_estimate`,
  `validate_api_key` and `format_message_history`. Python's `s[:k]` is
  modelled with its negative-index meaning. `str.strip()` and `str.isspace`
  are written out by code point. `"\n\n".join` is modelled as `Join`.
- **`Wrappers`**: `Option`, which models Python's `None`.

A failed `chat` leaves the history unchanged (`main.py:110-113`), and once
the history holds ten messages a successful exchange keeps the length at
ten. The cap is the literal 10 at `main.py:105-106`. `MAX_HISTORY_LENGTH` in
`config.py` is never read.

In the API, a chat request whose `session_id` is the empty string also gets
a fresh id, because Python's `or` treats `""` as false (`ChosenId`).

## Model

| member | source | states |
|---|---|---|
| `Conversation.ChatBot.constructor` | main.py:40 | A new bot has an empty history, and the class invariant holds. |
| `Conversation.ChatBot.Chat` | main.py:80-113 | If the agent raised: the reply is exactly the apology and the history is unchanged. Otherwise: the reply is the agent's output, or the default text when it has none, and the history becomes `Recorded(old, input, reply)`. The invariant (alternating, at most 10) is kept whenever it held before. |
| `Conversation.ChatBot.ClearHistory` | main.py:115-118 | Afterwards the history is empty and the invariant holds. |
| `Conversation.ChatBot.GetHistory` | main.py:120-122 | Returns the current history and changes nothing. For a valid bot the returned history alternates, starting with the user, and holds at most 10 messages. |
| `Conversation.ReplyTo` | main.py:90-113 | The reply to one request: the apology when the agent raised, the default text when its result has no output, and otherwise the output itself. |
| `Conversation.AfterChat` | main.py:90-113 | The history after `chat`: unchanged when the agent raised. Otherwise its length is `min(\|old\|+2, 10)` and it ends with the user message followed by the reply. |
| `Conversation.Recorded` | main.py:101-106 | After a successful exchange the history length is `min(\|old\|+2, 10)` for any prior length. Its last two entries are the user input and the returned output. Before them come the most recent entries of the old history, in order. |
| `Conversation.RecordedKeepsAlternating` | main.py:101-106 | A pair is appended and an even number of entries is dropped, so an alternating history (even length, user at even indices, assistant at odd) stays alternating. |
| `Conversation.AfterChatBounded` | main.py:98-113 | A history of at most 10 messages still has at most 10 after `chat`, whatever the agent did. |
| `Conversation.AfterChatKeepsInvariant` | main.py:90-113 | Every chat outcome preserves "alternating and at most 10 entries". |
| `Conversation.FirstExchange` | main.py:101-102 | On an empty history, one successful exchange leaves exactly `[Human(input), AI(output)]`, so the length is 2. |
| `Api.ChosenId` | api.py:83 | A chat runs under the client's id when one is given and non-empty. A missing or empty id gives the freshly generated one. |
| `Api.Labelled` | api.py:184-190 | One entry per message, in order, carrying that message's text. The role is "user" at even indices and "assistant" at odd ones, by position only. |
| `Api.Info` | api.py:128-132 | A session's report carries its id, its bot's message count (the history length) and its creation stamp. The same record is built per entry at api.py:164-167. |
| `Api.LabelledMatchesSpeakers` | api.py:184-190 | On an alternating history, the positional label "user" marks exactly the user's messages and "assistant" exactly the assistant's. |
| `Api.LabelledNeedsAlternation` | api.py:186 | The labelling goes by position only: an assistant message at index 0 would be labelled "user". |
| `Api.Without` | api.py:153 | After `del`, the iteration order holds every id it held except the deleted one, and nothing new. |
| `Api.EnumeratesMembers` | api.py:161-169 | The iteration order mentions exactly the table's ids, each once, so it has one entry per session. |
| `Api.EnumeratesAppend` | api.py:86 | Inserting a new id appends it to the iteration order, which then enumerates the enlarged key set. |
| `Api.EnumeratesWithout` | api.py:153 | Deleting an id leaves an iteration order that enumerates the remaining keys. |
| `Api.SessionTable.constructor` | api.py:28 | The table starts empty. |
| `Api.SessionTable.HealthCheck` | api.py:67-70 | Reports "healthy" and the number of sessions. |
| `Api.SessionTable.Chat` | api.py:73-99 | The session id is the client's id if present and non-empty, otherwise the fresh one. An unknown id is inserted under exactly that id with an empty history and the given stamp, then the bot answers. A known id adds no entry and keeps its stamp. Only that session's history changes, as the bot's `chat` changes it. The reply is the bot's reply. |
| `Api.SessionTable.CreateSession` | api.py:105-117 | Adds exactly the fresh id, with an empty history and the given stamp. All other entries are unchanged. |
| `Api.SessionTable.GetSession` | api.py:120-132 | 404 exactly when the id is unknown. Otherwise returns the id, the history length as `message_count`, and the stamp. |
| `Api.SessionTable.ClearSession` | api.py:135-144 | 404 with the table unchanged exactly when the id is unknown. Otherwise only that session's history becomes empty. Its stamp, all other sessions and the order are unchanged. |
| `Api.SessionTable.DeleteSession` | api.py:147-155 | 404 exactly when the id is unknown. Afterwards the table is the old table without that id, and the order is the old order without it. On an unknown id the order is unchanged. |
| `Api.SessionTable.ListSessions` | api.py:158-170 | One entry per session, in insertion order, each with the session's id, message count and stamp. The listing length equals the table size, and the order lists exactly the table's ids. |
| `Api.SessionTable.GetHistory` | api.py:173-191 | 404 exactly when the id is unknown. Otherwise the entries have the history's length and contents in order, labelled "user" at even indices and "assistant" at odd ones. Since the history alternates, "user" marks exactly the user's messages. |
| `Utils.SliceTo` | utils.py:97 | Python's `s[:k]`: a prefix of `s`, of length `min(k, \|s\|)` for `k >= 0` and `max(0, \|s\|+k)` for negative `k`, which counts from the end. |
| `Utils.TruncateText` | utils.py:84-97 | Text no longer than the limit comes back unchanged. Longer text, with a limit of at least 3, comes back with exactly the limit's length: the first `limit-3` characters of the text followed by `"..."`. |
| `Utils.TruncateWithinLimit` | utils.py:95-97 | With a limit of at least 3, the result length is `min(\|text\|, limit)`, never above the limit. |
| `Utils.TruncateIdempotent` | utils.py:95-97 | With a limit of at least 3, truncating twice gives the same result as truncating once. |
| `Utils.TruncateShortLimitOverflows` | utils.py:97 | With a limit below 3, the slice bound is negative and counts from the end. Text longer than the limit then comes back with length `max(0, \|text\|+limit-3)+3`, which is above the limit. |
| `Utils.CountTokensEstimate` | utils.py:100-111 | The estimate `r` is the floor of length/4: `4r <= \|text\| < 4r+4`. |
| `Utils.CountTokensMonotone` | utils.py:111 | A text that is no shorter never gets a smaller estimate. |
| `Utils.StripLeading` | utils.py:128 | The result is a suffix of the input. Everything cut off is whitespace, and the result does not start with whitespace. |
| `Utils.StripTrailing` | utils.py:128 | The result is a prefix of the input. Everything cut off is whitespace, and the result does not end with whitespace. |
| `Utils.IsSpace` | utils.py:128 | Python's `str.isspace` for one character. Space, tab, newline and carriage return are whitespace. No printable ASCII character is. Every whitespace code point is at most U+3000. |
| `Utils.Strip` | utils.py:128 | `str.strip()`: the contiguous slice of the input left after a whitespace-only prefix and a whitespace-only suffix are removed. A non-empty result neither starts nor ends with whitespace. |
| `Utils.StripEmptyIffBlank` | utils.py:128 | `strip()` gives the empty string exactly when every character is whitespace. |
| `Utils.ValidateApiKey` | utils.py:114-128 | `None` and `""` are invalid. Any other string is valid exactly when it has a non-whitespace character, so whitespace-only keys are rejected. |
| `Utils.Join` | utils.py:81 | Joining no parts gives `""`. A single part comes back without a separator. Otherwise the length is the sum of the parts plus one separator between each pair of neighbours. |
| `Utils.JoinSnoc` | utils.py:75-81 | Joining a list grown by one part appends the separator and that part to the earlier join. |
| `Utils.Segments` | utils.py:75-79 | One segment per message, in order: `"User: "` plus the content at even positions and `"AI: "` plus the content at odd ones, whatever the message's kind. |
| `Utils.FormatMessageHistory` | utils.py:65-81 | The result is the `"\n\n"`-join of one `"Role: content"` segment per message, in order, with "User" at even and "AI" at odd positions. An empty list gives `""`. A single message gives `"User: " + content`, with no separator. |
| `Utils.SegmentsNameSpeakers` | utils.py:75-79 | On an alternating history each segment is `"User: "` plus the content for a user message and `"AI: "` plus the content for an assistant message. |

## Left out

- The LLM client, prompt template and agent-executor construction (`main.py:35-78`) are external framework calls. The executor is modelled as an oracle outcome, and the history handed to it is not modelled.
- The console REPL `main()` (`main.py:125-177`), `examples.py`, and the printing in `chat` and `clear_history` are console I/O.
- `tools.py` (encyclopedia and web search, file saving, clock) is network, file-system and clock access.
- `ensure_directory`, `save_conversation`, `load_conversation`, `list_saved_conversations`, `clean_old_files` and `export_to_markdown` in `utils.py` depend on the file system, modification times and the clock.
- `get_file_size` in `utils.py` uses floating-point division and `.2f` formatting.
- `config.py` is environment parsing. Its `MAX_HISTORY_LENGTH` is unused by the code.
- The FastAPI layer is not modelled: routing, CORS, async handlers, pydantic models, the static `root` endpoint, and HTTP codes other than "found / not found".
- Failing `ChatBot()` construction is not modelled. That covers the HTTP 500 path of `chat` (`api.py:101-102`), and `create_session` (`api.py:110`), which calls `ChatBot()` outside any `try`, answers 500 and inserts nothing. `ChatBot.chat` itself never raises, so these failures can only come from constructing a `ChatBot` (the LLM client and `_create_agent`, `main.py:35-41`), which is outside the model.
- Unsynchronised concurrent access to the session table is not modelled. Each operation is atomic in the model.
- Api.SessionTable: each session stores its bot's history by value, not a reference to a `ChatBot` object. Each session gets its own fresh bot and nothing else holds a reference to it, so no sharing is lost. The API's calls to `chat` and `clear_history` use the same `AfterChat`/`ReplyTo` functions, and the empty history, that `ChatBot.Chat` and `ChatBot.ClearHistory` are proved to implement.
- `get_history` returns the live list object. Aliasing through that reference is not modelled: callers get a value.
- Utils.FormatMessageHistory: messages are always `Human`/`AI` records with content. The `str(msg)` fallback for objects without `content` is not modelled.
- Utils.ValidateApiKey: the argument is `None` or a string. Truthy non-string arguments, for which the `isinstance` test fails, are not modelled.
- Conversation.ChatBot.Chat: the agent's `"output"` value is assumed to be a string. A value that `AIMessage` rejects would raise after the user message has been appended (`main.py:101-102`). The apology path would then leave an odd-length, non-alternating history. The `Raised` outcome, which leaves the history unchanged, cannot express this.
