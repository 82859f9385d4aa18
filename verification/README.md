# chat2anyllm: the pure rules, in Dafny

chat2anyllm is a chat front end (React) and a small backend (Express) for any
model behind a LiteLLM proxy. Most of its code is HTTP, database and React
plumbing. This project models the small, deterministic rules underneath, and
proves what they promise. The rules are:

- **Streamed answers.** The browser clients decode the `data:` lines of a
  server-sent event stream: the proxy client, the direct LiteLLM client and the
  session client. The backend also accumulates an answer from the same stream.
  When the server cannot be reached, the chat clients stream a canned answer
  word by word instead.
- **Code blocks.** A chat message is split into text segments and fenced code
  segments.
- **Model lists.** The clients normalise the model list the server reports. The
  drop-down sorts it by provider, then by id. The chat screen picks the model to
  use.
- **Configuration and origins.**
  - the name an environment variable is read under;
  - the backend endpoint the front end infers;
  - the backend's CORS decision;
  - when the asynchronous Clipboard API may be used, and the order of the copy
    fallbacks.
- **State and rows.**
  - the chat screen's message list under send, chunk, completion, error and
    clear;
  - the role `UPDATE` statement and its positional parameters;
  - the titles of chat sessions;
  - the Slack command endpoint;
  - bearer-token authentication and the demonstration login;
  - the front end's auth headers and auth-error handling.

Each source file is one Dafny module:

| file | module | source |
|---|---|---|
| wrappers.dfy | `Wrappers` | `Option` and `Result` |
| strings.dfy | `Strings` | JavaScript's `trim`, `split`, `join`, `includes`, `toLowerCase`, number rendering, truthiness |
| code_block.dfy | `CodeBlock` | src/components/CodeBlock.tsx |
| event_stream.dfy | `EventStream` | the stream readers of src/utils/chatAPIProxy.ts, src/utils/chatAPI.ts, src/utils/sessionsAPI.ts and backend/server.js |
| mock_stream.dfy | `MockStream` | `provideMockStreamResponse` of both chat clients |
| model_catalog.dfy | `ModelCatalog` | `getModels` and `getFallbackModels` of both chat clients |
| model_selector.dfy | `ModelSelector` | src/components/ModelSelector.tsx |
| chat_state.dfy | `ChatState` | src/components/Chat.tsx, and the timestamp choice of src/utils/sessionsAPI.ts |
| env.dfy | `Env` | src/utils/env.ts |
| cors.dfy | `Cors` | the CORS set-up of backend/server.js |
| clipboard.dfy | `Clipboard` | src/utils/clipboard.ts |
| server_rules.dfy | `ServerRules` | roles, session titles and Slack in backend/server.js |
| auth.dfy | `Auth` | backend/auth.js |
| auth_client.dfy | `AuthClient` | src/utils/authAPI.ts |

The model is functional throughout:

- React state and local storage are immutable values, and every handler is a
  function from the state before to the state after.
- Library calls become parameters of the functions that use them:
  - `JSON.parse` followed by `choices?.[0]?.delta?.content` is the oracle
    `deltaOf: string -> Option<string>`;
  - `new URL(o).hostname` is the oracle `hostOf`;
  - JWT signing and verification, the Slack HMAC and `Number(ts)` are
    parameters;
  - `Date.now()` is the parameter `now` or `nowMs`; the two readings of a send
    are `now` and `later`.
- `localeCompare` is the ordinal lexicographic order on code points.

Two behaviours follow the code as written, where a reader might expect
otherwise:

- The backend writes an extra `data: [DONE]` event for every `[DONE]` line of an
  upstream chunk, *before* it writes the chunk itself, which contains that line
  too. The browser stops at the first `[DONE]`, so the duplicate does no harm.
  It is modelled as written: `ServerChunk` emits the extra writes first.
- The browser clients split every chunk on its own and never carry a partial
  line over to the next chunk. `ReadChunksDecodesAllLines` states exactly what
  that means: decoding the lines of each chunk in turn.

## Model

| member | source | states |
|---|---|---|
| CodeBlock.MatchHere | src/components/CodeBlock.tsx:28 | a match of the fence regex at the start of a string is at least seven characters long and no longer than the string |
| CodeBlock.MatchHereComplete | src/components/CodeBlock.tsx:28 | the regex accepts every block written out, whatever follows it: a word tag and a body holding no fence, not even one reaching into the closing fence, are captured as they are, and the match ends right after the closing fence |
| CodeBlock.MatchHereRaw | src/components/CodeBlock.tsx:28 | a match consumes exactly its opening fence, its tag, a line feed, its body and the closing fence: the matched text is the block written out |
| CodeBlock.MatchHereWellFormed | src/components/CodeBlock.tsx:28 | a match starts with three backticks; its tag is a run of word characters; its body holds no three backticks, not even overlapping the closing fence, because the body is the shortest run up to the next fence |
| CodeBlock.WordRun | src/components/CodeBlock.tsx:28 | the optional tag `(\w+)?` is greedy: it takes every word character at the start and stops at the first other character |
| CodeBlock.FirstFence | src/components/CodeBlock.tsx:28 | the lazy body `[\s\S]*?` ends at the first fence at or after its start: there is no fence before that point, and no fence at all when it finds none |
| CodeBlock.NextMatch | src/components/CodeBlock.tsx:33 | the search `exec` performs finds a real match, which lies inside the string |
| CodeBlock.NextMatchIsLeftmost | src/components/CodeBlock.tsx:33 | that match is the leftmost one: the regex fails at every earlier offset, and at every offset when there is no match |
| CodeBlock.ScanTiles | src/components/CodeBlock.tsx:33-71 | gaps and whole matches, in scanning order, tile the message exactly: concatenated, they give back every character once, in order, because scanning resumes where the previous match ended |
| CodeBlock.ScanWellFormed | src/components/CodeBlock.tsx:33-71 | every piece of the scan is well formed: no gap is empty, every tag is a word, and no body holds a fence |
| CodeBlock.ScanStep | src/components/CodeBlock.tsx:35-58 | one turn of the loop emits the gap before the leftmost match if it is kept, then the code segment of that match, then continues after the match |
| CodeBlock.ScanNoMatch | src/components/CodeBlock.tsx:62-71 | after the last match, the rest of the message is one gap, kept only if it is not blank |
| CodeBlock.GapOf | src/components/CodeBlock.tsx:35-44 | the gap before a match contributes exactly its own characters, and no piece when it is empty |
| CodeBlock.KeepGap | src/components/CodeBlock.tsx:36-43 | a gap becomes a text segment exactly when its trimmed form is not empty |
| CodeBlock.Language | src/components/CodeBlock.tsx:47-48 | the language is the captured tag when one was given, and `text` otherwise |
| CodeBlock.KeptTextIsNotBlank | src/components/CodeBlock.tsx:36-43 | every text segment the loop emits is non-blank |
| CodeBlock.ParseMessageContent | src/components/CodeBlock.tsx:73-77 | the result is never empty |
| CodeBlock.ParseShape | src/components/CodeBlock.tsx:73-77 | when the loop emits nothing, the result is the whole content as one text segment; otherwise every text segment of the result is non-blank |
| CodeBlock.NoFenceIsOneText | src/components/CodeBlock.tsx:27-78 | a message without three backticks is shown as one text segment holding all of it, blank or not |
| EventStream.Classify | src/utils/chatAPIProxy.ts:172-182 | a trimmed line is ignored exactly when it does not start with `data: `; otherwise it is the payload after those six characters, `[DONE]` being the end of the stream |
| EventStream.DecodeLines | src/utils/chatAPIProxy.ts:174-195 | the client emits only non-empty deltas |
| EventStream.DoneIffMarkerLine | src/utils/chatAPIProxy.ts:179-182 | the stream completes exactly when some line, trimmed, is `data: [DONE]` |
| EventStream.DecodeLinesAppend | src/utils/chatAPIProxy.ts:179-182 | nothing is emitted after `[DONE]`: decoding two runs of lines decodes the first run and continues with the second only when the first did not complete |
| EventStream.DecodeEncode | src/utils/chatAPIProxy.ts:174-195 | round trip: decoding the events a well-behaved server writes for non-empty deltas gives back those deltas, in order, and completes |
| EventStream.ReadChunks | src/utils/chatAPIProxy.ts:163-196 | reading the chunks reports chunks, then either `onComplete` at a `[DONE]` line or what the client reports when the reader stops; when that ends once, so does the whole, and when it is `onComplete`, `onComplete` comes last |
| EventStream.ReadChunksDecodesAllLines | src/utils/chatAPIProxy.ts:163-196 | reading chunk by chunk emits the deltas of all their lines, decoded in order across chunks, then completes once if a `[DONE]` line came, and otherwise reports what the client reports when the reader stops |
| EventStream.MidStreamFailure | src/utils/chatAPIProxy.ts:163-208 | a read that fails after chunks have arrived reports their deltas, then completion if a `[DONE]` line was among them, else the failure through `onError`, or, for a chat client whose error names a failed connection, the canned answer |
| EventStream.HttpErrorIsReported | src/utils/chatAPIProxy.ts:152-154 | a non-ok HTTP status is reported as an error carrying the status, and is never mistaken for a failed connection |
| EventStream.StreamEndsOnce | src/utils/chatAPIProxy.ts:130-209 | whether the request fails, the status is an error, the reader is missing, the reader reports done or a read fails, a client reports chunks and then exactly one final event, complete or error; the only exception is the canned answer with no last message, which reports nothing, so that the client reports only the chunks that arrived before a failed read, and nothing at all when no stream began |
| EventStream.FailEndsOnce | src/utils/chatAPIProxy.ts:197-208 | a failed request, reported through `onError` or through the canned answer, ends once in the same sense |
| EventStream.SessionErrorsAreReported | src/utils/sessionsAPI.ts:71-73 | the session client never streams the canned answer: a network error, `HTTP <status>` or `No reader` goes to `onError`, with no chunk |
| EventStream.ServerLines | backend/server.js:563-578 | the backend counts at most one extra `[DONE]` per line |
| EventStream.ExtraDones | backend/server.js:566-569 | one extra `[DONE]` event is written for every `[DONE]` line |
| EventStream.ServerPassesChunksThrough | backend/server.js:560-581 | every upstream chunk reaches the browser unchanged and in order |
| EventStream.ServerIgnoresEmptyLines | backend/server.js:562 | dropping the empty lines changes nothing in what the backend saves or counts |
| EventStream.ServerLinesAppend | backend/server.js:570-575 | the saved answer is built line by line: on two runs of lines it is the first run's answer followed by the second's |
| EventStream.ServerContentIsAllLines | backend/server.js:558-582 | the saved answer is the in-order concatenation of the deltas of every line of every chunk |
| EventStream.ServerAgreesWithClient | backend/server.js:558-582 | on lines without white space at either end and without `[DONE]`, the backend saves exactly what a browser client emits, concatenated |
| EventStream.PersistIffNotBlank | backend/server.js:584-591 | the answer is saved exactly when it is not blank |
| EventStream.SavedAnswer | backend/server.js:584-607 | a saved assistant message is never blank, and nothing is saved when the upstream stream fails |
| EventStream.SavedAnswerSpec | backend/server.js:557-607 | an assistant message is saved exactly when the upstream stream ends without an error and the deltas of all its lines, concatenated, are not blank; the message is that concatenation, untrimmed |
| MockStream.MockResponseShape | src/utils/chatAPIProxy.ts:211-232 | the canned answer starts by quoting the last message, and ends with the Python sample exactly when that message contains `code`, `function` or `python` in any ASCII case |
| MockStream.ContainsLowerIffOccurs | src/utils/chatAPI.ts:182-184 | searching the lower-cased text is searching the text without regard to ASCII case |
| MockStream.WordChunks | src/utils/chatAPIProxy.ts:225-229 | one chunk is streamed per space-separated word |
| MockStream.WordChunksConcat | src/utils/chatAPIProxy.ts:225-229 | the chunks, concatenated, are the canned answer exactly: nothing is lost or added |
| MockStream.WordChunksAreWords | src/utils/chatAPIProxy.ts:225-229 | the first chunk is the first word, and every later chunk is its word behind one space |
| MockStream.WordChunksHaveOneSpace | src/utils/chatAPIProxy.ts:225-229 | every later chunk has its one space in front and none inside |
| MockStream.SpacedChunks | src/utils/chatAPI.ts:187-193 | one chunk per word |
| MockStream.SpacedChunksLoop | src/utils/chatAPI.ts:187-193 | the streaming loop emits the same chunks as the functional definition |
| MockStream.JoinIsSpacedConcat | src/utils/chatAPIProxy.ts:225-229 | joining the words with spaces is writing the first word and then every later word behind a space |
| ModelCatalog.FirstTruthyPicksEarliest | src/utils/chatAPIProxy.ts:30-40 | the reference for an `if … else if …` chain picks the earliest truthy candidate |
| ModelCatalog.FirstTruthyDefault | src/utils/chatAPIProxy.ts:30-40 | with no truthy candidate, the chain gives its default |
| ModelCatalog.ProxyProviderPriority | src/utils/chatAPIProxy.ts:30-40 | the proxy client's provider is the first truthy of `litellm_params.custom_llm_provider`, `model_info.litellm_provider`, `litellm_params.litellm_provider` and `litellm_provider`, else `openai` |
| ModelCatalog.ProxyIdChoice | src/utils/chatAPIProxy.ts:43 | the proxy client takes `model_name` before `id` for the `{data: [...]}` shape, but `id`, then `model_name`, then `name` for a bare array; a record that names itself always keeps a name |
| ModelCatalog.MapModels | src/utils/chatAPIProxy.ts:27-75 | the normalised list has one model per record, in the same order |
| ModelCatalog.Records | src/utils/chatAPIProxy.ts:28-31 | a list can be mapped exactly when none of its elements is `null`, and then every element is its record |
| ModelCatalog.ProxyGetModelsShape | src/utils/chatAPIProxy.ts:26-128 | the proxy client answers with the five fallback models on any error, on a list holding `null` (the field access throws inside the `try`), on an unrecognised body, and on a single object without an id or a `model_name`; any other list keeps one model per record with the prioritised provider |
| ModelCatalog.ProxySingleWraps | src/utils/chatAPIProxy.ts:77-99 | a single object with an `id` or a `model_name` becomes a one-model list, named by its `id`, else its `model_name`, with the prioritised provider |
| ModelCatalog.DirectProviderPriority | src/utils/chatAPI.ts:32-55 | the direct client's provider is `litellm_params.litellm_provider`, then `model_info.litellm_provider`, then `unknown` for the `{data: [...]}` shape, and `litellm_provider`, then `unknown`, otherwise |
| ModelCatalog.DirectGetModelsFails | src/utils/chatAPI.ts:28-76 | the direct client throws `Failed to fetch models from LiteLLM` exactly when the request failed other than by a refused connection or a timeout, or the body is a list holding `null`; it falls back on a refused connection or a timeout |
| ModelCatalog.DirectSingleWraps | src/utils/chatAPI.ts:50-59 | a single object with an `id` or a `model_name` becomes a one-model list, named by its `id`, else its `model_name`, with its `litellm_provider`, else `unknown` |
| ModelCatalog.ClientsAgreeOnIds | src/utils/chatAPI.ts:28-76 | for a body holding a `null` element the proxy client falls back while the direct client throws, and only then does the direct client throw; for every other body the two clients keep the same number of models with the same ids in the same order, only the providers differing |
| ModelSelector.StrLessTotal | src/components/ModelSelector.tsx:22-31 | the string order is strict and total |
| ModelSelector.KeyLeTotal | src/components/ModelSelector.tsx:22-31 | any two models are ordered one way or the other by the comparator |
| ModelSelector.Insert | src/components/ModelSelector.tsx:21-32 | one insertion step adds the model and loses nothing |
| ModelSelector.SortModels | src/components/ModelSelector.tsx:21 | the sorted copy is a permutation of the models |
| ModelSelector.SortModelsSorted | src/components/ModelSelector.tsx:22-31 | the sorted copy is ordered by provider, a missing provider counting as empty, then by id |
| ModelSelector.SortModelsStable | src/components/ModelSelector.tsx:21-32 | the sort is stable: models with the same provider and id keep their input order |
| ModelSelector.OptionsShape | src/components/ModelSelector.tsx:46-59 | while loading, on an error, or with no models, exactly one option valued by the selected model is shown, the loading and error checks coming first; otherwise one option per model, in sorted order, valued by its id |
| ModelSelector.ModelEntries | src/components/ModelSelector.tsx:53-58 | one option per model, in the same order |
| ChatState.SendShape | src/components/Chat.tsx:65-93 | a blank input or a send in flight changes nothing; otherwise the trimmed input and then an empty streaming assistant message are appended, their ids being the two clock readings (the second plus one) and different unless the clock ran backwards, the input is cleared and loading begins |
| ChatState.AppendChunk | src/components/Chat.tsx:100-107 | a chunk is appended to the message with the given id only; every other message is unchanged |
| ChatState.MarkComplete | src/components/Chat.tsx:110-118 | completion clears the streaming flag of the message with the given id only |
| ChatState.WithoutRemovesOnlyId | src/components/Chat.tsx:121-125 | an error removes exactly the messages with the given id and keeps every other one, as often as it occurred |
| ChatState.WithoutSingle | src/components/Chat.tsx:121-125 | on one message, an error drops it exactly when it has the id |
| ChatState.WithoutAppend | src/components/Chat.tsx:121-125 | removal works piece by piece: on a list in two parts it is the first part's result followed by the second's, which with the one-message case keeps the other messages in their order |
| ChatState.WithoutAbsent | src/components/Chat.tsx:121-125 | an error about an id no message has leaves the list alone |
| ChatState.CallbacksKeepTheRest | src/components/Chat.tsx:100-147 | the callbacks touch only the messages, the loading flag and the error line; completion and error end loading; clearing empties the messages and the error line and keeps the rest |
| ChatState.StreamConcatenates | src/components/Chat.tsx:100-107 | streaming a run of chunks appends their concatenation |
| ChatState.AppendTwice | src/components/Chat.tsx:100-107 | two appends in a row are one append of the two chunks joined |
| ChatState.Exchange | src/components/Chat.tsx:65-119 | a whole successful exchange ends with the history, then the assistant message holding the concatenated chunks and no longer streaming, and loading over |
| ChatState.FailedExchange | src/components/Chat.tsx:121-134 | a failed exchange ends with the history only: the assistant message is gone, the user message stays, and the error line is set |
| ChatState.ExchangeSharedId | src/components/Chat.tsx:65-119 | when earlier messages already carry the new assistant id, a successful exchange appends the chunks to them too and marks them complete; the user message and the completed assistant message follow as usual |
| ChatState.FailedExchangeSharedId | src/components/Chat.tsx:121-134 | when earlier messages already carry the new assistant id, a failed exchange deletes them along with the placeholder: the result is the earlier messages without that id, then the user message |
| ChatState.WithoutAfterAppend | src/components/Chat.tsx:100-125 | appending a chunk to the messages with an id and then removing that id is the same as just removing it |
| ChatState.ModelToUse | src/components/Chat.tsx:69 | a send uses the selected model, else the configured one, else `gpt-3.5-turbo`; never an empty name |
| ChatState.InitialModel | src/components/Chat.tsx:15-17 | the screen starts with the configured model, else `gpt-3.5-turbo` |
| ChatState.PickModelRule | src/components/Chat.tsx:44-50 | a listed selection is kept; otherwise the configured model if listed, else the first model; after a non-empty list the selection is always one of its ids |
| ChatState.MessageTime | src/utils/sessionsAPI.ts:49 | a stored message's time is its `timestamp` when present, else `created_at` |
| Env.ViteName | src/utils/env.ts:4 | the lookup name always starts with `VITE_`: it is the name itself exactly when that already does, and otherwise `VITE_` followed by the name |
| Env.ViteNameIdempotent | src/utils/env.ts:4 | prefixing a prefixed name changes nothing |
| Env.GetEnvVarOrder | src/utils/env.ts:2-12 | the prefixed name is read first, then the name as given, then the fallback; an empty string is returned as it is; it throws exactly when all three are absent |
| Env.NamedGetters | src/utils/env.ts:52-58 | the model is the value of `VITE_LITELLM_MODEL`, else `gpt-3.5-turbo`, and the key the value of `VITE_API_KEY`, else the empty string; an empty value is kept, and neither fails |
| Env.Inferred | src/utils/env.ts:23-36 | the inferred endpoint is never empty |
| Env.InferredCases | src/utils/env.ts:23-36 | a local page talks to port 3001 of localhost, a page on port 3000 to port 3001 of its own host, any other page to its own host without a port |
| Env.Candidate | src/utils/env.ts:15-39 | the endpoint before normalisation is never empty |
| Env.BackendEndpointPriority | src/utils/env.ts:15-49 | the call throws exactly when there is a window without a location, because the mixed-content test reads its protocol; otherwise a non-empty `VITE_BACKEND_ENDPOINT` wins, then a non-empty `REACT_APP_BACKEND_URL`, then the guess from the page, then port 3001 of localhost, and the winner loses at most one trailing slash |
| Env.StripSlashSpec | src/utils/env.ts:42 | exactly one trailing slash comes off when there is one, and nothing else changes |
| Cors.DecideIff | backend/server.js:78-99 | with the allow-all flag every origin passes; otherwise a request passes exactly when it has no origin, its lower-cased origin is listed, the list holds `*`, or its hostname is a listed hostname; anything else is refused with `Not allowed by CORS` |
| Cors.SameHostPasses | backend/server.js:56-60 | an origin with the hostname of a listed origin passes, whatever its port |
| Cors.ListedOriginPasses | backend/server.js:47-54 | an origin written in `ALLOWED_ORIGINS`, in any ASCII case and with spaces around it, lets that origin through in any ASCII case |
| Cors.ConfigureIsLowerCase | backend/server.js:45-54 | every entry of the derived allow-list is lower-case and non-empty |
| Cors.HostnamesCover | backend/server.js:56-60 | every listed origin other than `*` contributes its hostname |
| Cors.HostnamesFromOrigins | backend/server.js:56-60 | the hostname list holds nothing else |
| Cors.TrimAll | backend/server.js:49 | each entry is trimmed, and none is lost |
| Cors.LowerAll | backend/server.js:54 | each entry is lower-cased, and none is lost |
| Cors.ColonAt | backend/server.js:59 | the scheme-less fallback cuts the host at the first colon, or keeps all of it when there is none |
| Clipboard.ModernPossibleIff | src/utils/clipboard.ts:12-36 | the asynchronous API is used exactly in a browser that offers `writeText`, on a secure page or a local-looking host |
| Clipboard.Private172Octet | src/utils/clipboard.ts:18 | the 172 pattern accepts exactly the hosts `172.n.` with n from 16 to 31, the range 172.16.0.0/12 of section 3 of RFC 1918 |
| Clipboard.NormalizeNewlinesSpec | src/utils/clipboard.ts:54 | no carriage return survives, and text without one is left as it is |
| Clipboard.NormalizeNewlinesBreaks | src/utils/clipboard.ts:54 | each line break becomes exactly one line feed: a CR LF pair, and a CR not followed by LF, with the text before it kept as it is |
| Clipboard.NormalizeNewlinesCrLf | src/utils/clipboard.ts:54 | a CR LF pair after CR-free text becomes a single line feed and the text before it is kept |
| Clipboard.NormalizeNewlinesLoneCr | src/utils/clipboard.ts:54 | a CR not followed by LF, after CR-free text, becomes a single line feed and the text before it is kept |
| Clipboard.NormalizeNewlinesPrefix | src/utils/clipboard.ts:54 | text without a carriage return in front of the rest passes through unchanged |
| Clipboard.NormalizeNewlinesIdempotent | src/utils/clipboard.ts:54 | normalising twice is normalising once |
| Clipboard.RunSpec | src/utils/clipboard.ts:56-131 | trying strategies succeeds exactly when some applicable one would; it attempts the applicable ones in order and stops at the first success |
| Clipboard.CopyTextShape | src/utils/clipboard.ts:44-132 | outside a browser or for empty text nothing is attempted and the result is false; otherwise the copied text has no carriage return, the result is true exactly when some strategy would succeed, `writeText` comes first exactly when the API may be used, and a failure has tried the last strategy |
| Clipboard.TestScenarios | src/utils/clipboard.test.ts:54-89 | the unit tests' four scenarios come out as the tests expect |
| ServerRules.RoleUpdateRefuses | backend/server.js:358 | a request with neither a name nor instructions is refused with 400 `Nothing to update`, and only such a request |
| ServerRules.AssignmentsOrder | backend/server.js:362-363 | the SET clause names `name` first and `instructions` last, each exactly when it is given, with trimmed values |
| ServerRules.SetItems | backend/server.js:361-363 | the i-th column is set from placeholder `$first+i` |
| ServerRules.RoleUpdateValues | backend/server.js:362-367 | the bound values are the set values in the order of their placeholders, then the id |
| ServerRules.RoleUpdateWhere | backend/server.js:366 | the WHERE clause uses the placeholder after the last SET placeholder |
| ServerRules.PlaceholdersDistinct | backend/server.js:362-366 | different placeholder numbers are written differently |
| ServerRules.Prefix | backend/server.js:444 | `slice(0, n)` gives a prefix of at most n characters, the whole string when it is short enough |
| ServerRules.CreateTitleSpec | backend/server.js:444 | a created session's title is never empty, is at most 120 characters, and is the start of the given title when there is one |
| ServerRules.FirstMessageTitleSpec | backend/server.js:523-527 | only the first message retitles a session; a blank message gives `New Chat`, any other the start of its trimmed text, at most 60 characters, not starting with white space |
| ServerRules.SignatureCheckIff | backend/server.js:402-413 | with a signing secret, a request passes exactly when both headers are present, it is at most five minutes old (an unparsable timestamp never is stale), and its signature is `v0=` and the HMAC |
| ServerRules.CommandReplySpec | backend/server.js:415-431 | `/roles` lists one bullet line per role under `Roles:`, or says there are none; `/role` with blank text answers with its usage; anything else is an unknown command |
| ServerRules.Bullets | backend/server.js:420 | one bullet line per role, in order |
| ServerRules.SlackCommandGate | backend/server.js:399-436 | a request that fails the signature check gets 401 with the reason and never reaches a command |
| Auth.BearerTokenSpec | backend/auth.js:11-12 | the token is the second space-separated field of the header; a header is refused exactly when it is absent or empty or has no non-empty second field |
| Auth.BearerTokenOfHeader | backend/auth.js:11-12 | a header `<scheme> <token>` yields the token, whatever the scheme |
| Auth.AuthenticateSpec | backend/auth.js:10-25 | no token gives 401 `Access token required`; a token that does not verify gives 403; otherwise the request proceeds with that token's claims |
| Auth.LoginSpec | backend/auth.js:33-51 | an empty username or password gives 400; otherwise the user is id 1 with the given name and role `user`, with a token signed for exactly that user |
| AuthClient.AuthHeadersSpec | src/utils/authAPI.ts:7-18 | the content type is always JSON; the Authorization header is present exactly when a non-empty token is stored, and is then `Bearer ` and the token |
| AuthClient.HandleAuthErrorSpec | src/utils/authAPI.ts:20-28 | an authentication error is reported exactly for status 401 or 403, and then the token and the user are forgotten; otherwise storage is untouched |
| AuthClient.ServerReadsClientToken | src/utils/authAPI.ts:13-15 | the backend reads back the token the front end sends, for a token without spaces; with no token the backend answers 401 |
| AuthClient.LoginTokenAuthenticates | backend/auth.js:10-50 | with a verifier that accepts what the signer signs, the non-empty, space-free token a login returns, sent back in the front end's headers, lets the next request through as exactly the user who logged in |
| Strings.TrimSpec | src/components/CodeBlock.tsx:36 | `trim` removes the leading and the trailing white space and nothing else, leaving no white space at either end |
| Strings.TrimEmptyIffBlank | src/components/Chat.tsx:66 | the trimmed text is empty exactly when the text is blank |
| Strings.TrimIdempotent | src/utils/sessionsAPI.ts:81 | trimming twice is trimming once |
| Strings.Split | src/utils/chatAPIProxy.ts:172 | `split` never gives an empty list, and joining its fields with the separator gives the text back |
| Strings.SplitJoin | src/utils/chatAPIProxy.ts:172 | splitting what `join` built gives the fields back, when none holds the separator |
| Strings.SplitFieldsAreSeparatorFree | src/utils/chatAPIProxy.ts:172 | no field of a split holds the separator |
| Strings.NonEmpty | backend/server.js:562 | `filter(Boolean)` keeps exactly the non-empty strings, and loses no character |
| Strings.ContainsIffOccurs | src/utils/chatAPI.ts:70 | `includes` holds exactly when the text occurs at some offset |
| Strings.NatToString | src/utils/sessionsAPI.ts:71 | a number is rendered as decimal digits, without a leading zero, that denote it |

## Left out

- I/O of every kind is left out, and its results are inputs. This covers Express, axios, `fetch`, the pg pool and SQL execution, and the LiteLLM service itself.
- `JSON.parse` and the field access after it are the oracle `deltaOf`. `new URL(...)` is the oracle `hostOf`. JSON and URL parsing are not specified.
- JWT signing and verification, and the Slack HMAC-SHA256, are parameters. They are foreign cryptographic calls.
- `Number(ts)` is given as an optional real, `None` standing for NaN. The parsing of numbers is not modelled.
- `localeCompare` is the ordinal order on code points. Locale collation is not modelled.
- Strings are sequences of Unicode scalar values, not UTF-16 code units. Surrogate pairs are not modelled, and neither is `TextDecoder`.
- `toLowerCase` lowers ASCII letters only. Non-ASCII case mapping is not modelled.
- ModelSelector.SortModels: the model gives every model a string id; a missing id is not modelled. What the comparator does with one depends on the operand: as the receiver of a same-provider comparison it throws, as the argument it is compared as the string "undefined", and a model alone in its provider group is never compared by id.
- The canned answer: an empty message list makes `provideMockStreamResponse` throw inside a promise nobody awaits. `MockEvents` models this as no events. The timer between chunks is not modelled.
- Chunk boundaries: the clients do not buffer a line that straddles two chunks. The model keeps that behaviour and adds no buffering.
- React rendering, hooks, scheduling, and the DOM clipboard and selection calls are left out. Each copy strategy is given by whether it applies and whether it would succeed.
- `window.confirm`, `setTimeout`, `localStorage` and the console are left out. Local storage is the value `Storage`.
- The mixed-content test of `getBackendEndpoint` is modelled only for what it can do to the result: with a window that has no location it throws. The warning it writes to the console is left out.
- ChatState.Exchange: assumes the clock does not run backwards between the two readings of a send. Had it gone back by one millisecond, the two ids would coincide, and that run is not followed further. It also assumes the new assistant id is not already in the list, that is, the clock has moved on since every earlier message; `ExchangeSharedId` states what happens when it has not.
- ChatState.FailedExchange: makes the same two assumptions. The clock must not run backwards within a send, and the new assistant id must not already be in the list. `FailedExchangeSharedId` states what happens when the id is already there.
- `isClipboardSupported` is left out. It only tests that `window` and `document` exist.
- `refreshModels` in Chat.tsx is left out. It repeats the model loading that `PickModelRule` covers, without the default-model choice.
- `sendMessage`, the non-streaming call of the chat clients, is left out. It is an HTTP round trip with no rule of its own.
- The session client's list, create, rename and delete calls are left out, except the timestamp choice. They are HTTP round trips.
- `serializeErrorData` in backend/server.js is left out. It walks a cyclic object graph with a WeakSet.
- express-validator's checks on request bodies are left out. The title rules are modelled on whatever body reaches the handler.
- The Slack handler's database errors, answered with status 200 and `Error processing command`, are left out. A database row is given as a sequence.
- Environment values are strings. A build-time value of another type is not modelled.
- Helmet, CSP, the pool configuration and signal handlers are configuration, and are left out.
- The UI-only files are left out: SessionsSidebar.tsx, ChatMessage.tsx, AuthContext.tsx, rolesAPI.ts, healthCheck.ts and App.tsx.
