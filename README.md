# Exon AI Assistant: a verified model of the chat client and chat handler

This Dafny project models the deterministic logic of the Exon AI Assistant,
a React chat client with a serverless chat-completion handler:

- the chat page (`Home.tsx`): the message list and how socket events and
  sending a message change it, the typing animation that reveals the reply
  15 characters at a time and then swaps the placeholder for the final
  reply, the error bubble, the clean-up done before text is spoken, and the
  supervisor's resolve action (`text.dfy`, `json.dfy`, `home.dfy`);
- the chat screen (`ChatScreen.tsx`): the chat history kept in local
  storage, which is an upsert of `{id, title, messages}` entries keyed by
  chat id. It also covers the title taken from the first message, selecting
  a chat, and saving the current chat when a new one is started
  (`chat_screen.dfy`);
- the history sidebar (`LeftPanal.tsx`): title truncation, the highlight of
  the current chat, the placeholder for an empty history, and the id handed
  on by a click (`left_panel.dfy`);
- the chat handler (`Backend/api/chat.js`): a pure function from the HTTP
  method, the parsed form and the provider's answer (or a thrown error) to
  the status, the JSON body and the text sent to the provider
  (`chat_api.dfy`).

`Json` models parsed JSON values together with JavaScript truthiness (`||`,
`if`) and optional chaining (`?.`). `Text` models JavaScript's `trim`.

The pure parts are functions with lemmas. The chat page's state and its two
handlers are the class `Home.HomeView`. Its `HandleSend` method keeps the
source's typing loop: the helper method `TypeOut` runs that loop and is
proved against the predicate `AreTypingFrames` and the list updaters
`ShowTyping` and `Finalise`.

The chat page also talks to a real-time relay: it opens a WebSocket
(Frontend/src/Pages/Home.tsx:95) and calls `/api/helprequests` endpoints
(Frontend/src/Pages/Home.tsx:213, 229). No file of the repository serves
them; the backend is `Backend/server.js` and `Backend/api/chat.js` only. The
relay is therefore not part of this model (see "Left out"); the page's side
of it, the reaction to each incoming event, is.

When calling the completion provider throws, the handler answers 500 with
`{reply: "Internal server error"}`, not with the "No valid response"
fallback. The fallback is only used when the provider answers without a
usable text (`ChatApi.PostOutcome`, `ChatApi.ReplyWithoutCandidates`).

## Model

| member | source | states |
|---|---|---|
| `Text.TrimStart` | Frontend/src/Pages/Home.tsx:60 | the result is a suffix of the input, everything dropped is white space, and it does not start with white space |
| `Text.TrimEnd` | Frontend/src/Pages/Home.tsx:60 | the result is a prefix of the input, everything dropped is white space, and it does not end with white space |
| `Text.Trim` | Frontend/src/Pages/Home.tsx:60 | `trim` returns the infix found between two all-white-space margins, and it neither starts nor ends with white space |
| `Text.TrimEmptyIff` | Frontend/src/Pages/Home.tsx:130 | a string is blank after `trim` exactly when every character is white space |
| `Text.TrimIdempotent` | Frontend/src/Pages/Home.tsx:60 | trimming twice is trimming once |
| `Home.StripMarkup` | Frontend/src/Pages/Home.tsx:58 | no `#`, `_`, `*` or backquote remains, and the result is no longer than the input |
| `Home.StripMarkupCounts` | Frontend/src/Pages/Home.tsx:58 | every character other than markup keeps its number of occurrences |
| `Home.StripMarkupAppend` | Frontend/src/Pages/Home.tsx:58 | the filter works character by character: it distributes over concatenation and drops a single character exactly when it is markup, so the kept characters stay in their order |
| `Home.CollapseNewlines` | Frontend/src/Pages/Home.tsx:59 | the result never has two newlines in a row, it is empty exactly when the input is, and it starts with a newline exactly when the input does |
| `Home.CollapseStep` | Frontend/src/Pages/Home.tsx:59 | a newline followed by another newline is absorbed into its run; any other character is kept, followed by the collapsed rest |
| `Home.CollapseDropDouble` | Frontend/src/Pages/Home.tsx:59 | deleting one newline of a doubled pair anywhere in the text does not change the result, so every run of two or more newlines gives the same single newline |
| `Home.CollapseKeepsText` | Frontend/src/Pages/Home.tsx:59 | collapsing changes only newlines: the other characters stay, in order |
| `Home.CollapseFixpoint` | Frontend/src/Pages/Home.tsx:59 | a text without doubled newlines is left unchanged |
| `Home.CollapseIdempotent` | Frontend/src/Pages/Home.tsx:59 | collapsing twice is collapsing once |
| `Home.Sanitise` | Frontend/src/Pages/Home.tsx:57-60 | the text to be spoken has no markup characters, no two newlines in a row, and no leading or trailing white space |
| `Home.Speak` | Frontend/src/Pages/Home.tsx:54-66 | nothing is spoken without speech synthesis, and what is spoken is never empty, has no markup and no doubled newline |
| `Home.SpeakWhen` | Frontend/src/Pages/Home.tsx:54-66 | something is spoken exactly when speech synthesis exists and the cleaned text is not blank, and what is spoken is the cleaned text |
| `Home.OnSocketMessage` | Frontend/src/Pages/Home.tsx:99-117 | a socket event never removes or changes an earlier bubble and adds at most one; only a resolved help request is spoken |
| `Home.SocketEventEffect` | Frontend/src/Pages/Home.tsx:99-117 | `analysis` and `help_resolved` events each append exactly one bot bubble holding their text after the old list, and `help_resolved` is also spoken; `hint`, `new_help_request`, unknown types and unparseable payloads leave the list unchanged and speak nothing |
| `Home.WithoutTyping` | Frontend/src/Pages/Home.tsx:153 | the filter keeps exactly the bubbles that are not `bot-temp` and leaves no `bot-temp` bubble |
| `Home.WithoutTypingSpec` | Frontend/src/Pages/Home.tsx:153 | after filtering no placeholder is left, a list without placeholders is kept whole, and exactly the placeholders are removed |
| `Home.ShowTyping` | Frontend/src/Pages/Home.tsx:153 | a typing step ends the list with one placeholder showing the step's text, and no other bubble is a placeholder |
| `Home.ShowTypingEffect` | Frontend/src/Pages/Home.tsx:153 | after a typing step exactly one `bot-temp` bubble exists, it is the last one and shows the step's text, and the other bubbles are unchanged |
| `Home.Finalise` | Frontend/src/Pages/Home.tsx:158 | the final list ends with a bot bubble holding the full reply and has no placeholder left |
| `Home.FinaliseEffect` | Frontend/src/Pages/Home.tsx:158 | finalising removes every `bot-temp` bubble, keeps the others in order and appends one bot bubble with the full reply; a placeholder shown before makes no difference |
| `Home.HomeView.TypeOut` | Frontend/src/Pages/Home.tsx:150-158 | the loop shows one frame per started block of 15 characters, frame k being the reply's first min(15k+15, length) characters, and leaves the list finalised with the full reply |
| `Home.FullText` | Frontend/src/Pages/Home.tsx:146-147 | a string `reply` is shown as it is; the page fails exactly when the body has no `reply` |
| `Home.SendGuardAsWritten` | Frontend/src/Pages/Home.tsx:130 | with the `null` input the state starts with (line 12) the guard throws; otherwise it proceeds exactly when the input is not blank or a file is attached |
| `Home.FileOnlySendThrows` | Frontend/src/Pages/Home.tsx:130 | attaching a file before ever typing makes the guard throw, where the corrected guard would send the file |
| `Home.SendGuard` | Frontend/src/Pages/Home.tsx:130 | the corrected guard never throws and proceeds exactly when the input is not blank or a file is attached |
| `Home.Submitted` | Frontend/src/Pages/Home.tsx:132-133 | sending adds at most two bubbles after the existing ones, which stay unchanged |
| `Home.SubmittedEffect` | Frontend/src/Pages/Home.tsx:132-133 | a user text bubble is added exactly when the input is not blank, and a file bubble exactly when a file is attached, text first |
| `Home.AfterReply` | Frontend/src/Pages/Home.tsx:158-164 | the list ends with the final reply's bot bubble and no placeholder, or with the error bubble appended after the unchanged bubbles |
| `Home.SendForm` | Frontend/src/Pages/Home.tsx:135-137 | the posted form's `message` is the typed text, and it carries a file, under the file's name, exactly when one is attached |
| `Home.SendFormPrompt` | Frontend/src/Pages/Home.tsx:135-137 | the backend's prompt for the posted form is the typed text, followed by the upload note and the file's name when a file is attached |
| `Home.BackendReplyIsShown` | Frontend/src/Pages/Home.tsx:145-147 | every answer of the chat handler to a POST gives the page a reply to show, which is the chosen text when it is a string and the fixed error text when the handler failed |
| `Home.HomeView.constructor` | Frontend/src/Pages/Home.tsx:12-15 | the page starts with a `null` input, no file, no typing indicator and no bubbles |
| `Home.HomeView.HandleSend` | Frontend/src/Pages/Home.tsx:129-168 | a blank input with no file changes nothing; otherwise the user bubbles are appended, the form is posted, the input and file are cleared, and either the animated final reply (spoken afterwards) or exactly one error bubble follows; typing ends false on every path |
| `Home.HomeView.HandleResolve` | Frontend/src/Pages/Home.tsx:223-248 | a blank answer only alerts; otherwise the resolve request carries the answer, the answer box is cleared once the backend answers, and when the backend reports `ok` exactly one bot bubble with the answer is appended and spoken |
| `ChatScreen.DeriveTitle` | Frontend/src/Pages/ChatScreen.tsx:53 | the title is the first message's text cut to at most 30 characters, or "New Chat" when that text is missing or empty; it is never empty |
| `ChatScreen.WithoutChat` | Frontend/src/Pages/ChatScreen.tsx:57 | the filter keeps exactly the entries with another id |
| `ChatScreen.WithoutChatAppend` | Frontend/src/Pages/ChatScreen.tsx:57 | the filter works piece by piece, so the kept entries stay in their original relative order |
| `ChatScreen.Upsert` | Frontend/src/Pages/ChatScreen.tsx:56-59 | the new entry is last, and the entries are exactly the new one and the stored entries with other ids |
| `ChatScreen.UpsertEffect` | Frontend/src/Pages/ChatScreen.tsx:56-59 | after the upsert exactly one entry has the current id, it is the last one with the given title and messages, and the entries before it are the other chats in their original order |
| `ChatScreen.UpsertIdempotent` | Frontend/src/Pages/ChatScreen.tsx:56-59 | storing the same id, title and messages twice gives the same history as storing them once |
| `ChatScreen.UpsertKeepsIdsUnique` | Frontend/src/Pages/ChatScreen.tsx:56-59 | a history with distinct ids keeps distinct ids after an upsert |
| `ChatScreen.SaveEffect` | Frontend/src/Pages/ChatScreen.tsx:51-62 | storage is written exactly when the conversation is not empty, and the written history ends with it under the current id and its derived title |
| `ChatScreen.SaveEffectSpec` | Frontend/src/Pages/ChatScreen.tsx:51-62 | an empty conversation never writes storage; otherwise the written history gives back that conversation under the current id |
| `ChatScreen.Persist` | Frontend/src/Pages/ChatScreen.tsx:50-62 | after the storage effect a non-empty conversation is found under the current id, and an empty one leaves the history untouched |
| `ChatScreen.Lookup` | Frontend/src/Pages/ChatScreen.tsx:14 | `find` fails exactly when no entry has the id, and otherwise returns a stored entry with that id |
| `ChatScreen.SelectMessages` | Frontend/src/Pages/ChatScreen.tsx:13-15 | an id that is not stored loads no messages, and loaded messages belong to a stored entry with that id |
| `ChatScreen.SelectSpec` | Frontend/src/Pages/ChatScreen.tsx:13-15 | selecting yields the messages of the first entry with the id, or no messages when the id is not stored |
| `ChatScreen.SelectAfterUpsert` | Frontend/src/Pages/ChatScreen.tsx:13-15 | right after an upsert, selecting its id gives back the stored messages and selecting any other id gives what it gave before |
| `ChatScreen.SelectChat` | Frontend/src/Pages/ChatScreen.tsx:11-17 | selecting makes the id current, loads the messages stored under it and closes the sidebar |
| `ChatScreen.NewChat` | Frontend/src/Pages/ChatScreen.tsx:20-47 | the screen shows an empty chat with the new id and a closed sidebar; a save request is for the current chat, with its non-empty messages and a non-empty title |
| `ChatScreen.NewChatSpec` | Frontend/src/Pages/ChatScreen.tsx:20-47 | a new chat asks the backend to save the current one exactly when it is stored with at least one message, under its stored title or "New Chat" when that is empty; the screen then shows an empty chat with the new id |
| `ChatScreen.StepAsWritten` | Frontend/src/Pages/ChatScreen.tsx:11-62 | as wired, a change of the conversation in the chat page leaves the screen and storage as they were; only a new chat asks for a save, with messages; an empty history with an empty screen stays empty |
| `ChatScreen.HistoryNeverRecorded` | Frontend/src/Pages/ChatScreen.tsx:88-91 | as wired, starting from an empty history no sequence of user actions ever stores a chat or asks the backend to save one |
| `ChatScreen.Step` | Frontend/src/Pages/ChatScreen.tsx:50-62 | with the message list shared, after every action a non-empty shown conversation is found in storage under the current id, and only a new chat asks for a save |
| `ChatScreen.ConversationRecorded` | Frontend/src/Pages/ChatScreen.tsx:50-62 | with the message list shared, a non-empty conversation is stored under the current id, and a following new chat saves exactly that conversation |
| `ChatScreen.StepKeepsIdsUnique` | Frontend/src/Pages/ChatScreen.tsx:50-62 | no user action makes two stored chats share an id |
| `LeftPanel.DisplayTitle` | Frontend/src/Pages/LeftPanal.tsx:52-54 | titles of at most 30 characters are shown unchanged; longer ones as their first 30 characters and "...", exactly 33 characters; nothing shown is longer than 33 |
| `LeftPanel.DerivedTitlesShownWhole` | Frontend/src/Pages/LeftPanal.tsx:52-54 | a title derived by the chat screen is never cut by the sidebar |
| `LeftPanel.RowsOf` | Frontend/src/Pages/LeftPanal.tsx:42-54 | there is one row per stored chat, in order, built from that chat |
| `LeftPanel.Render` | Frontend/src/Pages/LeftPanal.tsx:36-54 | the placeholder is shown exactly when the history is empty; otherwise there is one row per chat, in order, with that chat's id |
| `LeftPanel.RenderSpec` | Frontend/src/Pages/LeftPanal.tsx:36-54 | the "No previous chats" placeholder is shown exactly when the history is empty; otherwise row k shows chat k's shortened title and is highlighted exactly when its id is the current id |
| `LeftPanel.AtMostOneHighlighted` | Frontend/src/Pages/LeftPanal.tsx:46 | with distinct ids at most one row is highlighted |
| `LeftPanel.Click` | Frontend/src/Pages/LeftPanal.tsx:50 | clicking row k of the rendered list hands chat k's id to the chat screen |
| `LeftPanel.ClickLoadsThatChat` | Frontend/src/Pages/LeftPanal.tsx:50 | clicking row k makes the chat screen load exactly chat k's messages (ids being distinct) |
| `ChatApi.NonPostRejected` | Backend/api/chat.js:16-17 | a method other than POST answers 405 with `{error: "Method not allowed"}` and calls no provider |
| `ChatApi.MessageField` | Backend/api/chat.js:24 | a missing or empty `message` field gives the empty string; otherwise the field's first value |
| `ChatApi.UploadedFile` | Backend/api/chat.js:25 | a file is present exactly when the form lists at least one, and it is the first one |
| `ChatApi.Prompt` | Backend/api/chat.js:27-28 | the prompt is the message alone without an upload, and the message, the upload note and the file name with one |
| `ChatApi.ProviderText` | Backend/api/chat.js:42 | the text sent to the provider is the prompt followed by the fixed Markdown instruction |
| `ChatApi.ReplyOf` | Backend/api/chat.js:52-55 | the reply is always truthy, so a string reply is never empty |
| `ChatApi.ReplyOfGeminiAnswer` | Backend/api/chat.js:52-53 | for the documented answer shape the reply is its text, or the fixed fallback when that text is empty |
| `ChatApi.ReplyOfLegacyAnswer` | Backend/api/chat.js:54 | for the `content[0].text` shape the reply is that text, or the fixed fallback when it is empty |
| `ChatApi.ReplyWithoutCandidates` | Backend/api/chat.js:52-55 | an answer without candidates gets the fixed "No valid response from Gemini." reply |
| `ChatApi.PostOutcome` | Backend/api/chat.js:20-61 | a POST whose form parses sends the prompt to the provider and answers 200 with `{reply}`, or 500 with "Internal server error" when the call throws; a form that fails to parse answers 500 without calling the provider |
| `ChatApi.Handle` | Backend/api/chat.js:15-61 | the status is 200, 405 or 500; 405 exactly for a method other than POST; the provider is called exactly for a POST whose form parses, and the answer is 200 exactly when that call succeeds too |
| `ChatApi.PostAlwaysReplies` | Backend/api/chat.js:57-60 | every POST answers 200 or 500 with a truthy `reply` field |

## Left out

- The real-time relay (session registry, frame throttling, help-request queue with exactly-once resolve, routing answers to the asking session) is not part of this model. No file of the repository serves the WebSocket the page opens (Frontend/src/Pages/Home.tsx:95) or the `/api/helprequests` endpoints it calls (Frontend/src/Pages/Home.tsx:213, 229). Modelling them would mean inventing behaviour.
- `Login.tsx` (a form that posts its fields), `ScreenShare.tsx` (media capture, canvas and timers), `App.tsx` and `Backend/server.js` (routing and `listen`) hold no logic to verify.
- Speech synthesis and recognition are parameters: `Speak` returns the text that would be spoken. The recognition callback (Frontend/src/Pages/Home.tsx:32-36) is not modelled. It calls the `handleSend` captured when the page mounted, which sees the initial `null` input.
- The screen-capture timer (Frontend/src/Pages/Home.tsx:177-193), the supervisor list refresh (`fetchRequests`), auto-scroll, JSX and Markdown rendering, and the voice rate and pitch settings (floating point) are not modelled.
- `fetch`, `res.json()` and the provider call are inputs: their parsed result or their failure is passed in. `JSON.stringify` is a function parameter. JSON numbers are integers, so fractions and NaN are not represented.
- Local storage is a list of already parsed entries, with a missing key read as the empty list. Serialising entries to JSON and back is not modelled. Chat ids (`Date.now()`) are supplied by the caller.
- Home.HomeView.HandleSend: the method follows the corrected guard `Home.SendGuard`, which reads the initial `null` input as empty text. As written, pressing Send before anything was typed throws at `input.trim()` (Frontend/src/Pages/Home.tsx:130) and changes nothing, even with a file attached; `Home.SendGuardAsWritten` and `Home.FileOnlySendThrows` model that, and "Findings" records it.
- Home.HomeView.HandleSend: the method runs the handler as one step. The states between its awaits show up only as the returned animation `frames`. Socket events that interleave with those awaits, and React's batching of updates, are not modelled.
- Home.HomeView.HandleResolve: the refresh of the pending-request list that follows a resolve is not modelled.
- ChatScreen.Step: the storage effect runs after every action. React runs it only when the messages or the current id change. Re-running it with unchanged values does nothing (`ChatScreen.UpsertIdempotent`).
- The sidebar reads the history once, when it mounts. The model renders whatever list it is given, so it does not show that chats saved later only appear after a reload.
- `trim`, `slice` and `length` work on UTF-16 code units in JavaScript. The model counts characters, so the lengths differ for characters outside the Basic Multilingual Plane.
- The error bubble's text is kept exactly as `Home.tsx` stores it. The file holds its warning sign in a doubly converted form (`â`, `š`, no-break space, `ï`, `¸`).
- The unused `multer` import and the `new parseForm()` object in `Backend/api/chat.js` are not behaviour. The handler never reads the provider's HTTP status, so an error answer from the provider gets the fallback text with status 200.

## Findings

| source | as written | input that shows it | evidently intended | confidence | as-written member | corrected member |
|---|---|---|---|---|---|---|
| Frontend/src/Pages/Home.tsx:12 | the input state starts as `null`, and the send guard calls `input.trim()` before it looks at the file | attach a file without typing anything, then press Send: `null.trim()` throws and nothing is sent | read a missing input as empty text, so the file is sent | high; not executed | `Home.FileOnlySendThrows` | `Home.SendGuard` |
| Frontend/src/Pages/ChatScreen.tsx:90 | `Home` is given `messages` and `setMessages` but takes no props (Frontend/src/Pages/Home.tsx:11) and keeps its own list, so the screen's list only ever comes from storage; moreover the router (Frontend/src/App.tsx:11) mounts `Home` alone at `/Home`, so this screen is not reached at all | chat, then press New: starting from an empty history nothing is ever stored or saved | the chat page updates the screen's message list, so conversations are stored and saved | high; not executed | `ChatScreen.HistoryNeverRecorded` | `ChatScreen.ConversationRecorded` |
