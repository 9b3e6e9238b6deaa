# Presence registry, message router and terminal session — a Dafny model

This project models the logic of a small terminal-styled chat system:

- **The socket server** (`server.js`). It keeps a map from a client-chosen
  identity to the socket that registered it. Three handlers change it or read it:
  - `register` sets the identity and broadcasts the list of identities;
  - `sendMessage` routes a message to the socket registered under `to`, or tells the sender that `to` is offline;
  - `disconnect` deletes the first entry of the closing socket and rebroadcasts the list.
- **The terminal command hook** (`hooks/useTerminalCommands.tsx`). It holds a command table, a history log and an output string.
  - `runCommand` tokenises its input, finds the first command with that name and runs its action.
  - `addCommand` appends a command to the table.
  - `handleSpecialCommand` answers four known words.
- **The chat page's session handlers** (`app/page.tsx`). Socket events append records to the message log. The identity list drops the page's own id when `clientId` changes; a later `clientList` broadcast can put it back (see below). The register and send forms check for blank input. The quick-command buttons append an echo and a response to the command history.

Each handler runs to completion on the JavaScript event loop. So each component is a sequential state machine: a class whose methods are the handlers. Each method's `ensures` gives its new state in terms of the old one, using pure functions. The properties the code promises are lemmas and `ensures` clauses on those functions.

Files:

- `wrappers.dfy`: `Option`.
- `seqs.dfy`: distinct elements and the one-value filter `xs.filter(x => x !== y)`, shared by the server (the sockets of a namespace) and the page (identity lists).
- `js_string.dfy`: the JavaScript string operations the code relies on:
  - `trim()`;
  - `split(/\s+/)`;
  - `toLowerCase()`, as far as matching ASCII words needs it;
  - `startsWith`.

  Whitespace is ECMAScript's WhiteSpace and LineTerminator set, which both `trim` and `\s` use.
- `presence.dfy`: `server.js`, as class `Presence.Server`.
  - The registry is a sequence of `(identity, socket)` entries in insertion order, as a JavaScript `Map` keeps them. `set` on an existing key keeps the key's position.
  - `connected` lists the sockets of the namespace in connection order.
  - `outbox` records every emit as a `Delivery(dest, event)`. `Inbox(outbox, d)` is what socket `d` received.
- `terminal_commands.dfy`: the hook, as class `TerminalCommands.Terminal`.
- `session.dfy`: the page's handlers, as class `Session.Client`.

Behaviour worth knowing, all proved on the model:

- `register` is last-writer-wins. It broadcasts to every connected socket, registered or not (`RegisterBroadcast`).
- `disconnect` stops at the first entry of the closing socket. A socket that registered two identities keeps the second after it disconnects. Messages to that identity still "hit": the sender gets `messageSent`, but the delivery goes to a socket that is closed (`StaleEntryAfterDisconnect`).
- A disconnecting socket with no entry causes no broadcast.
- `from` in a delivered message is copied from the client's payload. It is not checked against the sender's registered identity (`FromNotChecked`).
- The page attaches its `clientList` listener once, on mount. The listener closes over the `clientId` of the first render, which is `""`. So each `clientList` filters out only `""`, and the page's own identity can appear among "other" clients after a broadcast (`ClientListKeepsOwnId`). The effect on `clientId` removes the own identity only when `clientId` changes.

Further behaviour of the code that a reader might not expect, which the model keeps:

- On a miss, the error text names the recipient: `"User " + to + " is offline"`.
- The broadcast goes to every connected socket, not only to registered ones.
- `disconnect` removes one entry, not every entry of the socket. Stale entries can therefore remain.
- The server accepts any string identity, including the empty one. Only the page checks `clientId.trim()`.
- The server does not set `from`: it copies it from the client's payload. The `timestamp` of each event is the server's clock reading and is left out of the model.

## Model

| member | source | states |
|---|---|---|
| `Presence.Server.constructor` | server.js:17 | The registry, the set of live sockets and the outbox start empty. |
| `Presence.Server.Connect` | server.js:19 | A new connection adds a fresh socket to the end of the live sockets; it was not live before and no registry entry names it, as a new socket object matches no entry left by an earlier connection; the registry and the outbox are unchanged. |
| `Presence.ConnectKeepsInvariant` | server.js:19 | A new connection keeps the invariant, and a lookup by the new socket finds no registry entry. |
| `Presence.RegisterKeepsInvariant` | server.js:22-25 | A registration by a live socket keeps registry keys unique and every socket the registry names one that was handed out before. |
| `Presence.Server.Register` | server.js:22-28 | The registry becomes `set(clientId, s)` of the old one; one `clientList` of the keys in insertion order is delivered to each live socket; keys stay unique. |
| `Presence.Server.SendMessage` | server.js:30-55 | Only the outbox changes and it gains exactly the deliveries of `Route` for the current registry: the registry is never changed by a send, hit or miss. |
| `Presence.Server.Disconnect` | server.js:57-67 | The closing socket leaves the namespace; the registry loses exactly the first entry (in insertion order) that names the socket; a `clientList` goes to the remaining sockets only if an entry was removed, otherwise nothing is emitted. |
| `Presence.Ids` | server.js:27 | `Array.from(clients.keys())`: one key per entry, in insertion order. |
| `Presence.Set` | server.js:25 | `clients.set(id, s)`: an existing key keeps its position and gets the new socket, a new key goes to the end (properties in `SetGetSame`, `SetGetOther`, `SetKeys`). |
| `Presence.Delete` | server.js:60 | `clients.delete(id)`: drops the entry with that key, if there is one (`DeleteAt` shows it is exactly the found entry). |
| `Presence.IndexOfId` | server.js:34 | The lookup position is the first entry with that key, and there is none exactly when no entry has the key. |
| `Presence.Get` | server.js:34 | `clients.get(to)` misses only when no entry has key `to`; a hit is a socket registered under `to`. |
| `Presence.SetGetSame` | server.js:25 | After `set(id, s)` the key `id` maps to `s` whatever it mapped to before (last writer wins). |
| `Presence.SetGetOther` | server.js:25 | `set(id, s)` leaves the socket of every other key as it was. |
| `Presence.SetKeys` | server.js:25-27 | `set` keeps an existing key in its position and appends a new one at the end; keys stay unique, so the broadcast list has no duplicates. |
| `Presence.RegisterBroadcast` | server.js:25-27 | After a registration every connected socket, registered or not, receives exactly one `clientList`, no other socket receives one, and its payload is the key list in insertion order without duplicates. |
| `Presence.Fanout` | server.js:27 | `io.emit`: one delivery of the event per live socket; the k-th delivery goes to the k-th socket in connection order (per-socket statement in `InboxFanout`). |
| `Presence.InboxFanout` | server.js:27 | `io.emit` reaches each connected socket exactly once and no other socket. |
| `Presence.OfflineError` | server.js:50 | The miss text: `"User " + to + " is offline"`. |
| `Presence.Route` | server.js:34-54 | On a hit the emits are `receiveMessage{from, message}` to the recipient then `messageSent{to, message}` to the sender; on a miss they are only `messageError{to, "User <to> is offline"}` to the sender. |
| `Presence.RouteHit` | server.js:34-46 | On a hit the recipient receives exactly one `receiveMessage`, the sender exactly one `messageSent` (both to the sender when it writes to itself), and no other socket receives anything. |
| `Presence.RouteMiss` | server.js:47-53 | On a miss the sender receives exactly one `messageError` with `to` and the text `"User " + to + " is offline"`, and no other socket, the recipient included, is contacted. |
| `Presence.FromNotChecked` | server.js:31-38 | The `from` of a delivered message is the payload's, even when the sender is registered under a different identity. |
| `Presence.IndexOfSocket` | server.js:58-59 | The loop's hit is the first entry in insertion order whose socket is the closing one, and there is none exactly when no entry names that socket. |
| `Presence.Unregister` | server.js:58-65 | The registry change of the disconnect loop: the first entry naming the socket goes, everything else stays (characterised by `UnregisterRemovesFirst`). |
| `Presence.UnregisterRemovesFirst` | server.js:58-65 | The registry after disconnect is the old one with the entry at the first position naming the socket removed, and unchanged when no entry names it. |
| `Presence.UnregisterSize` | server.js:58-65 | Disconnect removes at most one entry, exactly one when the socket has an entry, and keys stay unique. |
| `Presence.DeleteAt` | server.js:60 | With unique keys, `clients.delete(clientId)` of the entry the loop found removes exactly that entry. |
| `Presence.DisconnectKeepsInvariant` | server.js:57-67 | A disconnect keeps registry keys unique, the live sockets distinct, and every live or registered socket one that was handed out before. |
| `Presence.DeleteFirstOfSocket` | server.js:58-60 | The entry the loop stops at is the first naming the socket, and `clients.delete` of its key is exactly the disconnect's registry change. |
| `Presence.StaleEntryAfterDisconnect` | server.js:58-64 | A socket registered under `a` and then `b` loses only `a` on disconnect; `b` still maps to the closed socket. |
| `JsString.Trim` | hooks/useTerminalCommands.tsx:17 | `trim()` yields a slice of the input with white space at neither end; what it removes on either side is white space only. |
| `JsString.TrimEmptyIff` | app/page.tsx:238 | A string trims to `""` exactly when it is empty or white space only. |
| `JsString.TrimPadded` | hooks/useTerminalCommands.tsx:17 | Trimming a string padded with white space on both sides gives back the trimmed core. |
| `JsString.IsSpace` | hooks/useTerminalCommands.tsx:17 | The white space of `trim()` and `\s` (also the `trim()` of app/page.tsx:238) is exactly ECMAScript's WhiteSpace code points (TAB, VT, FF, ZWNBSP and the Unicode space separators) and LineTerminator code points (LF, CR, LS, PS), each listed one by one. |
| `JsString.SplitWs` | hooks/useTerminalCommands.tsx:17 | `split(/\s+/)`: the pieces between maximal runs of white space; there is always at least one piece (`[""]` for `""`). |
| `JsString.SplitWsPieces` | hooks/useTerminalCommands.tsx:17 | No piece that `split(/\s+/)` returns contains white space. |
| `JsString.SplitTrimmedNonEmpty` | hooks/useTerminalCommands.tsx:17 | Splitting a non-empty trimmed string never yields an empty piece. |
| `JsString.SplitTrimmedTokens` | hooks/useTerminalCommands.tsx:17 | Splitting a non-empty trimmed string gives only non-empty tokens. |
| `JsString.SplitJoin` | hooks/useTerminalCommands.tsx:17 | Splitting tokens joined by any non-empty runs of white space (spaces, tabs, line breaks, several in a row) gives back the same tokens in the same order. |
| `JsString.ToLowerChar` | hooks/useTerminalCommands.tsx:43 | The lower case of a character is an ASCII lower-case letter exactly when the character is one, an ASCII capital or the KELVIN SIGN. |
| `JsString.ToLower` | hooks/useTerminalCommands.tsx:43 | `toLowerCase()` character by character; the length is kept. |
| `JsString.StartsWith` | app/page.tsx:260 | `message.startsWith('/')`: the prefix test. |
| `JsString.ToLowerIdempotent` | hooks/useTerminalCommands.tsx:43 | Lower-casing twice is lower-casing once. |
| `TerminalCommands.Tokenize` | hooks/useTerminalCommands.tsx:17 | The command name has no white space and is `""` exactly when the input is blank; the args are non-empty white-space-free tokens, none for a blank input. |
| `TerminalCommands.TokenizeJoin` | hooks/useTerminalCommands.tsx:17 | For tokens separated by any runs of white space and surrounded by any white space, the name is the first token and the args are the remaining tokens in order. |
| `TerminalCommands.Find` | hooks/useTerminalCommands.tsx:18 | Lookup selects the first command whose name equals the token exactly (case-sensitive), and misses only when no command has that name. |
| `TerminalCommands.Dispatch` | hooks/useTerminalCommands.tsx:17-25 | No command is run exactly when no command has the name; otherwise the first command with the name runs on the remaining tokens. |
| `TerminalCommands.SpecialResponse` | hooks/useTerminalCommands.tsx:43-58 | The `switch` on the lower-cased command: four fixed responses, `">> command not recognized"` otherwise. |
| `TerminalCommands.SpecialResponseIgnoresCase` | hooks/useTerminalCommands.tsx:43-58 | The response to a command is the response to its lower case. |
| `TerminalCommands.SpecialResponseKnown` | hooks/useTerminalCommands.tsx:43-58 | Only `prepare`, `question`, `join` and `wake up`, in any case, get a specific line; anything else gets `">> command not recognized"`. |
| `TerminalCommands.Text` | hooks/useTerminalCommands.tsx:19-31 | The shown and returned text: `"Command not found: " + cmd` on a miss, the resolved value, or `"Error executing command: " + error` on a rejection. |
| `TerminalCommands.Terminal.constructor` | hooks/useTerminalCommands.tsx:9-12 | The table is the initial commands; history and output start empty. |
| `TerminalCommands.Terminal.RunCommand` | hooks/useTerminalCommands.tsx:14-35 | The raw, untrimmed input is appended to the history and earlier entries are kept. Output and return value are equal: `"Command not found: " + cmd` on a miss, the action's result on success, `"Error executing command: " + error` when it throws. |
| `TerminalCommands.Terminal.AddCommand` | hooks/useTerminalCommands.tsx:37-39 | The command is appended to the table; the existing commands keep their order. |
| `TerminalCommands.Terminal.HandleSpecialCommand` | hooks/useTerminalCommands.tsx:41-59 | Exactly two lines are appended: `"> " + command` in its original case, then the response chosen by its lower case. |
| `Seqs.Without` | app/page.tsx:169 | The filtered list contains no entry equal to the id and exactly the entries of the input that differ from it. |
| `Seqs.WithoutAppend` | app/page.tsx:233 | Filtering works piece by piece, so kept entries keep their relative order. |
| `Seqs.WithoutKeepsOthers` | app/page.tsx:233 | Every entry other than the id is kept as many times as it occurs. |
| `Seqs.WithoutAbsent` | app/page.tsx:233 | A list without the id passes through unchanged. |
| `Session.CanRegister` | app/page.tsx:238 | The register guard `clientId.trim()` is non-empty. |
| `Session.CanSend` | app/page.tsx:250 | The send guard: `message.trim()` is non-empty and a recipient is chosen. |
| `Session.CanRegisterIff` | app/page.tsx:238 | Registration goes ahead exactly when the identity has a non-space character. |
| `Session.CanSendIff` | app/page.tsx:250 | Sending goes ahead exactly when the message has a non-space character and a recipient is chosen. |
| `Session.ClientListKeepsOwnId` | app/page.tsx:165-170 | The mount-time listener filters with the first render's `""`, so the page's own non-empty identity stays in a received client list. |
| `Session.Client.constructor` | app/page.tsx:111-123 | All session state starts empty, unregistered, with the listener's captured id `""`. |
| `Session.Client.SetClientId` | app/page.tsx:232-234 | After `clientId` changes, the identity list has no entry equal to it and the rest keep their relative order; re-setting the same value changes nothing else. |
| `Session.Client.SetRecipient` | app/page.tsx:512 | The chosen recipient is stored. |
| `Session.Client.SetMessage` | app/page.tsx:528-529 | The typed message is stored. |
| `Session.Client.OnClientList` | app/page.tsx:168-171 | The identity list is replaced by the received list, without entries equal to the captured id. |
| `Session.Client.OnReceiveMessage` | app/page.tsx:173-184 | Exactly one `received` record with `from` and `message` is appended; earlier records are unchanged. |
| `Session.Client.OnMessageSent` | app/page.tsx:186-197 | Exactly one `sent` record with `to` and `message` is appended; earlier records are unchanged. |
| `Session.Client.OnMessageError` | app/page.tsx:199-210 | Exactly one `error` record with `to` and `error` is appended; earlier records are unchanged. |
| `Session.Client.OnUserOffline` | app/page.tsx:212-223 | Exactly one `error` record with `"User " + to + " is offline"` is appended. |
| `Session.Client.RegisterClient` | app/page.tsx:236-246 | With a non-blank `clientId`: one `register` emit, `registered` set, `"identity assigned: " + clientId` appended. With a blank one: nothing changes. |
| `Session.Client.SendMessage` | app/page.tsx:248-267 | With a non-blank message and a recipient: one emit carrying the untrimmed message, `"execute: " + message` logged when it starts with `/`, then the input is cleared. Otherwise nothing changes. |
| `Session.Client.HandleSpecialCommand` | app/page.tsx:270-305 | `"> " + cmd` then the case-insensitive response are appended to the command history. |

## Left out

- The HTTP server, Next.js request handling, the socket.io transport and `listen` are I/O plumbing.
  - Sockets are ids.
  - An emit is an outbox entry.
  - `io.emit` is one delivery per live socket, in connection order.
- The transport removes a closing socket from the namespace before the `disconnect` handler runs. The model does the same, so a disconnect broadcast does not reach the closing socket.
- Emitting to a closed socket is recorded in the outbox like any other emit. What the transport then drops is not modelled.
- `console.log` calls and `socket.clientId` (written, never read) have no effect on the state.
- Timestamps (`new Date().toISOString()`) are clock reads and are omitted from every event and record.
- A command's action is asynchronous foreign code. It is a total function from the arguments to `Resolved(result)` or `Rejected(error)`, where `error` is the text the thrown value converts to. Other `runCommand` calls interleaving while an action is pending are not modelled.
- `setTimeout` delays in the page's `handleSpecialCommand` are not modelled: the response is appended at once. So responses to quick commands pressed in rapid succession cannot interleave in the model.
- TerminalCommands.Terminal.RunCommand: assumes each call sees the command table of the latest render. In the hook `runCommand` is memoised on `[commands]`, so a reference taken before the re-render that follows `addCommand` still looks up the old table and answers `Command not found` for the new command; that stale closure is not modelled.
- JsString.ToLowerChar, JsString.ToLower: map only `A`–`Z` and the KELVIN SIGN (the one non-ASCII character whose lower case is a single ASCII letter). This is enough to decide a match against the four ASCII command words, and it is not a full `toLowerCase`.
- Presence.Server.Register, Presence.Server.SendMessage: every payload is assumed to be well formed, as the page sends it: an identity is a string, and a `sendMessage` payload is an object with string `to`, `from` and `message`. The `TypeError` that destructuring a `null` or non-object payload throws at server.js:31, which the handler does not catch, is not modelled; nor are non-string identities such as the number `5`, which a `Map` keeps apart from the string `"5"`.
- The `socketRef.current` null checks in `registerClient` and `sendMessage` are not modelled. The ref is set on mount, before any form can be submitted.
- Sound effects, typing and loading animations, JSX rendering, CSS and the static header configuration are presentation only.
- The boot sequence (app/page.tsx:130-156) is not modelled. Its timers append six lines, from "init system" to "fsociety connection established", to `commandHistory`, the same log that `Session.Client.RegisterClient`, `Session.Client.SendMessage` and `Session.Client.HandleSpecialCommand` append to. The model's `commandHistory` starts empty and never holds those lines.
- The page's other React state (`bootSequence`, `systemStatus`, `showLogo`) only drives rendering and is left out.
- React's batching of state updates is not modelled: each modelled handler applies its updates in order.
