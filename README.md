# codesync session logic in Dafny

codesync is a collaborative code editor. Each browser tab joins a room over socket.io.
The client keeps a map of files and the name of the file shown in the editor. It sends its
edits and new files to the server, and the server relays them to the other members of the
room. The server also keeps a username per socket, tells a room who joined and who left, and
forwards "run" requests to an external code-execution service (Piston). The client shows
that service's answer in an output pane.

This project models that session logic:

- `Wrappers`, `Text`, `Seqs`: `Option`; JavaScript's `endsWith` and `||` on strings; and
  sequences used as JavaScript arrays and as insertion-ordered `Set`s.
- `Protocol`: the socket events in both directions and the `/execute` body and reply.
- `FileSet`: the client's file map, the state updaters of its socket handlers and of a local
  edit, the suffix tables for languages and icons, and the rule that turns a run reply into
  `(output, isError)`.
- `EditorPage`: the editor page as a class. It holds `files`, `activeFileName`, `output`,
  `isError`, whether the socket is open, and an outbox of emitted messages. Every method
  keeps the active name a key of the map.
- `RoomRegistry`: room membership as values. It covers the `getAllConnectedClients` snapshot,
  the deliveries one emit produces, and how many deliveries each socket receives.
- `RelayServer`: the server as a class. It holds `userSocketMap`, socket.io's membership in
  both directions (room to members, socket to rooms), and an outbox of deliveries. It has one
  method per socket handler. Two transport steps are separate methods: entering the
  socket's own room on connect, and leaving every room after `disconnecting`.
- `ExecuteRoute`: validation of the posted body, `orderedFiles`, the request for the
  service, and the HTTP answer. The service call is a function parameter.
- `Sync`: how the two sides fit together. A relayed edit or creation reproduces the
  sender's update on another editor. The output pane is traced through the route.

Conventions: an emit is a `Delivery(to, event)` appended to the server's outbox, and a
client's emit is a `ClientMessage` appended to the client's outbox. As in socket.io 4, `io.to(x)`
emits to every member of the room named `x`, and `socket.in(r)` emits to the members of `r`
less every member of the room named by the sender's id. Each socket's own room normally holds
just that socket, but nothing stops a client from joining a room named after another socket's
id; the delivery lemmas state the general count and, under that hypothesis, the usual one. A falsy string field of
the service's answer is `""`. A field the client left out of the `/execute` body is `None`.

## Model

| member | source | states |
|---|---|---|
| FileSet.InitialFiles | client/src/pages/EditorPage.jsx:15-31 | the map starts with exactly `script.js`, `style.css` and `index.html`, each stored under its own name |
| FileSet.ApplyCodeChange | client/src/pages/EditorPage.jsx:69-79 | for an existing name only that entry's value changes, its name and language are kept and so is every other entry; for an unknown name the map is returned unchanged; the key set never changes |
| FileSet.ApplyFileCreated | client/src/pages/EditorPage.jsx:81-87 | inserts `{name, language, value}` only when the name is absent; an existing entry and all others are untouched; the keys grow by at most that name |
| FileSet.FileCreatedIdempotent | client/src/pages/EditorPage.jsx:81-87 | applying the same `file_created` twice is the same as applying it once |
| FileSet.ApplyEdit | client/src/pages/EditorPage.jsx:105-110 | the active entry gets the new text as value and keeps its name and language; every other entry and the key set are unchanged |
| FileSet.NewFileValue | client/src/pages/EditorPage.jsx:135 | a new file's content is `"// New file: "` followed by exactly its name |
| FileSet.NewFile | client/src/pages/EditorPage.jsx:135 | the new file object carries the entered name, the language derived from that name, and the `// New file: ` content |
| FileSet.SuffixesExclusive | client/src/pages/EditorPage.jsx:128-133 | no name ends with two of `.py`, `.java`, `.cpp`, `.css`, `.html`, `.js`, so the order of the successive tests does not matter |
| FileSet.LanguageTag | client/src/pages/EditorPage.jsx:128-133 | exactly one of six tags; each of python, java, cpp, css and html holds exactly when the name ends with its suffix; javascript holds exactly when none of them does |
| FileSet.FileIcon | client/src/pages/EditorPage.jsx:183-191 | each of the six icons is shown exactly when the name ends with its suffix; anything else gets the plain page |
| FileSet.IconAgreesWithLanguage | client/src/pages/EditorPage.jsx:183-191 | the icon and the language tag agree; `.js` and unknown suffixes both run as JavaScript |
| FileSet.ApplyRemote | client/src/pages/EditorPage.jsx:69-95 | no server event removes a key or breaks "every entry is stored under its own name"; `joined` and `disconnected` leave the files unchanged |
| FileSet.ShowRun | client/src/pages/EditorPage.jsx:163-170 | a truthy signal shows `"Error: " + signal`; otherwise output, else stderr, else `"No Output"`; the error flag is set exactly when signal or stderr is truthy; the text is never empty |
| FileSet.RunDisplay | client/src/pages/EditorPage.jsx:161-174 | a missing reply, a non-2xx reply, an error body or an answer without `run` shows `"Error: Failed to execute code."` with the error flag; a delivered run shows what `ShowRun` gives |
| FileSet.RunDelivered | client/src/pages/EditorPage.jsx:154-170 | the `try` block completes exactly when a reply arrived with a 2xx status and a forwarded body that has a `run` part |
| Text.Or | client/src/pages/EditorPage.jsx:168 | `a \|\| b` on strings is `a` when `a` is truthy and `b` otherwise, and is truthy exactly when either operand is |
| Text.EndsWith | client/src/pages/EditorPage.jsx:129-133 | `s.endsWith(suffix)`: the suffix is no longer than `s` and equals its last characters |
| EditorPage.DeriveLanguage | client/src/pages/EditorPage.jsx:128-133 | the successive reassignments of `lang` end in `LanguageTag(fileName)` |
| EditorPage.EditorState.constructor | client/src/pages/EditorPage.jsx:15-36 | the three default files, `script.js` active, an empty output without error, socket not open, nothing emitted |
| EditorPage.EditorState.OpenSocket | client/src/pages/EditorPage.jsx:64-67 | opening the socket emits `join` with the room and the username, and changes nothing else |
| EditorPage.EditorState.OnCodeChange | client/src/pages/EditorPage.jsx:69-79 | the handler's new files are `ApplyCodeChange` of the old ones; the active name stays a key; nothing else changes |
| EditorPage.EditorState.OnFileCreated | client/src/pages/EditorPage.jsx:81-89 | the handler's new files are `ApplyFileCreated` of the old ones; the active name stays a key |
| EditorPage.EditorState.Receive | client/src/pages/EditorPage.jsx:69-95 | any server event updates the files as `ApplyRemote` says and leaves the active name, the outbox and the output pane alone |
| EditorPage.EditorState.HandleEditorChange | client/src/pages/EditorPage.jsx:105-118 | the active entry's value becomes the text; once the socket is open, `code_change` is emitted with the active name and the same text |
| EditorPage.EditorState.CreateNewFile | client/src/pages/EditorPage.jsx:120-146 | a cancelled prompt, an empty name or an existing name changes nothing and emits nothing; otherwise the new file is inserted with its derived language and content, earlier entries are kept, it becomes active, and `file_created` carries the same name, language and value |
| EditorPage.EditorState.SelectFile | client/src/pages/EditorPage.jsx:221-222 | clicking a listed name makes it active; the files are unchanged |
| EditorPage.EditorState.RunCode | client/src/pages/EditorPage.jsx:148-177 | the pane ends as `RunDisplay(reply)`; files, active name and outbox are unchanged |
| RoomRegistry.Members | server/index.js:90 | a room nobody is in has no members |
| RoomRegistry.Lookup | server/index.js:94 | the username is defined exactly for sockets in `userSocketMap`, with the stored name |
| RoomRegistry.ConnectedClients | server/index.js:89-98 | one `{socketId, username}` per member, in membership order, with the name from the map; an unknown room gives the empty list |
| RoomRegistry.SnapshotIsMembership | server/index.js:89-98 | the snapshot's socket ids are exactly the room's members, each once |
| RoomRegistry.BroadcastMembers | server/index.js:66 | a delivery is in one emit exactly when it carries the event to one of the recipients |
| RoomRegistry.DeliveredToCountsRecipients | server/index.js:66 | a socket receives as many deliveries of one emit as it occurs among the recipients |
| RoomRegistry.BroadcastExactlyOnce | server/index.js:66 | when the recipients form a set, each of them receives the event exactly once and nobody else receives it |
| RoomRegistry.ToRoom | server/index.js:57 | one emit of the adapter to a room: a delivery of the event to each member outside the excluded list, in membership order; `io.to(x)` excludes nobody, `socket.in(r)` excludes the members of the sender's own room |
| RoomRegistry.ToRoomOnce | server/index.js:57 | an emit to a room reaches each member outside the excluded list exactly once and nobody else; `io.to(room)` excludes nobody |
| RoomRegistry.RelayReachesOthersOnce | server/index.js:65-71 | `socket.in(room).emit` from a sender reaches each member of the room exactly once unless it is also in the room named by the sender's id, and then never; when that room holds only the sender, this is every member but the sender |
| RoomRegistry.Emits | server/index.js:56-80 | a `forEach` of emits: one `ToRoom` per listed room, in list order, all with the same excluded list and event |
| RoomRegistry.EmitsReach | server/index.js:56-80 | a chain of emits, one per listed room, delivers exactly the event, to exactly the sockets that are in some listed room and are not excluded |
| RoomRegistry.EmitsCount | server/index.js:56-80 | an excluded socket receives nothing from the chain; any other socket receives one delivery per listed room it is in |
| RoomRegistry.EmitsToOwnRooms | server/index.js:56-62 | when each listed socket's own room holds only that socket, emitting to each own room in turn is one delivery per listed socket, in order |
| RoomRegistry.JoinedReachesMembers | server/index.js:55-62 | a socket receives one `joined` per member of the room whose own room it is in; when every member's own room holds only that member, the members, the joiner included, each receive `joined` exactly once, in membership order |
| RoomRegistry.NoticesReachRoommates | server/index.js:73-80 | every `disconnected` notice carries the event to a socket outside the sender's own room that shares one of the sender's rooms, and every such socket gets one; when the sender's own room holds only the sender, these are the sockets other than the sender that share a room with it |
| RoomRegistry.NoticesOncePerSharedRoom | server/index.js:73-80 | a member of the sender's own room gets no notice; any other socket gets one notice per room of the sender's list it is in; when the sender's own room holds only the sender, only the sender is left out |
| Seqs.AddOnce | server/index.js:54 | `socket.join` on the member set: the joiner is added once; joining again leaves the set as it was |
| Seqs.ExceptKeepsOthers | server/index.js:66 | the adapter's except filter keeps exactly the members that are not excluded, keeps a set a set, and changes nothing when no member is excluded |
| RelayServer.WithoutSocket | server/index.js:73-86 | after a disconnect a room keeps its other members and disappears once empty |
| RelayServer.JoinConsistent | server/index.js:52-54 | recording the username and entering the room keep the registry consistent |
| RelayServer.ConnectConsistent | server/index.js:29-30 | a new connection entering its own room keeps the registry consistent |
| RelayServer.WithoutSocketConsistent | server/index.js:73-86 | removing a socket with no username from every room keeps the registry consistent |
| RelayServer.Relay.constructor | server/index.js:24 | an empty username map, no rooms, no sockets, nothing emitted |
| RelayServer.Relay.Connect | server/index.js:29-30 | a new socket is connected and is the newest member of the room named by its id |
| RelayServer.Relay.Join | server/index.js:52-63 | the socket's username is overwritten with the new one; it is a member of the room, and a re-join does not duplicate it; `joined`, with one shared snapshot, the joiner's name and id, is emitted to the room named by each member's id, in membership order |
| RelayServer.Relay.Enter | server/index.js:53-54 | the username map and both membership directions gain exactly the join |
| RelayServer.Relay.EmitToEach | server/index.js:56-62 | the loop appends one `io.to` emit per listed client, to the room named by its id, in order |
| RelayServer.Relay.EmitToRoom | server/index.js:57 | one emit of the adapter appends a delivery to each member of the room outside the excluded list, in membership order, and nothing else |
| RelayServer.Relay.NotifyRooms | server/index.js:74-80 | the loop appends, room by room in the socket's order, a `socket.in` emit of `disconnected` that excepts the members of the socket's own room |
| RelayServer.Relay.RelayToRoom | server/index.js:66 | one delivery to each member of the room that is not a member of the room named by the sender's id, in membership order |
| RelayServer.Relay.RelayCodeChange | server/index.js:65-67 | the relayed form of `code_change`, `{code, fileName}` without `roomId`, goes to the room through `socket.in` |
| RelayServer.Relay.RelayFileCreated | server/index.js:69-71 | the relayed form of `file_created`, `{fileName, language, value}`, goes to the room through `socket.in` |
| RelayServer.Relay.Disconnecting | server/index.js:73-81 | the notices of `NotifyRooms` carry the socket's id and its recorded name; the socket's entry then leaves `userSocketMap`, and every other entry and the membership are unchanged |
| RelayServer.Relay.LeaveAll | server/index.js:73-86 | the transport removes the socket from every room and drops rooms left empty; the membership of every other socket is unchanged |
| RelayServer.Relay.Disconnect | server/index.js:73-86 | a whole disconnect: the notices as above, computed on the membership before removal; no username, no room list and no membership left for the socket; the rooms are the old rooms without it, and every other socket's membership is unchanged |
| ExecuteRoute.MissingData | server/index.js:103 | the body is rejected exactly when `files`, `mainFile` or `language` is missing, or `language` is the empty string |
| ExecuteRoute.ToPiston | server/index.js:105-106 | a posted file becomes `{name, content}` with its name and its value as content |
| ExecuteRoute.Rest | server/index.js:106 | no kept file has the entry's name |
| ExecuteRoute.RestAppend | server/index.js:106 | the kept files keep their input order |
| ExecuteRoute.RestMembers | server/index.js:106 | a converted file is kept exactly when it is one of the posted files and its name differs from the entry's |
| ExecuteRoute.RestNames | server/index.js:106 | the kept names are exactly the posted names other than the entry's |
| ExecuteRoute.RestKeepsOthers | server/index.js:106 | a list without the entry's name is kept whole, converted in order |
| ExecuteRoute.RestDistinct | server/index.js:106 | distinct posted names give distinct kept names |
| ExecuteRoute.OrderedFiles | server/index.js:104-107 | element 0 is `{name: mainFile.name, content: mainFile.value}`; no later element has that name |
| ExecuteRoute.OrderedNamesDistinct | server/index.js:104-107 | no name appears twice in the request when the posted names were distinct |
| ExecuteRoute.OrderedFilesPermutes | server/index.js:104-107 | when the entry is one of the posted files and names are distinct, the request holds every posted file exactly once |
| ExecuteRoute.BuildRequest | server/index.js:102-111 | no request exactly when `files`, `mainFile` or `language` is falsy; otherwise the posted language, version `"*"` and the ordered files |
| ExecuteRoute.Execute | server/index.js:101-116 | 400 with "Missing data" for a rejected body, whatever the service would do; 200 with the service's body unchanged on success; 500 with "Failed to execute code" when the call throws |
| Protocol.Relayed | server/index.js:65-71 | `code_change` and `file_created` are relayed with their payload minus the room; `join` is not relayed |
| Sync.EditConverges | client/src/pages/EditorPage.jsx:105-117 | an editor with the sender's files that applies the relayed edit ends with the sender's files |
| Sync.CreateConverges | client/src/pages/EditorPage.jsx:135-143 | an editor without the new name that applies the relayed creation ends with the creator's files |
| Sync.RunThroughRoute | server/index.js:101-116 | a rejected body or a failed call shows the failure message; a service answer with `run` shows that run; one without `run` shows the failure message |

## Left out

- The `node-pty` terminal (server/index.js:33-49, 85): it spawns a shell and carries no session state.
- socket.io and axios as transports: connection options, `connect_error`, reconnection and the cleanup disconnect (client/src/pages/EditorPage.jsx:45-62, 100-102). The model's `connected` flag stands for `socketRef.current` being set.
- The HTTP call to the execution service (server/index.js:109-111): it is the parameter `piston`, a total function from request to success-with-body or failure.
- React rendering, styles, `toast`, `prompt`, `navigate` and the clipboard (client/src/pages/EditorPage.jsx:180-278). The prompt's answer is a parameter of `CreateNewFile`. A sidebar click is `SelectFile`, and its precondition is that the name is listed.
- The `location.state` guard (client/src/pages/EditorPage.jsx:38-43, 180): the username is a parameter of `OpenSocket`.
- The `joined` toast (client/src/pages/EditorPage.jsx:91-95) and the `isLoading` flag.
- The request-building half of `runCode` (client/src/pages/EditorPage.jsx:151-159): the route takes the posted body as it comes.
- The client registers no `disconnected` handler, so `Receive` ignores that event.
- Concurrency and interleaving across senders: every handler runs to completion, one event at a time.
- The bare `socket.leave()` (server/index.js:82) passes no room and removes nothing. socket.io's own removal after `disconnecting` is modelled as `LeaveAll`. The socket's own room is modelled as `Connect`.
- JavaScript prototype names such as `toString` or `constructor`: in the source, `files[name]` and `prev[name]` see inherited members for these names. The model's map has only the keys it was given.
- A body whose `files` is not an array, and a `mainFile` without `name` or `value`: the model's types rule these out. A `files` of `[]` is truthy and is accepted, as in the source.
- The values in `userSocketMap` are strings; the source can also store `undefined` when the landing page passed no username.
- File deletion: neither file has any.
