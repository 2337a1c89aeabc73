# Panels server: request handling as a verified state machine

This project models the request-handling logic of the Panels web server
(`server.js`): a password check at `/login`, a file manager over one flat
directory (`/files/list`, `/files/read`, `/files/write`, `/files/delete`), a
support-ticket desk (`/tickets/create`, `/tickets/:id`,
`/tickets/:id/message`) and the socket.io live chat (`joinTicket` and the
`newMessage` fan-out).

The model has no filesystem, express or socket.io. Each handler is a pure
function from a store and a request to a response and a new store. The store
is four maps (`Model.Store`):

- credentials: username to password;
- files: file name to content;
- tickets: ticket id to the ticket record;
- rooms: ticket id to the set of socket ids that joined it.

Request fields are `JsValues.JsValue`: absent (`undefined`) or a string.
`Truthy` is JavaScript truthiness on those values, so the empty string is
falsy. Responses carry the HTTP status and the JSON body, with the exact
messages and constants of the source (`"Invalid credentials"`,
`"/dashboard.html"`, `"System"`, the ticket creation notice, …).
`Server.Step` dispatches one request or socket event. `Server.Run` folds
`Step` over a sequence of them, treating each handler as one atomic step.

The file `server.js` holds two near-identical copies of the server (lines
1-197 and 199-391). They differ only in where a ticket is kept on disk:
`tickets/<id>/ticket.json` in the first copy, `tickets/<id>.json` in the
second. Both are the same tickets map here. Rows below cite the first copy
unless a line exists only in the second.

Clock readings are inputs of the model. The ticket id comes from
`Date.now()`, and the stored and emitted message timestamps come from two
separate `new Date()` calls; each is a separate parameter.

Modules: `JsValues`, `Maps` (frame predicates), `Model` (data),
`Auth`, `FileManager`, `LiveChat`, `TicketDesk`, `Server`.

## Model

| member | source | states |
|---|---|---|
| Auth.Login | server.js:49-57 | success only when the username's key is stored, its password is non-empty and strictly equal to the supplied one; that case always succeeds with redirect `/dashboard.html` and the user; every failure is 401 "Invalid credentials" with no user; the key is looked up by `Auth.LookupKey`, which turns an absent username into the key "undefined" as JavaScript's property lookup does |
| Auth.AdminFlag | server.js:53 | a successful login reports `isAdmin` exactly when the username is "admin" |
| Auth.EmptyStoredPasswordLocksOut | server.js:52 | a user whose stored password is the empty string is refused for every supplied password (JavaScript truthiness) |
| Auth.MissingPasswordFails | server.js:52 | a login without a password is always 401 |
| Auth.UnknownUserFails | server.js:52-55 | a username that is not a stored key is always 401 |
| Auth.LoginMatchesCredentials | server.js:52-55 | for string fields, login succeeds iff the pair is a stored credential with a non-empty password |
| FileManager.ListFiles | server.js:60-69 | the listing names every stored file exactly once and nothing else |
| FileManager.ReadFile | server.js:71-84 | 400 iff the name is missing or empty; otherwise 404 iff the file is absent; otherwise the stored content; the store never changes |
| FileManager.WriteFile | server.js:86-98 | 400 with the store unchanged iff the name is missing/empty or the content is absent; otherwise the name maps to exactly the content and every other file, ticket and room is untouched |
| FileManager.DeleteFile | server.js:100-113 | 400 for a missing name and 404 for an absent file, both with the store unchanged; otherwise exactly that name is removed and every other entry is untouched |
| FileManager.NameCheckPrecedesLookup | server.js:72-75 | a missing or empty name gives read and delete the same 400 whatever the directory holds: the name check wins over the existence check |
| FileManager.ReadAfterWrite | server.js:86-90 | a read after a successful write returns exactly the written content, the empty string included |
| FileManager.EmptyContentAcceptedEmptyNameRejected | server.js:88 | empty content is a successful write; an empty file name is 400 |
| FileManager.LastWriteWins | server.js:88-90 | writing twice to one name leaves the same store as writing only the last content |
| FileManager.ReadAfterDelete | server.js:101-111 | after a successful delete, reading that name gives 404 "File not found" |
| FileManager.OtherFilesUnaffected | server.js:86-113 | a write or delete does not change what reading any other name returns |
| LiveChat.JoinTicket | server.js:179-182 | the joined room gains exactly the socket; every other room and the files, tickets and credentials are unchanged; the id is not checked against stored tickets |
| LiveChat.Fanout | server.js:171 | every socket in the ticket's room gets one copy of the event, and no other socket gets one |
| LiveChat.JoinIsIdempotent | server.js:180 | joining the same room twice is the same as joining once |
| LiveChat.JoinOnlyAdds | server.js:178-186 | a join never removes a socket from any room |
| TicketDesk.CreateTicket | server.js:116-138 | 400 with the store unchanged iff product or contact is missing/empty; otherwise the id maps to a ticket with that id, product and contact, one "System" message with the creation notice text, and `visibleTo` ["admin", contact]; other tickets, files and rooms are untouched |
| TicketDesk.GetTicket | server.js:140-151 | 404 iff no ticket has the id, otherwise the stored record unchanged and unfiltered; the store never changes |
| TicketDesk.PostMessage | server.js:153-175 | 400 for missing text/author is decided before the 404 for an absent ticket, and both leave the store unchanged and emit nothing; on success the log grows by one message at its end with the old log as prefix, the ticket's other fields and all other tickets are untouched, and exactly the room's sockets get the author and text |
| TicketDesk.GetAfterCreate | server.js:116-151 | a created ticket reads back with the single system message and `visibleTo` ["admin", contact] |
| TicketDesk.CreatePostGet | server.js:116-175 | create, post, get shows two messages: the system message, then the posted author and text |
| TicketDesk.JoinedSocketIsNotified | server.js:171-182 | a socket that joined a ticket's room before a post receives that post's author and text |
| TicketDesk.CollidingCreateDropsHistory | server.js:119-130 | a create whose id is already stored replaces the ticket and loses its earlier messages, so ids are not unique by construction |
| Server.Step | server.js:48-186 | credentials never change; among the modelled events (a string room name, no disconnect) only `joinTicket` changes rooms, and only by adding one socket to one room; only a posted message emits events; no ticket is removed; a log only grows unless a create reuses its id; `Server.Run` applies `Step` to a sequence of requests and events in order |
| Server.StepPreservesWellFormed | server.js:116-175 | every step keeps the store invariant: no file named "", every ticket stored under its own id, with non-empty product and contact, a first "System" message, `visibleTo` ["admin", contact], and truthy author and text on every posted message |
| Server.InitialStoreWellFormed | server.js:13-20 | a store with no files and no tickets satisfies the invariant |
| Server.RunPreservesWellFormed | server.js:116-175 | every sequence of requests and events keeps the invariant |
| Server.RunKeepsCredentials | server.js:31-40 | the credentials loaded at startup are unchanged by any run |
| Server.RunRooms | server.js:177-186 | after any run of the modelled events, a room holds exactly its earlier sockets plus those that joined it during the run; disconnect, which empties a socket's rooms, is not modelled |
| Server.RunNeverDeletesTickets | server.js:115-175 | no run removes a stored ticket |
| Server.RunKeepsHistory | server.js:153-175 | over any run in which no create reuses its id, a ticket's earlier messages stay an unchanged prefix of its log |

## Left out

- The error branches with status 500 are not modelled: read, write, delete, listing, ticket create, ticket read and message save can each fail in the filesystem. The source gives no guarantee about the store after a failed write.
- The express plumbing is not modelled: the static routes, the error middleware and the catch-all route that serves `dashboard.html` (server.js:22-29, 42-46, 188-191). This includes one routing quirk: a stored file named `list` or `read` is served by the static route mounted at `/files` before the `/files/list` and `/files/read` handlers are reached.
- Path handling is not modelled. File names and ticket ids are opaque map keys, so `path.join` resolution and path traversal (`../`) are out of scope, and so is an existence check that succeeds for a directory.
- Serialisation is not modelled. The JSON encoding and decoding of ticket records is library code, so tickets are datatypes.
- Clocks are not modelled. `Date.now()` and `new Date().toISOString()` become request parameters. Nothing is claimed about id format, id uniqueness or the relation between the stored and the emitted timestamp.
- Concurrency is not modelled. Each handler is one atomic step, so the lost update between two concurrent appends and the race between a join and a publish are outside the model.
- Socket disconnect is not modelled: the handler only logs, and room cleanup is done by socket.io. The room socket.io creates for each socket's own id is also outside the model.
- Startup is not modelled: creating the directories, loading `config.json` and the environment fallback for the admin password (server.js:10-20, 31-40). The credentials map is part of the initial store.
- Logging is not modelled.
- Request fields are `undefined` or a string. Numbers, booleans, `null`, objects and arrays are not modelled; in the source they would reach the truthiness checks, template strings and `writeFile` with JavaScript's coercions. The same holds for non-string passwords in the credentials configuration.
- The `joinTicket` payload is modelled as a string room name. An absent payload, numbers and arrays are not modelled; socket.io joins every room of an array, so one such event can add the socket to several rooms, which `Server.Step` and `Server.RunRooms` do not cover.
- Strings are sequences of Unicode scalar values. A JSON body can carry a lone surrogate, which `writeFile` with the `utf8` encoding stores as U+FFFD; names and contents containing lone surrogates are not modelled, so `FileManager.ReadAfterWrite` promises the exact round trip only for the modelled strings.
- No endpoint checks whether the caller logged in, and `GET /tickets/:id` ignores `visibleTo`. The model reproduces this: requests carry no identity.
- FileManager.ListFiles: the order of the listing is left unspecified, since it is chosen by the directory enumeration. The method is not one of the `Server.Step` inputs because it changes nothing.
- `visibleTo` is the two-element list `["admin", contact]`, so "admin" appears twice when the contact is "admin". A create whose id is already taken overwrites that ticket (`TicketDesk.CollidingCreateDropsHistory`); the model promises no id uniqueness.
