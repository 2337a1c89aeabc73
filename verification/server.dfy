/** The server as a sequential state machine: one atomic step per HTTP
    request or socket event, and the invariants every run keeps. */
module Server {
  import opened JsValues
  import opened Maps
  import opened Model
  import Auth
  import FileManager
  import LiveChat
  import TicketDesk

  /** The requests and socket events that read or change the store. Clock
      readings (the ticket id taken from the creation instant and the
      timestamps) arrive as part of the input. Listing the files is a
      read-only method of its own, `FileManager.ListFiles`. */
  datatype Input =
    | LoginRequest(username: JsValue, password: JsValue)
    | ReadRequest(filename: JsValue)
    | WriteRequest(filename: JsValue, content: JsValue)
    | DeleteRequest(filename: JsValue)
    | CreateRequest(product: JsValue, discordEmail: JsValue, ticketId: string, createdAt: string)
    | GetRequest(ticketId: string)
    | PostRequest(ticketId: string, text: JsValue, author: JsValue, savedAt: string, emittedAt: string)
    | JoinEvent(socket: SocketId, ticketId: string)

  /** Socket events get no HTTP reply. */
  datatype Reply = NoReply | Replied(response: Response)

  datatype Outcome = Outcome(reply: Reply, next: Store, deliveries: map<SocketId, Message>)

  function FromHandled(h: Handled): Outcome {
    Outcome(Replied(h.response), h.next, h.deliveries)
  }

  /** Message `i` of ticket `t` is a system message or carries a truthy
      author and text. */
  ghost predicate ValidMessage(t: Ticket, i: int)
    requires 0 <= i < |t.messages|
  {
    t.messages[i].author == "System" || (t.messages[i].author != "" && t.messages[i].text != "")
  }

  /** What every ticket the server has stored looks like. */
  ghost predicate WellFormedTicket(id: string, t: Ticket) {
    && t.id == id
    && t.product != ""
    && t.discordEmail != ""
    && |t.messages| >= 1
    && t.messages[0].author == "System"
    && t.visibleTo == ["admin", t.discordEmail]
    && forall i :: 0 <= i < |t.messages| ==> ValidMessage(t, i)
  }

  /** The store invariant: no file has the empty name, and every ticket is
      well formed and stored under its own id. */
  ghost predicate WellFormed(s: Store) {
    && "" !in s.files
    && forall id :: id in s.tickets ==> WellFormedTicket(id, s.tickets[id])
  }

  /** One step. Among the modelled events only `joinTicket` touches the rooms; only a posted message
      emits events; the credentials never change; no ticket is ever
      removed, and a ticket's log only grows unless a create reuses its id. */
  function Step(s: Store, input: Input): (o: Outcome)
    ensures o.next.credentials == s.credentials
    ensures !input.JoinEvent? ==> o.next.rooms == s.rooms && o.reply.Replied?
    ensures input.JoinEvent? ==>
      && o.reply == NoReply
      && o.next.files == s.files && o.next.tickets == s.tickets
      && Members(o.next.rooms, input.ticketId) == Members(s.rooms, input.ticketId) + {input.socket}
      && forall room :: room != input.ticketId ==> Members(o.next.rooms, room) == Members(s.rooms, room)
    ensures !input.PostRequest? ==> o.deliveries == map[]
    ensures s.tickets.Keys <= o.next.tickets.Keys
    ensures forall id :: id in s.tickets && !(input.CreateRequest? && input.ticketId == id) ==>
      s.tickets[id].messages <= o.next.tickets[id].messages
  {
    match input
    case LoginRequest(username, password) =>
      Outcome(Replied(Auth.Login(s.credentials, username, password)), s, map[])
    case ReadRequest(filename) => FromHandled(FileManager.ReadFile(s, filename))
    case WriteRequest(filename, content) => FromHandled(FileManager.WriteFile(s, filename, content))
    case DeleteRequest(filename) => FromHandled(FileManager.DeleteFile(s, filename))
    case CreateRequest(product, discordEmail, id, createdAt) =>
      FromHandled(TicketDesk.CreateTicket(s, product, discordEmail, id, createdAt))
    case GetRequest(id) => FromHandled(TicketDesk.GetTicket(s, id))
    case PostRequest(id, text, author, savedAt, emittedAt) =>
      FromHandled(TicketDesk.PostMessage(s, id, text, author, savedAt, emittedAt))
    case JoinEvent(socket, id) => Outcome(NoReply, LiveChat.JoinTicket(s, socket, id), map[])
  }

  /** The store after handling `inputs` one after another. */
  function Run(s: Store, inputs: seq<Input>): Store
    decreases |inputs|
  {
    if inputs == [] then s else Run(Step(s, inputs[0]).next, inputs[1..])
  }

  /** The sockets that join the room of `ticketId` during `inputs`. */
  function JoinedSockets(inputs: seq<Input>, ticketId: string): set<SocketId>
    decreases |inputs|
  {
    if inputs == [] then {}
    else
      (if inputs[0].JoinEvent? && inputs[0].ticketId == ticketId then {inputs[0].socket} else {})
      + JoinedSockets(inputs[1..], ticketId)
  }

  /** No input in `inputs` is a create with id `id`. */
  ghost predicate NeverRecreated(inputs: seq<Input>, id: string) {
    forall i :: 0 <= i < |inputs| ==> !(inputs[i].CreateRequest? && inputs[i].ticketId == id)
  }

  /** Every step keeps the store well formed. */
  lemma StepPreservesWellFormed(s: Store, input: Input)
    requires WellFormed(s)
    ensures WellFormed(Step(s, input).next)
  {
    var s' := Step(s, input).next;
    match input
    case WriteRequest(filename, content) =>
    case DeleteRequest(filename) =>
    case CreateRequest(product, discordEmail, id, createdAt) =>
      if Truthy(product) && Truthy(discordEmail) {
        forall k | k in s'.tickets
          ensures WellFormedTicket(k, s'.tickets[k])
        {
          if k != id {
            assert EqualOnKey(s.tickets, s'.tickets, k);
          }
        }
      }
    case PostRequest(id, text, author, savedAt, emittedAt) =>
      if Truthy(text) && Truthy(author) && id in s.tickets {
        forall k | k in s'.tickets
          ensures WellFormedTicket(k, s'.tickets[k])
        {
          if k != id {
            assert EqualOnKey(s.tickets, s'.tickets, k);
          } else {
            var t, t' := s.tickets[id], s'.tickets[id];
            assert TicketDesk.AppendedOnce(t, t', Message(savedAt, author.s, text.s));
            forall i | 0 <= i < |t'.messages|
              ensures ValidMessage(t', i)
            {
              if i < |t.messages| {
                assert ValidMessage(t, i);
                assert t'.messages[i] == t.messages[i];
              }
            }
          }
        }
      }
    case _ =>
  }

  /** The empty store is well formed, whatever the credentials. */
  lemma InitialStoreWellFormed(credentials: map<string, string>)
    ensures WellFormed(Store(credentials, map[], map[], map[]))
  {
  }

  /** Every run from a well-formed store ends in a well-formed store. */
  lemma {:induction false} RunPreservesWellFormed(s: Store, inputs: seq<Input>)
    requires WellFormed(s)
    ensures WellFormed(Run(s, inputs))
    decreases |inputs|
  {
    if inputs != [] {
      StepPreservesWellFormed(s, inputs[0]);
      RunPreservesWellFormed(Step(s, inputs[0]).next, inputs[1..]);
    }
  }

  /** The credentials loaded at startup are the ones every later login sees. */
  lemma {:induction false} RunKeepsCredentials(s: Store, inputs: seq<Input>)
    ensures Run(s, inputs).credentials == s.credentials
    decreases |inputs|
  {
    if inputs != [] {
      RunKeepsCredentials(Step(s, inputs[0]).next, inputs[1..]);
    }
  }

  /** The room of a ticket after a run holds exactly the sockets it held
      before plus those that joined it during the run. This holds over runs
      of the modelled events; disconnect, which empties a socket's rooms,
      is not modelled. */
  lemma {:induction false} RunRooms(s: Store, inputs: seq<Input>, ticketId: string)
    ensures Members(Run(s, inputs).rooms, ticketId) == Members(s.rooms, ticketId) + JoinedSockets(inputs, ticketId)
    decreases |inputs|
  {
    if inputs != [] {
      RunRooms(Step(s, inputs[0]).next, inputs[1..], ticketId);
    }
  }

  /** No request deletes a ticket: every stored id is still stored after
      any run. */
  lemma {:induction false} RunNeverDeletesTickets(s: Store, inputs: seq<Input>)
    ensures s.tickets.Keys <= Run(s, inputs).tickets.Keys
    decreases |inputs|
  {
    if inputs != [] {
      RunNeverDeletesTickets(Step(s, inputs[0]).next, inputs[1..]);
    }
  }

  /** Tickets are never deleted, and the log of a ticket no create reuses
      the id of keeps every earlier message, in order, as a prefix. */
  lemma {:induction false} RunKeepsHistory(s: Store, inputs: seq<Input>, id: string)
    requires id in s.tickets && NeverRecreated(inputs, id)
    ensures id in Run(s, inputs).tickets
    ensures s.tickets[id].messages <= Run(s, inputs).tickets[id].messages
    decreases |inputs|
  {
    if inputs != [] {
      var s1 := Step(s, inputs[0]).next;
      assert !(inputs[0].CreateRequest? && inputs[0].ticketId == id);
      assert NeverRecreated(inputs[1..], id) by {
        forall i | 0 <= i < |inputs[1..]|
          ensures !(inputs[1..][i].CreateRequest? && inputs[1..][i].ticketId == id)
        {
          assert inputs[1..][i] == inputs[i + 1];
        }
      }
      RunKeepsHistory(s1, inputs[1..], id);
    }
  }
}
