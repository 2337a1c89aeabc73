/** The abstract store the request handlers work on, and the shape of
    their responses. */
module Model {
  import opened JsValues

  /** A socket.io connection, identified by its socket id. */
  type SocketId = string

  /** One entry of a ticket's message log, and the payload of a
      `newMessage` event. */
  datatype Message = Message(timestamp: string, author: string, text: string)

  /** A ticket record as it is stored on disk. */
  datatype Ticket = Ticket(
    id: string,
    product: string,
    discordEmail: string,
    messages: seq<Message>,
    visibleTo: seq<string>)

  /** Everything a request can read or change: the credentials loaded at
      startup, the files directory, the tickets directory and the socket.io
      rooms (ticket id to the sockets that joined it). */
  datatype Store = Store(
    credentials: map<string, string>,
    files: map<string, string>,
    tickets: map<string, Ticket>,
    rooms: map<string, set<SocketId>>)

  /** The `user` object of a successful login. */
  datatype User = User(username: JsValue, isAdmin: bool)

  /** The JSON body of a response, without the `success` flag. */
  datatype Body =
    | LoginOk(redirect: string, user: User)
    | FileList(names: seq<string>)
    | FileContent(content: string)
    | Done
    | Created(ticketId: string)
    | TicketFound(ticket: Ticket)
    | Failed(message: string)

  datatype Response = Response(status: int, body: Body) {
    /** The envelope's `success` field. */
    predicate Success() {
      !body.Failed?
    }
  }

  /** What one HTTP handler produces: its response, the store after it, and
      the `newMessage` event it emits to each socket. */
  datatype Handled = Handled(response: Response, next: Store, deliveries: map<SocketId, Message>)

  /** A `{success: false, message}` response. */
  function Fail(status: int, message: string): Response {
    Response(status, Failed(message))
  }

  /** The sockets in the room of ticket `ticketId` (none when nobody joined it). */
  function Members(rooms: map<string, set<SocketId>>, ticketId: string): set<SocketId> {
    if ticketId in rooms then rooms[ticketId] else {}
  }
}
