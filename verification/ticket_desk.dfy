/** The ticket handlers under `/tickets`: create, get and append a message.
    A ticket's message log only ever grows at its end. */
module TicketDesk {
  import opened JsValues
  import opened Maps
  import opened Model
  import opened LiveChat

  /** The text of the system message a new ticket starts with. */
  function CreationNotice(product: string, discordEmail: string): string {
    "Ticket created for " + product + ". Discord/Email: " + discordEmail
  }

  /** `t` is the record a create request for (`product`, `discordEmail`)
      stores under `id` at time `createdAt`. */
  ghost predicate IsNewTicket(t: Ticket, id: string, product: string, discordEmail: string, createdAt: string) {
    && t.id == id
    && t.product == product
    && t.discordEmail == discordEmail
    && |t.messages| == 1
    && t.messages[0].timestamp == createdAt
    && t.messages[0].author == "System"
    && t.messages[0].text == CreationNotice(product, discordEmail)
    && t.visibleTo == ["admin", discordEmail]
  }

  /** `t'` is `t` with `m` appended to its log and nothing else changed. */
  ghost predicate AppendedOnce(t: Ticket, t': Ticket, m: Message) {
    && t'.id == t.id
    && t'.product == t.product
    && t'.discordEmail == t.discordEmail
    && t'.visibleTo == t.visibleTo
    && |t'.messages| == |t.messages| + 1
    && t.messages <= t'.messages
    && t'.messages[|t.messages|] == m
  }

  /** `POST /tickets/create`. The id is the creation instant as the server
      formats it; a create whose id is already taken replaces that ticket. */
  function CreateTicket(s: Store, product: JsValue, discordEmail: JsValue, id: string, createdAt: string): (h: Handled)
    ensures h.deliveries == map[]
    ensures h.next.credentials == s.credentials && h.next.files == s.files && h.next.rooms == s.rooms
    ensures !Truthy(product) || !Truthy(discordEmail) ==>
      h.response == Fail(400, "Product and Discord/Email required") && h.next == s
    ensures Truthy(product) && Truthy(discordEmail) ==>
      && h.response == Response(200, Created(id))
      && h.next.tickets.Keys == s.tickets.Keys + {id}
      && AgreeExcept(s.tickets, h.next.tickets, id)
      && IsNewTicket(h.next.tickets[id], id, product.s, discordEmail.s, createdAt)
  {
    if !Truthy(product) || !Truthy(discordEmail) then
      Handled(Fail(400, "Product and Discord/Email required"), s, map[])
    else
      var ticket := Ticket(
        id, product.s, discordEmail.s,
        [Message(createdAt, "System", CreationNotice(product.s, discordEmail.s))],
        ["admin", discordEmail.s]);
      Handled(Response(200, Created(id)), s.(tickets := s.tickets[id := ticket]), map[])
  }

  /** `GET /tickets/:id`. The whole record is returned to any caller: the
      request carries no identity to check against `visibleTo`. */
  function GetTicket(s: Store, id: string): (h: Handled)
    ensures h.next == s && h.deliveries == map[]
    ensures h.response.Success() <==> id in s.tickets
    ensures id !in s.tickets ==> h.response == Fail(404, "Ticket not found")
    ensures id in s.tickets ==> h.response == Response(200, TicketFound(s.tickets[id]))
  {
    if id !in s.tickets then
      Handled(Fail(404, "Ticket not found"), s, map[])
    else
      Handled(Response(200, TicketFound(s.tickets[id])), s, map[])
  }

  /** `POST /tickets/:id/message`. The missing-field check (400) comes before
      the existence check (404). On success the message is appended with the
      save time, and every socket in the ticket's room receives a
      `newMessage` event stamped with the (separately taken) emit time. */
  function PostMessage(s: Store, id: string, text: JsValue, author: JsValue, savedAt: string, emittedAt: string): (h: Handled)
    ensures h.next.credentials == s.credentials && h.next.files == s.files && h.next.rooms == s.rooms
    ensures !Truthy(text) || !Truthy(author) ==>
      h.response == Fail(400, "Text and author required") && h.next == s && h.deliveries == map[]
    ensures Truthy(text) && Truthy(author) && id !in s.tickets ==>
      h.response == Fail(404, "Ticket not found") && h.next == s && h.deliveries == map[]
    ensures Truthy(text) && Truthy(author) && id in s.tickets ==>
      && h.response == Response(200, Done)
      && h.next.tickets.Keys == s.tickets.Keys
      && AgreeExcept(s.tickets, h.next.tickets, id)
      && AppendedOnce(s.tickets[id], h.next.tickets[id], Message(savedAt, author.s, text.s))
      && h.deliveries.Keys == Members(s.rooms, id)
      && (forall socket :: socket in h.deliveries ==> h.deliveries[socket] == Message(emittedAt, author.s, text.s))
  {
    if !Truthy(text) || !Truthy(author) then
      Handled(Fail(400, "Text and author required"), s, map[])
    else if id !in s.tickets then
      Handled(Fail(404, "Ticket not found"), s, map[])
    else
      var ticket := s.tickets[id];
      var ticket' := ticket.(messages := ticket.messages + [Message(savedAt, author.s, text.s)]);
      Handled(Response(200, Done), s.(tickets := s.tickets[id := ticket']),
              Fanout(s.rooms, id, Message(emittedAt, author.s, text.s)))
  }

  /** A created ticket can be fetched back with one system message and the
      default visibility list. */
  lemma GetAfterCreate(s: Store, product: string, discordEmail: string, id: string, createdAt: string)
    requires product != "" && discordEmail != ""
    ensures var r := GetTicket(CreateTicket(s, Str(product), Str(discordEmail), id, createdAt).next, id).response;
      && r.status == 200
      && r.body.TicketFound?
      && r.body.ticket.messages == [Message(createdAt, "System", CreationNotice(product, discordEmail))]
      && r.body.ticket.visibleTo == ["admin", discordEmail]
  {
  }

  /** Create, then one message, then get: the log holds the system message
      followed by the posted one. */
  lemma CreatePostGet(s: Store, product: string, discordEmail: string, id: string, createdAt: string,
                      author: string, text: string, savedAt: string, emittedAt: string)
    requires product != "" && discordEmail != "" && author != "" && text != ""
    ensures
      var s1 := CreateTicket(s, Str(product), Str(discordEmail), id, createdAt).next;
      var s2 := PostMessage(s1, id, Str(text), Str(author), savedAt, emittedAt).next;
      var r := GetTicket(s2, id).response;
      && r.body.TicketFound?
      && |r.body.ticket.messages| == 2
      && r.body.ticket.messages[0].author == "System"
      && r.body.ticket.messages[1] == Message(savedAt, author, text)
  {
  }

  /** A socket that joined a ticket's room before a message is posted
      receives exactly that message's author and text. */
  lemma JoinedSocketIsNotified(s: Store, socket: SocketId, id: string, text: string, author: string,
                               savedAt: string, emittedAt: string)
    requires id in s.tickets && text != "" && author != ""
    ensures var h := PostMessage(JoinTicket(s, socket, id), id, Str(text), Str(author), savedAt, emittedAt);
      socket in h.deliveries && h.deliveries[socket] == Message(emittedAt, author, text)
  {
  }

  /** A create whose id is already taken replaces the stored ticket, so its
      earlier messages are lost: ids are not guaranteed unique. */
  lemma CollidingCreateDropsHistory(s: Store, product: string, discordEmail: string, id: string, createdAt: string)
    requires product != "" && discordEmail != ""
    requires id in s.tickets && |s.tickets[id].messages| >= 2
    ensures var t := CreateTicket(s, Str(product), Str(discordEmail), id, createdAt).next.tickets[id];
      |t.messages| == 1 && !(s.tickets[id].messages <= t.messages)
  {
  }
}
