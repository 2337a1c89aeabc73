/** The socket.io side channel: ticket rooms and the `newMessage` fan-out. */
module LiveChat {
  import opened Model

  /** The `joinTicket` event: the socket enters the room of `ticketId`. The
      id is not checked against the stored tickets. */
  function JoinTicket(s: Store, socket: SocketId, ticketId: string): (s': Store)
    ensures Members(s'.rooms, ticketId) == Members(s.rooms, ticketId) + {socket}
    ensures forall other :: other != ticketId ==> Members(s'.rooms, other) == Members(s.rooms, other)
    ensures s'.credentials == s.credentials && s'.files == s.files && s'.tickets == s.tickets
  {
    s.(rooms := s.rooms[ticketId := Members(s.rooms, ticketId) + {socket}])
  }

  /** `io.to(ticketId).emit('newMessage', event)`: one copy of the event to
      every socket in the room, and to no other socket. */
  function Fanout(rooms: map<string, set<SocketId>>, ticketId: string, event: Message): (d: map<SocketId, Message>)
    ensures d.Keys == Members(rooms, ticketId)
    ensures forall socket :: socket in d ==> d[socket] == event
  {
    map socket | socket in Members(rooms, ticketId) :: event
  }

  /** Joining the same room twice changes nothing the second time. */
  lemma JoinIsIdempotent(s: Store, socket: SocketId, ticketId: string)
    ensures JoinTicket(JoinTicket(s, socket, ticketId), socket, ticketId) == JoinTicket(s, socket, ticketId)
  {
  }

  /** Joins never remove a socket from any room. */
  lemma JoinOnlyAdds(s: Store, socket: SocketId, ticketId: string, room: string)
    ensures Members(s.rooms, room) <= Members(JoinTicket(s, socket, ticketId).rooms, room)
  {
  }
}
