/** The Express router in backend/src/routes/tickets.js. It behaves as the
    classic router except at creation, where it keeps subject, priority,
    location and an attachments array, each with a default, and requires no
    attachment. */
module DefaultsRouter {
  import opened Options
  import opened JsValues
  import opened OrderedStore
  import opened Tickets
  import opened MemoryRoutes

  /** POST /tickets : 400 on a falsy required field; otherwise a NEW ticket
      whose optional fields hold what was sent, or their defaults when absent. */
  function CreateTicket(s: TicketStore, body: Body, id: Id, now: Timestamp): (r: Response)
    requires id !in Keys(s)
    ensures !Required(body) <==> r == BadRequest(MissingFields)
    ensures Required(body) ==> r.Ok?
    ensures r.Ok? ==>
      && r.code == 201
      && |r.store| == |s| + 1 && r.store[..|s|] == s && r.store[|s|].0 == id
      && r.reply == TicketReply(r.store[|s|].1)
    ensures r.Ok? ==>
      var t := r.reply.ticket;
      && t.id == id && t.status == New && t.messages == [] && t.createdAt == Some(now)
      && t.name == Field(body, "name") && t.email == Field(body, "email")
      && t.description == Field(body, "description")
      && t.details.Routed?
      && t.details.subject == OrDefault(Field(body, "subject"), Str(""))
      && t.details.priority == OrDefault(Field(body, "priority"), Str("Medium"))
      && t.details.location == OrDefault(Field(body, "location"), Str("NYC"))
      && t.details.attachments == OrDefault(Field(body, "attachments"), Arr([]))
  {
    if !Required(body) then BadRequest(MissingFields)
    else
      var details := Routed(
        OrDefault(Field(body, "subject"), Str("")),
        OrDefault(Field(body, "priority"), Str("Medium")),
        OrDefault(Field(body, "location"), Str("NYC")),
        OrDefault(Field(body, "attachments"), Arr([])));
      var t := Ticket(id, Field(body, "name"), Field(body, "email"), Field(body, "description"),
                      details, New, [], Some(now));
      Ok(Append(s, id, t), 201, TicketReply(t))
  }

  /** Attachments are optional here: a complete body with no attachments is accepted. */
  lemma NoAttachmentNeeded(s: TicketStore, body: Body, id: Id, now: Timestamp)
    requires id !in Keys(s) && Required(body) && "attachments" !in body
    ensures CreateTicket(s, body, id, now).Ok?
    ensures CreateTicket(s, body, id, now).reply.ticket.details.attachments == Arr([])
  {
  }

  /** A supplied empty subject or null priority is stored as sent, not replaced by a default. */
  lemma SuppliedEmptyValuesKept(s: TicketStore, body: Body, id: Id, now: Timestamp)
    requires id !in Keys(s) && Required(body)
    requires Field(body, "subject") == Str("") && Field(body, "priority") == Null
    ensures CreateTicket(s, body, id, now).reply.ticket.details.subject == Str("")
    ensures CreateTicket(s, body, id, now).reply.ticket.details.priority == Null
  {
  }

  /** The router: every route of the file; the store stays well formed. */
  function Dispatch(s: TicketStore, route: Route, draw: Fresh): (r: Response)
    requires draw.ticketId !in Keys(s)
    ensures WellFormed(s) ==> WellFormed(After(r, s))
  {
    match route
    case ListRoute(q) => ListTickets(s, q)
    case CreateRoute(body) =>
      var r := CreateTicket(s, body, draw.ticketId, draw.now);
      if r.Ok? then AppendKeepsWellFormed(s, r.reply.ticket); r else r
    case GetRoute(id) => GetTicket(s, id)
    case PatchRoute(id, body) =>
      PatchKeepsWellFormed(s, id, body);
      PatchStatus(s, id, body)
    case MessageRoute(id, body) =>
      AddMessageKeepsWellFormed(s, id, body, draw.messageId, draw.now);
      AddMessage(s, id, body, draw.messageId, draw.now)
    case DeleteRoute(id) =>
      DeleteKeepsWellFormed(s, id);
      DeleteTicket(s, id)
  }
}
