/** The Express router in backend/backend/src/routes/tickets.js: list, create,
    get, status update, add message and delete over one in-memory `Map`. A
    ticket keeps a single optional `attachment`. */
module ClassicRouter {
  import opened Options
  import opened JsValues
  import opened OrderedStore
  import opened Tickets
  import opened MemoryRoutes

  /** POST /tickets : 400 when name, email or description is falsy; otherwise
      a NEW ticket with an empty thread goes last under the fresh id. */
  function CreateTicket(s: TicketStore, body: Body, id: Id, now: Timestamp): (r: Response)
    requires id !in Keys(s)
    ensures !Required(body) <==> r == BadRequest(MissingFields)
    ensures Required(body) ==> r.Ok?
    ensures r.Ok? ==>
      && r.code == 201
      && |r.store| == |s| + 1 && r.store[..|s|] == s && r.store[|s|].0 == id
      && r.reply == TicketReply(r.store[|s|].1)
    ensures r.Ok? ==>
      var t := r.reply.ticket;
      && t.id == id && t.status == New && t.messages == [] && t.createdAt == Some(now)
      && t.name == Field(body, "name") && t.email == Field(body, "email")
      && t.description == Field(body, "description")
      && t.details.Single?
      && (Truthy(Field(body, "attachment")) ==> t.details.attachment == Field(body, "attachment"))
      && (!Truthy(Field(body, "attachment")) ==> t.details.attachment == Null)
  {
    if !Required(body) then BadRequest(MissingFields)
    else
      var t := Ticket(id, Field(body, "name"), Field(body, "email"), Field(body, "description"),
                      Single(OrNull(Field(body, "attachment"))), New, [], Some(now));
      Ok(Append(s, id, t), 201, TicketReply(t))
  }

  /** The router: every route of the file, each to its handler. Whatever the
      request, the store stays well formed. */
  function Dispatch(s: TicketStore, route: Route, draw: Fresh): (r: Response)
    requires draw.ticketId !in Keys(s)
    ensures WellFormed(s) ==> WellFormed(After(r, s))
    ensures WellFormed(s) && route.DeleteRoute? && r.Ok? ==> route.id !in Keys(r.store)
  {
    match route
    case ListRoute(q) => ListTickets(s, q)
    case CreateRoute(body) =>
      var r := CreateTicket(s, body, draw.ticketId, draw.now);
      if r.Ok? then AppendKeepsWellFormed(s, r.reply.ticket); r else r
    case GetRoute(id) => GetTicket(s, id)
    case PatchRoute(id, body) =>
      PatchKeepsWellFormed(s, id, body);
      PatchStatus(s, id, body)
    case MessageRoute(id, body) =>
      AddMessageKeepsWellFormed(s, id, body, draw.messageId, draw.now);
      AddMessage(s, id, body, draw.messageId, draw.now)
    case DeleteRoute(id) =>
      DeleteKeepsWellFormed(s, id);
      DeleteTicket(s, id)
  }

  /** Create, move to IN_PROGRESS, add an admin reply, read back: the ticket
      shows the new status and exactly that one message. */
  lemma Scenario(s: TicketStore, id: Id, mid: Id, t0: Timestamp, t1: Timestamp)
    requires WellFormed(s) && id !in Keys(s)
    ensures
      var c := CreateTicket(s, map["name" := Str("A"), "email" := Str("a@x.com"), "description" := Str("d")], id, t0);
      && c.Ok? && c.code == 201 && c.reply.ticket.status == New
      && var p := PatchStatus(c.store, id, map["status" := Str("IN_PROGRESS")]);
      && p.Ok? && p.code == 200
      && var m := AddMessage(p.store, id, map["body" := Str("hi"), "fromAdmin" := Bool(true)], mid, t1);
      && m.Ok? && m.code == 201
      && var g := GetTicket(m.store, id);
      && g.Ok? && g.reply.ticket.status == InProgress
      && g.reply.ticket.messages == [Message(mid, Str("hi"), Some(true), t1)]
  {
    var c := CreateTicket(s, map["name" := Str("A"), "email" := Str("a@x.com"), "description" := Str("d")], id, t0);
    assert Required(map["name" := Str("A"), "email" := Str("a@x.com"), "description" := Str("d")]);
    var t := c.reply.ticket;
    assert Get(c.store, id) == Some(t) by {
      assert c.store == Append(s, id, t);
    }
    assert Field(map["status" := Str("IN_PROGRESS")], "status") == Str(StatusName(InProgress));
    var p := PatchStatus(c.store, id, map["status" := Str("IN_PROGRESS")]);
    var b := map["body" := Str("hi"), "fromAdmin" := Bool(true)];
    assert Field(b, "body") == Str("hi") && Field(b, "fromAdmin") == Bool(true);
  }

  /** A PATCH with "BOGUS" is refused and the stored status stays what it was. */
  lemma BogusStatusRefused(s: TicketStore, id: Id)
    requires id in Keys(s)
    ensures PatchStatus(s, id, map["status" := Str("BOGUS")]) == BadRequest(InvalidStatus)
  {
    assert ParseStatus(Field(map["status" := Str("BOGUS")], "status")).None?;
  }
}
