/** The Express router in app/backend/routes/tickets.js: create, get, status
    update and add message only. Tickets record no creation time, messages no
    `fromAdmin`, and adding a message answers `{ ok: true }`. */
module MinimalRouter {
  import opened Options
  import opened JsValues
  import opened OrderedStore
  import opened Tickets
  import opened MemoryRoutes

  /** POST /tickets : exactly id, name, email, description, attachment (null
      when falsy), status NEW and an empty thread; no createdAt. */
  function CreateTicket(s: TicketStore, body: Body, id: Id): (r: Response)
    requires id !in Keys(s)
    ensures !Required(body) <==> r == BadRequest(MissingFields)
    ensures Required(body) ==> r.Ok?
    ensures r.Ok? ==>
      && r.code == 201
      && |r.store| == |s| + 1 && r.store[..|s|] == s && r.store[|s|].0 == id
      && r.reply == TicketReply(r.store[|s|].1)
    ensures r.Ok? ==>
      var t := r.reply.ticket;
      && t.id == id && t.status == New && t.messages == [] && t.createdAt == None
      && t.name == Field(body, "name") && t.email == Field(body, "email")
      && t.description == Field(body, "description")
      && t.details.Single?
      && (Truthy(Field(body, "attachment")) ==> t.details.attachment == Field(body, "attachment"))
      && (!Truthy(Field(body, "attachment")) ==> t.details.attachment == Null)
  {
    if !Required(body) then BadRequest(MissingFields)
    else
      var t := Ticket(id, Field(body, "name"), Field(body, "email"), Field(body, "description"),
                      Single(OrNull(Field(body, "attachment"))), New, [], None);
      Ok(Append(s, id, t), 201, TicketReply(t))
  }

  /** POST /tickets/:id/messages : 404 first, then 400 on a falsy body; the
      message pushed has no `fromAdmin`, whatever was sent, and the reply is
      `{ ok: true }` rather than the message. */
  function AddMessage(s: TicketStore, id: Id, body: Body, msgId: Id, now: Timestamp): (r: Response)
    ensures id !in Keys(s) ==> r == NotFound(NotFoundError)
    ensures id in Keys(s) && !Truthy(Field(body, "body")) ==> r == BadRequest(BodyRequired)
    ensures id in Keys(s) && Truthy(Field(body, "body")) ==>
      && r.Ok? && r.code == 201 && r.reply == OkTrue
      && Keys(r.store) == Keys(s)
      && Get(r.store, id) == Some(Get(s, id).value.(messages :=
           Get(s, id).value.messages + [Message(msgId, Field(body, "body"), None, now)]))
    ensures r.Ok? && DistinctKeys(s) ==>
      DistinctKeys(r.store) && MessageAdded(s, r.store, id, Message(msgId, Field(body, "body"), None, now))
  {
    match Get(s, id)
    case None => NotFound(NotFoundError)
    case Some(t) =>
      var text := Field(body, "body");
      if !Truthy(text) then BadRequest(BodyRequired)
      else Ok(PushMessage(s, id, t, Message(msgId, text, None, now)), 201, OkTrue)
  }

  /** The router. Only POST /, GET /:id, PATCH /:id/status and POST /:id/messages
      exist: a list or delete request matches no route (`None`, Express's own
      fall-through). The store stays well formed. */
  function Dispatch(s: TicketStore, route: Route, draw: Fresh): (r: Option<Response>)
    requires draw.ticketId !in Keys(s)
    ensures r.None? <==> route.ListRoute? || route.DeleteRoute?
    ensures r.Some? && WellFormed(s) ==> WellFormed(After(r.value, s))
  {
    match route
    case ListRoute(_) => None
    case DeleteRoute(_) => None
    case CreateRoute(body) =>
      var r := CreateTicket(s, body, draw.ticketId);
      if r.Ok? then AppendKeepsWellFormed(s, r.reply.ticket); Some(r) else Some(r)
    case GetRoute(id) => Some(GetTicket(s, id))
    case PatchRoute(id, body) =>
      PatchKeepsWellFormed(s, id, body);
      Some(PatchStatus(s, id, body))
    case MessageRoute(id, body) =>
      AddMessageKeepsWellFormed(s, id, body, draw.messageId, draw.now);
      Some(AddMessage(s, id, body, draw.messageId, draw.now))
  }

  /** Adding a message keeps the store invariant. */
  lemma AddMessageKeepsWellFormed(s: TicketStore, id: Id, body: Body, msgId: Id, now: Timestamp)
    ensures WellFormed(s) ==> WellFormed(After(AddMessage(s, id, body, msgId, now), s))
  {
    var r := AddMessage(s, id, body, msgId, now);
    if WellFormed(s) && r.Ok? {
      var m := Message(msgId, Field(body, "body"), None, now);
      forall i | 0 <= i < |r.store| ensures r.store[i].0 == r.store[i].1.id && Complete(r.store[i].1) {
        if s[i].0 == id {
          var t := s[i].1;
          assert r.store[i].1.messages == t.messages + [m];
          forall x | x in t.messages + [m] ensures Truthy(x.body) {
            if x !in t.messages { assert x == m; }
          }
        }
      }
    }
  }
}
