/** The ticket vocabulary the backend variants share: statuses, tickets,
    messages, the handler outcomes and the error texts. */
module Tickets {
  import opened Options
  import opened JsValues

  type Id = string

  /** A clock reading in milliseconds. The source stores `new Date().toISOString()`,
      which keeps milliseconds; ISO-8601 strings of one format order as the
      instants they denote, so a number stands for them. */
  type Timestamp = nat

  datatype Status = New | InProgress | Resolved

  /** The wire name of a status, as listed in `['NEW', 'IN_PROGRESS', 'RESOLVED']`. */
  function StatusName(st: Status): string {
    match st
    case New => "NEW"
    case InProgress => "IN_PROGRESS"
    case Resolved => "RESOLVED"
  }

  /** `['NEW', 'IN_PROGRESS', 'RESOLVED'].includes(v)`, returning the status it names.
      `includes` compares with SameValueZero, so only those exact strings pass. */
  function ParseStatus(v: JsVal): (r: Option<Status>)
    ensures r.Some? ==> v == Str(StatusName(r.value))
    ensures forall st :: v == Str(StatusName(st)) ==> r == Some(st)
  {
    match v
    case Str(s) =>
      if s == "NEW" then Some(New)
      else if s == "IN_PROGRESS" then Some(InProgress)
      else if s == "RESOLVED" then Some(Resolved)
      else None
    case _ => None
  }

  /** A message in a ticket's thread. `fromAdmin` is `None` where the handler
      writes no such property. */
  datatype Message = Message(id: Id, body: JsVal, fromAdmin: Option<bool>, createdAt: Timestamp)

  /** The fields a variant keeps besides the common ones. */
  datatype Details =
      /** `attachment: attachment || null` */
    | Single(attachment: JsVal)
      /** subject, priority, location and the attachments array */
    | Routed(subject: JsVal, priority: JsVal, location: JsVal, attachments: JsVal)
      /** the help-request form's full field set */
    | Extended(subject: JsVal, requestType: JsVal, testInfo: JsVal, cc: JsVal,
               location: JsVal, room: JsVal, priority: JsVal, attachments: JsVal)

  /** A stored ticket. `createdAt` is `None` in the variant that records none. */
  datatype Ticket = Ticket(
    id: Id,
    name: JsVal,
    email: JsVal,
    description: JsVal,
    details: Details,
    status: Status,
    messages: seq<Message>,
    createdAt: Option<Timestamp>)

  /** The JSON a successful in-memory handler sends. */
  datatype Reply =
    | TicketReply(ticket: Ticket)
    | ListReply(tickets: seq<Ticket>)
    | MessageReply(message: Message)
    | OkTrue
    | DeletedReply(note: string)

  /** What a route handler does: succeed with the new store, an HTTP code and a
      reply, or refuse with 400 or 404 and an error text, leaving the store as
      it was. `Failed` is a handler that threw after it had changed the store:
      Express answers 500, and the change stays. */
  datatype Outcome<S, R> =
    | Ok(store: S, code: nat, reply: R)
    | BadRequest(error: string)
    | NotFound(error: string)
    | Failed(store: S)

  /** The store once the handler has run. */
  function After<S, R>(o: Outcome<S, R>, s: S): S {
    if o.Ok? || o.Failed? then o.store else s
  }

  /** An incoming request, by route. */
  datatype Route =
    | ListRoute(query: JsVal)
    | CreateRoute(body: Body)
    | GetRoute(id: Id)
    | PatchRoute(id: Id, body: Body)
    | MessageRoute(id: Id, body: Body)
    | DeleteRoute(id: Id)

  /** The nondeterministic inputs a request may consume: `crypto.randomUUID()`
      for a new ticket and for a new message, and the clock. */
  datatype Fresh = Fresh(ticketId: Id, messageId: Id, now: Timestamp)

  /** `!name || !email || !description` is false. */
  predicate Required(body: Body)
    ensures Required(body) ==> "name" in body && "email" in body && "description" in body
  {
    Truthy(Field(body, "name")) && Truthy(Field(body, "email")) && Truthy(Field(body, "description"))
  }

  const MissingFields := "Missing required fields"
  const InvalidStatus := "Invalid status"
  const NotFoundError := "Not found"
}
