/** The SQLite-backed server in backend/server.js, over its two tables as the
    handlers query them: `tickets` and `messages`, each a sequence of rows in
    insertion order. `WHERE` is a filter, `ORDER BY datetime(createdAt)` a sort.
    Columns hold the JavaScript value the handler binds. */
module SqliteServer {
  import opened Options
  import opened JsValues
  import opened Seqs
  import opened Tickets

  datatype TicketRow = TicketRow(
    id: Id, name: JsVal, email: JsVal, description: JsVal, attachment: JsVal,
    status: JsVal, createdAt: Timestamp, updatedAt: Timestamp)

  /** `fromAdmin` is stored as the integer 1 or 0. */
  datatype MessageRow = MessageRow(id: Id, ticketId: Id, body: JsVal, fromAdmin: int, createdAt: Timestamp)

  datatype Db = Db(tickets: seq<TicketRow>, messages: seq<MessageRow>)

  /** `SELECT id, name, email, description, attachment, status, createdAt`: a row without `updatedAt`. */
  datatype CreatedView = CreatedView(
    id: Id, name: JsVal, email: JsVal, description: JsVal, attachment: JsVal, status: JsVal, createdAt: Timestamp)

  /** `SELECT id, name, email, status, createdAt`. */
  datatype Summary = Summary(id: Id, name: JsVal, email: JsVal, status: JsVal, createdAt: Timestamp)

  /** `SELECT id, body, fromAdmin, createdAt FROM messages`. */
  datatype MessageView = MessageView(id: Id, body: JsVal, fromAdmin: int, createdAt: Timestamp)

  datatype SqlReply =
    | Created(view: CreatedView)
    | Summaries(rows: seq<Summary>)
    | Detail(ticket: TicketRow, thread: seq<MessageView>)
    | Patched(id: Id, status: JsVal, updatedAt: Timestamp)
    | Posted(id: Id, ticketId: Id, body: JsVal, fromAdmin: bool, createdAt: Timestamp)

  type SqlResponse = Outcome<Db, SqlReply>

  const MissingBody := "Missing body"
  const TicketNotFound := "Ticket not found"

  function TicketIds(rows: seq<TicketRow>): set<Id> {
    set r | r in rows :: r.id
  }

  function MessageIds(rows: seq<MessageRow>): set<Id> {
    set r | r in rows :: r.id
  }

  /** The database invariant: primary keys unique, every message belongs to a
      ticket, `fromAdmin` is 0 or 1, and the required texts are truthy. */
  ghost predicate Consistent(db: Db) {
    && (forall i, j :: 0 <= i < j < |db.tickets| ==> db.tickets[i].id != db.tickets[j].id)
    && (forall i, j :: 0 <= i < j < |db.messages| ==> db.messages[i].id != db.messages[j].id)
    && (forall r :: r in db.tickets ==> Truthy(r.name) && Truthy(r.email) && Truthy(r.description))
    && (forall m :: m in db.messages ==>
          m.ticketId in TicketIds(db.tickets) && (m.fromAdmin == 0 || m.fromAdmin == 1) && Truthy(m.body))
  }

  /** `get('SELECT … FROM tickets WHERE id = ?')`: the first row with that id. */
  function SelectTicket(rows: seq<TicketRow>, id: Id): (r: Option<TicketRow>)
    ensures r.None? <==> id !in TicketIds(rows)
    ensures r.Some? ==> r.value in rows && r.value.id == id
  {
    if |rows| == 0 then None
    else if rows[0].id == id then Some(rows[0])
    else
      assert rows == [rows[0]] + rows[1..];
      SelectTicket(rows[1..], id)
  }

  /** `UPDATE tickets SET status = ?, updatedAt = ? WHERE id = ?`, with the
      number of rows it changed. */
  function UpdateStatus(rows: seq<TicketRow>, id: Id, status: JsVal, now: Timestamp): (r: (seq<TicketRow>, nat))
    ensures |r.0| == |rows|
    ensures forall i :: 0 <= i < |rows| ==>
      r.0[i] == (if rows[i].id == id then rows[i].(status := status, updatedAt := now) else rows[i])
    ensures r.1 == 0 <==> id !in TicketIds(rows)
  {
    if |rows| == 0 then ([], 0)
    else
      assert rows == [rows[0]] + rows[1..];
      var (rest, n) := UpdateStatus(rows[1..], id, status, now);
      if rows[0].id == id then ([rows[0].(status := status, updatedAt := now)] + rest, n + 1)
      else ([rows[0]] + rest, n)
  }

  function SummaryOf(r: TicketRow): Summary {
    Summary(r.id, r.name, r.email, r.status, r.createdAt)
  }

  function ViewOf(m: MessageRow): MessageView {
    MessageView(m.id, m.body, m.fromAdmin, m.createdAt)
  }

  /** The views of the messages filed under ticket `id`, in table order. */
  function ThreadOf(messages: seq<MessageRow>, id: Id): seq<MessageView> {
    Map(Filter(messages, (m: MessageRow) => m.ticketId == id), ViewOf)
  }

  /** POST /api/tickets : 400 on a falsy required field; otherwise one row is
      inserted with status NEW and equal creation and update times, and the
      reply (200, not 201) is that row without `updatedAt`. */
  function CreateTicket(db: Db, body: Body, id: Id, now: Timestamp): (r: SqlResponse)
    requires id !in TicketIds(db.tickets)
    ensures !Required(body) <==> r == BadRequest(MissingFields)
    ensures Required(body) ==> r.Ok?
    ensures r.Ok? ==>
      && r.code == 200
      && r.store.messages == db.messages
      && |r.store.tickets| == |db.tickets| + 1 && r.store.tickets[..|db.tickets|] == db.tickets
      && var row := r.store.tickets[|db.tickets|];
      && row.id == id && row.status == Str("NEW") && row.createdAt == now && row.updatedAt == now
      && row.name == Field(body, "name") && row.email == Field(body, "email")
      && row.description == Field(body, "description")
      && (Truthy(Field(body, "attachment")) ==> row.attachment == Field(body, "attachment"))
      && (!Truthy(Field(body, "attachment")) ==> row.attachment == Null)
      && r.reply == Created(CreatedView(row.id, row.name, row.email, row.description, row.attachment, row.status, row.createdAt))
  {
    if !Required(body) then BadRequest(MissingFields)
    else
      var row := TicketRow(id, Field(body, "name"), Field(body, "email"), Field(body, "description"),
                           OrNull(Field(body, "attachment")), Str("NEW"), now, now);
      var rows := db.tickets + [row];
      ReadBackInserted(db.tickets, row);
      var back := SelectTicket(rows, id).value;
      Ok(Db(rows, db.messages), 200,
         Created(CreatedView(back.id, back.name, back.email, back.description, back.attachment, back.status, back.createdAt)))
  }

  /** The SELECT after the INSERT reads back the row just inserted. */
  lemma ReadBackInserted(rows: seq<TicketRow>, row: TicketRow)
    requires row.id !in TicketIds(rows)
    ensures SelectTicket(rows + [row], row.id) == Some(row)
  {
    assert row in rows + [row];
  }

  /** SQLite's `datetime(t)` on a `toISOString()` reading: `YYYY-MM-DD HH:MM:SS`,
      so the milliseconds are dropped and readings within one second compare equal. */
  function Seconds(t: Timestamp): (r: nat)
    ensures r * 1000 <= t < r * 1000 + 1000
  {
    t / 1000
  }

  /** GET /api/tickets : every ticket, as a summary, latest creation second
      first; there is no status filter. */
  function ListTickets(db: Db): (r: SqlResponse)
    ensures r.Ok? && r.store == db && r.code == 200 && r.reply.Summaries?
    ensures multiset(r.reply.rows) == multiset(Map(db.tickets, SummaryOf))
    ensures forall i, j :: 0 <= i < j < |r.reply.rows| ==> Seconds(r.reply.rows[i].createdAt) >= Seconds(r.reply.rows[j].createdAt)
  {
    var rows := SortBy(Map(db.tickets, SummaryOf), (v: Summary) => -(Seconds(v.createdAt) as int));
    Ok(db, 200, Summaries(rows))
  }

  /** GET /api/tickets/:id : 404, or the whole row with its own messages,
      earliest creation second first. */
  function GetTicket(db: Db, id: Id): (r: SqlResponse)
    ensures id !in TicketIds(db.tickets) <==> r == NotFound(NotFoundError)
    ensures id in TicketIds(db.tickets) ==> r.Ok?
    ensures r.Ok? ==>
      && r.store == db && r.code == 200 && r.reply.Detail?
      && r.reply.ticket in db.tickets && r.reply.ticket.id == id
      && multiset(r.reply.thread) == multiset(ThreadOf(db.messages, id))
      && forall i, j :: 0 <= i < j < |r.reply.thread| ==> Seconds(r.reply.thread[i].createdAt) <= Seconds(r.reply.thread[j].createdAt)
  {
    match SelectTicket(db.tickets, id)
    case None => NotFound(NotFoundError)
    case Some(row) =>
      Ok(db, 200, Detail(row, SortBy(ThreadOf(db.messages, id), (v: MessageView) => Seconds(v.createdAt))))
  }

  /** `status && !valid.includes(status)`: only a truthy value that names no status is refused. */
  predicate BadStatus(v: JsVal) {
    Truthy(v) && ParseStatus(v).None?
  }

  /** PATCH /api/tickets/:id : the status check runs first; then 404 exactly
      when no row has the id; otherwise status and updatedAt are written, even
      a status that was absent or falsy. */
  function PatchTicket(db: Db, id: Id, body: Body, now: Timestamp): (r: SqlResponse)
    ensures BadStatus(Field(body, "status")) <==> r == BadRequest(InvalidStatus)
    ensures !BadStatus(Field(body, "status")) ==> (id !in TicketIds(db.tickets) <==> r == NotFound(NotFoundError))
    ensures !BadStatus(Field(body, "status")) && id in TicketIds(db.tickets) ==> r.Ok?
    ensures r.Ok? ==>
      && r.code == 200 && r.store.messages == db.messages
      && |r.store.tickets| == |db.tickets|
      && (forall i :: 0 <= i < |db.tickets| ==>
            r.store.tickets[i] == (if db.tickets[i].id == id
                                   then db.tickets[i].(status := Field(body, "status"), updatedAt := now)
                                   else db.tickets[i]))
      && r.reply == Patched(id, Field(body, "status"), now)
  {
    var status := Field(body, "status");
    if Truthy(status) && ParseStatus(status).None? then BadRequest(InvalidStatus)
    else
      var (rows, changes) := UpdateStatus(db.tickets, id, status, now);
      if changes == 0 then NotFound(NotFoundError)
      else Ok(Db(rows, db.messages), 200, Patched(id, status, now))
  }

  /** POST /api/tickets/:id/messages : a falsy body is refused before the
      ticket is looked up; the row stores `fromAdmin` as 1 or 0 and the reply
      reports it as a boolean. */
  function AddMessage(db: Db, id: Id, body: Body, msgId: Id, now: Timestamp): (r: SqlResponse)
    requires msgId !in MessageIds(db.messages)
    ensures !Truthy(Field(body, "body")) <==> r == BadRequest(MissingBody)
    ensures Truthy(Field(body, "body")) ==> (id !in TicketIds(db.tickets) <==> r == NotFound(TicketNotFound))
    ensures Truthy(Field(body, "body")) && id in TicketIds(db.tickets) ==> r.Ok?
    ensures r.Ok? ==>
      && r.code == 200 && r.store.tickets == db.tickets
      && r.store.messages == db.messages +
           [MessageRow(msgId, id, Field(body, "body"), if Truthy(Field(body, "fromAdmin")) then 1 else 0, now)]
      && r.reply == Posted(msgId, id, Field(body, "body"), Truthy(Field(body, "fromAdmin")), now)
  {
    var text := Field(body, "body");
    if !Truthy(text) then BadRequest(MissingBody)
    else if SelectTicket(db.tickets, id).None? then NotFound(TicketNotFound)
    else
      var flag := Field(body, "fromAdmin");
      var row := MessageRow(msgId, id, text, if Truthy(flag) then 1 else 0, now);
      Ok(Db(db.tickets, db.messages + [row]), 200, Posted(msgId, id, text, Truthy(flag), now))
  }

  // ---------------------------------------------------------------------------
  // Lemmas

  /** The boolean in the reply agrees with the integer stored. */
  lemma ReplyFlagMatchesRow(db: Db, id: Id, body: Body, msgId: Id, now: Timestamp)
    requires msgId !in MessageIds(db.messages)
    requires AddMessage(db, id, body, msgId, now).Ok?
    ensures var r := AddMessage(db, id, body, msgId, now);
      r.reply.fromAdmin <==> r.store.messages[|db.messages|].fromAdmin == 1
  {
  }

  /** An absent or falsy status passes validation and is written as it is. */
  lemma FalsyStatusWritten(db: Db, id: Id, body: Body, now: Timestamp)
    requires !Truthy(Field(body, "status")) && id in TicketIds(db.tickets)
    ensures PatchTicket(db, id, body, now).Ok?
    ensures forall i :: 0 <= i < |db.tickets| && db.tickets[i].id == id ==>
      PatchTicket(db, id, body, now).store.tickets[i].status == Field(body, "status")
  {
  }

  /** The order of the checks is the reverse of the in-memory routers': a bad
      body to an unknown ticket is a 400 here. */
  lemma BodyCheckedBeforeTicket(db: Db, id: Id, body: Body, msgId: Id, now: Timestamp)
    requires msgId !in MessageIds(db.messages)
    requires !Truthy(Field(body, "body")) && id !in TicketIds(db.tickets)
    ensures AddMessage(db, id, body, msgId, now).BadRequest?
  {
  }

  /** A message once added shows up, exactly once more, in its ticket's thread. */
  lemma PostedMessageIsRead(db: Db, id: Id, body: Body, msgId: Id, now: Timestamp)
    requires msgId !in MessageIds(db.messages)
    requires AddMessage(db, id, body, msgId, now).Ok?
    ensures var db' := AddMessage(db, id, body, msgId, now).store;
      var m := db'.messages[|db.messages|];
      multiset(GetTicket(db', id).reply.thread) == multiset(GetTicket(db, id).reply.thread) + multiset{ViewOf(m)}
  {
    var db' := AddMessage(db, id, body, msgId, now).store;
    var m := db'.messages[|db.messages|];
    FilterAppend(db.messages, m, id);
    MapAppend(Filter(db.messages, (x: MessageRow) => x.ticketId == id), m);
  }

  lemma FilterAppend(ms: seq<MessageRow>, m: MessageRow, id: Id)
    requires m.ticketId == id
    ensures Filter(ms + [m], (x: MessageRow) => x.ticketId == id) == Filter(ms, (x: MessageRow) => x.ticketId == id) + [m]
    decreases |ms|
  {
    if |ms| == 0 {
      assert ms + [m] == [m];
    } else {
      assert (ms + [m])[1..] == ms[1..] + [m];
      FilterAppend(ms[1..], m, id);
    }
  }

  lemma MapAppend(ms: seq<MessageRow>, m: MessageRow)
    ensures Map(ms + [m], ViewOf) == Map(ms, ViewOf) + [ViewOf(m)]
  {
  }

  /** Every handler keeps the database consistent. */
  lemma CreateKeepsConsistent(db: Db, body: Body, id: Id, now: Timestamp)
    requires id !in TicketIds(db.tickets)
    ensures Consistent(db) ==> Consistent(After(CreateTicket(db, body, id, now), db))
  {
    var r := CreateTicket(db, body, id, now);
    if Consistent(db) && r.Ok? {
      var rows := r.store.tickets;
      assert forall i :: 0 <= i < |db.tickets| ==> rows[i] == db.tickets[i];
      forall i, j | 0 <= i < j < |rows| ensures rows[i].id != rows[j].id {
        if j == |db.tickets| { assert rows[i] in db.tickets; }
      }
      forall x | x in rows ensures x in db.tickets || x == rows[|db.tickets|] {
        assert rows == db.tickets + [rows[|db.tickets|]];
      }
      forall m | m in r.store.messages ensures m.ticketId in TicketIds(rows) {
        var t :| t in db.tickets && t.id == m.ticketId;
        assert t in rows;
      }
    }
  }

  lemma PatchKeepsConsistent(db: Db, id: Id, body: Body, now: Timestamp)
    ensures Consistent(db) ==> Consistent(After(PatchTicket(db, id, body, now), db))
  {
    var r := PatchTicket(db, id, body, now);
    if r.Ok? {
      RewriteKeepsConsistent(db, r.store.tickets, id, Field(body, "status"), now);
    }
  }

  /** Rewriting status and updatedAt of the rows with one id keeps the database consistent. */
  lemma RewriteKeepsConsistent(db: Db, rows: seq<TicketRow>, id: Id, status: JsVal, now: Timestamp)
    requires |rows| == |db.tickets|
    requires forall i :: 0 <= i < |db.tickets| ==>
      rows[i] == (if db.tickets[i].id == id then db.tickets[i].(status := status, updatedAt := now) else db.tickets[i])
    ensures Consistent(db) ==> Consistent(Db(rows, db.messages))
  {
    if Consistent(db) {
      forall x | x in rows ensures Truthy(x.name) && Truthy(x.email) && Truthy(x.description) {
        var i :| 0 <= i < |rows| && rows[i] == x;
        assert db.tickets[i] in db.tickets;
      }
      forall m | m in db.messages ensures m.ticketId in TicketIds(rows) {
        var t :| t in db.tickets && t.id == m.ticketId;
        var i :| 0 <= i < |db.tickets| && db.tickets[i] == t;
        assert rows[i].id == t.id && rows[i] in rows;
      }
    }
  }

  lemma AddMessageKeepsConsistent(db: Db, id: Id, body: Body, msgId: Id, now: Timestamp)
    requires msgId !in MessageIds(db.messages)
    ensures Consistent(db) ==> Consistent(After(AddMessage(db, id, body, msgId, now), db))
  {
    var r := AddMessage(db, id, body, msgId, now);
    if Consistent(db) && r.Ok? {
      var ms := r.store.messages;
      assert forall i :: 0 <= i < |db.messages| ==> ms[i] == db.messages[i];
      forall i, j | 0 <= i < j < |ms| ensures ms[i].id != ms[j].id {
        if j == |db.messages| { assert ms[i] in db.messages; }
      }
      forall x | x in ms ensures x in db.messages || x == ms[|db.messages|] {
        assert ms == db.messages + [ms[|db.messages|]];
      }
    }
  }

  /** A request to this server, by route. There is no delete route. */
  datatype SqlRoute =
    | ListAll
    | CreateOne(body: Body)
    | GetOne(id: Id)
    | PatchOne(id: Id, body: Body)
    | PostMessage(id: Id, body: Body)

  /** The server's routes; every request keeps the database consistent. */
  function Dispatch(db: Db, route: SqlRoute, draw: Fresh): (r: SqlResponse)
    requires draw.ticketId !in TicketIds(db.tickets) && draw.messageId !in MessageIds(db.messages)
    ensures Consistent(db) ==> Consistent(After(r, db))
  {
    match route
    case ListAll => ListTickets(db)
    case CreateOne(body) =>
      CreateKeepsConsistent(db, body, draw.ticketId, draw.now);
      CreateTicket(db, body, draw.ticketId, draw.now)
    case GetOne(id) => GetTicket(db, id)
    case PatchOne(id, body) =>
      PatchKeepsConsistent(db, id, body, draw.now);
      PatchTicket(db, id, body, draw.now)
    case PostMessage(id, body) =>
      AddMessageKeepsConsistent(db, id, body, draw.messageId, draw.now);
      AddMessage(db, id, body, draw.messageId, draw.now)
  }
}
