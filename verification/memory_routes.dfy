/** The handlers that behave identically in the three `Map`-backed variants: list,
    get, status update, add message and delete. List and get only read, and
    delete only looks the ticket up and removes it. The status and message
    handlers look the ticket up, then validate, then mutate, so an unknown id
    wins over a bad body. */
module MemoryRoutes {
  import opened Options
  import opened JsValues
  import opened Seqs
  import opened OrderedStore
  import opened Tickets

  type TicketStore = Store<Id, Ticket>
  type Response = Outcome<TicketStore, Reply>

  const BodyRequired := "Message body required"
  const DeletedNote := "Deleted successfully"

  /** A ticket the routes can have produced: the three required fields are
      truthy and so is every message body. */
  predicate Complete(t: Ticket) {
    && Truthy(t.name) && Truthy(t.email) && Truthy(t.description)
    && forall m :: m in t.messages ==> Truthy(m.body)
  }

  /** The store invariant: one entry per id, filed under the ticket's own id. */
  ghost predicate WellFormed(s: TicketStore) {
    && DistinctKeys(s)
    && forall i :: 0 <= i < |s| ==> s[i].0 == s[i].1.id && Complete(s[i].1)
  }

  /** The listing with no filter: every ticket, newest first. */
  ghost predicate NewestFirst(ts: seq<Ticket>, s: TicketStore) {
    |ts| == |s| && forall i :: 0 <= i < |s| ==> ts[i] == s[|s| - 1 - i].1
  }

  /** `s'` is `s` with only the status of the ticket under `id` set to `st`. */
  ghost predicate StatusSet(s: TicketStore, s': TicketStore, id: Id, st: Status) {
    |s'| == |s| &&
    forall i :: 0 <= i < |s| ==> s'[i] == (if s[i].0 == id then (id, s[i].1.(status := st)) else s[i])
  }

  /** `s'` is `s` with `m` pushed onto the thread of the ticket under `id`, nothing else changed. */
  ghost predicate MessageAdded(s: TicketStore, s': TicketStore, id: Id, m: Message) {
    |s'| == |s| &&
    forall i :: 0 <= i < |s| ==>
      s'[i] == (if s[i].0 == id then (id, s[i].1.(messages := s[i].1.messages + [m])) else s[i])
  }

  /** GET /tickets?status=… : newest first; a status filter applies only when
      it names one of the three statuses, any other value is ignored. */
  function ListTickets(s: TicketStore, query: JsVal): (r: Response)
    ensures r.Ok? && r.store == s && r.code == 200 && r.reply.ListReply?
    ensures ParseStatus(query).None? ==> NewestFirst(r.reply.tickets, s)
    ensures ParseStatus(query).Some? ==>
      && (forall t :: t in r.reply.tickets <==> t in Values(s) && t.status == ParseStatus(query).value)
      && SubseqOf(r.reply.tickets, Reverse(Values(s)))
      && multiset(r.reply.tickets) <= multiset(Values(s))
      && (forall i :: 0 <= i < |s| && s[i].1.status == ParseStatus(query).value ==>
            multiset(r.reply.tickets)[s[i].1] == multiset(Values(s))[s[i].1])
  {
    var all := Reverse(Values(s));
    if Truthy(query) && ParseStatus(query).Some? then
      var st := ParseStatus(query).value;
      Ok(s, 200, ListReply(Filter(all, (t: Ticket) => t.status == st)))
    else
      Ok(s, 200, ListReply(all))
  }

  /** GET /tickets/:id : the stored ticket as it is, or 404. */
  function GetTicket(s: TicketStore, id: Id): (r: Response)
    ensures id !in Keys(s) <==> r == NotFound(NotFoundError)
    ensures r.Ok? ==> r.store == s
    ensures DistinctKeys(s) ==>
      forall i :: 0 <= i < |s| && s[i].0 == id ==> r == Ok(s, 200, TicketReply(s[i].1))
  {
    match Get(s, id)
    case None => NotFound(NotFoundError)
    case Some(t) => Ok(s, 200, TicketReply(t))
  }

  /** PATCH /tickets/:id/status : 404 first, then 400 unless the body names a
      status, then that status is written and nothing else. */
  function PatchStatus(s: TicketStore, id: Id, body: Body): (r: Response)
    ensures id !in Keys(s) ==> r == NotFound(NotFoundError)
    ensures id in Keys(s) && ParseStatus(Field(body, "status")).None? ==> r == BadRequest(InvalidStatus)
    ensures id in Keys(s) && ParseStatus(Field(body, "status")).Some? ==>
      && r.Ok? && r.code == 200 && r.reply.TicketReply?
      && r.reply.ticket.status == ParseStatus(Field(body, "status")).value
      && Get(r.store, id) == Some(r.reply.ticket)
      && Keys(r.store) == Keys(s)
    ensures r.Ok? && DistinctKeys(s) ==> DistinctKeys(r.store) && StatusSet(s, r.store, id, r.reply.ticket.status)
  {
    match Get(s, id)
    case None => NotFound(NotFoundError)
    case Some(t) =>
      match ParseStatus(Field(body, "status"))
      case None => BadRequest(InvalidStatus)
      case Some(st) =>
        var t' := t.(status := st);
        Ok(Put(s, id, t'), 200, TicketReply(t'))
  }

  /** The ticket under `id` with `m` pushed onto its thread. */
  function PushMessage(s: TicketStore, id: Id, t: Ticket, m: Message): TicketStore {
    Put(s, id, t.(messages := t.messages + [m]))
  }

  /** POST /tickets/:id/messages : 404 first, then 400 on a falsy body, then one
      message with `fromAdmin: !!fromAdmin` goes onto the end of the thread. */
  function AddMessage(s: TicketStore, id: Id, body: Body, msgId: Id, now: Timestamp): (r: Response)
    ensures id !in Keys(s) ==> r == NotFound(NotFoundError)
    ensures id in Keys(s) && !Truthy(Field(body, "body")) ==> r == BadRequest(BodyRequired)
    ensures id in Keys(s) && Truthy(Field(body, "body")) ==>
      && r.Ok? && r.code == 201
      && r.reply == MessageReply(Message(msgId, Field(body, "body"), Some(Truthy(Field(body, "fromAdmin"))), now))
      && Keys(r.store) == Keys(s)
      && Get(r.store, id) == Some(Get(s, id).value.(messages := Get(s, id).value.messages + [r.reply.message]))
    ensures r.Ok? && DistinctKeys(s) ==> DistinctKeys(r.store) && MessageAdded(s, r.store, id, r.reply.message)
  {
    match Get(s, id)
    case None => NotFound(NotFoundError)
    case Some(t) =>
      var text := Field(body, "body");
      if !Truthy(text) then BadRequest(BodyRequired)
      else
        var m := Message(msgId, text, Some(Truthy(Field(body, "fromAdmin"))), now);
        Ok(PushMessage(s, id, t, m), 201, MessageReply(m))
  }

  /** DELETE /tickets/:id : 404, or the entry goes and the rest keep their order. */
  function DeleteTicket(s: TicketStore, id: Id): (r: Response)
    ensures id !in Keys(s) <==> r == NotFound(NotFoundError)
    ensures id in Keys(s) ==> r.Ok?
    ensures r.Ok? ==> r.code == 200 && r.reply == DeletedReply(DeletedNote)
    ensures r.Ok? ==> exists i :: 0 <= i < |s| && s[i].0 == id && r.store == s[..i] + s[i + 1..]
    ensures r.Ok? ==> forall k :: k != id ==> Get(r.store, k) == Get(s, k)
    ensures r.Ok? && DistinctKeys(s) ==> DistinctKeys(r.store) && Keys(r.store) == Keys(s) - {id}
  {
    match Get(s, id)
    case None => NotFound(NotFoundError)
    case Some(_) => Ok(Remove(s, id), 200, DeletedReply(DeletedNote))
  }

  // ---------------------------------------------------------------------------
  // Lemmas

  /** A ticket deleted is gone: a later GET answers 404. */
  lemma DeleteThenGet(s: TicketStore, id: Id)
    requires DistinctKeys(s) && id in Keys(s)
    ensures GetTicket(DeleteTicket(s, id).store, id) == NotFound(NotFoundError)
  {
  }

  /** Status changes are unconstrained: from any stored status any of the three
      can be set. */
  lemma AnyStatusReachable(s: TicketStore, id: Id, target: Status)
    requires id in Keys(s)
    ensures PatchStatus(s, id, map["status" := Str(StatusName(target))]).Ok?
    ensures Get(After(PatchStatus(s, id, map["status" := Str(StatusName(target))]), s), id).value.status == target
  {
    assert Field(map["status" := Str(StatusName(target))], "status") == Str(StatusName(target));
  }

  /** A refused status leaves every ticket as it was. */
  lemma RefusedStatusChangesNothing(s: TicketStore, id: Id, body: Body)
    requires ParseStatus(Field(body, "status")).None?
    ensures After(PatchStatus(s, id, body), s) == s
  {
  }

  /** Adding a ticket keeps the invariant when the ticket is complete and filed under its own id. */
  lemma AppendKeepsWellFormed(s: TicketStore, t: Ticket)
    requires t.id !in Keys(s) && Complete(t)
    ensures WellFormed(s) ==> WellFormed(Append(s, t.id, t))
  {
    var r := Append(s, t.id, t);
    if WellFormed(s) {
      forall i | 0 <= i < |r| ensures r[i].0 == r[i].1.id && Complete(r[i].1) {
        if i < |s| { assert r[i] == r[..|s|][i] == s[i]; }
      }
    }
  }

  /** A status update keeps the store invariant. */
  lemma PatchKeepsWellFormed(s: TicketStore, id: Id, body: Body)
    ensures WellFormed(s) ==> WellFormed(After(PatchStatus(s, id, body), s))
  {
  }

  /** Adding a message keeps the store invariant: the new body is truthy. */
  lemma AddMessageKeepsWellFormed(s: TicketStore, id: Id, body: Body, msgId: Id, now: Timestamp)
    ensures WellFormed(s) ==> WellFormed(After(AddMessage(s, id, body, msgId, now), s))
  {
    var r := AddMessage(s, id, body, msgId, now);
    if WellFormed(s) && r.Ok? {
      var m := r.reply.message;
      assert Truthy(m.body);
      forall i | 0 <= i < |r.store| ensures r.store[i].0 == r.store[i].1.id && Complete(r.store[i].1) {
        if s[i].0 == id {
          var t := s[i].1;
          assert r.store[i].1.messages == t.messages + [m];
          forall x | x in t.messages + [m] ensures Truthy(x.body) {
            if x !in t.messages { assert x == m; }
          }
        }
      }
    }
  }

  /** Deleting keeps the store invariant. */
  lemma DeleteKeepsWellFormed(s: TicketStore, id: Id)
    ensures WellFormed(s) ==> WellFormed(After(DeleteTicket(s, id), s))
  {
    var r := DeleteTicket(s, id);
    if WellFormed(s) && r.Ok? {
      var i :| 0 <= i < |s| && s[i].0 == id && r.store == s[..i] + s[i + 1..];
      forall j | 0 <= j < |r.store| ensures r.store[j].0 == r.store[j].1.id && Complete(r.store[j].1) {
        if j < i { assert r.store[j] == s[j]; } else { assert r.store[j] == s[j + 1]; }
      }
    }
  }

  /** The message one accepted post adds. */
  function MessageOf(p: (Body, Id, Timestamp)): Message {
    Message(p.1, Field(p.0, "body"), Some(Truthy(Field(p.0, "fromAdmin"))), p.2)
  }

  /** The messages `posts` produce when each is sent, in order, to one ticket. */
  function Thread(posts: seq<(Body, Id, Timestamp)>): seq<Message> {
    Map(posts, MessageOf)
  }

  /** The store after sending each of `posts` to ticket `id`, in order. */
  function PostAll(s: TicketStore, id: Id, posts: seq<(Body, Id, Timestamp)>): TicketStore
    decreases |posts|
  {
    if |posts| == 0 then s
    else PostAll(After(AddMessage(s, id, posts[0].0, posts[0].1, posts[0].2), s), id, posts[1..])
  }

  /** After N accepted posts the ticket's thread is its old thread followed by
      exactly those N messages, in the order they were sent; nothing else of
      the ticket changes. */
  lemma {:induction false} PostAllAppendsInOrder(s: TicketStore, id: Id, posts: seq<(Body, Id, Timestamp)>)
    requires DistinctKeys(s) && id in Keys(s)
    requires forall p :: p in posts ==> Truthy(Field(p.0, "body"))
    ensures Get(PostAll(s, id, posts), id) ==
      Some(Get(s, id).value.(messages := Get(s, id).value.messages + Thread(posts)))
    ensures Keys(PostAll(s, id, posts)) == Keys(s)
    decreases |posts|
  {
    if |posts| == 0 {
      var t := Get(s, id).value;
      assert t.messages + Thread(posts) == t.messages;
    } else {
      var s1 := After(AddMessage(s, id, posts[0].0, posts[0].1, posts[0].2), s);
      OnePost(s, id, posts);
      PostAllAppendsInOrder(s1, id, posts[1..]);
      Compose(Get(s, id).value, posts);
    }
  }

  /** One accepted post, as the induction step needs it. */
  lemma OnePost(s: TicketStore, id: Id, posts: seq<(Body, Id, Timestamp)>)
    requires DistinctKeys(s) && id in Keys(s) && |posts| > 0
    requires forall p :: p in posts ==> Truthy(Field(p.0, "body"))
    ensures var s1 := After(AddMessage(s, id, posts[0].0, posts[0].1, posts[0].2), s);
      && DistinctKeys(s1) && Keys(s1) == Keys(s)
      && Get(s1, id) == Some(Get(s, id).value.(messages := Get(s, id).value.messages + [MessageOf(posts[0])]))
      && PostAll(s, id, posts) == PostAll(s1, id, posts[1..])
      && forall q :: q in posts[1..] ==> Truthy(Field(q.0, "body"))
  {
    assert posts[0] in posts;
    forall q | q in posts[1..] ensures Truthy(Field(q.0, "body")) {
      assert q in posts;
    }
  }

  lemma Compose(t: Ticket, posts: seq<(Body, Id, Timestamp)>)
    requires |posts| > 0
    ensures var t1 := t.(messages := t.messages + [MessageOf(posts[0])]);
      t1.(messages := t1.messages + Thread(posts[1..])) == t.(messages := t.messages + Thread(posts))
  {
    assert Thread(posts) == [MessageOf(posts[0])] + Thread(posts[1..]);
    assert t.messages + [MessageOf(posts[0])] + Thread(posts[1..]) == t.messages + Thread(posts);
  }
}
