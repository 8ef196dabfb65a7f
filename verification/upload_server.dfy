/** The standalone server in backend/src/server.js: the in-memory ticket routes
    with the help-request form's full field set, at least one attachment
    required, and the `/upload` endpoint that describes stored files. */
module UploadServer {
  import opened Options
  import opened JsValues
  import opened Seqs
  import opened OrderedStore
  import opened Tickets
  import opened MemoryRoutes

  const AttachmentRequired := "At least one attachment (photo) is required"

  /** The "would send email" log after `tickets.set` interpolates
      `${subject || 'Support request'}` and `${name}`; it returns exactly when
      both conversions do. */
  predicate MailLogged(subject: JsVal, name: JsVal) {
    (!Truthy(subject) || ToStringReturns(subject)) && ToStringReturns(name)
  }

  /** POST /tickets : the missing-fields check comes first; then, after the
      defaults, the attachments must be a non-empty array. The ticket is stored
      before the log line is built, so a subject or name that cannot be turned
      into a string leaves the ticket stored and the request answered with 500. */
  function CreateTicket(s: TicketStore, body: Body, id: Id, now: Timestamp): (r: Response)
    requires id !in Keys(s)
    ensures !Required(body) <==> r == BadRequest(MissingFields)
    ensures Required(body) ==>
      (r == BadRequest(AttachmentRequired) <==> !NonEmptyArray(Field(body, "attachments")))
    ensures Required(body) && NonEmptyArray(Field(body, "attachments")) ==> r.Ok? || r.Failed?
    ensures r.Failed? <==>
      && Required(body) && NonEmptyArray(Field(body, "attachments"))
      && !MailLogged(Field(body, "subject"), Field(body, "name"))
    ensures r.Ok? || r.Failed? ==>
      |r.store| == |s| + 1 && r.store[..|s|] == s && r.store[|s|].0 == id
    ensures r.Ok? ==> r.code == 201 && r.reply == TicketReply(r.store[|s|].1)
    ensures r.Ok? || r.Failed? ==>
      var t := r.store[|s|].1;
      && t.id == id && t.status == New && t.messages == [] && t.createdAt == Some(now)
      && t.name == Field(body, "name") && t.email == Field(body, "email")
      && t.description == Field(body, "description")
      && t.details.Extended?
      && t.details.subject == OrDefault(Field(body, "subject"), Str(""))
      && t.details.requestType == OrDefault(Field(body, "requestType"), Str("IT Request"))
      && t.details.testInfo == OrDefault(Field(body, "testInfo"), Str(""))
      && t.details.cc == OrDefault(Field(body, "cc"), Str(""))
      && t.details.location == OrDefault(Field(body, "location"), Str("NYC"))
      && t.details.room == OrDefault(Field(body, "room"), Str(""))
      && t.details.priority == OrDefault(Field(body, "priority"), Str("Medium"))
      && t.details.attachments == Field(body, "attachments")
  {
    if !Required(body) then BadRequest(MissingFields)
    else
      var attachments := OrDefault(Field(body, "attachments"), Arr([]));
      if !NonEmptyArray(attachments) then BadRequest(AttachmentRequired)
      else
        var details := Extended(
          OrDefault(Field(body, "subject"), Str("")),
          OrDefault(Field(body, "requestType"), Str("IT Request")),
          OrDefault(Field(body, "testInfo"), Str("")),
          OrDefault(Field(body, "cc"), Str("")),
          OrDefault(Field(body, "location"), Str("NYC")),
          OrDefault(Field(body, "room"), Str("")),
          OrDefault(Field(body, "priority"), Str("Medium")),
          attachments);
        var t := Ticket(id, Field(body, "name"), Field(body, "email"), Field(body, "description"),
                        details, New, [], Some(now));
        if MailLogged(details.subject, t.name) then Ok(Append(s, id, t), 201, TicketReply(t))
        else Failed(Append(s, id, t))
  }

  /** A name sent as `{"toString": 0}` cannot be interpolated into the log
      line: the ticket is stored all the same, and the request fails with 500. */
  lemma UnprintableNameStoredThenFails(s: TicketStore, id: Id, now: Timestamp)
    requires id !in Keys(s)
    ensures var body := map["name" := Obj([("toString", Num(0.0))]), "email" := Str("e"),
                             "description" := Str("d"), "attachments" := Arr([Num(1.0)])];
      var r := CreateTicket(s, body, id, now);
      r.Failed? && Get(r.store, id).Some? && Keys(r.store) == Keys(s) + {id}
  {
    var body := map["name" := Obj([("toString", Num(0.0))]), "email" := Str("e"),
                    "description" := Str("d"), "attachments" := Arr([Num(1.0)])];
    assert Field(body, "name") == Obj([("toString", Num(0.0))]);
    assert !ToStringReturns(Field(body, "name")) by {
      assert Field(body, "name").props[0].0 == "toString";
    }
    assert Required(body) && NonEmptyArray(Field(body, "attachments")) by {
      assert Field(body, "email") == Str("e") && Field(body, "description") == Str("d");
      assert Field(body, "attachments") == Arr([Num(1.0)]);
    }
  }

  /** This server's extra invariant: every stored ticket carries the extended
      field set with at least one attachment. */
  ghost predicate AllAttached(s: TicketStore) {
    forall i :: 0 <= i < |s| ==> s[i].1.details.Extended? && NonEmptyArray(s[i].1.details.attachments)
  }

  /** The server's ticket routes. The store stays well formed, and once every
      ticket has an attachment every ticket keeps having one. */
  function Dispatch(s: TicketStore, route: Route, draw: Fresh): (r: Response)
    requires draw.ticketId !in Keys(s)
    ensures WellFormed(s) ==> WellFormed(After(r, s))
    ensures WellFormed(s) && AllAttached(s) ==> AllAttached(After(r, s))
  {
    match route
    case ListRoute(q) => ListTickets(s, q)
    case CreateRoute(body) =>
      var r := CreateTicket(s, body, draw.ticketId, draw.now);
      if r.Ok? || r.Failed? then
        AppendKeepsWellFormed(s, r.store[|s|].1);
        AppendKeepsAttached(s, r.store, r.store[|s|].1);
        r
      else r
    case GetRoute(id) => GetTicket(s, id)
    case PatchRoute(id, body) =>
      PatchKeepsWellFormed(s, id, body);
      PatchStatus(s, id, body)
    case MessageRoute(id, body) =>
      AddMessageKeepsWellFormed(s, id, body, draw.messageId, draw.now);
      AddMessage(s, id, body, draw.messageId, draw.now)
    case DeleteRoute(id) =>
      DeleteKeepsWellFormed(s, id);
      var r := DeleteTicket(s, id);
      if r.Ok? then RemoveKeepsAttached(s, r.store, id); r else r
  }

  lemma AppendKeepsAttached(s: TicketStore, s': TicketStore, t: Ticket)
    requires |s'| == |s| + 1 && s'[..|s|] == s && s'[|s|].1 == t
    requires t.details.Extended? && NonEmptyArray(t.details.attachments)
    ensures AllAttached(s) ==> AllAttached(s')
  {
    if AllAttached(s) {
      forall i | 0 <= i < |s'| ensures s'[i].1.details.Extended? && NonEmptyArray(s'[i].1.details.attachments) {
        if i < |s| { assert s'[i] == s'[..|s|][i]; }
      }
    }
  }

  lemma RemoveKeepsAttached(s: TicketStore, s': TicketStore, id: Id)
    requires exists i :: 0 <= i < |s| && s[i].0 == id && s' == s[..i] + s[i + 1..]
    ensures AllAttached(s) ==> AllAttached(s')
  {
    var i :| 0 <= i < |s| && s[i].0 == id && s' == s[..i] + s[i + 1..];
    assert forall j :: 0 <= j < |s'| ==> s'[j] == (if j < i then s[j] else s[j + 1]);
  }

  // ---------------------------------------------------------------------------
  // POST /upload

  /** A file as multer hands it over after storing it under a generated name. */
  datatype UploadedFile = UploadedFile(mimetype: Option<string>, originalname: string, size: nat, filename: string)

  /** The JSON record the endpoint returns for one file. */
  datatype FileRecord = FileRecord(kind: string, name: string, mime: Option<string>, size: nat, url: string)

  /** `f.mimetype?.startsWith('image/')`: an absent mimetype reads as not an image. */
  predicate IsImage(f: UploadedFile) {
    f.mimetype.Some? && "image/" <= f.mimetype.value
  }

  function Describe(f: UploadedFile): FileRecord {
    FileRecord(if IsImage(f) then "image" else "file", f.originalname, f.mimetype, f.size, "/uploads/" + f.filename)
  }

  /** `(req.files || []).map(…)`: one record per stored file, in the same order. */
  function UploadReply(files: Option<seq<UploadedFile>>): (r: seq<FileRecord>)
    ensures |r| == |files.GetOr([])|
    ensures forall i :: 0 <= i < |r| ==>
      var f := files.value[i];
      && (r[i].kind == "image" <==> f.mimetype.Some? && "image/" <= f.mimetype.value)
      && (r[i].kind == "image" || r[i].kind == "file")
      && r[i].url == "/uploads/" + f.filename
      && r[i].name == f.originalname && r[i].mime == f.mimetype && r[i].size == f.size
  {
    Map(files.GetOr([]), Describe)
  }

  /** A stored file's URL is the upload prefix followed by its stored name, and
      nothing else: the name can be read back off the URL. */
  lemma UrlNamesTheStoredFile(files: seq<UploadedFile>, i: nat)
    requires i < |files|
    ensures UploadReply(Some(files))[i].url[|"/uploads/"|..] == files[i].filename
  {
  }
}
