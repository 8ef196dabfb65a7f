/** The pure parts of the web client helpdesk-web/src/App.jsx: the status
    filter over the fetched list, picking and removing images, the submit
    guard and payload, and the form's default state. */
module WebApp {
  import opened Options
  import opened Seqs
  import opened Tickets

  /** The help-request form. */
  datatype Form = Form(
    requestType: string, name: string, email: string, subject: string, description: string,
    testInfo: string, cc: string, ccEnabled: bool, location: string, room: string, priority: string)

  /** A picked image as FileReader delivers it: name, MIME type, data URL. */
  datatype Image = Image(name: string, mime: string, data: string)

  /** The body handed to `createTicket`. */
  datatype Payload = Payload(
    requestType: string, name: string, email: string, subject: string, description: string,
    testInfo: string, cc: string, location: string, room: string, priority: string,
    attachments: seq<Image>)

  /** `filtered`: "ALL" shows the list as fetched; any other value keeps the
      tickets whose status is named by it, in the fetched order. */
  function Filtered(tickets: seq<Ticket>, filter: string): (r: seq<Ticket>)
    ensures filter == "ALL" ==> r == tickets
    ensures filter != "ALL" ==>
      && (forall t :: t in r <==> t in tickets && StatusName(t.status) == filter)
      && SubseqOf(r, tickets)
      && multiset(r) <= multiset(tickets)
      && (forall i :: 0 <= i < |tickets| && StatusName(tickets[i].status) == filter ==>
            multiset(r)[tickets[i]] == multiset(tickets)[tickets[i]])
  {
    if filter == "ALL" then tickets else Filter(tickets, (t: Ticket) => StatusName(t.status) == filter)
  }

  /** A filter that names no status shows nothing. */
  lemma UnknownFilterShowsNothing(tickets: seq<Ticket>, filter: string)
    requires filter != "ALL" && forall st :: StatusName(st) != filter
    ensures Filtered(tickets, filter) == []
  {
    var r := Filtered(tickets, filter);
    assert forall t :: t !in r;
  }

  /** `arr.filter((_, idx) => idx !== i)` over the elements from position `from` on. */
  function KeepOthers<T>(xs: seq<T>, i: int, from: int): (r: seq<T>)
    ensures from <= i < from + |xs| ==> r == xs[..i - from] + xs[i - from + 1..]
    ensures !(from <= i < from + |xs|) ==> r == xs
    decreases |xs|
  {
    if |xs| == 0 then []
    else
      var rest := KeepOthers(xs[1..], i, from + 1);
      assert xs == [xs[0]] + xs[1..];
      if from == i then rest else [xs[0]] + rest
  }

  /** `removeImage(i)`: drops exactly position `i`, keeps the rest in order;
      an index outside the list changes nothing. */
  function RemoveImage(images: seq<Image>, i: int): (r: seq<Image>)
    ensures 0 <= i < |images| ==> |r| == |images| - 1 && r == images[..i] + images[i + 1..]
    ensures !(0 <= i < |images|) ==> r == images
  {
    KeepOthers(images, i, 0)
  }

  /** `onPickImages`: nothing picked changes nothing; otherwise the new images
      follow the ones already there. */
  function PickImages(prev: seq<Image>, picked: seq<Image>): (r: seq<Image>)
    ensures |r| == |prev| + |picked|
    ensures r[..|prev|] == prev && r[|prev|..] == picked
  {
    if |picked| == 0 then prev else prev + picked
  }

  /** Removing a just-picked image leaves the earlier ones untouched. */
  lemma RemovePickedKeepsEarlier(prev: seq<Image>, picked: seq<Image>, k: nat)
    requires k < |picked|
    ensures RemoveImage(PickImages(prev, picked), |prev| + k) == prev + RemoveImage(picked, k)
  {
    var all := PickImages(prev, picked);
    assert all == prev + picked;
    assert all[..|prev| + k] == prev + picked[..k];
    assert all[|prev| + k + 1..] == picked[k + 1..];
  }

  /** The form as first rendered (the `useState` initialiser). */
  function InitialForm(): Form {
    Form("IT Request", "", "", "", "", "", "", false, "NYC", "", "Medium")
  }

  /** The form `onSubmit` resets to. */
  function SubmittedForm(): Form {
    Form(requestType := "IT Request", name := "", email := "", subject := "", description := "",
         testInfo := "", cc := "", ccEnabled := false, location := "NYC", room := "", priority := "Medium")
  }

  /** The form the Cancel button resets to. */
  function CancelledForm(): Form {
    Form(requestType := "IT Request", name := "", email := "", subject := "", description := "",
         testInfo := "", cc := "", ccEnabled := false, location := "NYC", room := "", priority := "Medium")
  }

  /** One step of the form: what was sent, if anything, and the state after. */
  datatype Step = Step(sent: Option<Payload>, form: Form, images: seq<Image>)

  /** `onSubmit`: a falsy name, email or description sends nothing and keeps
      the state; otherwise the payload copies the form, with `cc` only when
      enabled and the images as attachments, and the form and images reset. */
  function OnSubmit(form: Form, images: seq<Image>): (r: Step)
    ensures r.sent.None? <==> form.name == "" || form.email == "" || form.description == ""
    ensures r.sent.None? ==> r.form == form && r.images == images
    ensures r.sent.Some? ==>
      var p := r.sent.value;
      && p.requestType == form.requestType && p.name == form.name && p.email == form.email
      && p.subject == form.subject && p.description == form.description
      && p.testInfo == form.testInfo && p.location == form.location && p.room == form.room
      && p.priority == form.priority
      && (form.ccEnabled ==> p.cc == form.cc) && (!form.ccEnabled ==> p.cc == "")
      && p.attachments == images
      && r.form == InitialForm() && r.images == []
  {
    if form.name == "" || form.email == "" || form.description == "" then Step(None, form, images)
    else
      var payload := Payload(form.requestType, form.name, form.email, form.subject, form.description,
                             form.testInfo, if form.ccEnabled then form.cc else "",
                             form.location, form.room, form.priority, images);
      Step(Some(payload), SubmittedForm(), [])
  }

  /** Cancel: the form goes back to its initial state; the picked images stay. */
  function OnCancel(form: Form, images: seq<Image>): (r: Step)
    ensures r.sent.None? && r.form == InitialForm() && r.images == images
  {
    Step(None, CancelledForm(), images)
  }
}
