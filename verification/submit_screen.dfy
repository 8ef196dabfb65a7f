/** The submit logic of the mobile screen app/screens/SubmitTicketScreen.js:
    the e-mail test `/\S+@\S+\.\S+/`, the order of the two guards, and the
    request body sent to the API. */
module SubmitScreen {
  import opened Options

  /** ECMAScript's `\s`: the WhiteSpace and LineTerminator code points. */
  predicate IsSpace(c: char) {
    var n := c as int;
    n == 0x09 || n == 0x0A || n == 0x0B || n == 0x0C || n == 0x0D || n == 0x20 || n == 0xA0
    || n == 0x1680 || (0x2000 <= n <= 0x200A) || n == 0x2028 || n == 0x2029
    || n == 0x202F || n == 0x205F || n == 0x3000 || n == 0xFEFF
  }

  /** The whole of `w` is `x@y.z` with x, y and z non-empty and no whitespace anywhere. */
  ghost predicate EmailForm(w: string) {
    && (forall k :: 0 <= k < |w| ==> !IsSpace(w[k]))
    && exists p, q :: 0 < p && p + 1 < q && q + 1 < |w| && w[p] == '@' && w[q] == '.'
  }

  /** What the unanchored regex accepts: some substring has the e-mail form. */
  ghost predicate EmailShaped(s: string) {
    exists a, e :: 0 <= a <= e <= |s| && EmailForm(s[a..e])
  }

  /** A match with its '@' at `p` and its '.' at `q`, one character on each
      outer side and no whitespace between them. */
  ghost predicate EmailAt(s: string, p: int, q: int) {
    && 0 < p && p + 1 < q && q + 1 < |s|
    && s[p] == '@' && s[q] == '.'
    && !IsSpace(s[p - 1]) && !IsSpace(s[q + 1])
    && forall k :: p < k < q ==> !IsSpace(s[k])
  }

  /** The two descriptions of a match agree. */
  lemma EmailShapedIffAt(s: string)
    ensures EmailShaped(s) <==> exists p, q :: EmailAt(s, p, q)
  {
    if EmailShaped(s) {
      var a, e :| 0 <= a <= e <= |s| && EmailForm(s[a..e]);
      var w := s[a..e];
      var p, q :| 0 < p && p + 1 < q && q + 1 < |w| && w[p] == '@' && w[q] == '.';
      assert forall k :: p < k < q ==> s[a + k] == w[k];
      assert !IsSpace(w[p - 1]) && !IsSpace(w[q + 1]);
      assert EmailAt(s, a + p, a + q);
    }
    if exists p, q :: EmailAt(s, p, q) {
      var p, q :| EmailAt(s, p, q);
      var w := s[p - 1..q + 2];
      assert forall k :: 0 <= k < |w| ==> w[k] == s[p - 1 + k];
      assert w[1] == '@' && w[q - p + 1] == '.';
      assert EmailForm(w);
    }
  }

  /** `validateEmail`: one pass that remembers, for the current whitespace-free
      run, the first '@' with a character before it; a '.' at least two
      characters later with a non-space after it completes a match. */
  method ValidateEmail(s: string) returns (ok: bool)
    ensures ok <==> EmailShaped(s)
  {
    EmailShapedIffAt(s);
    var runStart := 0;
    var at: Option<nat> := None;
    var i := 0;
    while i < |s|
      invariant 0 <= runStart <= i <= |s|
      invariant forall k :: runStart <= k < i ==> !IsSpace(s[k])
      invariant runStart > 0 ==> IsSpace(s[runStart - 1])
      invariant at.Some? ==> runStart < at.value < i && s[at.value] == '@'
      invariant at.Some? ==> forall k :: runStart < k < at.value ==> s[k] != '@'
      invariant at.None? ==> forall k :: runStart < k < i ==> s[k] != '@'
      invariant forall p, q :: q < i ==> !EmailAt(s, p, q)
    {
      var c := s[i];
      if IsSpace(c) {
        runStart := i + 1;
        at := None;
      } else if c == '@' {
        if at.None? && runStart < i {
          at := Some(i);
        }
      } else if c == '.' {
        if at.Some? && at.value + 1 < i && i + 1 < |s| && !IsSpace(s[i + 1]) {
          assert EmailAt(s, at.value, i);
          return true;
        }
        forall p | EmailAt(s, p, i) ensures false {
          NoEarlierRun(s, runStart, p, i);
        }
      }
      i := i + 1;
    }
    return false;
  }

  /** A match ending at `q` lies inside the whitespace-free run that contains `q`. */
  lemma NoEarlierRun(s: string, runStart: nat, p: int, q: int)
    requires EmailAt(s, p, q) && runStart <= q
    requires runStart > 0 ==> IsSpace(s[runStart - 1])
    ensures runStart < p
  {
    assert forall k :: p - 1 <= k <= q ==> !IsSpace(s[k]);
  }

  /** Without an '@' nothing is accepted. */
  lemma NoAtRejected(s: string)
    requires '@' !in s
    ensures !EmailShaped(s)
  {
    EmailShapedIffAt(s);
    forall p, q ensures !EmailAt(s, p, q) {
      if 0 <= p < |s| { assert s[p] in s; }
    }
  }

  /** "a@b.c" is accepted, and so is "x a@b.c y": the pattern is not anchored. */
  lemma Examples()
    ensures EmailShaped("a@b.c")
    ensures EmailShaped("x a@b.c y")
    ensures !EmailShaped("a@b")
  {
    EmailShapedIffAt("a@b.c");
    assert EmailAt("a@b.c", 1, 3);
    EmailShapedIffAt("x a@b.c y");
    assert EmailAt("x a@b.c y", 3, 5);
    NoDotRejected("a@b");
  }

  lemma NoDotRejected(s: string)
    requires '.' !in s
    ensures !EmailShaped(s)
  {
    EmailShapedIffAt(s);
    forall p, q ensures !EmailAt(s, p, q) {
      if 0 <= q < |s| { assert s[q] in s; }
    }
  }

  /** The screen's state: the form fields, the picked image's local URI, the attachment URL. */
  datatype FormState = FormState(name: string, email: string, description: string,
                                 imageUri: Option<string>, attachmentUrl: string)

  /** The JSON body posted to `/api/tickets`. It has no image field: the picked
      image is a preview only. */
  datatype TicketRequest = TicketRequest(name: string, email: string, description: string, attachment: Option<string>)

  datatype SubmitResult = MissingFields | InvalidEmail | Send(request: TicketRequest)

  /** `submit`: missing fields are reported before a bad address; either
      failure sends nothing; otherwise the body carries the three fields and
      an `attachment` exactly when the URL field is non-empty. */
  method Submit(form: FormState) returns (r: SubmitResult)
    ensures r == MissingFields <==> form.name == "" || form.email == "" || form.description == ""
    ensures r == InvalidEmail <==>
      form.name != "" && form.email != "" && form.description != "" && !EmailShaped(form.email)
    ensures r.Send? ==>
      && r.request.name == form.name && r.request.email == form.email
      && r.request.description == form.description
      && (r.request.attachment.Some? <==> form.attachmentUrl != "")
      && (r.request.attachment.Some? ==> r.request.attachment.value == form.attachmentUrl)
  {
    if form.name == "" || form.email == "" || form.description == "" {
      return MissingFields;
    }
    var ok := ValidateEmail(form.email);
    if !ok {
      return InvalidEmail;
    }
    var attachment := if form.attachmentUrl != "" then Some(form.attachmentUrl) else None;
    return Send(TicketRequest(form.name, form.email, form.description, attachment));
  }
}
