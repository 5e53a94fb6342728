/** The mail recipient page: the e-mail shape check and the order of decisions in its submit. */
module MailPage {
  import opened Text

  /** Neither white space nor '@' (the class `[^\s@]`). */
  predicate Plain(c: char) {
    !IsJsSpace(c) && c != '@'
  }

  predicate AllPlain(s: string) {
    forall i :: 0 <= i < |s| ==> Plain(s[i])
  }

  /** Index of the first occurrence of `c`, or |s| when there is none. */
  function IndexOf(s: string, c: char): (k: nat)
    ensures k <= |s|
    ensures k < |s| ==> s[k] == c
    ensures forall i :: 0 <= i < k ==> s[i] != c
  {
    if |s| == 0 then 0 else if s[0] == c then 0 else 1 + IndexOf(s[1..], c)
  }

  /** A '.' with at least one character on each side. */
  predicate HasInnerDot(d: string) {
    exists j :: 0 < j < |d| - 1 && d[j] == '.'
  }

  /** `validateEmail`, i.e. `/^[^\s@]+@[^\s@]+\.[^\s@]+$/.test(email)`, evaluated by locating the
      one '@' and then a '.' strictly inside the domain. */
  predicate ValidateEmail(email: string) {
    var k := IndexOf(email, '@');
    0 < k < |email| && AllPlain(email[..k]) && AllPlain(email[k + 1..]) && HasInnerDot(email[k + 1..])
  }

  /** The regular expression read positionally: '@' at `a`, '.' at `d`, at least one character
      before `a`, between them and after `d`, and every other character plain (the '.' itself is
      plain too, so the runs around it may contain further dots). */
  predicate ShapeAt(email: string, a: int, d: int) {
    0 < a && a + 1 < d && d + 1 < |email|
    && email[a] == '@' && email[d] == '.'
    && (forall i :: 0 <= i < |email| && i != a ==> Plain(email[i]))
  }

  /** The positional reading and the evaluation agree, both ways. */
  lemma ValidateEmailIffShape(email: string)
    ensures ValidateEmail(email) <==> exists a, d :: ShapeAt(email, a, d)
  {
    var k := IndexOf(email, '@');
    if ValidateEmail(email) {
      var dom := email[k + 1..];
      var j :| 0 < j < |dom| - 1 && dom[j] == '.';
      assert dom[j] == email[k + 1 + j];
      forall i | 0 <= i < |email| && i != k
        ensures Plain(email[i])
      {
        if i < k {
          assert email[..k][i] == email[i];
        } else {
          assert dom[i - k - 1] == email[i];
        }
      }
      assert ShapeAt(email, k, k + 1 + j);
    }
    if exists a, d :: ShapeAt(email, a, d) {
      var a, d :| ShapeAt(email, a, d);
      assert k == a;
      var dom := email[k + 1..];
      assert dom[d - k - 1] == '.';
      assert HasInnerDot(dom);
      assert AllPlain(email[..k]);
      assert AllPlain(dom) by {
        forall i | 0 <= i < |dom| ensures Plain(dom[i]) {
          assert dom[i] == email[k + 1 + i];
        }
      }
    }
  }

  function CountChar(s: string, c: char): nat {
    if |s| == 0 then 0 else (if s[0] == c then 1 else 0) + CountChar(s[1..], c)
  }

  lemma {:induction false} CountCharAppend(a: string, b: string, c: char)
    ensures CountChar(a + b, c) == CountChar(a, c) + CountChar(b, c)
  {
    if |a| > 0 {
      assert (a + b)[1..] == a[1..] + b;
      CountCharAppend(a[1..], b, c);
    } else {
      assert a + b == b;
    }
  }

  lemma {:induction false} CountCharAbsent(s: string, c: char)
    requires forall i :: 0 <= i < |s| ==> s[i] != c
    ensures CountChar(s, c) == 0
  {
    if |s| > 0 {
      CountCharAbsent(s[1..], c);
    }
  }

  /** A valid address has exactly one '@': none, or two and more, fail the check. */
  lemma ValidHasOneAt(email: string)
    requires ValidateEmail(email)
    ensures CountChar(email, '@') == 1
  {
    var k := IndexOf(email, '@');
    assert email == email[..k] + [email[k]] + email[k + 1..];
    CountCharAppend(email[..k] + [email[k]], email[k + 1..], '@');
    CountCharAppend(email[..k], [email[k]], '@');
    CountCharAbsent(email[..k], '@');
    CountCharAbsent(email[k + 1..], '@');
  }

  /** The toast the page shows, by its string-table key. */
  datatype MailToast = RequiredToast | InvalidToast | AddSuccessToast | AddErrorToast

  function ToastKey(t: MailToast): string {
    match t
    case RequiredToast => "mail.validation.required"
    case InvalidToast => "mail.validation.invalid"
    case AddSuccessToast => "mail.add.success"
    case AddErrorToast => "mail.add.error"
  }

  /** After a submit: the e-mail field, the toast, whether `mailApi.add` was called and whether
      the list is reloaded. */
  datatype MailOutcome = MailOutcome(email: string, toast: MailToast, addCalled: bool, reload: bool)

  /** `handleSubmit`; `addSucceeds` is how the awaited `mailApi.add` settles. */
  function SubmitMail(email: string, addSucceeds: bool): (r: MailOutcome)
    ensures email == "" ==> r.toast == RequiredToast && !r.addCalled
    ensures email != "" && !ValidateEmail(email) ==> r.toast == InvalidToast && !r.addCalled
    ensures r.addCalled <==> ValidateEmail(email)
    ensures r.addCalled && addSucceeds ==> r.email == "" && r.toast == AddSuccessToast && r.reload
    ensures r.addCalled && !addSucceeds ==> r.email == email && r.toast == AddErrorToast && !r.reload
    ensures !r.addCalled ==> r.email == email && !r.reload
  {
    if email == "" then MailOutcome(email, RequiredToast, false, false)
    else if !ValidateEmail(email) then MailOutcome(email, InvalidToast, false, false)
    else if addSucceeds then MailOutcome("", AddSuccessToast, true, true)
    else MailOutcome(email, AddErrorToast, true, false)
  }

  /** The empty string never passes the format check, so "required" is the only message it gets. */
  lemma EmptyIsNotValid()
    ensures !ValidateEmail("")
  {
  }

  /** Printable ASCII other than '@' is plain. */
  lemma PrintablePlain(c: char)
    requires '!' <= c <= '~' && c != '@'
    ensures Plain(c)
  {
  }

  /** A concrete address that passes. */
  lemma ValidExample()
    ensures ValidateEmail("ops@example.com")
  {
    var e := "ops@example.com";
    forall i | 0 <= i < |e| && i != 3
      ensures Plain(e[i])
    {
      PrintablePlain(e[i]);
    }
    assert ShapeAt(e, 3, 11);
    ValidateEmailIffShape(e);
  }

  /** An address with two '@' does not pass: the domain part holds the second one. */
  lemma TwoAtsExample()
    ensures !ValidateEmail("a@b@c.d")
  {
    assert IndexOf("a@b@c.d", '@') == 1;
    assert !Plain("a@b@c.d"[2..][1]);
  }
}
