/** The server form shared by `ServerEditDialog` and `AddPage`: three text fields, per-keystroke
    rejection of bad ip/port input, and the required-field check that gates submission. The two
    components differ only in the DOM names of their inputs. */
module ServerForm {
  import opened Options
  import opened Text
  import opened ServerTypes

  datatype Field = Name | Ip | Port

  /** A field's error message, named by its string-table key (see `MessageKey`). */
  datatype FieldError = NoError | KoreanInIp | PortNotNumber | Required

  function MessageKey(e: FieldError): string {
    match e
    case NoError => ""
    case KoreanInIp => "add.form.serverIp.error.korean"
    case PortNotNumber => "add.form.port.error.number"
    case Required => "add.form.required"
  }

  datatype Values = Values(name: string, ip: string, port: string)
  datatype Errors = Errors(name: FieldError, ip: FieldError, port: FieldError)
  datatype FormState = FormState(values: Values, errors: Errors)

  function Get(v: Values, f: Field): string {
    match f
    case Name => v.name
    case Ip => v.ip
    case Port => v.port
  }

  function Set(v: Values, f: Field, s: string): (r: Values)
    ensures Get(r, f) == s
    ensures forall g :: g != f ==> Get(r, g) == Get(v, g)
  {
    match f
    case Name => v.(name := s)
    case Ip => v.(ip := s)
    case Port => v.(port := s)
  }

  function GetError(e: Errors, f: Field): FieldError {
    match f
    case Name => e.name
    case Ip => e.ip
    case Port => e.port
  }

  function SetError(e: Errors, f: Field, x: FieldError): (r: Errors)
    ensures GetError(r, f) == x
    ensures forall g :: g != f ==> GetError(r, g) == GetError(e, g)
  {
    match f
    case Name => e.(name := x)
    case Ip => e.(ip := x)
    case Port => e.(port := x)
  }

  const NoErrors := Errors(NoError, NoError, NoError)

  /** A character of the class `[ㄱ-ㅎ|ㅏ-ㅣ|가-힣]`: Hangul compatibility jamo U+3131..U+3163,
      Hangul syllables U+AC00..U+D7A3, and the literal `|` that the class also contains. */
  predicate IsKoreanClassChar(c: char) {
    var u := c as int;
    (0x3131 <= u <= 0x314E) || c == '|' || (0x314F <= u <= 0x3163) || (0xAC00 <= u <= 0xD7A3)
  }

  /** `koreanRegex.test(value)`: some character of the value is in the class. */
  predicate HasKorean(value: string) {
    exists i :: 0 <= i < |value| && IsKoreanClassChar(value[i])
  }

  /** `/^[0-9]*$/.test(value)`. */
  predicate IsNumeric(value: string) {
    AllDigits(value)
  }

  /** `handleChange` for one of the three fields. */
  function HandleChange(st: FormState, f: Field, value: string): (r: FormState)
    ensures f == Ip && HasKorean(value) ==>
              r.values == st.values && r.errors == SetError(st.errors, Ip, KoreanInIp)
    ensures f == Port && !IsNumeric(value) ==>
              r.values == st.values && r.errors == SetError(st.errors, Port, PortNotNumber)
    ensures Accepted(f, value) ==>
              r.values == Set(st.values, f, value) && r.errors == SetError(st.errors, f, NoError)
  {
    if f == Ip && HasKorean(value) then st.(errors := SetError(st.errors, Ip, KoreanInIp))
    else if f == Port && !IsNumeric(value) then st.(errors := SetError(st.errors, Port, PortNotNumber))
    else FormState(Set(st.values, f, value), SetError(st.errors, f, NoError))
  }

  /** Whether `handleChange` lets a value through. */
  predicate Accepted(f: Field, value: string) {
    !(f == Ip && HasKorean(value)) && !(f == Port && !IsNumeric(value))
  }

  /** `validateForm`: the new errors and the verdict. */
  datatype Validation = Validation(ok: bool, errors: Errors)

  function ValidateForm(v: Values): (r: Validation)
    ensures r.ok <==> v.name != "" && v.ip != "" && v.port != ""
    ensures forall f :: GetError(r.errors, f) == (if Get(v, f) == "" then Required else NoError)
  {
    var errors := Errors(
      if v.name == "" then Required else NoError,
      if v.ip == "" then Required else NoError,
      if v.port == "" then Required else NoError);
    Validation(errors.name == NoError && errors.ip == NoError && errors.port == NoError, errors)
  }

  /** The dialog's initial form: name and ip from the server being edited or empty, port as its
      decimal text or empty. */
  function InitialForm(server: Option<Server>): (r: FormState)
    ensures r.errors == NoErrors
    ensures server.None? ==> r.values == Values("", "", "")
    ensures server.Some? ==> r.values.name == server.value.name && r.values.ip == server.value.ip
    ensures AllDigits(r.values.port)
    ensures server.Some? && server.value.port.Some? ==> DigitsValue(r.values.port) == server.value.port.value
    ensures (server.None? || server.value.port.None?) <==> r.values.port == ""
  {
    match server
    case None => FormState(Values("", "", ""), NoErrors)
    case Some(s) =>
      var port := if s.port.Some? then NatToString(s.port.value) else "";
      if s.port.Some? then
        NatToStringRoundTrip(s.port.value);
        FormState(Values(s.name, s.ip, port), NoErrors)
      else
        FormState(Values(s.name, s.ip, port), NoErrors)
  }

  /** The port field of the initial form is all digits, so re-entering it is never rejected. */
  lemma InitialPortAccepted(server: Option<Server>)
    ensures Accepted(Port, InitialForm(server).values.port)
  {
  }

  /** What a submit of the edit dialog does: nothing (validation failed), call `onSubmit` and
      stay open (it rejected), or call `onSubmit` then `onClose` (it resolved). */
  datatype EditEffect = NotSubmitted | SubmitRejected(data: Values) | SubmittedAndClosed(data: Values)

  /** `ServerEditDialog.handleSubmit`; `submitResolves` is how the awaited `onSubmit` settles. */
  function SubmitEdit(st: FormState, submitResolves: bool): (r: (FormState, EditEffect))
    ensures r.0.values == st.values && r.0.errors == ValidateForm(st.values).errors
    ensures r.1 != NotSubmitted <==> ValidateForm(st.values).ok
    ensures r.1.SubmittedAndClosed? <==> ValidateForm(st.values).ok && submitResolves
    ensures r.1 != NotSubmitted ==> r.1.data == st.values
  {
    var v := ValidateForm(st.values);
    var next := st.(errors := v.errors);
    if !v.ok then (next, NotSubmitted)
    else if submitResolves then (next, SubmittedAndClosed(st.values))
    else (next, SubmitRejected(st.values))
  }

  /** `AddPage.handleSubmit`: the form data is handed on (logged) only when validation passes. */
  function SubmitAdd(st: FormState): (r: (FormState, Option<Values>))
    ensures r.0.errors == ValidateForm(st.values).errors && r.0.values == st.values
    ensures r.1.Some? <==> st.values.name != "" && st.values.ip != "" && st.values.port != ""
    ensures r.1.Some? ==> r.1.value == st.values
  {
    var v := ValidateForm(st.values);
    (st.(errors := v.errors), if v.ok then Some(st.values) else None)
  }

  /** Which component's input names are in use. */
  datatype Page = EditDialog | AddPageForm

  /** The DOM `name` of each field's input. */
  function InputName(page: Page, f: Field): string {
    match (page, f)
    case (EditDialog, Name) => "name"
    case (EditDialog, Ip) => "ip"
    case (AddPageForm, Name) => "serverName"
    case (AddPageForm, Ip) => "serverIp"
    case (_, Port) => "port"
  }

  /** The field an input name refers to, if any. */
  function FieldNamed(page: Page, name: string): (r: Option<Field>)
    ensures r.Some? ==> InputName(page, r.value) == name
    ensures r.None? ==> forall f :: InputName(page, f) != name
  {
    if name == InputName(page, Name) then Some(Name)
    else if name == InputName(page, Ip) then Some(Ip)
    else if name == InputName(page, Port) then Some(Port)
    else None
  }

  /** A change event as the component receives it: the target's name and value. An input name
      outside the three fields leaves the three fields and their errors as they are. */
  function HandleInput(page: Page, st: FormState, name: string, value: string): (r: FormState)
    ensures FieldNamed(page, name).None? ==> r == st
    ensures FieldNamed(page, name).Some? ==> r == HandleChange(st, FieldNamed(page, name).value, value)
  {
    match FieldNamed(page, name)
    case None => st
    case Some(f) => HandleChange(st, f, value)
  }

  /** Input names round-trip through the name table on both pages. */
  lemma InputNamesRoundTrip(page: Page, f: Field)
    ensures FieldNamed(page, InputName(page, f)) == Some(f)
  {
  }

  /** Rejected input never changes the form values: whatever is typed, the ip field never holds a
      Hangul character or `|` it did not hold before, and the port field stays numeric. */
  lemma ChangesKeepFieldsClean(st: FormState, f: Field, value: string)
    requires !HasKorean(st.values.ip) && IsNumeric(st.values.port)
    ensures !HasKorean(HandleChange(st, f, value).values.ip)
    ensures IsNumeric(HandleChange(st, f, value).values.port)
  {
  }

  /** The '|' in the character class rejects an ip with a pipe, although it is no Hangul. */
  lemma PipeRejected(st: FormState)
    ensures HandleChange(st, Ip, "10.0.0.1|").values == st.values
    ensures HandleChange(st, Ip, "10.0.0.1|").errors.ip == KoreanInIp
  {
    assert IsKoreanClassChar("10.0.0.1|"[8]);
  }
}
