/**
 * The contact form: three fields, one error text per field plus a form-level
 * error, a "submitted" flag and a "loading" flag. A change of a field clears
 * that field's error; a submit validates every field, and only a valid form
 * is sent, as one `POST {base}/send_email` request carrying the form data.
 *
 * The asynchronous submit is split at its one `await`: `Submit` is the part
 * that runs when the form is submitted, `Settle` the part that runs once the
 * request has an outcome. Translated texts are represented by their keys.
 */
module Contact {
  import opened Wrappers
  import Js
  import Config

  // ---------------------------------------------------------------------
  // The e-mail check: the regular expression /\S+@\S+\.\S+/, unanchored
  // ---------------------------------------------------------------------

  /** Positions `a` up to `b` all hold a character of `s` that is not white space. */
  ghost predicate NoSpaceIn(s: string, a: int, b: int)
  {
    forall k :: a <= k < b ==> 0 <= k < |s| && !Js.IsSpace(s[k])
  }

  /**
   * `s[i..e]` is a match of `\S+@\S+\.\S+`: a run of non-space characters,
   * an `@` at `p`, another run, a `.` at `d`, and a last run. The runs may
   * themselves hold `@` and `.`, as `\S` does not exclude them.
   */
  ghost predicate RegexMatchAt(s: string, i: int, p: int, d: int, e: int)
    ensures RegexMatchAt(s, i, p, d, e) ==> 0 <= i && i + 5 <= e <= |s|
  {
    && 0 <= i < p && p + 1 < d && d + 1 < e <= |s|
    && s[p] == '@' && s[d] == '.'
    && NoSpaceIn(s, i, p) && NoSpaceIn(s, p + 1, d) && NoSpaceIn(s, d + 1, e)
  }

  /** `RegExp.prototype.test` of the e-mail pattern: some part of `s` matches it. */
  ghost predicate MatchesEmailRegex(s: string)
    ensures MatchesEmailRegex(s) ==> |s| >= 5 && exists k :: 0 < k < |s| - 3 && s[k] == '@'
  {
    exists i, p, d, e :: RegexMatchAt(s, i, p, d, e)
  }

  /** The shortest match around an `@` at `p` and a `.` at `d`: one character before, one after. */
  ghost predicate ShortMatchAt(s: string, p: int, d: int)
  {
    RegexMatchAt(s, p - 1, p, d, d + 2)
  }

  /** The `.`-part of a match whose middle run starts at `j`: a `.` at `d` with white-space-free text from `j` to just past it. */
  ghost predicate DotAt(s: string, j: int, d: int)
  {
    0 <= j < d && d + 1 < |s| && s[d] == '.' && NoSpaceIn(s, j, d + 2)
  }

  /** Any match can be shrunk to its shortest form, so the two readings of the pattern agree. */
  lemma RegexIffShortMatch(s: string)
    ensures MatchesEmailRegex(s) <==> exists p, d :: ShortMatchAt(s, p, d)
  {
    if MatchesEmailRegex(s) {
      var i, p, d, e :| RegexMatchAt(s, i, p, d, e);
      assert ShortMatchAt(s, p, d);
    }
    if exists p, d :: ShortMatchAt(s, p, d) {
      var p, d :| ShortMatchAt(s, p, d);
      assert RegexMatchAt(s, p - 1, p, d, d + 2);
    }
  }

  /**
   * Scans for the `.` of a match whose middle run starts at `j`, trying `d`
   * and the positions after it while the run stays free of white space.
   */
  function DotFrom(s: string, j: nat, d: nat): (r: bool)
    requires j < d <= |s| && NoSpaceIn(s, j, d)
    ensures r <==> exists d' :: d <= d' && DotAt(s, j, d')
    decreases |s| - d
  {
    if d + 1 >= |s| then false
    else if Js.IsSpace(s[d]) then false
    else if s[d] == '.' && !Js.IsSpace(s[d + 1]) then
      assert DotAt(s, j, d);
      true
    else
      DotFrom(s, j, d + 1)
  }

  /** Scans for the `@` of a match, at `p` or after it. */
  function AtFrom(s: string, p: nat): (r: bool)
    requires p >= 1
    ensures r <==> exists p', d :: p <= p' && ShortMatchAt(s, p', d)
    decreases |s| - p
  {
    if p + 1 >= |s| then
      assert forall p', d :: p <= p' && ShortMatchAt(s, p', d) ==> false;
      false
    else if s[p] == '@' && !Js.IsSpace(s[p - 1]) && !Js.IsSpace(s[p + 1]) && DotFrom(s, p + 1, p + 2) then
      AtFromHit(s, p);
      true
    else
      AtFromStep(s, p);
      AtFrom(s, p + 1)
  }

  /** An `@` at `p` with a `.`-part after it is a match. */
  lemma AtFromHit(s: string, p: nat)
    requires 1 <= p && p + 1 < |s|
    requires s[p] == '@' && !Js.IsSpace(s[p - 1]) && !Js.IsSpace(s[p + 1]) && DotFrom(s, p + 1, p + 2)
    ensures exists d :: ShortMatchAt(s, p, d)
  {
    var d :| p + 2 <= d && DotAt(s, p + 1, d);
    assert ShortMatchAt(s, p, d);
  }

  /** A match whose `@` is at `p` is found by the scan at `p`: the scan may move on only when there is none. */
  lemma AtFromStep(s: string, p: nat)
    requires 1 <= p && p + 1 < |s|
    requires !(s[p] == '@' && !Js.IsSpace(s[p - 1]) && !Js.IsSpace(s[p + 1]) && DotFrom(s, p + 1, p + 2))
    ensures forall d :: !ShortMatchAt(s, p, d)
  {
    forall d | ShortMatchAt(s, p, d) ensures false {
      assert DotAt(s, p + 1, d);
    }
  }

  /** `validateEmail`: the e-mail pattern occurs somewhere in `email`. */
  function ValidateEmail(email: string): (r: bool)
    ensures r <==> MatchesEmailRegex(email)
  {
    RegexIffShortMatch(email);
    assert (exists p, d :: ShortMatchAt(email, p, d)) <==> (exists p, d :: 1 <= p && ShortMatchAt(email, p, d));
    AtFrom(email, 1)
  }

  /** A string the pattern accepts has an `@`, hence is never blank: the emptiness test before it never decides alone. */
  lemma ValidEmailIsNotBlank(email: string)
    requires ValidateEmail(email)
    ensures !Js.IsBlank(email)
  {
    var i, p, d, e :| RegexMatchAt(email, i, p, d, e);
    assert !Js.IsSpace(email[p]);
  }

  // ---------------------------------------------------------------------
  // Form state
  // ---------------------------------------------------------------------

  /** The `name` attribute of an input, which `handleChange` uses as the key. */
  datatype Field = Name | Email | Message

  datatype FormData = FormData(name: string, email: string, message: string)
  {
    function Get(f: Field): string
    {
      match f
      case Name => name
      case Email => email
      case Message => message
    }

    /** `{ ...formData, [f]: v }`: the named field takes the new value, the others keep theirs. */
    function With(f: Field, v: string): (r: FormData)
      ensures r.Get(f) == v
      ensures forall g :: g != f ==> r.Get(g) == Get(g)
    {
      match f
      case Name => this.(name := v)
      case Email => this.(email := v)
      case Message => this.(message := v)
    }
  }

  datatype Errors = Errors(name: string, email: string, message: string, form: string)
  {
    function Get(f: Field): string
    {
      match f
      case Name => name
      case Email => email
      case Message => message
    }

    /** `{ ...errors, [f]: '', form: '' }`: the named field's error and the form error are emptied, the rest kept. */
    function Cleared(f: Field): (r: Errors)
      ensures r.Get(f) == "" && r.form == ""
      ensures forall g :: g != f ==> r.Get(g) == Get(g)
    {
      match f
      case Name => this.(name := "", form := "")
      case Email => this.(email := "", form := "")
      case Message => this.(message := "", form := "")
    }
  }

  const EmptyForm := FormData("", "", "")
  const NoErrors := Errors("", "", "", "")

  /** The translated error text shown under a field that fails its check. */
  function Required(f: Field): (t: string)
    ensures t != ""
  {
    match f
    case Name => "nameRequired"
    case Email => "validEmailRequired"
    case Message => "messageRequired"
  }

  /** The check each field must pass: not blank, and for the e-mail also the pattern. */
  predicate FieldOk(fd: FormData, f: Field)
    ensures FieldOk(fd, f) ==> !Js.IsBlank(fd.Get(f))
  {
    match f
    case Name => !Js.IsBlank(fd.name)
    case Email => !Js.IsBlank(fd.email) && ValidateEmail(fd.email)
    case Message => !Js.IsBlank(fd.message)
  }

  /** The e-mail check reduces to the pattern alone. */
  lemma EmailOkIffPattern(fd: FormData)
    ensures FieldOk(fd, Email) <==> ValidateEmail(fd.email)
  {
    if ValidateEmail(fd.email) {
      ValidEmailIsNotBlank(fd.email);
    }
  }

  /**
   * The validation part of `handleSubmit`: each failing field gets its error
   * text, the form error is empty, and the form is valid exactly when no field
   * error is set, that is, when every field passes its check.
   */
  method ValidateForm(fd: FormData) returns (newErrors: Errors, valid: bool)
    ensures newErrors.form == ""
    ensures forall f :: newErrors.Get(f) == (if FieldOk(fd, f) then "" else Required(f))
    ensures valid <==> forall f :: FieldOk(fd, f)
    ensures valid <==> forall f :: newErrors.Get(f) == ""
  {
    valid := true;
    newErrors := NoErrors;
    if Js.IsBlank(fd.name) {
      newErrors := newErrors.(name := Required(Name));
      valid := false;
    }
    if Js.IsBlank(fd.email) || !ValidateEmail(fd.email) {
      newErrors := newErrors.(email := Required(Email));
      valid := false;
    }
    if Js.IsBlank(fd.message) {
      newErrors := newErrors.(message := Required(Message));
      valid := false;
    }
    assert forall f :: newErrors.Get(f) == (if FieldOk(fd, f) then "" else Required(f)) by {
      forall f ensures newErrors.Get(f) == (if FieldOk(fd, f) then "" else Required(f)) {
        match f
        case Name =>
        case Email =>
        case Message =>
      }
    }
    assert !valid ==> exists f :: !FieldOk(fd, f) by {
      if !valid {
        if !FieldOk(fd, Name) {} else if !FieldOk(fd, Email) {} else { assert !FieldOk(fd, Message); }
      }
    }
  }

  /** The request a valid form sends. */
  datatype EmailRequest = EmailRequest(url: string, authorization: string, body: FormData)

  /** What became of a request: an ok response, a non-ok one with the `detail` of its JSON body, or an exception. */
  datatype SendOutcome = Delivered | Refused(detail: Option<string>) | Threw

  const GenericRefusal := "An error occurred"
  const SendFailure := "An error occurred while sending the email."

  /** `data.detail || 'An error occurred'`: the server's detail unless it is missing or empty; never an empty text. */
  function RefusalMessage(detail: Option<string>): (m: string)
    ensures m != ""
    ensures detail.Some? && detail.value != "" ==> m == detail.value
    ensures detail.None? || detail.value == "" ==> m == GenericRefusal
  {
    if detail.Some? && detail.value != "" then detail.value else GenericRefusal
  }

  /** The component instance. */
  class ContactForm {
    var formData: FormData
    var errors: Errors
    var isSubmitted: bool
    var loading: bool

    /** Every field error on display is that field's error text, and the field still fails its check. */
    ghost predicate ErrorsJustified()
      reads this
    {
      forall f :: errors.Get(f) == "" || (errors.Get(f) == Required(f) && !FieldOk(formData, f))
    }

    constructor ()
      ensures formData == EmptyForm && errors == NoErrors && !isSubmitted && !loading
      ensures ErrorsJustified()
    {
      formData, errors, isSubmitted, loading := EmptyForm, NoErrors, false, false;
    }

    /** `handleChange`: only the named field changes, and only its error and the form error are cleared. */
    method HandleChange(f: Field, value: string)
      modifies this
      ensures formData == old(formData).With(f, value)
      ensures errors == old(errors).Cleared(f)
      ensures isSubmitted == old(isSubmitted) && loading == old(loading)
      ensures old(ErrorsJustified()) ==> ErrorsJustified()
    {
      formData := formData.With(f, value);
      errors := errors.Cleared(f);
    }

    /**
     * `handleSubmit` up to the request. A valid form turns `loading` on and
     * yields the request, to `{base}/send_email` with the bearer key and the
     * form data, leaving errors as they were (no field error is on display);
     * an invalid form yields no request, replaces the errors by the new ones
     * and leaves `loading` alone.
     */
    method Submit(env: Config.Env) returns (request: Option<EmailRequest>)
      modifies this
      ensures request.Some? <==> forall f :: FieldOk(old(formData), f)
      ensures formData == old(formData) && isSubmitted == old(isSubmitted)
      ensures request.Some? ==>
                && request.value == EmailRequest(Config.BaseUrl(env) + "/send_email", Config.Bearer(env), formData)
                && loading && errors == old(errors)
      ensures request.Some? && old(ErrorsJustified()) ==> forall f :: errors.Get(f) == ""
      ensures request.None? ==>
                && loading == old(loading) && errors.form == ""
                && forall f :: errors.Get(f) == (if FieldOk(formData, f) then "" else Required(f))
      ensures request.None? ==> exists f :: errors.Get(f) != ""
      ensures old(ErrorsJustified()) ==> ErrorsJustified()
    {
      var newErrors, valid := ValidateForm(formData);
      var url := Config.BaseUrl(env);
      if valid {
        loading := true;
        request := Some(EmailRequest(url + "/send_email", Config.Bearer(env), formData));
      } else {
        errors := newErrors;
        request := None;
      }
    }

    /**
     * `handleSubmit` after the request: an ok response marks the form as
     * submitted and empties it; a refusal or an exception sets the form
     * error; `loading` is off on every path.
     */
    method Settle(outcome: SendOutcome)
      modifies this
      ensures !loading
      ensures outcome == Delivered ==> isSubmitted && formData == EmptyForm && errors == old(errors)
      ensures outcome.Refused? ==>
                && errors == old(errors).(form := RefusalMessage(outcome.detail))
                && formData == old(formData) && isSubmitted == old(isSubmitted)
      ensures outcome == Threw ==>
                && errors == old(errors).(form := SendFailure)
                && formData == old(formData) && isSubmitted == old(isSubmitted)
      ensures old(ErrorsJustified()) ==> ErrorsJustified()
    {
      match outcome {
        case Delivered =>
          isSubmitted := true;
          formData := EmptyForm;
        case Refused(detail) =>
          errors := errors.(form := RefusalMessage(detail));
        case Threw =>
          errors := errors.(form := SendFailure);
      }
      loading := false;
    }
  }

  /** The pattern accepts "a@b.co" and rejects "a@b." and "a @b.c". */
  method EmailPatternScenario()
  {
    assert RegexMatchAt("a@b.co", 0, 1, 3, 5);
    assert ValidateEmail("a@b.co");
    assert !ValidateEmail("a@b.") by {
      assert forall i, p, d, e :: !RegexMatchAt("a@b.", i, p, d, e);
    }
    assert !ValidateEmail("a @b.c") by {
      assert forall i, p, d, e :: RegexMatchAt("a @b.c", i, p, d, e) ==> p == 2 && !Js.IsSpace("a @b.c"[p - 1]);
    }
  }

  /** An invalid submit reaches no network and shows the field errors; editing a field clears its error. */
  method InvalidSubmitScenario(env: Config.Env)
  {
    assert !FieldOk(EmptyForm, Name);
    var c := new ContactForm();
    var r := c.Submit(env);
    assert r.None? && c.errors.name == "nameRequired" && !c.loading;
    c.HandleChange(Name, "Ada");
    assert c.errors.name == "" && c.formData.name == "Ada" && c.formData.email == "";
  }

  /** A valid form sends one request; a refusal without detail shows the generic text; a delivery empties the form. */
  method ValidSubmitScenario(env: Config.Env)
  {
    var filled := FormData("Ada", "a@b.co", "Hi");
    assert forall f :: FieldOk(filled, f) by {
      assert RegexMatchAt("a@b.co", 0, 1, 3, 5);
      assert !Js.IsSpace('A') && !Js.IsSpace('a') && !Js.IsSpace('H');
      assert !Js.IsBlank("Ada") && !Js.IsBlank("a@b.co") && !Js.IsBlank("Hi");
    }
    var c := new ContactForm();
    c.HandleChange(Name, "Ada");
    c.HandleChange(Email, "a@b.co");
    c.HandleChange(Message, "Hi");
    assert c.formData == filled;
    var r := c.Submit(env);
    assert r.Some? && r.value.body == filled && c.loading;
    c.Settle(Refused(None));
    assert c.errors == Errors("", "", "", "An error occurred") && !c.loading && !c.isSubmitted;
    c.Settle(Delivered);
    assert c.isSubmitted && c.formData == EmptyForm;
  }
}
