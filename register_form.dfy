/**
 * The sign-up form (Register.js): its field record, the three client-side
 * checks, the submit gate and the per-field error clearing on edit, and the
 * body it sends to the register endpoint.
 *
 * The form's fields and its error record are string-keyed records; a field
 * the record does not hold reads as "" (every field the form renders starts
 * out present and empty). A JSON body is a record of strings in which a
 * flag is present with a non-empty value exactly when it is true.
 */
module RegisterForm {
  import opened Wrappers
  import opened Records
  import Accounts
  import Text

  type Record = map<string, string>

  const Fields: set<string> := {"username", "email", "password", "confirmPassword", "firstName", "lastName"}

  /** The form's initial state: every rendered field present and empty. */
  const Initial: Record := map f | f in Fields :: ""

  function Get(r: Record, k: string): string {
    if k in r then r[k] else ""
  }

  /** `errors[k]` is truthy: the field shows an error message. */
  predicate Shows(errors: Record, k: string) {
    Get(errors, k) != ""
  }

  const UsernameMessage := "Username must be at least 3 characters"
  const PasswordMessage := "Password must be at least 6 characters"
  const MismatchMessage := "Passwords do not match"

  /** validate: a fresh record holding one message per failed check. */
  function Validate(form: Record): Record {
    var e0: Record := map[];
    var e1 := if Text.Utf16Length(Get(form, "username")) < 3 then e0["username" := UsernameMessage] else e0;
    var e2 := if Text.Utf16Length(Get(form, "password")) < 6 then e1["password" := PasswordMessage] else e1;
    if Get(form, "password") != Get(form, "confirmPassword") then e2["confirmPassword" := MismatchMessage] else e2
  }

  /** handleChange: set the field, and blank its error only when it currently shows one. */
  function Change(form: Record, errors: Record, name: string, value: string): (Record, Record) {
    (form[name := value], if Shows(errors, name) then errors[name := ""] else errors)
  }

  datatype Submission = Submission(errors: Record, body: Option<Record>)

  /**
   * handleSubmit: a non-empty validation record replaces the errors and
   * nothing is sent; otherwise the form minus `confirmPassword` is sent and
   * the errors are left as they were.
   */
  function Submit(form: Record, errors: Record): Submission {
    var v := Validate(form);
    if |v.Keys| > 0 then Submission(v, None)
    else Submission(errors, Some(form - {"confirmPassword"}))
  }

  /** How the register endpoint reads a JSON body (`req.body`), absent fields being undefined. */
  function ReadRegistration(body: Record): Accounts.Registration {
    Accounts.Registration(Get(body, "username"), Get(body, "email"), Get(body, "password"),
                          Get(body, "firstName"), Get(body, "lastName"), Get(body, "phone"), None,
                          Get(body, "termsAccepted") != "")
  }

  /**
   * The evidently intended form: it also sends the terms flag, from a
   * checkbox the user ticks.
   */
  function SubmitWithTerms(form: Record, errors: Record, termsTicked: bool): Submission {
    var s := Submit(form, errors);
    if s.body.Some? && termsTicked then s.(body := Some(s.body.value["termsAccepted" := "true"])) else s
  }

  // ----------------------------------------------------------------- lemmas

  /**
   * Each check reports exactly its own failure, whatever the others do: a
   * short username, a short password, and a confirmation that differs.
   */
  lemma {:induction false} ValidateSpec(form: Record)
    ensures var v := Validate(form);
      && v.Keys <= {"username", "password", "confirmPassword"}
      && ("username" in v <==> Text.Utf16Length(Get(form, "username")) < 3)
      && ("password" in v <==> Text.Utf16Length(Get(form, "password")) < 6)
      && ("confirmPassword" in v <==> Get(form, "password") != Get(form, "confirmPassword"))
      && (forall k :: k in v ==> v[k] != "")
  {
  }

  /**
   * The body is sent exactly when all three checks pass; it is the form
   * without `confirmPassword`. A blocked submit shows the validation record.
   */
  lemma {:induction false} SubmitGate(form: Record, errors: Record)
    ensures var s := Submit(form, errors);
      && (s.body.Some? <==> Text.Utf16Length(Get(form, "username")) >= 3 && Text.Utf16Length(Get(form, "password")) >= 6
                            && Get(form, "password") == Get(form, "confirmPassword"))
      && (s.body.Some? ==> "confirmPassword" !in s.body.value
                           && s.body.value.Keys == form.Keys - {"confirmPassword"}
                           && (forall k :: k in s.body.value ==> s.body.value[k] == form[k])
                           && s.errors == errors)
      && (s.body.None? ==> s.errors == Validate(form))
  {
    ValidateSpec(form);
    var v := Validate(form);
    if Text.Utf16Length(Get(form, "username")) < 3 {
      assert "username" in v.Keys;
    } else if Text.Utf16Length(Get(form, "password")) < 6 {
      assert "password" in v.Keys;
    } else if Get(form, "password") != Get(form, "confirmPassword") {
      assert "confirmPassword" in v.Keys;
    } else {
      assert v.Keys == {};
    }
  }

  /**
   * Editing a field stores its value, clears that field's message and
   * changes no other field or message.
   */
  lemma {:induction false} ChangeClearsOnlyThatField(form: Record, errors: Record, name: string, value: string)
    ensures var (form', errors') := Change(form, errors, name, value);
      && Get(form', name) == value
      && !Shows(errors', name)
      && (forall k :: k != name ==> Get(form', k) == Get(form, k) && Get(errors', k) == Get(errors, k))
      && form'.Keys == form.Keys + {name}
  {
  }

  /** Editing keeps every rendered field present. */
  lemma {:induction false} ChangeKeepsFields(form: Record, errors: Record, name: string, value: string)
    requires Fields <= form.Keys
    ensures Fields <= Change(form, errors, name, value).0.Keys
  {
  }

  /**
   * The form never sends the terms flag, so the register endpoint refuses
   * every body it sends, before looking at the email or username.
   */
  lemma {:induction false} FormBodyRefused(form: Record, errors: Record, users: seq<Accounts.User>,
                                           code: string, now: Time, emailSent: bool)
    requires "termsAccepted" !in form
    requires Submit(form, errors).body.Some?
    ensures Accounts.Register(users, ReadRegistration(Submit(form, errors).body.value), code, now, emailSent)
            == Err(Accounts.TermsRequired)
  {
  }

  /** Edits through the rendered inputs never introduce the terms flag. */
  lemma {:induction false} RenderedEditsLackTerms(form: Record, errors: Record, name: string, value: string)
    requires "termsAccepted" !in form
    requires name in Fields
    ensures "termsAccepted" !in Change(form, errors, name, value).0
  {
  }

  /**
   * With the flag sent, a valid form whose email and username are unused
   * registers a new user.
   */
  lemma {:induction false} TermsBodyAccepted(form: Record, errors: Record, users: seq<Accounts.User>,
                                             code: string, now: Time, emailSent: bool)
    requires SubmitWithTerms(form, errors, true).body.Some?
    requires forall u :: u in users ==> u.email != Get(form, "email") && u.username != Get(form, "username")
    ensures Accounts.Register(users, ReadRegistration(SubmitWithTerms(form, errors, true).body.value), code, now, emailSent).Ok?
  {
    var body := SubmitWithTerms(form, errors, true).body.value;
    var r := ReadRegistration(body);
    assert r.email == Get(form, "email") && r.username == Get(form, "username");
    assert r.termsAccepted by {
      assert Get(body, "termsAccepted") == "true";
    }
    Accounts.RegisterAcceptance(users, r, code, now, emailSent);
  }

  /** The untouched form is blocked with username and password messages and no mismatch. */
  lemma {:induction false} InitialBlocked()
    ensures var s := Submit(Initial, map[]);
      && s.body.None?
      && Shows(s.errors, "username") && Shows(s.errors, "password") && !Shows(s.errors, "confirmPassword")
  {
    assert Get(Initial, "username") == "" && Get(Initial, "password") == "" && Get(Initial, "confirmPassword") == "";
    SubmitGate(Initial, map[]);
    ValidateSpec(Initial);
  }
}
