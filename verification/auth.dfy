/** The mock sign-in / sign-up form (src/app/auth/page.tsx): `pickString`,
    the two branches of `handleSubmit` over the stored profile record and
    the redirect slot, and the page state around it (mode, error message,
    submitting flag). The clock's ISO timestamp and the presence of a
    browser window are inputs; JSON text goes through a `Codec`. */
module Auth {
  import opened Optional
  import opened Text
  import opened Json
  import opened Session

  datatype Mode = SignIn | SignUp

  /** The page's state: the form shown, the message above it, and whether a
      submission is in progress. */
  datatype AuthState = AuthState(mode: Mode, error: Option<string>, isSubmitting: bool)

  /** The page opens on the sign-up form with no message. */
  const InitialAuth := AuthState(SignUp, None, false)

  /** One `FormData` entry: text, or an uploaded file. */
  datatype Entry = TextEntry(text: string) | FileEntry

  /** The three `formData.get(name)` reads the handler makes, by name;
      `None` is `null`, for a field the form lacks (the sign-in form has no
      `confirmPassword`). */
  datatype FormData = FormData(email: Option<Entry>, password: Option<Entry>, confirmPassword: Option<Entry>)

  /** `pickString`: a text entry with its surrounding whitespace removed;
      a file or a missing field reads as empty. */
  function PickString(v: Option<Entry>): (r: string)
    ensures IsTrimmed(r)
    ensures r != "" <==> v.Some? && v.value.TextEntry? && !AllSpace(v.value.text)
  {
    if v.Some? && v.value.TextEntry? then Trim(v.value.text) else ""
  }

  /** The messages the form can show, one per way a submission fails. */
  datatype AuthError =
    | MissingCredentials | SignInUnavailable | NoAccount | InvalidCredentials
    | PasswordMismatch | SignUpUnavailable | SomethingWentWrong

  /** The text shown above the form for each failure. */
  function Message(e: AuthError): string {
    match e
    case MissingCredentials => "Please enter your email and password."
    case SignInUnavailable => "Authentication is unavailable in this environment."
    case NoAccount => "No account found. Please sign up first."
    case InvalidCredentials => "Invalid email or password."
    case PasswordMismatch => "Passwords do not match."
    case SignUpUnavailable => "Sign up is unavailable in this environment."
    case SomethingWentWrong => "Something went wrong. Please try again."
  }

  /** The failures each branch can report. */
  predicate RaisedBy(e: AuthError, mode: Mode) {
    if mode == SignIn then !(e.PasswordMismatch? || e.SignUpUnavailable?)
    else e.PasswordMismatch? || e.SignUpUnavailable?
  }

  /** What the handler reads from outside: whether `window` exists (it does
      not during server rendering) and `new Date().toISOString()`. */
  datatype Env = Env(hasWindow: bool, now: string)

  /** The effect of one submission: the message shown (`None` on success),
      storage afterwards, and the page navigated to. */
  datatype Outcome = Outcome(error: Option<AuthError>, storage: Storage, navigateTo: Option<string>)

  function Fail(st: Storage, e: AuthError): (o: Outcome)
    ensures o.error == Some(e) && o.storage == st && o.navigateTo.None?
  {
    Outcome(Some(e), st, None)
  }

  /** Write the profile, consume the redirect and go where it pointed. */
  function Succeed(st: Storage, profileText: string): (o: Outcome)
    ensures o.error.None? && o.storage.profile == Some(profileText) && o.storage.redirect.None?
    ensures o.navigateTo == Some(RedirectTarget(st.redirect))
  {
    Outcome(None, Storage(Some(profileText), None), Some(RedirectTarget(st.redirect)))
  }

  /** The credential test of the sign-in branch: the stored email is a
      string whose lower-case form is the typed (already lower-cased)
      address, and the stored password is a string equal to the typed one. */
  predicate CredentialsMatch(stored: JsonValue, email: string, password: string) {
    && StringMember(stored, "email").Some?
    && Lower(StringMember(stored, "email").value) == email
    && StringMember(stored, "password") == Some(password)
  }

  /** The record a sign-up writes. */
  function NewProfile(email: string, password: string, createdAt: string): (v: JsonValue)
    ensures v.JObject?
    ensures CredentialsMatch(v, Lower(email), password)
    ensures Truthy(Member(v, "isAuthenticated"))
  {
    JObject(map[
      "email" := JString(email),
      "password" := JString(password),
      "avatar" := JNull,
      "createdAt" := JString(createdAt),
      "isAuthenticated" := JBool(true)])
  }

  /** The fresh record holds exactly the five fields the handler writes,
      with no avatar and the given creation time. */
  lemma NewProfileFields(email: string, password: string, createdAt: string)
    ensures var v := NewProfile(email, password, createdAt);
      && v.fields.Keys == {"email", "password", "avatar", "createdAt", "isAuthenticated"}
      && v.fields["avatar"] == JNull && v.fields["createdAt"] == JString(createdAt)
  {
  }

  /** The sign-in branch. Reading a property of a stored `null` throws, as
      malformed text does; both land in the catch-all message. A failure
      leaves everything as it was; a success requires matching credentials
      and rewrites the stored record with `isAuthenticated` set. */
  function SignInOutcome(form: FormData, st: Storage, env: Env, codec: Codec): (o: Outcome)
    ensures o.error.None? ==>
      && env.hasWindow && Present(st.profile) && codec.parse(st.profile.value).Some?
      && var stored := codec.parse(st.profile.value).value;
         && CredentialsMatch(stored, Lower(PickString(form.email)), PickString(form.password))
         && o == Succeed(st, codec.stringify(JObject(Spread(stored)["isAuthenticated" := JBool(true)])))
    ensures o.error.Some? ==> o == Fail(st, o.error.value) && RaisedBy(o.error.value, SignIn)
  {
    var email := Lower(PickString(form.email));
    var password := PickString(form.password);
    if email == "" || password == "" then Fail(st, MissingCredentials)
    else if !env.hasWindow then Fail(st, SignInUnavailable)
    else if !Present(st.profile) then Fail(st, NoAccount)
    else match codec.parse(st.profile.value)
      case None => Fail(st, SomethingWentWrong)
      case Some(stored) =>
        if stored.JNull? then Fail(st, SomethingWentWrong)
        else if !CredentialsMatch(stored, email, password) then Fail(st, InvalidCredentials)
        else Succeed(st, codec.stringify(JObject(Spread(stored)["isAuthenticated" := JBool(true)])))
  }

  /** Both sign-in fields hold something besides whitespace. */
  predicate Filled(form: FormData) {
    PickString(form.email) != "" && PickString(form.password) != ""
  }

  /** Each sign-in message appears exactly when its condition holds and
      every earlier check passed, in the handler's order: blank fields, no
      window, no stored record, an unreadable record (malformed text or
      `null`), credentials that do not match. */
  lemma {:induction false} SignInMessages(form: FormData, st: Storage, env: Env, codec: Codec)
    ensures var o := SignInOutcome(form, st, env, codec);
      o.error == Some(MissingCredentials) <==> !Filled(form)
    ensures var o := SignInOutcome(form, st, env, codec);
      o.error == Some(SignInUnavailable) <==> Filled(form) && !env.hasWindow
    ensures var o := SignInOutcome(form, st, env, codec);
      o.error == Some(NoAccount) <==> Filled(form) && env.hasWindow && !Present(st.profile)
    ensures var o := SignInOutcome(form, st, env, codec);
      o.error == Some(SomethingWentWrong) <==>
        && Filled(form) && env.hasWindow && Present(st.profile)
        && (codec.parse(st.profile.value).None? || codec.parse(st.profile.value) == Some(JNull))
    ensures var o := SignInOutcome(form, st, env, codec);
      o.error == Some(InvalidCredentials) <==>
        && Filled(form) && env.hasWindow && Present(st.profile)
        && codec.parse(st.profile.value).Some? && codec.parse(st.profile.value) != Some(JNull)
        && !CredentialsMatch(codec.parse(st.profile.value).value,
                             Lower(PickString(form.email)), PickString(form.password))
  {
    var o := SignInOutcome(form, st, env, codec);
    var email := PickString(form.email);
    assert |Lower(email)| == |email|;
    if !Filled(form) {
      assert o == Fail(st, MissingCredentials);
    } else if !env.hasWindow {
      assert o == Fail(st, SignInUnavailable);
    } else if !Present(st.profile) {
      assert o == Fail(st, NoAccount);
    } else if codec.parse(st.profile.value).None? || codec.parse(st.profile.value) == Some(JNull) {
      assert o == Fail(st, SomethingWentWrong);
    } else {
      var stored := codec.parse(st.profile.value).value;
      if !CredentialsMatch(stored, Lower(email), PickString(form.password)) {
        assert o == Fail(st, InvalidCredentials);
      } else {
        assert o.error.None?;
      }
    }
  }

  /** The sign-up branch: no emptiness test, only the confirmation; a
      success replaces the stored record with a fresh one. */
  function SignUpOutcome(form: FormData, st: Storage, env: Env, codec: Codec): (o: Outcome)
    ensures o.error == Some(PasswordMismatch) <==>
      PickString(form.password) != PickString(form.confirmPassword)
    ensures o.error == Some(SignUpUnavailable) <==>
      PickString(form.password) == PickString(form.confirmPassword) && !env.hasWindow
    ensures o.error.None? ==>
      o == Succeed(st, codec.stringify(NewProfile(Lower(PickString(form.email)),
                                                  PickString(form.password), env.now)))
    ensures o.error.Some? ==> o == Fail(st, o.error.value) && RaisedBy(o.error.value, SignUp)
  {
    var email := Lower(PickString(form.email));
    var password := PickString(form.password);
    var confirmPassword := PickString(form.confirmPassword);
    if password != confirmPassword then Fail(st, PasswordMismatch)
    else if !env.hasWindow then Fail(st, SignUpUnavailable)
    else Succeed(st, codec.stringify(NewProfile(email, password, env.now)))
  }

  /** `handleSubmit`'s effect in either mode. A failure writes nothing and
      goes nowhere; a success goes to the stashed page (or home) and empties
      the stash. */
  function Submit(mode: Mode, form: FormData, st: Storage, env: Env, codec: Codec): (o: Outcome)
    ensures o.error.Some? ==> o.storage == st && o.navigateTo.None? && RaisedBy(o.error.value, mode)
    ensures o.error.None? ==>
      && o.navigateTo == Some(RedirectTarget(st.redirect))
      && o.storage.redirect.None? && o.storage.profile.Some?
  {
    match mode
    case SignIn => SignInOutcome(form, st, env, codec)
    case SignUp => SignUpOutcome(form, st, env, codec)
  }

  /** Both the page state and the submission's effect. */
  datatype SubmitResult = SubmitResult(state: AuthState, outcome: Outcome)

  /** `handleSubmit` on the page: the message is cleared and then set from
      the outcome, the mode stays, and the submitting flag is off again on
      every exit (the `finally`). */
  function HandleSubmit(s: AuthState, form: FormData, st: Storage, env: Env, codec: Codec): (r: SubmitResult)
    ensures !r.state.isSubmitting
    ensures r.state.mode == s.mode
    ensures r.state.error == (if r.outcome.error.Some? then Some(Message(r.outcome.error.value)) else None)
    ensures r.outcome == Submit(s.mode, form, st, env, codec)
  {
    var o := Submit(s.mode, form, st, env, codec);
    var message := if o.error.Some? then Some(Message(o.error.value)) else None;
    SubmitResult(AuthState(s.mode, message, false), o)
  }

  /** The "Log in" / "Sign up" buttons: switching forms clears the message
      (the effect keyed on `mode`); pressing the current one changes
      nothing. */
  function SetMode(s: AuthState, m: Mode): (r: AuthState)
    ensures r.mode == m && r.isSubmitting == s.isSubmitting
    ensures m != s.mode ==> r.error.None?
    ensures m == s.mode ==> r == s
  {
    if m == s.mode then s else AuthState(m, None, s.isSubmitting)
  }

  // ------------------------------------------------------------ lemmas

  /** A form holding text fields under the given names. */
  function SignInForm(email: string, password: string): FormData {
    FormData(Some(TextEntry(email)), Some(TextEntry(password)), None)
  }

  function SignUpForm(email: string, password: string, confirmPassword: string): FormData {
    FormData(Some(TextEntry(email)), Some(TextEntry(password)), Some(TextEntry(confirmPassword)))
  }

  /** Against a readable stored object, a sign-in with both fields filled
      in succeeds exactly when the credentials match, and is otherwise
      refused as invalid. */
  lemma SignInDecides(form: FormData, st: Storage, env: Env, codec: Codec, stored: JsonValue)
    requires Lawful(codec) && env.hasWindow && Filled(form)
    requires st.profile == Some(codec.stringify(stored)) && stored.JObject?
    ensures var o := SignInOutcome(form, st, env, codec);
      && (o.error.None? <==> CredentialsMatch(stored, Lower(PickString(form.email)), PickString(form.password)))
      && (o.error.Some? ==> o.error == Some(InvalidCredentials))
  {
    StringifyNonEmpty(codec, stored);
    SignInOnRecord(form, st, env, codec, stored);
  }

  /** Past the first three checks, with a record that is not `null`, only
      the credentials decide. */
  lemma SignInOnRecord(form: FormData, st: Storage, env: Env, codec: Codec, stored: JsonValue)
    requires Filled(form) && env.hasWindow && Present(st.profile)
    requires codec.parse(st.profile.value) == Some(stored) && !stored.JNull?
    ensures var o := SignInOutcome(form, st, env, codec);
      && (o.error.None? <==> CredentialsMatch(stored, Lower(PickString(form.email)), PickString(form.password)))
      && (o.error.Some? ==> o.error == Some(InvalidCredentials))
  {
    var email := PickString(form.email);
    assert |Lower(email)| == |email|;
    assert Lower(email) != "";
  }
  /** A sign-up with matching passwords stores a fresh signed-in record
      holding the lower-cased, trimmed address and the trimmed password. */
  lemma SignUpStores(st: Storage, env: Env, codec: Codec, email: string, password: string)
    requires Lawful(codec) && env.hasWindow
    ensures var up := Submit(SignUp, SignUpForm(email, password, password), st, env, codec);
      && up == Succeed(st, codec.stringify(NewProfile(Lower(Trim(email)), Trim(password), env.now)))
      && Present(up.storage.profile)
      && codec.parse(up.storage.profile.value) == Some(NewProfile(Lower(Trim(email)), Trim(password), env.now))
      && LoadUser(up.storage.profile, codec).Some?
  {
    var v := NewProfile(Lower(Trim(email)), Trim(password), env.now);
    SignUpSucceeds(st, env, codec, email, password);
    SucceedReadable(st, codec, v);
  }

  lemma SignUpSucceeds(st: Storage, env: Env, codec: Codec, email: string, password: string)
    requires env.hasWindow
    ensures Submit(SignUp, SignUpForm(email, password, password), st, env, codec)
         == Succeed(st, codec.stringify(NewProfile(Lower(Trim(email)), Trim(password), env.now)))
  {
    var form := SignUpForm(email, password, password);
    PickText(email);
    PickText(password);
    SignUpMatching(form, st, env, codec);
  }

  /** A text entry reads as its trimmed text. */
  lemma PickText(t: string)
    ensures PickString(Some(TextEntry(t))) == Trim(t)
  {
  }

  /** Agreeing passwords and a window: the sign-up goes through. */
  lemma SignUpMatching(form: FormData, st: Storage, env: Env, codec: Codec)
    requires env.hasWindow && PickString(form.password) == PickString(form.confirmPassword)
    ensures Submit(SignUp, form, st, env, codec)
         == Succeed(st, codec.stringify(NewProfile(Lower(PickString(form.email)), PickString(form.password), env.now)))
  {
    var o := SignUpOutcome(form, st, env, codec);
    assert o.error.None?;
  }

  /** A successful submission's record reads back as the signed-in user. */
  lemma SucceedReadable(st: Storage, codec: Codec, v: JsonValue)
    requires Lawful(codec) && Truthy(Member(v, "isAuthenticated"))
    ensures var o := Succeed(st, codec.stringify(v));
      && Present(o.storage.profile)
      && codec.parse(o.storage.profile.value) == Some(v)
      && LoadUser(o.storage.profile, codec).Some?
  {
    StringifyNonEmpty(codec, v);
  }

  /** Signing up and then signing in with the same password and an address
      that lower-cases (after trimming) to the same text succeeds; a
      different password is refused without touching storage. */
  lemma SignUpThenSignIn(st: Storage, env: Env, codec: Codec,
                         upEmail: string, password: string, inEmail: string, otherPassword: string)
    requires Lawful(codec) && env.hasWindow
    requires Lower(Trim(inEmail)) == Lower(Trim(upEmail)) && Trim(upEmail) != ""
    requires Trim(password) != ""
    ensures var up := Submit(SignUp, SignUpForm(upEmail, password, password), st, env, codec);
      Submit(SignIn, SignInForm(inEmail, password), up.storage, env, codec).error.None?
    ensures var up := Submit(SignUp, SignUpForm(upEmail, password, password), st, env, codec);
      Trim(otherPassword) != "" && Trim(otherPassword) != Trim(password) ==>
        Submit(SignIn, SignInForm(inEmail, otherPassword), up.storage, env, codec)
          == Outcome(Some(InvalidCredentials), up.storage, None)
  {
    var profile := NewProfile(Lower(Trim(upEmail)), Trim(password), env.now);
    SignUpStores(st, env, codec, upEmail, password);
    var up := Submit(SignUp, SignUpForm(upEmail, password, password), st, env, codec);
    assert |Lower(Trim(inEmail))| == |Trim(inEmail)|;
    LowerIdempotent(Trim(upEmail));
    SignInWith(up.storage, env, codec, profile, inEmail, password);
    if Trim(otherPassword) != "" && Trim(otherPassword) != Trim(password) {
      SignInWith(up.storage, env, codec, profile, inEmail, otherPassword);
    }
  }

  /** `SignInDecides` for a form typed as two strings. */
  lemma SignInWith(st: Storage, env: Env, codec: Codec, stored: JsonValue, email: string, password: string)
    requires Lawful(codec) && env.hasWindow
    requires st.profile == Some(codec.stringify(stored)) && stored.JObject?
    requires Trim(email) != "" && Trim(password) != ""
    ensures var o := Submit(SignIn, SignInForm(email, password), st, env, codec);
      && (o.error.None? <==> CredentialsMatch(stored, Lower(Trim(email)), Trim(password)))
      && (o.error.Some? ==> o == Fail(st, InvalidCredentials))
  {
    var form := SignInForm(email, password);
    PickText(email);
    PickText(password);
    SignInDecides(form, st, env, codec, stored);
  }

  /** A sign-up whose password is only whitespace is accepted (the handler
      checks no length) and stores an empty password, which no later
      sign-in can match: the sign-in branch refuses an empty password
      before it looks at the record. */
  lemma BlankPasswordLocksOut(st: Storage, env: Env, codec: Codec, upEmail: string, blank: string, form: FormData)
    requires Lawful(codec) && env.hasWindow && AllSpace(blank)
    ensures var up := Submit(SignUp, SignUpForm(upEmail, blank, blank), st, env, codec);
      && up.error.None?
      && codec.parse(up.storage.profile.value).Some?
      && StringMember(codec.parse(up.storage.profile.value).value, "password") == Some("")
      && Submit(SignIn, form, up.storage, env, codec).error.Some?
  {
    var profile := NewProfile(Lower(Trim(upEmail)), Trim(blank), env.now);
    StringifyNonEmpty(codec, profile);
    assert Trim(blank) == "";
  }

  /** A successful sign-in keeps every field of the stored record, sets
      `isAuthenticated`, and leaves a record `loadUser` accepts. */
  lemma SignInKeepsRecord(form: FormData, st: Storage, env: Env, codec: Codec)
    requires Lawful(codec)
    requires SignInOutcome(form, st, env, codec).error.None?
    ensures var o := SignInOutcome(form, st, env, codec);
      var stored := codec.parse(st.profile.value).value;
      && stored.JObject?
      && codec.parse(o.storage.profile.value) == Some(JObject(stored.fields["isAuthenticated" := JBool(true)]))
      && (forall k :: k in stored.fields && k != "isAuthenticated" ==>
            codec.parse(o.storage.profile.value).value.fields[k] == stored.fields[k])
      && LoadUser(o.storage.profile, codec).Some?
  {
    var stored := codec.parse(st.profile.value).value;
    assert Member(stored, "email").Some?;
    assert Spread(stored) == stored.fields;
    SignedInRecord(codec, stored.fields);
  }

  /** The record a successful sign-in writes: the old fields with
      `isAuthenticated` set, readable and accepted by `loadUser`. */
  lemma SignedInRecord(codec: Codec, fields: map<string, JsonValue>)
    requires Lawful(codec)
    ensures var written := JObject(fields["isAuthenticated" := JBool(true)]);
      && codec.stringify(written) != ""
      && codec.parse(codec.stringify(written)) == Some(written)
      && (forall k :: k in fields && k != "isAuthenticated" ==> written.fields[k] == fields[k])
      && LoadUser(Some(codec.stringify(written)), codec).Some?
  {
    var written := JObject(fields["isAuthenticated" := JBool(true)]);
    StringifyNonEmpty(codec, written);
    assert Member(written, "isAuthenticated") == Some(JBool(true));
  }

  /** The page opens on the sign-up form, so a submission made before
      either mode button is pressed is a sign-up, and it leaves the page on
      that form with the submitting flag off. */
  lemma FirstSubmitSignsUp(form: FormData, st: Storage, env: Env, codec: Codec)
    ensures var r := HandleSubmit(InitialAuth, form, st, env, codec);
      && r.outcome == SignUpOutcome(form, st, env, codec)
      && r.state.mode == SignUp && !r.state.isSubmitting
  {
  }

  /** Stashing the current page before going to the form and then
      submitting successfully returns to exactly that page. */
  lemma StashThenSubmit(mode: Mode, form: FormData, st: Storage, env: Env, codec: Codec,
                        pathname: string, search: string, hash: string)
    requires pathname != ""
    requires Submit(mode, form, StashRedirect(st, pathname, search, hash), env, codec).error.None?
    ensures var o := Submit(mode, form, StashRedirect(st, pathname, search, hash), env, codec);
      o.navigateTo == Some(pathname + search + hash) && o.storage.redirect.None?
  {
  }
}
