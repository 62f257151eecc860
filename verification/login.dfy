/** The login form (`Login.jsx`): field editing, required-field validation
    and how the lookup result becomes either a session identity or the
    generic error messages. The fetched user collection is an input. */
module LoginPage {
  import opened Wrappers
  import opened Text
  import opened Records
  import opened Auth

  datatype Field = Username | Password

  datatype Form = Form(username: string, password: string) {
    function Get(f: Field): string {
      match f
      case Username => username
      case Password => password
    }
  }

  type Errors = map<Field, string>

  const UsernameRequired: string := "Username is required"
  const PasswordRequired: string := "Password is required"
  const InvalidCredentials: string := "Invalid username or password."

  /** The messages shown after a refused login: a blank-looking marker on
      the username and the shared message on the password. */
  const RefusedErrors: Errors := map[Username := " ", Password := InvalidCredentials]

  /** The session identity handed to the auth context. */
  datatype Identity = Identity(username: string, role: string, token: string)

  datatype Page = Page(form: Form, errors: Errors)

  /** The outcome of `handleSubmit`: the next page, the identity logged in,
      whether the user collection was looked up, and whether the page
      navigated away. */
  datatype Submitted = Submitted(page: Page, session: Option<Identity>, lookedUp: bool, leaves: bool)

  /** `handleChange`: store the value and clear that field's message if it
      had a non-empty one. */
  function HandleChange(p: Page, f: Field, v: string): (r: Page)
    ensures r.form.Get(f) == v
    ensures forall g :: g != f ==> r.form.Get(g) == p.form.Get(g)
    ensures r.errors.Keys == p.errors.Keys
    ensures f in p.errors ==> r.errors[f] == ""
    ensures forall g :: g in p.errors && g != f ==> r.errors[g] == p.errors[g]
  {
    var form := match f
      case Username => p.form.(username := v)
      case Password => p.form.(password := v);
    var errors := if f in p.errors && p.errors[f] != "" then p.errors[f := ""] else p.errors;
    Page(form, errors)
  }

  /** `validateForm`: a message for each field that trims to "". */
  function Validate(f: Form): (e: Errors)
    ensures Username in e <==> Blank(f.username)
    ensures Password in e <==> Blank(f.password)
    ensures Username in e ==> e[Username] == UsernameRequired
    ensures Password in e ==> e[Password] == PasswordRequired
  {
    var e := if Blank(f.username) then map[Username := UsernameRequired] else map[];
    if Blank(f.password) then e[Password := PasswordRequired] else e
  }

  /** The form is valid exactly when both fields contain a character other
      than whitespace. */
  lemma ValidIffFilledIn(f: Form)
    ensures Validate(f) == map[] <==> !AllWhitespace(f.username) && !AllWhitespace(f.password)
  {
  }

  /** `handleSubmit`. The untrimmed form values are what is looked up. */
  function Submit(p: Page, users: Option<seq<Record>>): (s: Submitted)
    // an invalid form stops before any lookup
    ensures Validate(p.form) != map[] ==>
      s == Submitted(Page(p.form, Validate(p.form)), None, false, false)
    ensures Validate(p.form) == map[] ==> s.lookedUp && s.page.form == p.form
    // a valid form logs in exactly when the lookup grants access
    ensures Validate(p.form) == map[] ==>
      (s.session.Some? <==> Login(users, Credentials(p.form.username, p.form.password)).Granted?)
    // the page navigates away exactly when a session was established
    ensures s.leaves <==> s.session.Some?
    // a granted login logs in the typed username with the looked-up role and token
    ensures s.session.Some? ==>
      var r := Login(users, Credentials(p.form.username, p.form.password));
      && Validate(p.form) == map[] && r.Granted?
      && s.session.value == Identity(p.form.username, r.role, r.token)
      && s.page.errors == map[]
    // a refused login names both fields without saying which was wrong
    ensures s.lookedUp && s.session.None? ==> s.page.errors == RefusedErrors
  {
    var errors := Validate(p.form);
    if errors != map[] then
      Submitted(Page(p.form, errors), None, false, false)
    else
      match Login(users, Credentials(p.form.username, p.form.password))
      case Granted(role, token, _) =>
        Submitted(Page(p.form, errors), Some(Identity(p.form.username, role, token)), true, true)
      case Refused =>
        Submitted(Page(p.form, RefusedErrors), None, true, false)
  }

  /** A valid form logs in exactly when the fetched collection holds a
      record with the typed username and password. */
  lemma SessionIffRecord(p: Page, users: Option<seq<Record>>)
    requires Validate(p.form) == map[]
    ensures Submit(p, users).session.Some? <==>
      users.Some? &&
      exists k :: 0 <= k < |users.value| && Matches(users.value[k], Credentials(p.form.username, p.form.password))
  {
  }

  /** A session is ADMIN exactly when the first matching record's role is
      the string "ADMIN". */
  lemma SessionRoleFromRecord(p: Page, users: seq<Record>, k: nat)
    requires Validate(p.form) == map[]
    requires FirstMatch(users, Credentials(p.form.username, p.form.password), k)
    ensures Submit(p, Some(users)).session.Some?
    ensures Submit(p, Some(users)).session.value.role == "ADMIN" <==> Get(users[k], "role") == Str("ADMIN")
  {
  }

  /** Two refused attempts show identical pages whatever was wrong: a wrong
      username and a wrong password cannot be told apart. */
  lemma RefusalsLookAlike(p1: Page, p2: Page, users1: Option<seq<Record>>, users2: Option<seq<Record>>)
    requires Submit(p1, users1).lookedUp && Submit(p1, users1).session.None?
    requires Submit(p2, users2).lookedUp && Submit(p2, users2).session.None?
    ensures Submit(p1, users1).page.errors == Submit(p2, users2).page.errors
  {
  }
}
