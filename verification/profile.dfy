/** The profile page (`Profile.jsx`): the edited copy of the session user,
    the phone and e-mail validators, the save gate, cancel, image changes
    and the merge of the store's answer into the session user. The store's
    answer to the update request is an input. */
module Profile {
  import opened Wrappers
  import opened Text
  import opened Records
  import opened Patterns

  datatype Field = Name | Email | PhoneNumber | Bio | Location | Role | CoverImage | ProfileImage

  /** The property name a field is stored under. */
  function Key(f: Field): string {
    match f
    case Name => "name"
    case Email => "email"
    case PhoneNumber => "phone_number"
    case Bio => "bio"
    case Location => "location"
    case Role => "role"
    case CoverImage => "cover_image"
    case ProfileImage => "profile_image"
  }

  /** The value a field takes when the user has none: "USER" for the role,
      "" for everything else. */
  function Fallback(f: Field): string {
    if f == Role then "USER" else ""
  }

  /** The `editedUser` form. */
  datatype Edited = Edited(
    name: string, email: string, phoneNumber: string, bio: string,
    location: string, role: string, coverImage: string, profileImage: string)
  {
    function Get(f: Field): string {
      match f
      case Name => name
      case Email => email
      case PhoneNumber => phoneNumber
      case Bio => bio
      case Location => location
      case Role => role
      case CoverImage => coverImage
      case ProfileImage => profileImage
    }

    /** `{ ...edited, [f]: v }`. */
    function Set(f: Field, v: string): (r: Edited)
      ensures r.Get(f) == v
      ensures forall g :: g != f ==> r.Get(g) == Get(g)
    {
      match f
      case Name => this.(name := v)
      case Email => this.(email := v)
      case PhoneNumber => this.(phoneNumber := v)
      case Bio => this.(bio := v)
      case Location => this.(location := v)
      case Role => this.(role := v)
      case CoverImage => this.(coverImage := v)
      case ProfileImage => this.(profileImage := v)
    }

    /** The request body sent to the store: every field under its key. */
    function ToRecord(): (r: Record)
      ensures forall f :: Key(f) in r && r[Key(f)] == Str(Get(f))
    {
      map[
        "name" := Str(name), "email" := Str(email), "phone_number" := Str(phoneNumber),
        "bio" := Str(bio), "location" := Str(location), "role" := Str(role),
        "cover_image" := Str(coverImage), "profile_image" := Str(profileImage)]
    }
  }

  /** The form filled from the session user (absent when logged out): each
      field takes the user's value when it is a non-empty string and its
      fallback otherwise. */
  function FromUser(user: Option<Record>): (e: Edited)
    ensures forall f :: e.Get(f) == TextOr(GetOpt(user, Key(f)), Fallback(f))
  {
    Edited(
      TextOr(GetOpt(user, "name"), ""), TextOr(GetOpt(user, "email"), ""),
      TextOr(GetOpt(user, "phone_number"), ""), TextOr(GetOpt(user, "bio"), ""),
      TextOr(GetOpt(user, "location"), ""), TextOr(GetOpt(user, "role"), "USER"),
      TextOr(GetOpt(user, "cover_image"), ""), TextOr(GetOpt(user, "profile_image"), ""))
  }

  /** `canSave`: a name that is not all whitespace, an e-mail of the
      accepted shape, and a phone number that is either empty or of the
      accepted shape. */
  function CanSave(e: Edited): (ok: bool)
    ensures ok <==>
      && !AllWhitespace(e.name)
      && EmailShape(e.email)
      && (e.phoneNumber == "" || PhoneShape(e.phoneNumber))
  {
    BlankIffAllWhitespace(e.name);
    !Blank(e.name) && ValidEmail(e.email) && (e.phoneNumber == "" || ValidPhone(e.phoneNumber))
  }

  /** A user without a name or e-mail can never save the form that was
      filled from it. */
  lemma FreshFormNeedsNameAndEmail(user: Option<Record>)
    requires !Truthy(GetOpt(user, "name")) || !Truthy(GetOpt(user, "email"))
    ensures !CanSave(FromUser(user))
  {
  }

  datatype Page = Page(user: Option<Record>, edited: Edited, isEditing: bool)

  /** `handleCancel`: discard the edits and leave editing mode. */
  function Cancel(p: Page): (r: Page)
    ensures r.user == p.user && !r.isEditing
    ensures forall f :: r.edited.Get(f) == TextOr(GetOpt(p.user, Key(f)), Fallback(f))
  {
    Page(p.user, FromUser(p.user), false)
  }

  /** `handleImageChange` (and the inline `onChange` handlers): set one
      field of the edited copy. */
  function ChangeField(p: Page, f: Field, v: string): (r: Page)
    ensures r.edited.Get(f) == v
    ensures forall g :: g != f ==> r.edited.Get(g) == p.edited.Get(g)
    ensures r.user == p.user && r.isEditing == p.isEditing
  {
    p.(edited := p.edited.Set(f, v))
  }

  /** The `updateUser(user.id, editedUser)` request. */
  datatype SaveCall = SaveCall(userId: Value, body: Record)

  datatype SaveStep = SaveStep(page: Page, call: Option<SaveCall>)

  /** `handleSave`. `response` is the store's answer, `None` when the awaited
      request fails. With no session user, reading `user.id` throws before
      any request is made. On success the session user becomes the old user
      overridden by the answer, and the edited copy is refilled from it. */
  function Save(p: Page, response: Option<Record>): (s: SaveStep)
    ensures p.user.None? ==> s == SaveStep(p, None)
    ensures p.user.Some? ==> s.call == Some(SaveCall(Get(p.user.value, "id"), p.edited.ToRecord()))
    ensures response.None? ==> s.page == p
    ensures p.user.Some? && response.Some? ==>
      && s.page.user.Some?
      && s.page.user.value.Keys == p.user.value.Keys + response.value.Keys
      && (forall k :: k in response.value ==> s.page.user.value[k] == response.value[k])
      && (forall k :: k in p.user.value && k !in response.value ==> s.page.user.value[k] == p.user.value[k])
      && !s.page.isEditing
  {
    match p.user
    case None => SaveStep(p, None)
    case Some(u) =>
      var call := Some(SaveCall(Get(u, "id"), p.edited.ToRecord()));
      match response
      case None => SaveStep(p, call)
      case Some(resp) =>
        var merged := Merge(u, resp);
        SaveStep(Page(Some(merged), FromUser(Some(merged)), false), call)
  }

  /** After a successful save, the refilled form shows what the store
      returned for a field when that is a non-empty string, and otherwise
      what the user had before, unless the store returned it emptied. */
  lemma SavedFormPrefersResponse(p: Page, resp: Record, f: Field)
    requires p.user.Some?
    ensures var e := Save(p, Some(resp)).page.edited;
      && (Truthy(Get(resp, Key(f))) ==> e.Get(f) == Get(resp, Key(f)).s)
      && (Key(f) !in resp ==> e.Get(f) == TextOr(Get(p.user.value, Key(f)), Fallback(f)))
  {
  }

  /** A successful save whose answer echoes the request body leaves the
      edited fields as the user typed them, except that an empty field falls
      back to its default. */
  lemma EchoedSaveKeepsEdits(p: Page, f: Field)
    requires p.user.Some?
    ensures var e := Save(p, Some(p.edited.ToRecord())).page.edited;
      e.Get(f) == if p.edited.Get(f) != "" then p.edited.Get(f) else Fallback(f)
  {
  }
}
