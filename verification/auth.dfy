/** The credential lookup of `JobAPI.login`: the user collection fetched
    from the store (`None` when the request or reading its body fails) is
    searched for the first record whose `user_name` and `password` equal the
    submitted ones. */
module Auth {
  import opened Wrappers
  import opened Records

  datatype Credentials = Credentials(username: string, password: string)

  const FixedToken: string := "fake-jwt-token"

  /** The profile properties copied from the matched record. */
  datatype ProfileCopy = ProfileCopy(
    userId: Value, name: Value, email: Value, phoneNumber: Value,
    bio: Value, location: Value, coverImage: Value, profileImage: Value)

  /** `{ success: true, role, token, ...profile }` or
      `{ success: false, role: null, token: null }`. */
  datatype LoginResult =
    | Granted(role: string, token: string, profile: ProfileCopy)
    | Refused

  /** `u.user_name === username && u.password === password`: both
      properties are present and hold exactly the submitted strings. */
  function Matches(u: Record, cred: Credentials): (b: bool)
    ensures b <==>
      && "user_name" in u && u["user_name"] == Str(cred.username)
      && "password" in u && u["password"] == Str(cred.password)
  {
    Get(u, "user_name") == Str(cred.username) && Get(u, "password") == Str(cred.password)
  }

  /** `users.find(...)` from index `from` on: the first matching index. */
  function FindFrom(users: seq<Record>, cred: Credentials, from: nat): (r: Option<nat>)
    decreases |users| - from
    ensures r.Some? ==> from <= r.value < |users| && Matches(users[r.value], cred)
    ensures r.Some? ==> forall k :: from <= k < r.value ==> !Matches(users[k], cred)
    ensures r.None? ==> forall k :: from <= k < |users| ==> !Matches(users[k], cred)
  {
    if from >= |users| then None
    else if Matches(users[from], cred) then Some(from)
    else FindFrom(users, cred, from + 1)
  }

  /** `user.role == "ADMIN" ? "ADMIN" : "USER"`. */
  function NormalRole(v: Value): (role: string)
    ensures role == "ADMIN" || role == "USER"
    ensures role == "ADMIN" <==> v == Str("ADMIN")
  {
    if v == Str("ADMIN") then "ADMIN" else "USER"
  }

  /** Index `k` holds the first record with the given credentials. */
  predicate FirstMatch(users: seq<Record>, cred: Credentials, k: int) {
    0 <= k < |users| && Matches(users[k], cred) && forall i :: 0 <= i < k ==> !Matches(users[i], cred)
  }

  /** A successful result built from record `u`: the fixed token, the role
      normalised to ADMIN or USER, and the profile properties copied. */
  predicate Describes(r: LoginResult, u: Record) {
    && r.Granted?
    && r.token == FixedToken
    && (r.role == "ADMIN" || r.role == "USER")
    && (r.role == "ADMIN" <==> Get(u, "role") == Str("ADMIN"))
    && r.profile.userId == Get(u, "id")
    && r.profile.name == Get(u, "name")
    && r.profile.email == Get(u, "email")
    && r.profile.phoneNumber == Get(u, "phone_number")
    && r.profile.bio == Get(u, "bio")
    && r.profile.location == Get(u, "location")
    && r.profile.coverImage == Get(u, "cover_image")
    && r.profile.profileImage == Get(u, "profile_image")
  }

  /** `login(credentials)`. */
  function Login(users: Option<seq<Record>>, cred: Credentials): (r: LoginResult)
    ensures r.Granted? <==> users.Some? && exists k :: 0 <= k < |users.value| && Matches(users.value[k], cred)
    ensures r.Granted? ==> exists k :: FirstMatch(users.value, cred, k) && Describes(r, users.value[k])
  {
    match users
    case None => Refused
    case Some(us) =>
      match FindFrom(us, cred, 0)
      case None => Refused
      case Some(k) =>
        var u := us[k];
        var profile := ProfileCopy(
          Get(u, "id"), Get(u, "name"), Get(u, "email"), Get(u, "phone_number"),
          Get(u, "bio"), Get(u, "location"), Get(u, "cover_image"), Get(u, "profile_image"));
        Granted(NormalRole(Get(u, "role")), FixedToken, profile)
  }

  /** Of two records with the same credentials, the earlier one decides
      the role and the profile. */
  lemma FirstMatchWins(users: seq<Record>, cred: Credentials, i: nat)
    requires FirstMatch(users, cred, i)
    ensures Describes(Login(Some(users), cred), users[i])
  {
  }

  /** Appending records never changes a login that already succeeds. */
  lemma {:induction false} MatchUnaffectedByLaterRecords(users: seq<Record>, more: seq<Record>, cred: Credentials)
    requires Login(Some(users), cred).Granted?
    ensures Login(Some(users + more), cred) == Login(Some(users), cred)
  {
    var k := FindFrom(users, cred, 0).value;
    assert forall i :: 0 <= i < |users| ==> (users + more)[i] == users[i];
    FirstMatchWins(users + more, cred, k);
  }
}
