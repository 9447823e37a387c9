/** The session record behind the header (src/app/Navbar.tsx): the
    persisted profile under the local-storage key `vivanaUser`, the one-shot
    redirect under the session-storage key `vivana:redirect`, reading the
    signed-in user, signing out, stashing the page before going to the
    sign-in form, and the name and initials the profile menu shows. */
module Session {
  import opened Optional
  import opened Text
  import opened Json

  /** The two storage slots the site uses, each holding text or nothing. */
  datatype Storage = Storage(profile: Option<string>, redirect: Option<string>)

  /** The signed-in user as the header keeps it: the stored record without
      its password. */
  type Profile = map<string, JsonValue>

  /** `loadUser`: no user when the slot is empty or unset, when its text is
      not JSON, or when the record's `isAuthenticated` is not truthy;
      otherwise the record's fields minus `password`. */
  function LoadUser(raw: Option<string>, codec: Codec): (u: Option<Profile>)
    ensures u.Some? <==>
      && Present(raw) && codec.parse(raw.value).Some?
      && Truthy(Member(codec.parse(raw.value).value, "isAuthenticated"))
    ensures u.Some? ==>
      && codec.parse(raw.value).value.JObject?
      && "password" !in u.value
      && forall k :: k in u.value <==> k in codec.parse(raw.value).value.fields && k != "password"
  {
    if !Present(raw) then None
    else match codec.parse(raw.value)
      case None => None
      case Some(parsed) =>
        if Truthy(Member(parsed, "isAuthenticated")) then Some(parsed.fields - {"password"})
        else None
  }

  datatype LogoutResult = LogoutResult(storage: Storage, user: Option<Profile>)

  /** `handleLogout`: with a stored record, rewrite it with
      `isAuthenticated: false` (or remove it when it is not JSON); with
      none, leave storage alone. The header's user is cleared either way,
      and the redirect slot is never touched. */
  function Logout(st: Storage, codec: Codec): (r: LogoutResult)
    ensures r.user.None?
    ensures r.storage.redirect == st.redirect
    ensures !Present(st.profile) ==> r.storage == st
    ensures Present(st.profile) && codec.parse(st.profile.value).None? ==> r.storage.profile.None?
  {
    var profile :=
      if !Present(st.profile) then st.profile
      else match codec.parse(st.profile.value)
        case None => None
        case Some(stored) =>
          Some(codec.stringify(JObject(Spread(stored)["isAuthenticated" := JBool(false)])));
    LogoutResult(st.(profile := profile), None)
  }

  /** After signing out nobody is signed in, whatever the record held; when
      it was a JSON object, every field but `isAuthenticated` is kept. */
  lemma LogoutSignsOut(st: Storage, codec: Codec)
    requires Lawful(codec)
    ensures var r := Logout(st, codec);
      && LoadUser(r.storage.profile, codec).None?
      && (Present(st.profile) && codec.parse(st.profile.value).Some?
          && codec.parse(st.profile.value).value.JObject? ==>
            codec.parse(r.storage.profile.value)
              == Some(JObject(codec.parse(st.profile.value).value.fields["isAuthenticated" := JBool(false)])))
  {
    if Present(st.profile) && codec.parse(st.profile.value).Some? {
      var stored := codec.parse(st.profile.value).value;
      StringifyNonEmpty(codec, JObject(Spread(stored)["isAuthenticated" := JBool(false)]));
    }
  }

  /** `handleAuthLink`: remember path, query and fragment of the current page
      before going to the sign-in form. */
  function StashRedirect(st: Storage, pathname: string, search: string, hash: string): (r: Storage)
    ensures r.profile == st.profile
    ensures Present(r.redirect) <==> pathname + search + hash != ""
  {
    st.(redirect := Some(pathname + search + hash))
  }

  /** Where a completed sign-in or sign-up goes: the stashed page, or the
      home page when none (or an empty one) is stashed. */
  function RedirectTarget(redirect: Option<string>): (t: string)
    ensures t != ""
    ensures Present(redirect) ==> t == redirect.value
    ensures !Present(redirect) ==> t == "/"
  {
    if Present(redirect) then redirect.value else "/"
  }

  // ------------------------------------------------------- profile menu

  /** A name or address field, when it holds a string. */
  function TextField(u: Profile, key: string): Option<string> {
    if key in u && u[key].JString? then Some(u[key].s) else None
  }

  /** `[firstName, lastName].filter(Boolean)`. */
  function NameParts(u: Profile): (parts: seq<string>)
    ensures var first, last := TextField(u, "firstName").GetOr(""), TextField(u, "lastName").GetOr("");
      parts == (if first != "" then [first] else []) + (if last != "" then [last] else [])
  {
    var first, last := TextField(u, "firstName").GetOr(""), TextField(u, "lastName").GetOr("");
    KeepTwo(first, last);
    KeepNonEmpty([first, last])
  }

  /** The profile menu's `displayName`: the names joined by a space and
      trimmed, else the email address, else "Traveler"; never empty. */
  function DisplayName(u: Profile): (name: string)
    ensures name != ""
    ensures Trim(Join(NameParts(u), " ")) != "" ==> name == Trim(Join(NameParts(u), " "))
    ensures Trim(Join(NameParts(u), " ")) == "" && Present(TextField(u, "email")) ==>
              name == TextField(u, "email").value
    ensures Trim(Join(NameParts(u), " ")) == "" && !Present(TextField(u, "email")) ==>
              name == "Traveler"
  {
    var joined := Trim(Join(NameParts(u), " "));
    if joined != "" then joined
    else if Present(TextField(u, "email")) then TextField(u, "email").value
    else "Traveler"
  }

  /** With both names set (and no surrounding spaces), the menu shows them
      with a space between. */
  lemma DisplayFullName(first: string, last: string)
    requires IsTrimmed(first) && IsTrimmed(last) && first != "" && last != ""
    ensures DisplayName(map["firstName" := JString(first), "lastName" := JString(last)])
         == first + " " + last
  {
    var both: Profile := map["firstName" := JString(first), "lastName" := JString(last)];
    assert NameParts(both) == [first, last];
    JoinSmall(first, last, "", "", " ");
    var full := first + " " + last;
    assert full[0] == first[0] && full[|full| - 1] == last[|last| - 1];
    TrimOfTrimmed(full);
  }

  /** A first name alone is shown alone. */
  lemma DisplayFirstNameOnly(first: string)
    requires IsTrimmed(first) && first != ""
    ensures DisplayName(map["firstName" := JString(first)]) == first
  {
    var one: Profile := map["firstName" := JString(first)];
    assert TextField(one, "lastName").GetOr("") == "";
    assert [first, ""][1..] == [""] && [""][1..] == [];
    assert KeepNonEmpty([""]) == [];
    assert NameParts(one) == [first];
    JoinSmall(first, "", "", "", " ");
    TrimOfTrimmed(first);
  }

  /** A first name made only of whitespace counts as no name: the address
      is shown. */
  lemma DisplayBlankNameFallsBack(blank: string, email: string)
    requires AllSpace(blank) && email != ""
    ensures DisplayName(map["firstName" := JString(blank), "email" := JString(email)]) == email
  {
    var u: Profile := map["firstName" := JString(blank), "email" := JString(email)];
    assert TextField(u, "lastName").GetOr("") == "";
    var joined := Join(NameParts(u), " ");
    if blank == "" {
      assert NameParts(u) == [];
    } else {
      assert NameParts(u) == [blank];
      JoinSmall(blank, "", "", "", " ");
    }
    assert AllSpace(joined);
  }

  /** The profile menu's `initials`: the first character of each name,
      upper-cased, or "V" when there is no name; one or two characters. */
  function Initials(u: Profile): (r: string)
    ensures 1 <= |r| <= 2
    ensures NameParts(u) == [] ==> r == "V"
    ensures NameParts(u) != [] ==>
      |r| == |NameParts(u)| && forall i :: 0 <= i < |r| ==> r[i] == UpperChar(NameParts(u)[i][0])
  {
    var parts := NameParts(u);
    var firsts := seq(|parts|, i requires 0 <= i < |parts| => parts[i][0]);
    var s := Upper(firsts);
    if s != "" then s else "V"
  }
}
