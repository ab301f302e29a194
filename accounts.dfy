/**
 * The account records of UserManager (`self.users` in db/manager.py) and the
 * pure parts of `add_user` and `update_profile`.
 */
module Accounts {
  import opened Wrappers

  /**
   * An account. `very` is the optional key that `getUsernameByID` reads and
   * `add_user` never writes.
   */
  datatype User = User(
    phone: string, fullname: string, status: string, bio: string,
    profile: string, token: string, very: Option<string>)

  /** The picture `add_user` stores when none is given. */
  const DEFAULT_PROFILE: string := "https://encrypted-tbn0.gstatic.com/images?q=tbn:ANd9GcRFEZSqk8dJbB0Xc-fr6AWv2aocxDdFpN6maQ&"

  /**
   * The characters Python 3's `str.strip()` removes (those `str.isspace` accepts):
   * tab to carriage return, the four information separators U+001C-U+001F, space,
   * next line, no-break space, and the Unicode spaces and separators.
   */
  predicate IsSpace(c: char) {
    || '\t' <= c <= '\r'
    || '\U{1C}' <= c <= '\U{1F}'
    || c == ' ' || c == '\U{85}' || c == '\U{A0}' || c == '\U{1680}'
    || '\U{2000}' <= c <= '\U{200A}'
    || c == '\U{2028}' || c == '\U{2029}' || c == '\U{202F}' || c == '\U{205F}' || c == '\U{3000}'
  }

  /**
   * The separators U+001C-U+001F count as blank, so `add_user` stores the
   * default picture for any non-empty picture made of them alone.
   */
  lemma SeparatorsGetDefault(s: string)
    requires |s| > 0 && forall k :: 0 <= k < |s| ==> '\U{1C}' <= s[k] <= '\U{1F}'
    ensures ChosenProfile(Some(s)) == DEFAULT_PROFILE
  {
    assert IsBlank(s);
  }

  /** `s.strip() == ''`. */
  predicate IsBlank(s: string) {
    forall k :: 0 <= k < |s| ==> IsSpace(s[k])
  }

  /** A Python string is truthy when it is present and not empty. */
  predicate Truthy(o: Option<string>) {
    o.Some? && o.value != ""
  }

  /** The profile `add_user` stores: the given one, or the default when it is missing or blank. */
  function ChosenProfile(profile: Option<string>): (p: string)
    ensures p == DEFAULT_PROFILE || (profile == Some(p) && !IsBlank(p))
    ensures profile.Some? && !IsBlank(profile.value) ==> p == profile.value
  {
    if profile.None? || IsBlank(profile.value) then DEFAULT_PROFILE else profile.value
  }

  /** The record `add_user` creates: online, with a fresh token and no `very` key. */
  function NewUser(phone: string, fullname: string, bio: string, profile: Option<string>, token: string): User {
    User(phone, fullname, "online", bio, ChosenProfile(profile), token, None)
  }

  /** The field updates of `update_profile`: each field changes only when its argument is truthy. */
  function ApplyProfile(u: User, fullname: Option<string>, bio: Option<string>, profile: Option<string>): User {
    var u1 := if Truthy(fullname) then u.(fullname := fullname.value) else u;
    var u2 := if Truthy(bio) then u1.(bio := bio.value) else u1;
    if Truthy(profile) then u2.(profile := profile.value) else u2
  }

  /**
   * A truthy argument replaces its field, any other argument leaves it, and
   * phone, status, token and `very` never change.
   */
  lemma ApplyProfileSpec(u: User, fullname: Option<string>, bio: Option<string>, profile: Option<string>)
    ensures var r := ApplyProfile(u, fullname, bio, profile);
      && r.(fullname := u.fullname, bio := u.bio, profile := u.profile) == u
      && r.fullname == (if Truthy(fullname) then fullname.value else u.fullname)
      && r.bio == (if Truthy(bio) then bio.value else u.bio)
      && r.profile == (if Truthy(profile) then profile.value else u.profile)
  {
  }

  /** Repeating a profile update changes nothing more. */
  lemma ApplyProfileIdempotent(u: User, fullname: Option<string>, bio: Option<string>, profile: Option<string>)
    ensures ApplyProfile(ApplyProfile(u, fullname, bio, profile), fullname, bio, profile)
         == ApplyProfile(u, fullname, bio, profile)
  {
  }

  /** The three answers of `authenticate_user`. */
  datatype AuthResult = AuthOk(user: User) | TokenInvalid | NotFound
}
