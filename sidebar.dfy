/**
 * The side drawer's profile header: the signed-in user looked up in the
 * user list by id, and the fallback chains for the name, e-mail, initial and
 * avatar it shows. The stored record (`cached`) and the user list are
 * inputs.
 */
module Sidebar {
  import opened Optional
  import opened JsText
  import opened Json

  /** `users.find(u => String(u?._id) === id)`. */
  function FindUser(users: seq<Record>, id: string): (found: Option<Record>)
    ensures found.Some? ==> found.value in users && ToText(Get(found.value, "_id")) == id
    ensures found.None? <==> forall u :: u in users ==> ToText(Get(u, "_id")) != id
  {
    if users == [] then None
    else if ToText(Get(users[0], "_id")) == id then Some(users[0])
    else
      assert forall u :: u in users ==> u == users[0] || u in users[1..];
      FindUser(users[1..], id)
  }

  /** The user found is the first match: every user before it has another id. */
  lemma {:induction false} FindUserIsFirst(users: seq<Record>, id: string)
    requires FindUser(users, id).Some?
    ensures exists i :: 0 <= i < |users| && users[i] == FindUser(users, id).value &&
                         forall j :: 0 <= j < i ==> ToText(Get(users[j], "_id")) != id
  {
    if ToText(Get(users[0], "_id")) != id {
      FindUserIsFirst(users[1..], id);
      var i :| 0 <= i < |users[1..]| && users[1..][i] == FindUser(users, id).value
        && forall j :: 0 <= j < i ==> ToText(Get(users[1..][j], "_id")) != id;
      assert users[i + 1] == FindUser(users, id).value;
      forall j | 0 <= j < i + 1
        ensures ToText(Get(users[j], "_id")) != id
      {
        if j > 0 { assert users[j] == users[1..][j - 1]; }
      }
    } else {
      assert users[0] == FindUser(users, id).value;
    }
  }

  /** `me`: null unless the stored record has a truthy `userID` and the user
      list is an array; then the first user whose `_id` reads the same as
      that id. */
  function Me(cached: Option<Record>, users: Option<seq<Record>>): (me: Option<Record>)
    ensures !Truthy(Field(cached, "userID")) || users.None? ==> me.None?
    ensures Truthy(Field(cached, "userID")) && users.Some? ==>
      me == FindUser(users.value, ToText(Field(cached, "userID")))
  {
    if !Truthy(Field(cached, "userID")) || users.None? then None
    else FindUser(users.value, ToText(Field(cached, "userID")))
  }

  /** `displayName`: the trimmed `me.name`, else the stored name, else the
      stored e-mail, the first that is not blank; otherwise "User". */
  function DisplayName(me: Option<Record>, cached: Option<Record>): (name: string)
    ensures name != "" && IsTrimmed(name)
    ensures TrimmedIfTruthy(Field(me, "name")).Some? ==> name == TrimmedIfTruthy(Field(me, "name")).value
    ensures TrimmedIfTruthy(Field(me, "name")).None? && TrimmedIfTruthy(Field(cached, "name")).Some? ==>
      name == TrimmedIfTruthy(Field(cached, "name")).value
    ensures TrimmedIfTruthy(Field(me, "name")).None? && TrimmedIfTruthy(Field(cached, "name")).None? ==>
      name == TrimmedIfTruthy(Field(cached, "email")).GetOr("User")
  {
    var fromMe, fromName, fromEmail :=
      TrimmedIfTruthy(Field(me, "name")), TrimmedIfTruthy(Field(cached, "name")), TrimmedIfTruthy(Field(cached, "email"));
    if fromMe.Some? then fromMe.value
    else if fromName.Some? then fromName.value
    else if fromEmail.Some? then fromEmail.value
    else assert IsTrimmed("User"); "User"
  }

  /** `displayEmail`: the trimmed `me.email`, else the stored e-mail, else "". */
  function DisplayEmail(me: Option<Record>, cached: Option<Record>): (email: string)
    ensures IsTrimmed(email)
    ensures TrimmedIfTruthy(Field(me, "email")).Some? ==> email == TrimmedIfTruthy(Field(me, "email")).value
    ensures TrimmedIfTruthy(Field(me, "email")).None? ==> email == TrimmedIfTruthy(Field(cached, "email")).GetOr("")
  {
    var fromMe, fromCached := TrimmedIfTruthy(Field(me, "email")), TrimmedIfTruthy(Field(cached, "email"));
    if fromMe.Some? then fromMe.value
    else if fromCached.Some? then fromCached.value
    else ""
  }

  /** `(displayName || 'U').trim().charAt(0).toUpperCase()`: the name is never
      empty and already trimmed, so this is its first character, upper-cased. */
  function Initial(me: Option<Record>, cached: Option<Record>): (initial: string)
    ensures var name := DisplayName(me, cached);
      |initial| == 1 && initial[0] == UpperChar(name[0]) && !IsWhitespace(initial[0])
    ensures !('a' <= initial[0] <= 'z')
  {
    var name := DisplayName(me, cached);
    var shown := if name != "" then name else "U";
    var t := Trim(shown);
    var first := if t == "" then "" else t[..1];
    FirstUpper(name);
    ToUpper(first)
  }

  /** The upper-cased first character of a trimmed, non-empty name. */
  lemma FirstUpper(name: string)
    requires name != "" && IsTrimmed(name)
    ensures var t := Trim(name); var up := ToUpper(if t == "" then "" else t[..1]);
      |up| == 1 && up[0] == UpperChar(name[0]) && !IsWhitespace(up[0]) && !('a' <= up[0] <= 'z')
  {
    assert Trim(name) == name by { TrimOfTrimmed(name); }
    var first := name[..1];
    assert first == [name[0]];
    assert !IsWhitespace(UpperChar(name[0])) by {
      assert !IsWhitespace(name[0]);
    }
  }

  /** `attachmentUrl`: the trimmed `me.attachment_url` when it is not blank,
      else the stored value as it is when truthy, else undefined. */
  function AttachmentUrl(me: Option<Record>, cached: Option<Record>): (url: Option<Json>)
    ensures TrimmedIfTruthy(Field(me, "attachment_url")).Some? ==>
      url == Some(JStr(TrimmedIfTruthy(Field(me, "attachment_url")).value))
    ensures TrimmedIfTruthy(Field(me, "attachment_url")).None? && Truthy(Field(cached, "attachment_url")) ==>
      url == Field(cached, "attachment_url")
    ensures TrimmedIfTruthy(Field(me, "attachment_url")).None? && !Truthy(Field(cached, "attachment_url")) ==>
      url.None?
    ensures url.None? || Truthy(url)
  {
    var fromMe := TrimmedIfTruthy(Field(me, "attachment_url"));
    if fromMe.Some? then Some(JStr(fromMe.value))
    else if Truthy(Field(cached, "attachment_url")) then Field(cached, "attachment_url")
    else None
  }

  /** Without a stored id nobody is looked up, so the stored record alone
      decides the name shown. */
  lemma SignedOutUsesStoredRecord(cached: Option<Record>, users: Option<seq<Record>>)
    requires !Truthy(Field(cached, "userID"))
    ensures DisplayName(Me(cached, users), cached) == DisplayName(None, cached)
  {
  }
}
