/**
 * The profile editor: the form is filled from the stored user record, the
 * user may pick a new photo, and "Update" sends the non-blank fields (and a
 * freshly picked photo) as multipart form data, then writes the server's
 * answer merged over the previously stored record.
 *
 * The image picker's answer, the clock, the server's reply and the stored
 * record are parameters; the form's fields are a class whose methods update
 * them as the screen's state setters do.
 */
module EditProfile {
  import opened Optional
  import opened JsText
  import opened Json

  /** The chosen photo: its URI and, when it came from the picker, a file
      name and a MIME type. */
  datatype Image = Image(uri: string, name: Option<string>, mime: Option<string>)

  /** `a || b` on an optional string. */
  function OrDefault(a: Option<string>, b: string): (r: string)
    ensures a.Some? && a.value != "" ==> r == a.value
    ensures a.None? || a.value == "" ==> r == b
  {
    if a.Some? && a.value != "" then a.value else b
  }

  /* ---------------- hydration ---------------- */

  /** `toStr`: null and undefined read as "", anything else as `String(v)`. */
  function ToStr(v: Option<Json>): (s: string)
    ensures Nullish(v) ==> s == ""
    ensures v.Some? && v.value.JStr? ==> s == v.value.s
  {
    if Nullish(v) then "" else ToText(v)
  }

  /** `authUser?.userID || ''`. */
  function UserId(authUser: Option<Record>): (id: Json)
    ensures Truthy(Some(id)) <==> Truthy(Field(authUser, "userID"))
    ensures Truthy(Some(id)) ==> Some(id) == Field(authUser, "userID")
  {
    if Truthy(Field(authUser, "userID")) then Field(authUser, "userID").value else JStr("")
  }

  /* ---------------- picking a photo ---------------- */

  /** The segment of a MIME type between its first and second `/` (or the end),
      and "jpg" when there is no `/` or that segment is empty:
      `type.split('/')[1] || 'jpg'`. */
  function Subtype(mime: string): (ext: string)
    ensures ext != ""
    ensures '/' !in mime ==> ext == "jpg"
    ensures '/' in mime ==>
      var rest := mime[IndexOf(mime, '/') + 1..];
      var seg := rest[..IndexOf(rest, '/')];
      ext == if seg != "" then seg else "jpg"
  {
    var parts := SplitOn(mime, '/');
    if '/' !in mime then
      SplitOnFree(mime, '/');
      "jpg"
    else
      SplitOnSecond(mime, '/');
      if |parts| >= 2 && parts[1] != "" then parts[1]
      else "jpg"
  }

  /** For `type/subtype` with no other slash the subtype is what follows the slash. */
  lemma SubtypeOf(kind: string, sub: string)
    requires '/' !in kind && '/' !in sub && sub != ""
    ensures Subtype(kind + "/" + sub) == sub
  {
    SplitOnJoined(kind, '/', sub);
    SplitOnFree(sub, '/');
    assert kind + "/" + sub == kind + ['/'] + sub;
    assert '/' in kind + "/" + sub by { assert (kind + "/" + sub)[|kind|] == '/'; }
  }

  /** `guessName`: the picker's file name, else `photo_<now>.<subtype>` with
      the type defaulting to "image/jpeg". */
  function GuessName(fileName: Option<string>, mime: Option<string>, now: int): (file: string)
    ensures file != ""
    ensures fileName.Some? && fileName.value != "" ==> file == fileName.value
    ensures fileName.None? || fileName.value == "" ==>
      file == "photo_" + IntToString(now) + "." + Subtype(OrDefault(mime, "image/jpeg"))
  {
    OrDefault(fileName, "photo_" + IntToString(now) + "." + Subtype(OrDefault(mime, "image/jpeg")))
  }

  /** Without a file name the guess is `photo_<now>.<subtype>` for a
      `kind/subtype` type, such as the default `image/jpeg`. */
  lemma GuessNameOfType(kind: string, sub: string, now: int)
    requires '/' !in kind && '/' !in sub && sub != ""
    ensures GuessName(None, Some(kind + "/" + sub), now) == "photo_" + IntToString(now) + "." + sub
  {
    SubtypeOf(kind, sub);
  }

  /** One asset the picker returns. */
  datatype Asset = Asset(uri: Option<string>, fileName: Option<string>, mime: Option<string>)

  /** The picker's answer: cancelled, or the assets picked (possibly none). */
  datatype PickerResult = Cancelled | Picked(assets: seq<Asset>)

  /** The photo the picker's answer selects, or None when the answer leaves
      the current photo in place. */
  function PickedImage(res: PickerResult, now: int): (img: Option<Image>)
    ensures res.Cancelled? || res.assets == [] ==> img.None?
    ensures res.Picked? && res.assets != [] ==>
      (img.Some? <==> res.assets[0].uri.Some? && res.assets[0].uri.value != "")
    ensures img.Some? ==> (
      && res.Picked? && res.assets != []
      && res.assets[0].uri == Some(img.value.uri) && img.value.uri != ""
      && img.value.name == Some(GuessName(res.assets[0].fileName, res.assets[0].mime, now))
      && img.value.mime == Some(OrDefault(res.assets[0].mime, "image/jpeg")))
  {
    if res.Cancelled? || res.assets == [] then None
    else
      var a := res.assets[0];
      if a.uri.None? || a.uri.value == "" then None
      else Some(Image(a.uri.value, Some(GuessName(a.fileName, a.mime, now)), Some(OrDefault(a.mime, "image/jpeg"))))
  }

  /* ---------------- the payload ---------------- */

  /** One entry of the multipart form data. */
  datatype Part = Text(key: string, value: string) | Attachment(uri: string, name: string, mime: string)

  /** `String(v ?? '').trim()`. */
  function SafeTrim(v: Option<Json>): (s: string)
    ensures Nullish(v) ==> s == ""
    ensures v.Some? && v.value.JStr? ==> s == Trim(v.value.s)
  {
    Trim(ToText(Coalesce(v, Some(JStr("")))))
  }

  /** A URI the device owns, which has to be uploaded. */
  predicate IsLocalUri(uri: string) {
    StartsWith(uri, "file:") || StartsWith(uri, "content:")
  }

  /** The text field `key`, sent only when its trimmed value is not empty. */
  function TextPart(key: string, value: string): seq<Part> {
    if value != "" then [Text(key, value)] else []
  }

  /** The attachment, sent only for a local photo, with the default name and type. */
  function AttachmentPart(image: Option<Image>): seq<Part> {
    if image.Some? && image.value.uri != "" && IsLocalUri(image.value.uri) then
      [Attachment(image.value.uri, OrDefault(image.value.name, "avatar.jpg"), OrDefault(image.value.mime, "image/jpeg"))]
    else []
  }

  /** What `handleSubmit` appends, in order, from the already trimmed fields. */
  function Payload(name: string, email: string, phone: string, about: string, image: Option<Image>): seq<Part> {
    TextPart("name", name) + TextPart("email", email) + TextPart("phone", phone) + TextPart("about", about)
      + AttachmentPart(image)
  }

  /** Position of a text field in the payload order. */
  function KeyRank(key: string): nat {
    if key == "name" then 0 else if key == "email" then 1 else if key == "phone" then 2 else 3
  }

  /** The payload holds a text field exactly when its value is not empty, and
      then holds it with that value. */
  lemma PayloadTextFields(name: string, email: string, phone: string, about: string, image: Option<Image>, v: string)
    ensures Text("name", v) in Payload(name, email, phone, about, image) <==> name != "" && v == name
    ensures Text("email", v) in Payload(name, email, phone, about, image) <==> email != "" && v == email
    ensures Text("phone", v) in Payload(name, email, phone, about, image) <==> phone != "" && v == phone
    ensures Text("about", v) in Payload(name, email, phone, about, image) <==> about != "" && v == about
  {
    var p := Payload(name, email, phone, about, image);
    assert Text("name", v) in p <==> name != "" && v == name by {
      TextOfPayload("name", v, name, email, phone, about, image);
    }
    assert Text("email", v) in p <==> email != "" && v == email by {
      TextOfPayload("email", v, name, email, phone, about, image);
    }
    assert Text("phone", v) in p <==> phone != "" && v == phone by {
      TextOfPayload("phone", v, name, email, phone, about, image);
    }
    assert Text("about", v) in p <==> about != "" && v == about by {
      TextOfPayload("about", v, name, email, phone, about, image);
    }
  }

  /** A text entry is in the payload exactly when one of the four text parts
      holds it. */
  lemma TextOfPayload(k: string, v: string, name: string, email: string, phone: string, about: string, image: Option<Image>)
    ensures Text(k, v) in Payload(name, email, phone, about, image) <==>
      || (k == "name" && name != "" && v == name)
      || (k == "email" && email != "" && v == email)
      || (k == "phone" && phone != "" && v == phone)
      || (k == "about" && about != "" && v == about)
  {
    var x := Text(k, v);
    var a := AttachmentPart(image);
    assert x !in a;
    var p1, p2, p3, p4 := TextPart("name", name), TextPart("email", email), TextPart("phone", phone), TextPart("about", about);
    assert x in p1 + p2 + p3 + p4 + a <==> x in p1 || x in p2 || x in p3 || x in p4 || x in a;
  }

  /** The payload ends with an attachment exactly when the photo has a local
      URI, named and typed by the defaults when the picker gave none. */
  lemma PayloadAttachment(name: string, email: string, phone: string, about: string, image: Option<Image>)
    ensures var p := Payload(name, email, phone, about, image);
      (exists i :: 0 <= i < |p| && p[i].Attachment?) <==>
        image.Some? && image.value.uri != "" && IsLocalUri(image.value.uri)
    ensures var p := Payload(name, email, phone, about, image);
      image.Some? && image.value.uri != "" && IsLocalUri(image.value.uri) ==>
        p[|p| - 1] == Attachment(image.value.uri, OrDefault(image.value.name, "avatar.jpg"), OrDefault(image.value.mime, "image/jpeg"))
  {
    var p := Payload(name, email, phone, about, image);
    var texts := TextPart("name", name) + TextPart("email", email) + TextPart("phone", phone) + TextPart("about", about);
    var a := AttachmentPart(image);
    assert p == texts + a;
    assert forall i :: 0 <= i < |texts| ==> texts[i].Text?;
    if a != [] {
      assert p[|p| - 1] == a[0];
    } else {
      assert p == texts;
    }
  }

  /** Text fields come in the order name, email, phone, about, and at most
      one attachment follows them. */
  lemma PayloadOrder(name: string, email: string, phone: string, about: string, image: Option<Image>)
    ensures var p := Payload(name, email, phone, about, image);
      && |p| <= 5
      && (forall i, j :: 0 <= i < j < |p| && p[j].Text? ==> p[i].Text? && KeyRank(p[i].key) < KeyRank(p[j].key))
  {
    var t := TextPart("name", name) + TextPart("email", email) + TextPart("phone", phone) + TextPart("about", about);
    var a := AttachmentPart(image);
    var p := Payload(name, email, phone, about, image);
    assert p == t + a;
    TextsAscending(name, email, phone, about);
    forall i, j | 0 <= i < j < |p| && p[j].Text?
      ensures p[i].Text? && KeyRank(p[i].key) < KeyRank(p[j].key)
    {
      assert j < |t|;
      assert p[i] == t[i] && p[j] == t[j];
    }
  }

  /** The text parts are in strictly ascending key order. */
  lemma TextsAscending(name: string, email: string, phone: string, about: string)
    ensures var t := TextPart("name", name) + TextPart("email", email) + TextPart("phone", phone) + TextPart("about", about);
      && |t| <= 4
      && (forall i :: 0 <= i < |t| ==> t[i].Text? && KeyRank(t[i].key) >= i)
      && (forall i, j :: 0 <= i < j < |t| ==> KeyRank(t[i].key) < KeyRank(t[j].key))
  {
  }

  /** Nothing is sent exactly when every trimmed field is empty and the photo
      is not a local one, as for a stored photo with a remote URL. */
  lemma PayloadEmpty(name: string, email: string, phone: string, about: string, image: Option<Image>)
    ensures Payload(name, email, phone, about, image) == [] <==>
      name == "" && email == "" && phone == "" && about == "" &&
      !(image.Some? && image.value.uri != "" && IsLocalUri(image.value.uri))
  {
  }

  /* ---------------- the stored record ---------------- */

  /** The keys written over the previous record, in the order they appear. */
  const MergeKeys: seq<string> :=
    ["userID", "name", "email", "phone", "emp_id", "department", "about", "location", "attachment_url", "createdAt"]

  /** The ten overrides of the stored record: the server's value, else the
      trimmed local value (name, e-mail, phone, about), the user id, or the
      previously stored value; the photo URL falls back once more to the
      chosen photo's URI. */
  function MergeUpdates(prev: Record, dto: Option<Record>, userId: Json,
                        name: string, email: string, phone: string, about: string,
                        image: Option<Image>): (u: seq<(string, Option<Json>)>)
    ensures |u| == |MergeKeys| && forall i :: 0 <= i < |u| ==> u[i].0 == MergeKeys[i]
  {
    var uri := if image.Some? then Some(JStr(image.value.uri)) else None;
    [ ("userID", Coalesce(Field(dto, "_id"), Some(userId))),
      ("name", Coalesce(Field(dto, "name"), Some(JStr(name)))),
      ("email", Coalesce(Field(dto, "email"), Some(JStr(email)))),
      ("phone", Coalesce(Field(dto, "phone"), Some(JStr(phone)))),
      ("emp_id", Coalesce(Field(dto, "emp_id"), Get(prev, "emp_id"))),
      ("department", Coalesce(Field(dto, "department"), Get(prev, "department"))),
      ("about", Coalesce(Field(dto, "about"), Some(JStr(about)))),
      ("location", Coalesce(Field(dto, "location"), Get(prev, "location"))),
      ("attachment_url", Coalesce(Field(dto, "attachment_url"), Coalesce(Get(prev, "attachment_url"), uri))),
      ("createdAt", Coalesce(Field(dto, "createdAt"), Get(prev, "createdAt"))) ]
  }

  /** The record written to storage after a successful edit. */
  function Merged(prev: Record, dto: Option<Record>, userId: Json,
                  name: string, email: string, phone: string, about: string,
                  image: Option<Image>): Record
  {
    Override(prev, MergeUpdates(prev, dto, userId, name, email, phone, about, image))
  }

  lemma MergeKeysDistinct()
    ensures forall i, j :: 0 <= i < |MergeKeys| && 0 <= j < |MergeKeys| && i != j ==> MergeKeys[i] != MergeKeys[j]
  {
  }

  /** Each merged key ends up holding its override. */
  lemma MergedKey(prev: Record, dto: Option<Record>, userId: Json,
                  name: string, email: string, phone: string, about: string,
                  image: Option<Image>, i: nat)
    requires i < |MergeKeys|
    ensures Get(Merged(prev, dto, userId, name, email, phone, about, image), MergeKeys[i])
         == MergeUpdates(prev, dto, userId, name, email, phone, about, image)[i].1
  {
    MergeKeysDistinct();
    OverrideSetsKey(prev, MergeUpdates(prev, dto, userId, name, email, phone, about, image), i);
  }

  /** The stored user id is the server's `_id`, else the id that was edited. */
  lemma StoredUserId(prev: Record, dto: Option<Record>, userId: Json,
                     name: string, email: string, phone: string, about: string, image: Option<Image>)
    ensures var m := Merged(prev, dto, userId, name, email, phone, about, image);
      && (!Nullish(Field(dto, "_id")) ==> Get(m, "userID") == Field(dto, "_id"))
      && (Nullish(Field(dto, "_id")) ==> Get(m, "userID") == Some(userId))
  {
    MergedKey(prev, dto, userId, name, email, phone, about, image, 0);
  }

  /** Name, e-mail, phone and about take the server's value, else the trimmed
      value that was typed. */
  lemma StoredTypedFields(prev: Record, dto: Option<Record>, userId: Json,
                          name: string, email: string, phone: string, about: string, image: Option<Image>)
    ensures var m := Merged(prev, dto, userId, name, email, phone, about, image);
      && (!Nullish(Field(dto, "name")) ==> Get(m, "name") == Field(dto, "name"))
      && (Nullish(Field(dto, "name")) ==> Get(m, "name") == Some(JStr(name)))
      && (!Nullish(Field(dto, "email")) ==> Get(m, "email") == Field(dto, "email"))
      && (Nullish(Field(dto, "email")) ==> Get(m, "email") == Some(JStr(email)))
      && (!Nullish(Field(dto, "phone")) ==> Get(m, "phone") == Field(dto, "phone"))
      && (Nullish(Field(dto, "phone")) ==> Get(m, "phone") == Some(JStr(phone)))
      && (!Nullish(Field(dto, "about")) ==> Get(m, "about") == Field(dto, "about"))
      && (Nullish(Field(dto, "about")) ==> Get(m, "about") == Some(JStr(about)))
  {
    MergedKey(prev, dto, userId, name, email, phone, about, image, 1);
    MergedKey(prev, dto, userId, name, email, phone, about, image, 2);
    MergedKey(prev, dto, userId, name, email, phone, about, image, 3);
    MergedKey(prev, dto, userId, name, email, phone, about, image, 6);
  }

  /** Employee id, department, location and creation time take the server's
      value, else keep what was stored. */
  lemma StoredPreviousFields(prev: Record, dto: Option<Record>, userId: Json,
                             name: string, email: string, phone: string, about: string, image: Option<Image>)
    ensures var m := Merged(prev, dto, userId, name, email, phone, about, image);
      && (!Nullish(Field(dto, "emp_id")) ==> Get(m, "emp_id") == Field(dto, "emp_id"))
      && (Nullish(Field(dto, "emp_id")) ==> Get(m, "emp_id") == Get(prev, "emp_id"))
      && (!Nullish(Field(dto, "department")) ==> Get(m, "department") == Field(dto, "department"))
      && (Nullish(Field(dto, "department")) ==> Get(m, "department") == Get(prev, "department"))
      && (!Nullish(Field(dto, "location")) ==> Get(m, "location") == Field(dto, "location"))
      && (Nullish(Field(dto, "location")) ==> Get(m, "location") == Get(prev, "location"))
      && (!Nullish(Field(dto, "createdAt")) ==> Get(m, "createdAt") == Field(dto, "createdAt"))
      && (Nullish(Field(dto, "createdAt")) ==> Get(m, "createdAt") == Get(prev, "createdAt"))
  {
    MergedKey(prev, dto, userId, name, email, phone, about, image, 4);
    MergedKey(prev, dto, userId, name, email, phone, about, image, 5);
    MergedKey(prev, dto, userId, name, email, phone, about, image, 7);
    MergedKey(prev, dto, userId, name, email, phone, about, image, 9);
  }

  /** The photo URL falls back from the server's value to the stored one and
      then to the URI of the chosen photo. */
  lemma StoredAttachment(prev: Record, dto: Option<Record>, userId: Json,
                         name: string, email: string, phone: string, about: string, image: Option<Image>)
    ensures var m := Merged(prev, dto, userId, name, email, phone, about, image);
      && (!Nullish(Field(dto, "attachment_url")) ==> Get(m, "attachment_url") == Field(dto, "attachment_url"))
      && (Nullish(Field(dto, "attachment_url")) && !Nullish(Get(prev, "attachment_url")) ==>
            Get(m, "attachment_url") == Get(prev, "attachment_url"))
      && (Nullish(Field(dto, "attachment_url")) && Nullish(Get(prev, "attachment_url")) && image.Some? ==>
            Get(m, "attachment_url") == Some(JStr(image.value.uri)))
  {
    MergedKey(prev, dto, userId, name, email, phone, about, image, 8);
  }

  /** Keys the merge does not mention keep their stored value. */
  lemma StoredKeepsOthers(prev: Record, dto: Option<Record>, userId: Json,
                          name: string, email: string, phone: string, about: string, image: Option<Image>,
                          k: string)
    requires k !in MergeKeys
    ensures Get(Merged(prev, dto, userId, name, email, phone, about, image), k) == Get(prev, k)
  {
    var u := MergeUpdates(prev, dto, userId, name, email, phone, about, image);
    assert forall i :: 0 <= i < |u| ==> u[i].0 != k by {
      forall i | 0 <= i < |u| ensures u[i].0 != k {
        assert u[i].0 == MergeKeys[i];
      }
    }
    OverrideKeepsOthers(prev, u, k);
  }

  /* ---------------- submitting ---------------- */

  /** The server's answer to the edit: an error, or the updated user (which
      may come back empty). */
  datatype EditReply = Rejected | Accepted(user: Option<Record>)

  /** `editUser({ userId, data: fd })`. */
  datatype EditRequest = EditRequest(userId: Json, data: seq<Part>)

  /** What a press of "Update" leads to: nothing, a request that failed, or a
      request whose answer was stored before the screen went back. */
  datatype Outcome = NotSent | Failed(request: EditRequest) | Saved(request: EditRequest, stored: Record)

  /** `avatarInitial`: the first character, upper-cased, of the trimmed name,
      else of the trimmed e-mail, else "U"; a name or e-mail of blanks only
      shows nothing. */
  function AvatarInitial(name: string, email: string): (r: string)
    ensures |r| <= 1
    ensures name == "" && email == "" ==> r == "U"
    ensures name != "" && Trim(name) != "" ==> r == [UpperChar(Trim(name)[0])]
    ensures name == "" && Trim(email) != "" ==> r == [UpperChar(Trim(email)[0])]
    ensures name != "" && Trim(name) == "" ==> r == ""
    ensures name == "" && email != "" && Trim(email) == "" ==> r == ""
    ensures r != "" ==> !IsWhitespace(r[0])
  {
    var src := Trim(if name != "" then name else if email != "" then email else "U");
    if src == "" then "" else [UpperChar(src[0])]
  }

  /** `if (value) fd.append(key, value)`. */
  method AppendText(fd: seq<Part>, key: string, value: string) returns (fd': seq<Part>)
    ensures fd' == fd + TextPart(key, value)
  {
    fd' := fd;
    if value != "" {
      fd' := fd' + [Text(key, value)];
    }
  }

  /** The form data, appended field by field from the trimmed values. */
  method BuildFormData(sName: string, sEmail: string, sPhone: string, sAbout: string, image: Option<Image>)
    returns (fd: seq<Part>)
    ensures fd == Payload(sName, sEmail, sPhone, sAbout, image)
  {
    fd := [];
    fd := AppendText(fd, "name", sName);
    fd := AppendText(fd, "email", sEmail);
    fd := AppendText(fd, "phone", sPhone);
    fd := AppendText(fd, "about", sAbout);
    if image.Some? && image.value.uri != "" && IsLocalUri(image.value.uri) {
      var img := image.value;
      fd := fd + [Attachment(img.uri, OrDefault(img.name, "avatar.jpg"), OrDefault(img.mime, "image/jpeg"))];
    }
  }

  class ProfileForm {
    var name: string
    var email: string
    var phone: string
    var about: string
    var image: Option<Image>
    var hydrated: bool

    /** The form starts empty and not yet hydrated. */
    constructor()
      ensures name == "" && email == "" && phone == "" && about == ""
      ensures image.None? && !hydrated
    {
      name, email, phone, about := "", "", "", "";
      image := None;
      hydrated := false;
    }

    /** The hydration effect: without a user only `hydrated` is set; with one
        every field is filled with `toStr` of the stored value, and the photo
        with the stored URL when that is truthy. */
    method Hydrate(authUser: Option<Record>)
      modifies this
      ensures hydrated
      ensures authUser.None? ==>
        name == old(name) && email == old(email) && phone == old(phone) && about == old(about) && image == old(image)
      ensures authUser.Some? ==>
        && name == ToStr(Field(authUser, "name")) && email == ToStr(Field(authUser, "email"))
        && phone == ToStr(Field(authUser, "phone")) && about == ToStr(Field(authUser, "about"))
        && (Truthy(Field(authUser, "attachment_url")) ==> image == Some(Image(ToText(Field(authUser, "attachment_url")), None, None)))
        && (!Truthy(Field(authUser, "attachment_url")) ==> image.None?)
    {
      if authUser.None? {
        hydrated := true;
        return;
      }
      name := ToStr(Field(authUser, "name"));
      email := ToStr(Field(authUser, "email"));
      phone := ToStr(Field(authUser, "phone"));
      about := ToStr(Field(authUser, "about"));
      if Truthy(Field(authUser, "attachment_url")) {
        image := Some(Image(ToText(Field(authUser, "attachment_url")), None, None));
      } else {
        image := None;
      }
      hydrated := true;
    }

    /** `pickImage`'s callback: a cancelled pick, no asset or an asset
        without a URI leaves the photo as it was. */
    method PickImage(res: PickerResult, now: int)
      modifies this
      ensures PickedImage(res, now).Some? ==> image == PickedImage(res, now)
      ensures PickedImage(res, now).None? ==> image == old(image)
      ensures name == old(name) && email == old(email) && phone == old(phone) && about == old(about)
      ensures hydrated == old(hydrated)
    {
      if res.Cancelled? {
        return;
      }
      if res.assets == [] {
        return;
      }
      var asset := res.assets[0];
      if asset.uri.None? || asset.uri.value == "" {
        return;
      }
      var file := GuessName(asset.fileName, asset.mime, now);
      image := Some(Image(asset.uri.value, Some(file), Some(OrDefault(asset.mime, "image/jpeg"))));
    }

    /** `canSubmit`: a user id and something to send. */
    function CanSubmit(userId: Json): (ok: bool)
      reads this
      ensures ok <==> (Truthy(Some(userId)) &&
        (HasVisible(name) || HasVisible(email) || HasVisible(phone) || HasVisible(about) || image.Some?))
    {
      TrimEmptyIff(name);
      TrimEmptyIff(email);
      TrimEmptyIff(phone);
      TrimEmptyIff(about);
      Truthy(Some(userId)) &&
        (Trim(name) != "" || Trim(email) != "" || Trim(phone) != "" || Trim(about) != "" || image.Some?)
    }

    /** `handleSubmit`: nothing without a user id; otherwise the payload is
        sent, and on success the reply is merged over the stored record
        (`{}` when nothing was stored). */
    method Submit(userId: Json, reply: EditReply, stored: Option<Record>) returns (outcome: Outcome)
      ensures !Truthy(Some(userId)) <==> outcome.NotSent?
      ensures Truthy(Some(userId)) ==>
        outcome.request == EditRequest(userId, Payload(Trim(name), Trim(email), Trim(phone), Trim(about), image))
      ensures Truthy(Some(userId)) && reply.Rejected? ==> outcome.Failed?
      ensures Truthy(Some(userId)) && reply.Accepted? ==>
        outcome.Saved? &&
        outcome.stored == Merged(stored.GetOr(map[]), reply.user, userId,
                                 Trim(name), Trim(email), Trim(phone), Trim(about), image)
    {
      if !Truthy(Some(userId)) {
        return NotSent;
      }
      var sName, sEmail, sPhone, sAbout := Trim(name), Trim(email), Trim(phone), Trim(about);
      var fd := BuildFormData(sName, sEmail, sPhone, sAbout, image);
      var request := EditRequest(userId, fd);
      if reply.Rejected? {
        return Failed(request);
      }
      var record := Merged(stored.GetOr(map[]), reply.user, userId, sName, sEmail, sPhone, sAbout, image);
      return Saved(request, record);
    }

    /** The "Update" button: disabled unless `canSubmit` holds and no edit is
        in flight; a press runs `handleSubmit`. */
    method Press(userId: Json, isLoading: bool, reply: EditReply, stored: Option<Record>) returns (outcome: Outcome)
      ensures !CanSubmit(userId) || isLoading ==> outcome.NotSent?
      ensures CanSubmit(userId) && !isLoading ==>
        && !outcome.NotSent?
        && outcome.request == EditRequest(userId, Payload(Trim(name), Trim(email), Trim(phone), Trim(about), image))
        && (outcome.Saved? <==> reply.Accepted?)
        && (outcome.Saved? ==>
              outcome.stored == Merged(stored.GetOr(map[]), reply.user, userId,
                                       Trim(name), Trim(email), Trim(phone), Trim(about), image))
    {
      if !CanSubmit(userId) || isLoading {
        return NotSent;
      }
      outcome := Submit(userId, reply, stored);
    }
  }
}
