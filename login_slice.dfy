/**
 * The authentication API slice: the login call, the user list (unwrapped
 * from its `{ data }` envelope, tagged per user) and the profile edit, which
 * invalidates the edited user's tag and the list tag.  The base URL is
 * `Http.BaseUrl`, shared with the DPR slice.
 */
module LoginSlice {
  import opened Optional
  import opened Json
  import opened Http

  /** A request descriptor carrying a body of type `B`. */
  datatype Request<B> = Request(url: string, verb: Verb, body: Option<B>)

  /** `login`'s `query`: the credentials are posted unchanged. */
  function LoginQuery<B>(credentials: B): (req: Request<B>)
    ensures req.verb == POST && req.url == "/logiN-IT"
    ensures req.body == Some(credentials)
  {
    Request("/logiN-IT", POST, Some(credentials))
  }

  /** `getAllUsersIt`'s `query`: a GET without a body. */
  function UsersQuery<B>(): (req: Request<B>)
    ensures req.verb == GET && req.url == "/get-all-user-IT" && req.body.None?
  {
    Request("/get-all-user-IT", GET, None)
  }

  /** The user list's envelope `{ data }`, whose `data` may be missing. */
  datatype UsersEnvelope = UsersEnvelope(data: Option<seq<Record>>)

  /** `transformResponse`: the `data` member of the envelope. */
  function TransformUsers(res: UsersEnvelope): (users: Option<seq<Record>>)
    ensures users == res.data
  {
    res.data
  }

  const UserKind := "User"
  const ListTag := Tag(UserKind, Some("LIST"))

  /** The tag id `u._id`, read as text; an undefined id gives an id-less tag. */
  function UserTagId(u: Record): (id: Option<string>)
    ensures id.None? <==> "_id" !in u
  {
    if "_id" in u then Some(ToText(Get(u, "_id"))) else None
  }

  /** `providesTags`: one `User` tag per user, in order, then the list tag;
      only the list tag when there is no result. */
  function ProvidesUserTags(result: Option<seq<Record>>): (tags: seq<Tag>)
    ensures result.None? ==> tags == [ListTag]
    ensures result.Some? ==> |tags| == |result.value| + 1 && tags[|tags| - 1] == ListTag
    ensures result.Some? ==> forall i :: 0 <= i < |result.value| ==> tags[i] == Tag(UserKind, UserTagId(result.value[i]))
  {
    if result.None? then [ListTag] else UserTags(result.value) + [ListTag]
  }

  function UserTags(users: seq<Record>): (tags: seq<Tag>)
    ensures |tags| == |users|
    ensures forall i :: 0 <= i < |users| ==> tags[i] == Tag(UserKind, UserTagId(users[i]))
  {
    if users == [] then [] else [Tag(UserKind, UserTagId(users[0]))] + UserTags(users[1..])
  }

  /** `editUser`'s `query`: a PUT of the form data to the user's URL. */
  function EditUserQuery<B>(userId: Json, data: B): (req: Request<B>)
    ensures req.verb == PUT && req.body == Some(data)
    ensures req.url == "/edit-user/" + ToText(Some(userId))
  {
    Request("/edit-user/" + ToText(Some(userId)), PUT, Some(data))
  }

  /** `editUser`'s `invalidatesTags`: the edited user and the list. */
  function EditInvalidates(userId: Json): (tags: seq<Tag>)
    ensures tags == [Tag(UserKind, Some(ToText(Some(userId)))), ListTag]
  {
    [Tag(UserKind, Some(ToText(Some(userId)))), ListTag]
  }

  /** Every edit refetches the user list, whatever it last returned, and the
      edited user's own tag is among those the list provided whenever the
      list held that user. */
  lemma EditRefreshesUsers(userId: Json, result: Option<seq<Record>>)
    ensures ListTag in EditInvalidates(userId) && ListTag in ProvidesUserTags(result)
    ensures result.Some? && (exists u :: u in result.value && Get(u, "_id") == Some(userId)) ==>
      EditInvalidates(userId)[0] in ProvidesUserTags(result)
  {
    var tags := ProvidesUserTags(result);
    assert tags[|tags| - 1] == ListTag;
    if result.Some? && (exists u :: u in result.value && Get(u, "_id") == Some(userId)) {
      var u :| u in result.value && Get(u, "_id") == Some(userId);
      var i :| 0 <= i < |result.value| && result.value[i] == u;
      assert tags[i] == Tag(UserKind, UserTagId(u));
    }
  }
}
