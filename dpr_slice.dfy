/**
 * The DPR API slice: the records the list endpoint returns, and the request
 * descriptors of `getAllDpr`, `updateDprLog` and `getAllDprStatus`.
 */
module DprSlice {
  import opened Optional
  import opened JsText
  import opened Json
  import opened Http
  import opened FormUrlEncoding

  /** `activity_id`: absent, a bare id string, or a populated object. */
  datatype ActivityRef = NoActivity | ActivityId(id: string) | ActivityObject(objectId: string, name: Option<string>)

  /** `work_completion`; `value` is numeric when present. */
  datatype WorkCompletion = WorkCompletion(unit: Option<string>, value: Option<real>)

  /** One DPR record of the list endpoint, with the fields the screens read.
      `percentComplete` is present exactly when `percent_complete` is a number. */
  datatype DprItem = DprItem(
    id: string,
    activity: ActivityRef,
    projectCode: Option<string>,
    percentComplete: Option<real>,
    workCompletion: Option<WorkCompletion>,
    currentStatus: Option<string>,
    updatedAt: Option<string>)

  /** `GetAllDprResponse`: the `data` member may be missing. */
  datatype GetAllDprResponse = GetAllDprResponse(data: Option<seq<DprItem>>)

  /** The argument object of `getAllDpr`.  `cardStatus` is not one of the
      declared fields; the task list screen passes it anyway. */
  datatype GetAllDprArgs = GetAllDprArgs(
    page: Option<int>,
    limit: Option<int>,
    search: Option<string>,
    projectId: Option<string>,
    cardStatus: Option<string>)

  datatype QueryRequest = QueryRequest(url: string, verb: Verb)

  /** `URLSearchParams`: an ordered list of name-value pairs. */
  class SearchParams {
    var list: seq<(string, string)>

    constructor ()
      ensures list == []
    {
      list := [];
    }

    /** `params.set(name, value)`. */
    method Set(name: string, value: string)
      modifies this
      ensures list == SetPair(old(list), name, value)
    {
      list := SetPair(list, name, value);
    }

    /** `params.toString()`: empty exactly when no pair is set, and for ASCII
        pairs the text reads back as the list itself. */
    function ToString(): (s: string)
      reads this
      ensures s == "" <==> list == []
      ensures AsciiPairs(list) ==> Parse(s) == list
    {
      if AsciiPairs(list) then
        ParseSerialize(list);
        Serialize(list)
      else Serialize(list)
    }
  }

  predicate HasName(list: seq<(string, string)>, name: string) {
    exists i :: 0 <= i < |list| && list[i].0 == name
  }

  function WithoutName(list: seq<(string, string)>, name: string): (r: seq<(string, string)>)
    ensures !HasName(r, name)
  {
    if list == [] then []
    else if list[0].0 == name then WithoutName(list[1..], name)
    else [list[0]] + WithoutName(list[1..], name)
  }

  function SetFirst(list: seq<(string, string)>, name: string, value: string): seq<(string, string)> {
    if list == [] then []
    else if list[0].0 == name then [(name, value)] + WithoutName(list[1..], name)
    else [list[0]] + SetFirst(list[1..], name, value)
  }

  /** Index of the first pair named `name`, or |list| when there is none. */
  function FirstWith(list: seq<(string, string)>, name: string): (i: nat)
    ensures i <= |list| && !HasName(list[..i], name)
    ensures i < |list| ==> list[i].0 == name
    ensures i == |list| <==> !HasName(list, name)
  {
    if list == [] then 0
    else if list[0].0 == name then 0
    else
      var j := FirstWith(list[1..], name);
      assert list[..j + 1] == [list[0]] + list[1..][..j];
      assert HasName(list[1..], name) ==> HasName(list, name);
      j + 1
  }

  /** A list without the name is its own `WithoutName`. */
  lemma {:induction false} WithoutNameFree(list: seq<(string, string)>, name: string)
    requires !HasName(list, name)
    ensures WithoutName(list, name) == list
  {
    if list != [] {
      assert forall i :: 0 <= i < |list[1..]| ==> list[1..][i] == list[i + 1];
      WithoutNameFree(list[1..], name);
    }
  }

  /** Setting the first pair leaves every pair of another name in place, and
      the pair set is the only one with the name, at the first such place. */
  lemma {:induction false} SetFirstSpec(list: seq<(string, string)>, name: string, value: string)
    requires HasName(list, name)
    ensures var r := SetFirst(list, name, value); var i := FirstWith(list, name);
      && WithoutName(r, name) == WithoutName(list, name)
      && i < |r| && r[..i] == list[..i] && r[i] == (name, value)
      && !HasName(r[i + 1..], name)
  {
    var r := SetFirst(list, name, value);
    if list[0].0 == name {
      var tail := WithoutName(list[1..], name);
      assert r == [(name, value)] + tail;
      assert r[1..] == tail;
      WithoutNameFree(tail, name);
    } else {
      var i := FirstWith(list, name);
      assert HasName(list[1..], name) by {
        assert list[1..][i - 1] == list[i];
      }
      SetFirstSpec(list[1..], name, value);
      var rest := SetFirst(list[1..], name, value);
      assert r == [list[0]] + rest;
      assert r[1..] == rest;
      assert FirstWith(list[1..], name) == i - 1;
      assert r[..i] == [list[0]] + rest[..i - 1];
      assert list[..i] == [list[0]] + list[1..][..i - 1];
      assert r[i + 1..] == rest[i..];
    }
  }

  /** The `set` algorithm: the first pair with this name gets the value and
      later pairs with the name are removed; without one, the pair is appended.
      Either way the pairs of other names are untouched and exactly one pair
      has the name, carrying the new value. */
  function SetPair(list: seq<(string, string)>, name: string, value: string): (r: seq<(string, string)>)
    ensures !HasName(list, name) ==> r == list + [(name, value)]
    ensures HasName(list, name) ==> var i := FirstWith(list, name);
      && WithoutName(r, name) == WithoutName(list, name)
      && i < |r| && r[..i] == list[..i] && r[i] == (name, value)
      && !HasName(r[i + 1..], name)
  {
    if HasName(list, name) then
      SetFirstSpec(list, name, value);
      SetFirst(list, name, value)
    else list + [(name, value)]
  }

  /** The pairs `getAllDpr` sets, in order: `page` and `limit` always (default
      1 and 10), `search` when non-empty, `projectId` when truthy. */
  function QueryPairs(args: Option<GetAllDprArgs>): (pairs: seq<(string, string)>)
    ensures 2 <= |pairs| <= 4
    ensures pairs[0] == ("page", IntToString(if args.Some? then args.value.page.GetOr(1) else 1))
    ensures pairs[1] == ("limit", IntToString(if args.Some? then args.value.limit.GetOr(10) else 10))
    ensures forall i :: 2 <= i < |pairs| ==> pairs[i].0 == "search" || pairs[i].0 == "projectId"
  {
    var a := args.GetOr(GetAllDprArgs(None, None, None, None, None));
    var search := a.search.GetOr("");
    var projectId := a.projectId.GetOr("");
    [("page", IntToString(a.page.GetOr(1))), ("limit", IntToString(a.limit.GetOr(10)))]
      + (if search != "" then [("search", search)] else [])
      + (if projectId != "" then [("projectId", projectId)] else [])
  }

  /** Search is sent exactly when non-empty and projectId exactly when
      truthy, and every name is sent at most once, in the order page, limit,
      search, projectId. */
  lemma QueryPairsNames(args: Option<GetAllDprArgs>)
    ensures var pairs := QueryPairs(args);
      && (forall s :: ("search", s) in pairs <==> args.Some? && args.value.search == Some(s) && s != "")
      && (forall p :: ("projectId", p) in pairs <==> args.Some? && args.value.projectId == Some(p) && p != "")
      && (forall i :: 0 <= i < |pairs| ==> pairs[i].0 in ["page", "limit", "search", "projectId"])
      && (forall i, j :: 0 <= i < j < |pairs| ==> NameRank(pairs[i].0) < NameRank(pairs[j].0))
  {
    var a := args.GetOr(GetAllDprArgs(None, None, None, None, None));
    var search := a.search.GetOr("");
    var projectId := a.projectId.GetOr("");
    var page := ("page", IntToString(a.page.GetOr(1)));
    var limit := ("limit", IntToString(a.limit.GetOr(10)));
    var pairs := QueryPairs(args);
    if search != "" && projectId != "" {
      assert pairs == [page, limit, ("search", search), ("projectId", projectId)];
    } else if search != "" {
      assert pairs == [page, limit, ("search", search)];
    } else if projectId != "" {
      assert pairs == [page, limit, ("projectId", projectId)];
    } else {
      assert pairs == [page, limit];
    }
  }

  /** Position of a query parameter in the fixed order page, limit, search, projectId. */
  function NameRank(name: string): nat {
    if name == "page" then 0 else if name == "limit" then 1 else if name == "search" then 2 else 3
  }

  /** `getAllDpr`'s `query`: builds the parameters with successive `set`
      calls on a fresh `URLSearchParams` and returns a GET descriptor. */
  method GetAllDprQuery(args: Option<GetAllDprArgs>) returns (req: QueryRequest)
    ensures req.verb == GET
    ensures req.url == "dpr/dpr?" + Serialize(QueryPairs(args))
  {
    var a := args.GetOr(GetAllDprArgs(None, None, None, None, None));
    var page := a.page.GetOr(1);
    var limit := a.limit.GetOr(10);
    var search := a.search.GetOr("");
    var projectId := a.projectId.GetOr("");
    var params := new SearchParams();
    params.Set("page", IntToString(page));
    NotYetSet(params.list, "limit");
    params.Set("limit", IntToString(limit));
    ghost var base := [("page", IntToString(page)), ("limit", IntToString(limit))];
    assert params.list == base;
    if search != "" {
      NotYetSet(params.list, "search");
      params.Set("search", search);
    }
    ghost var withSearch := base + (if search != "" then [("search", search)] else []);
    assert params.list == withSearch;
    if projectId != "" {
      NotYetSet(params.list, "projectId");
      params.Set("projectId", projectId);
    }
    assert params.list == withSearch + (if projectId != "" then [("projectId", projectId)] else []);
    QueryPairsUnfold(args);
    req := QueryRequest("dpr/dpr?" + params.ToString(), GET);
  }

  lemma QueryPairsUnfold(args: Option<GetAllDprArgs>)
    ensures var a := args.GetOr(GetAllDprArgs(None, None, None, None, None));
      var search := a.search.GetOr("");
      var projectId := a.projectId.GetOr("");
      QueryPairs(args) ==
        [("page", IntToString(a.page.GetOr(1))), ("limit", IntToString(a.limit.GetOr(10)))]
        + (if search != "" then [("search", search)] else [])
        + (if projectId != "" then [("projectId", projectId)] else [])
  {
  }

  lemma NotYetSet(list: seq<(string, string)>, name: string)
    requires forall i :: 0 <= i < |list| ==> list[i].0 in ["page", "limit", "search"] && list[i].0 != name
    ensures !HasName(list, name)
  {
  }

  /** The list URL's query reads back as exactly the pairs that were set, so
      arguments other than page, limit, search and projectId never reach the
      server (for ASCII search and project id). */
  lemma QueryReadsBack(args: Option<GetAllDprArgs>)
    requires args.Some? ==> IsAscii(args.value.search.GetOr("")) && IsAscii(args.value.projectId.GetOr(""))
    ensures Parse(Serialize(QueryPairs(args))) == QueryPairs(args)
  {
    var pairs := QueryPairs(args);
    forall i | 0 <= i < |pairs|
      ensures IsAscii(pairs[i].0) && IsAscii(pairs[i].1)
    {
      var a := args.GetOr(GetAllDprArgs(None, None, None, None, None));
      IntToStringAscii(a.page.GetOr(1));
      IntToStringAscii(a.limit.GetOr(10));
    }
    ParseSerialize(pairs);
  }

  lemma IntToStringAscii(i: int)
    ensures IsAscii(IntToString(i))
  {
  }

  /** `cardStatus` does not affect the request. */
  lemma CardStatusIgnored(a: GetAllDprArgs, status: Option<string>)
    ensures QueryPairs(Some(a)) == QueryPairs(Some(a.(cardStatus := status)))
  {
  }

  /** The arguments of `updateDprLog`.  Every member is whatever the caller
      passed, possibly undefined. */
  datatype UpdateDprLogArgs = UpdateDprLogArgs(
    id: Option<Json>,
    projectId: Option<Json>,
    activityId: Option<Json>,
    todaysProgress: Option<Json>,
    date: Option<Json>,
    remarks: Option<Json>,
    status: Option<Json>)

  /** The PATCH body: exactly these four members (undefined ones are dropped
      when the body is serialized). */
  datatype UpdateBody = UpdateBody(todaysProgress: Option<Json>, date: Option<Json>, remarks: Option<Json>, status: Option<Json>)

  datatype UpdateRequest = UpdateRequest(url: string, verb: Verb, body: UpdateBody)

  /** `updateDprLog`'s `query`. */
  function UpdateDprLog(args: UpdateDprLogArgs): (req: UpdateRequest)
    ensures req.verb == PATCH
    ensures req.url == "dpr/" + ToText(args.id) + "/updateStatus"
    ensures req.body.todaysProgress == args.todaysProgress && req.body.date == args.date
    ensures req.body.remarks == args.remarks && req.body.status == args.status
  {
    UpdateRequest("dpr/" + ToText(args.id) + "/updateStatus", PATCH,
      UpdateBody(args.todaysProgress, args.date, args.remarks, args.status))
  }

  /** The project and activity ids are not sent: the request depends on
      neither. */
  lemma UpdateIgnoresProjectAndActivity(args: UpdateDprLogArgs, p: Option<Json>, a: Option<Json>)
    ensures UpdateDprLog(args) == UpdateDprLog(args.(projectId := p, activityId := a))
  {
  }

  /** A missing id is written as the text "undefined" by the template literal. */
  lemma UpdateWithoutId(args: UpdateDprLogArgs)
    requires args.id.None?
    ensures UpdateDprLog(args).url == "dpr/undefined/updateStatus"
  {
  }

  /** `getAllDprStatus`'s `query`. */
  function GetAllDprStatusQuery(): (req: QueryRequest)
    ensures req == QueryRequest("dpr/dpr-status", GET)
  {
    QueryRequest("dpr/dpr-status", GET)
  }

  /** Tags: both queries provide `"Project"` and the update invalidates it. */
  function ProvidedTags(): seq<Tag> { [Tag("Project", None)] }

  function UpdateInvalidatesTags(): seq<Tag> { [Tag("Project", None)] }

  /** After an update, both the list and the status counts are refetched:
      every tag either query provides is invalidated. */
  lemma UpdateRefreshesQueries()
    ensures forall t :: t in ProvidedTags() ==> t in UpdateInvalidatesTags()
  {
  }
}
