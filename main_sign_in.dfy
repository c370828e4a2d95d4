/**
 * The sign-in screen's `handleLogin`: the typed credentials are checked,
 * sent to the login endpoint, the returned token is stored, the user is
 * looked up in the user list and, when found, stored as the signed-in user
 * before the app resets to its home screen.  Every failure shows a dialog.
 *
 * The login and user-list answers are parameters, as is whether a login is
 * already in flight; the two storage keys the screen writes are fields.
 */
module MainSignIn {
  import opened Optional
  import opened JsText
  import opened Json
  import Sidebar

  /** What a failed request rejects with: the HTTP status and, for answers
      that are not JSON, the original status. */
  datatype Failure = Failure(status: Option<Json>, originalStatus: Option<Json>)

  /** The login endpoint's answer: a rejection, or the (possibly empty) body. */
  datatype LoginReply = LoginFailed(err: Failure) | LoginOk(body: Option<Record>)

  /** The user-list query's answer: a rejection, or its transformed result,
      None when the wrapper carried no array. */
  datatype UsersReply = UsersFailed(err: Failure) | UsersOk(users: Option<seq<Record>>)

  datatype Credentials = Credentials(name: string, password: string)

  datatype Dialog = Dialog(title: string, message: string)

  /** What one press of "Sign in" does: the dialog it shows, the login call it
      makes, the values it stores under `authToken` and `userData`, and
      whether it reaches the home screen. */
  datatype Effect = Effect(dialog: Option<Dialog>, sent: Option<Credentials>,
                           authToken: Option<string>, userData: Option<Record>, signedIn: bool)

  const MissingFields := Dialog("Missing Fields", "Please enter both username and password.")
  const NoToken := Dialog("Error", "Token or userId not received from server.")
  const UnknownUser := Dialog("Error", "User not found in user list.")
  const WrongPassword := "Incorrect username or password."
  const NoConnection := "Unable to sign in. Check your connection and try again."

  /** A failure whose `status` or `originalStatus` is exactly 401 reads as
      wrong credentials; every other failure as a connection problem. */
  function FailureMessage(err: Failure): (msg: string)
    ensures msg == WrongPassword <==> err.status == Some(JNum(401)) || err.originalStatus == Some(JNum(401))
    ensures msg == WrongPassword || msg == NoConnection
  {
    if err.status == Some(JNum(401)) || err.originalStatus == Some(JNum(401)) then WrongPassword
    else NoConnection
  }

  function LoginFailedDialog(err: Failure): Dialog {
    Dialog("Login Failed", FailureMessage(err))
  }

  /** The keys of the record stored under `userData`. */
  const UserDataKeys: seq<string> := ["name", "email", "phone", "emp_id", "role", "createdAt", "userID"]

  /** The matched user's key each stored key is copied from. */
  function SourceKey(k: string): string {
    if k == "userID" then "_id" else k
  }

  /** The record stored under `userData`: seven fields copied from the
      matched user, `_id` becoming `userID`; `JSON.stringify` leaves out the
      ones the user lacks. */
  function UserData(u: Record): Record {
    map k | k in UserDataKeys && SourceKey(k) in u :: u[SourceKey(k)]
  }

  /** The stored record holds exactly what the matched user has of the seven
      fields, and nothing else. */
  lemma UserDataFields(u: Record)
    ensures forall k :: k in UserData(u) ==> k in UserDataKeys
    ensures forall k :: k in UserDataKeys ==> Get(UserData(u), k) == Get(u, SourceKey(k))
    ensures Get(UserData(u), "userID") == Get(u, "_id")
  {
    assert "userID" in UserDataKeys;
  }

  /** The steps of `handleLogin` after the login call succeeded. */
  function AfterLogin(body: Option<Record>, users: UsersReply): (e: Effect)
    ensures e.sent.None?
    ensures e.userData.Some? ==> e.authToken.Some?
    ensures e.signedIn <==> e.userData.Some?
    ensures e.signedIn <==> e.dialog.None?
  {
    var token := Field(body, "token");
    var userId := Field(body, "userId");
    if !Truthy(token) || !Truthy(userId) then Effect(Some(NoToken), None, None, None, false)
    else UserLookup(users, ToText(userId), ToText(token))
  }

  /** The steps after the token was stored: fetch the user list and look the
      user up by its id. */
  function UserLookup(users: UsersReply, id: string, token: string): (e: Effect)
    ensures e.sent.None? && e.authToken == Some(token)
    ensures e.signedIn <==> e.userData.Some?
    ensures e.signedIn <==> e.dialog.None?
  {
    var stored := Some(token);
    match users
    case UsersFailed(err) => Effect(Some(LoginFailedDialog(err)), None, stored, None, false)
    case UsersOk(list) =>
      if list.None? then Effect(Some(LoginFailedDialog(Failure(None, None))), None, stored, None, false)
      else
        var found := Sidebar.FindUser(list.value, id);
        if found.None? then Effect(Some(UnknownUser), None, stored, None, false)
        else Effect(None, None, stored, Some(UserData(found.value)), true)
  }

  /** `handleLogin`, as what it shows, sends and stores. */
  function Login(name: string, password: string, isLoading: bool, reply: LoginReply, users: UsersReply): (e: Effect)
    ensures Trim(name) == "" || Trim(password) == "" ==> e == Effect(Some(MissingFields), None, None, None, false)
    ensures Trim(name) != "" && Trim(password) != "" && isLoading ==> e == Effect(None, None, None, None, false)
    ensures Trim(name) != "" && Trim(password) != "" && !isLoading ==>
      e.sent == Some(Credentials(Trim(name), Trim(password)))
    ensures reply.LoginFailed? && e.sent.Some? ==> e == Effect(Some(LoginFailedDialog(reply.err)), e.sent, None, None, false)
    ensures e.authToken.Some? ==> e.sent.Some? && reply.LoginOk?
    ensures e.userData.Some? ==> e.authToken.Some?
    ensures e.signedIn <==> e.userData.Some?
    ensures e.signedIn <==> e.dialog.None? && e.sent.Some?
  {
    var user := Trim(name);
    var pass := Trim(password);
    if user == "" || pass == "" then Effect(Some(MissingFields), None, None, None, false)
    else if isLoading then Effect(None, None, None, None, false)
    else
      var sent := Some(Credentials(user, pass));
      match reply
      case LoginFailed(err) => Effect(Some(LoginFailedDialog(err)), sent, None, None, false)
      case LoginOk(body) => AfterLogin(body, users).(sent := sent)
  }

  /** A response without a token or a user id stores nothing and shows the
      server error. */
  lemma MissingTokenStoresNothing(name: string, password: string, body: Option<Record>, users: UsersReply)
    requires Trim(name) != "" && Trim(password) != ""
    requires !Truthy(Field(body, "token")) || !Truthy(Field(body, "userId"))
    ensures var e := Login(name, password, false, LoginOk(body), users);
      e.dialog == Some(NoToken) && e.authToken.None? && e.userData.None? && !e.signedIn
  {
  }

  /** When the user list does not hold the returned id the token has been
      stored but the user record has not. */
  lemma UnknownUserKeepsToken(name: string, password: string, body: Option<Record>, users: seq<Record>)
    requires Trim(name) != "" && Trim(password) != ""
    requires Truthy(Field(body, "token")) && Truthy(Field(body, "userId"))
    requires Sidebar.FindUser(users, ToText(Field(body, "userId"))).None?
    ensures var e := Login(name, password, false, LoginOk(body), UsersOk(Some(users)));
      e.dialog == Some(UnknownUser) && e.authToken == Some(ToText(Field(body, "token"))) && e.userData.None?
  {
  }

  /** A complete sign-in stores the token and the matched user's record and
      shows no dialog. */
  lemma SignedInStoresMatchedUser(name: string, password: string, body: Option<Record>, users: seq<Record>)
    requires Trim(name) != "" && Trim(password) != ""
    requires Truthy(Field(body, "token")) && Truthy(Field(body, "userId"))
    requires Sidebar.FindUser(users, ToText(Field(body, "userId"))).Some?
    ensures var e := Login(name, password, false, LoginOk(body), UsersOk(Some(users)));
      && e.signedIn && e.dialog.None?
      && e.authToken == Some(ToText(Field(body, "token")))
      && e.userData == Some(UserData(Sidebar.FindUser(users, ToText(Field(body, "userId"))).value))
  {
  }

  /** A user list that fails, or is not an array, ends in the "Login Failed"
      dialog after the token was stored. */
  lemma UserListFailureKeepsToken(name: string, password: string, body: Option<Record>, users: UsersReply)
    requires Trim(name) != "" && Trim(password) != ""
    requires Truthy(Field(body, "token")) && Truthy(Field(body, "userId"))
    requires users.UsersFailed? || users.users.None?
    ensures var e := Login(name, password, false, LoginOk(body), users);
      && e.dialog.Some? && e.dialog.value.title == "Login Failed"
      && e.authToken == Some(ToText(Field(body, "token"))) && e.userData.None?
  {
  }

  /** The screen's state: the two inputs, the dialog, the two stored keys,
      the login calls made so far and whether the app moved to its home
      screen. */
  class SignInScreen {
    var name: string
    var password: string
    var dialogVisible: bool
    var dialogTitle: string
    var dialogMessage: string
    var authToken: Option<string>
    var userData: Option<Record>
    var loginCalls: seq<Credentials>
    var atHome: bool

    /** The screen opens with empty inputs and a hidden dialog, over whatever
        storage already holds. */
    constructor(storedToken: Option<string>, storedUser: Option<Record>)
      ensures name == "" && password == "" && !dialogVisible && dialogTitle == "" && dialogMessage == ""
      ensures authToken == storedToken && userData == storedUser && loginCalls == [] && !atHome
    {
      name, password := "", "";
      dialogVisible, dialogTitle, dialogMessage := false, "", "";
      authToken, userData := storedToken, storedUser;
      loginCalls := [];
      atHome := false;
    }

    method ShowDialog(d: Dialog)
      modifies this
      ensures dialogVisible && dialogTitle == d.title && dialogMessage == d.message
      ensures name == old(name) && password == old(password) && authToken == old(authToken)
      ensures userData == old(userData) && loginCalls == old(loginCalls) && atHome == old(atHome)
    {
      dialogTitle := d.title;
      dialogMessage := d.message;
      dialogVisible := true;
    }

    /** The screen state an effect leaves behind, the login call aside. */
    predicate Applied(e: Effect, dialogVisible0: bool, dialogTitle0: string, dialogMessage0: string,
                      authToken0: Option<string>, userData0: Option<Record>, password0: string, atHome0: bool)
      reads this
    {
      && (e.dialog.Some? ==> dialogVisible && dialogTitle == e.dialog.value.title && dialogMessage == e.dialog.value.message)
      && (e.dialog.None? ==> dialogVisible == dialogVisible0 && dialogTitle == dialogTitle0 && dialogMessage == dialogMessage0)
      && authToken == (if e.authToken.Some? then e.authToken else authToken0)
      && userData == (if e.userData.Some? then e.userData else userData0)
      && password == (if e.signedIn then "" else password0)
      && atHome == (atHome0 || e.signedIn)
    }

    /** The steps after a successful login call: check the answer, store the
        token, look the user up and store it. */
    method FinishLogin(body: Option<Record>, users: UsersReply)
      modifies this
      ensures Applied(AfterLogin(body, users), old(dialogVisible), old(dialogTitle), old(dialogMessage),
                      old(authToken), old(userData), old(password), old(atHome))
      ensures name == old(name) && loginCalls == old(loginCalls)
    {
      var token := Field(body, "token");
      var userId := Field(body, "userId");
      if !Truthy(token) || !Truthy(userId) {
        ShowDialog(NoToken);
        return;
      }
      var stored := ToText(token);
      authToken := Some(stored);
      LookUpUser(users, ToText(userId), stored);
    }

    /** The user lookup, once `stored` is in storage as the token. */
    method LookUpUser(users: UsersReply, id: string, stored: string)
      requires authToken == Some(stored)
      modifies this
      ensures Applied(UserLookup(users, id, stored), old(dialogVisible), old(dialogTitle), old(dialogMessage),
                      old(authToken), old(userData), old(password), old(atHome))
      ensures name == old(name) && loginCalls == old(loginCalls)
    {
      if users.UsersFailed? {
        ShowDialog(LoginFailedDialog(users.err));
        return;
      }
      if users.users.None? {
        ShowDialog(LoginFailedDialog(Failure(None, None)));
        return;
      }
      var matched := Sidebar.FindUser(users.users.value, id);
      if matched.None? {
        ShowDialog(UnknownUser);
        return;
      }
      userData := Some(UserData(matched.value));
      password := "";
      atHome := true;
    }

    /** `handleLogin`, step by step. */
    method HandleLogin(isLoading: bool, reply: LoginReply, users: UsersReply)
      modifies this
      ensures var e := Login(old(name), old(password), isLoading, reply, users);
        && name == old(name)
        && loginCalls == old(loginCalls) + (if e.sent.Some? then [e.sent.value] else [])
        && Applied(e, old(dialogVisible), old(dialogTitle), old(dialogMessage),
                   old(authToken), old(userData), old(password), old(atHome))
    {
      var user := Trim(name);
      var pass := Trim(password);
      if user == "" || pass == "" {
        ShowDialog(MissingFields);
        return;
      }
      if isLoading {
        return;
      }
      loginCalls := loginCalls + [Credentials(user, pass)];
      if reply.LoginFailed? {
        ShowDialog(LoginFailedDialog(reply.err));
        return;
      }
      FinishLogin(reply.body, users);
    }

    method HideDialog()
      modifies this
      ensures !dialogVisible && dialogTitle == old(dialogTitle) && dialogMessage == old(dialogMessage)
      ensures name == old(name) && password == old(password) && authToken == old(authToken)
      ensures userData == old(userData) && loginCalls == old(loginCalls) && atHome == old(atHome)
    {
      dialogVisible := false;
    }
  }
}
