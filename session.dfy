/** The client's top-level component: the logged-in user, the browser
    storage it keeps the session in, the inactivity expiry, login, logout and
    the choice of screen. Clock readings are integer milliseconds passed in. */
module Session {
  import opened Common

  /** `30 * 60 * 1000`: thirty minutes. */
  const INACTIVITY_TIMEOUT: int := 30 * 60 * 1000

  const CURRENT_USER := "currentUser"
  const LAST_ACTIVITY := "lastActivity"
  const TOKEN := "token"
  const USER := "user"

  /** The storage keys logout removes. */
  const SESSION_KEYS: set<string> := {CURRENT_USER, TOKEN, LAST_ACTIVITY, USER}

  /** The user object the login screen hands over. */
  datatype ClientUser = ClientUser(name: string, email: string, username: string, role: string, id: UserId)

  /** A stored string, by what the component reads out of it: a serialised
      user, a decimal time that `parseInt` reads back, or other text, which
      `parseInt` reads as NaN. */
  datatype Stored = UserJson(user: ClientUser) | Millis(t: int) | Text(s: string)

  /** Truthiness of `localStorage.getItem(key)`: absent is null, and only the
      empty string is a falsy string. */
  predicate Has(storage: map<string, Stored>, key: string)
  {
    key in storage && storage[key] != Text("")
  }

  /** `currentTime - parseInt(lastActivity) > INACTIVITY_TIMEOUT`; with NaN the
      comparison is false. */
  function Expired(last: Stored, now: int): bool
  {
    match last
    case Millis(t) => now - t > INACTIVITY_TIMEOUT
    case _ => false
  }

  /** Exactly thirty minutes of inactivity is not yet an expiry; one
      millisecond more is. */
  lemma ExpiryBoundary(t: int)
    ensures !Expired(Millis(t), t + 30 * 60 * 1000)
    ensures Expired(Millis(t), t + 30 * 60 * 1000 + 1)
    ensures !Expired(Text("abc"), t)
  {
  }

  /** Once a session has expired it stays expired as time goes on, and a
      later activity time never expires sooner. */
  lemma ExpiryMonotone(last: int, now: int, last': int, now': int)
    requires Expired(Millis(last), now) && now <= now' && last' <= last
    ensures Expired(Millis(last'), now')
  {
  }

  /** The screens the component can render. */
  datatype Screen = AdminDashboard | EmployeeDashboard | CreateAccountForm | LoginForm

  const ExpiredOnStartup := "Your session has expired due to inactivity. Please log in again."
  const ExpiredWhileIdle := "You have been logged out due to inactivity."

  class App {
    var currentUser: Option<ClientUser>
    var showCreateAccount: bool
    /** The browser's local storage. */
    var storage: map<string, Stored>

    /** While a user is shown as logged in, storage holds that user and a
        last-activity entry. */
    ghost predicate Valid()
      reads this
    {
      currentUser.Some? ==>
        && CURRENT_USER in storage && storage[CURRENT_USER] == UserJson(currentUser.value)
        && LAST_ACTIVITY in storage && storage[LAST_ACTIVITY].Millis?
    }

    /** The first render: nobody logged in, over whatever storage holds. */
    constructor (saved: map<string, Stored>)
      ensures Valid()
      ensures currentUser == None && !showCreateAccount && storage == saved
    {
      currentUser := None;
      showCreateAccount := false;
      storage := saved;
    }

    /** `handleLogout`: no user, and exactly the four session keys removed. */
    method HandleLogout()
      modifies this
      ensures Valid()
      ensures currentUser == None && showCreateAccount == old(showCreateAccount)
      ensures storage == old(storage) - SESSION_KEYS
      ensures forall k :: k !in SESSION_KEYS && k in old(storage) ==> k in storage && storage[k] == old(storage)[k]
      ensures Screen() == CreateAccountForm || Screen() == LoginForm
    {
      currentUser := None;
      storage := storage - {CURRENT_USER};
      storage := storage - {TOKEN};
      storage := storage - {LAST_ACTIVITY};
      storage := storage - {USER};
    }

    /** `handleLogin`: the user is shown, stored, and active as of now. */
    method HandleLogin(user: ClientUser, now: int)
      modifies this
      ensures Valid()
      ensures currentUser == Some(user) && showCreateAccount == old(showCreateAccount)
      ensures storage == old(storage)[CURRENT_USER := UserJson(user)][LAST_ACTIVITY := Millis(now)]
    {
      currentUser := Some(user);
      storage := storage[CURRENT_USER := UserJson(user)];
      storage := storage[LAST_ACTIVITY := Millis(now)];
    }

    /** The mount effect: a saved user is restored and marked active now,
        unless a readable last-activity time is more than the timeout ago, in
        which case the session is logged out with a notice. */
    method Startup(now: int) returns (notice: Option<string>)
      requires currentUser == None
      requires Has(storage, CURRENT_USER) ==> storage[CURRENT_USER].UserJson?
      modifies this
      ensures Valid() && showCreateAccount == old(showCreateAccount)
      ensures !Has(old(storage), CURRENT_USER) ==>
        notice == None && currentUser == None && storage == old(storage)
      ensures Has(old(storage), CURRENT_USER) && Has(old(storage), LAST_ACTIVITY)
              && Expired(old(storage)[LAST_ACTIVITY], now) ==>
        notice == Some(ExpiredOnStartup) && currentUser == None && storage == old(storage) - SESSION_KEYS
      ensures Has(old(storage), CURRENT_USER)
              && !(Has(old(storage), LAST_ACTIVITY) && Expired(old(storage)[LAST_ACTIVITY], now)) ==>
        && notice == None
        && currentUser == Some(old(storage)[CURRENT_USER].user)
        && storage == old(storage)[LAST_ACTIVITY := Millis(now)]
    {
      notice := None;
      var haveUser := Has(storage, CURRENT_USER);
      var haveActivity := Has(storage, LAST_ACTIVITY);
      if haveUser && haveActivity {
        if Expired(storage[LAST_ACTIVITY], now) {
          HandleLogout();
          notice := Some(ExpiredOnStartup);
        } else {
          currentUser := Some(storage[CURRENT_USER].user);
          storage := storage[LAST_ACTIVITY := Millis(now)];
        }
      } else if haveUser {
        currentUser := Some(storage[CURRENT_USER].user);
        storage := storage[LAST_ACTIVITY := Millis(now)];
      }
    }

    /** One tick of the minute timer, which runs only while a user is logged
        in: logs out iff a last-activity entry exists and is more than the
        timeout ago. Storage need not match the shown user: another tab may
        have removed the entry. */
    method CheckInactivity(now: int) returns (notice: Option<string>)
      modifies this
      ensures old(Valid()) ==> Valid()
      ensures showCreateAccount == old(showCreateAccount)
      ensures notice.Some? <==> old(currentUser).Some? && Has(old(storage), LAST_ACTIVITY)
                                && Expired(old(storage)[LAST_ACTIVITY], now)
      ensures notice.Some? ==>
        notice == Some(ExpiredWhileIdle) && currentUser == None && storage == old(storage) - SESSION_KEYS
      ensures notice.None? ==> currentUser == old(currentUser) && storage == old(storage)
    {
      notice := None;
      if currentUser.None? {
        return;
      }
      if Has(storage, LAST_ACTIVITY) {
        if Expired(storage[LAST_ACTIVITY], now) {
          HandleLogout();
          notice := Some(ExpiredWhileIdle);
        }
      }
    }

    /** The activity listeners, installed only while a user is logged in:
        any input event records now as the last activity. */
    method RecordActivity(now: int)
      modifies this
      ensures old(Valid()) ==> Valid()
      ensures currentUser == old(currentUser) && showCreateAccount == old(showCreateAccount)
      ensures old(currentUser).Some? ==> storage == old(storage)[LAST_ACTIVITY := Millis(now)]
      ensures old(currentUser).None? ==> storage == old(storage)
    {
      if currentUser.Some? {
        storage := storage[LAST_ACTIVITY := Millis(now)];
      }
    }

    /** `handleShowCreateAccount` (`open`) and `handleBackToLogin` /
        `handleAccountCreated` (`!open`). */
    method SetShowCreateAccount(open: bool)
      requires Valid()
      modifies this`showCreateAccount
      ensures Valid() && showCreateAccount == open
    {
      showCreateAccount := open;
    }

    /** The render: a dashboard by role for a logged-in admin or employee;
        otherwise (no user, or a user with another role) the account form
        when it was asked for, else the login form. */
    function Screen(): (s: Screen)
      reads this
      ensures s == AdminDashboard <==> currentUser.Some? && currentUser.value.role == ADMIN
      ensures s == EmployeeDashboard <==> currentUser.Some? && currentUser.value.role == EMPLOYEE
      ensures s == CreateAccountForm <==>
        showCreateAccount && !(currentUser.Some? && currentUser.value.role in {ADMIN, EMPLOYEE})
    {
      if currentUser.Some? && currentUser.value.role == ADMIN then AdminDashboard
      else if currentUser.Some? && currentUser.value.role == EMPLOYEE then EmployeeDashboard
      else if showCreateAccount then CreateAccountForm
      else LoginForm
    }
  }
}
