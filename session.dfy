/** The page's session state: what localStorage holds and which screen shows
    (login at script.js:37-46, the profile fetch at script.js:117-126 and
    133-136, logout at script.js:312-316, the page-start reset at
    script.js:328-332). Network replies arrive as method inputs. */
module Session {
  import opened Records
  import Token
  import TotalXp
  import Skills
  import BarChart

  const JwtKey: string := "jwt"
  const UsernameKey: string := "username"
  const LoginError: string := "Invalid login credentials"
  const FetchError: string := "Failed to fetch user data."

  /** Which of the two containers is visible; the other one is hidden. */
  datatype Screen = LoginScreen | ProfileScreen

  /** The outcome of the sign-in request: a failed request, or the reply body. */
  datatype AuthReply = Rejected | Accepted(body: string)

  /** What the profile screen derives from a fetched user. */
  datatype Metrics = Metrics(totalXp: int, pie: Skills.PieData, series: seq<BarChart.Point>)

  function MetricsOf(user: UserProfile): Metrics {
    Metrics(TotalXp.TotalXP(user.xps), Skills.PieChart(user.transactions), BarChart.ChartSeries(user.transactions))
  }

  /** The sign-in reply is stored only when it is shaped like a token. */
  function Accepts(reply: AuthReply): (ok: bool)
    ensures ok <==> reply.Accepted? && reply.body != [] && Token.Count(reply.body, Token.Dot) == 2
  {
    reply.Accepted? && Token.WellFormed(reply.body)
  }

  class Page {
    /** The page's localStorage. */
    var store: map<string, string>
    var screen: Screen
    /** The text of the error-message element. */
    var errorText: string
    /** The metrics last rendered on the profile screen, if any. */
    var shown: Option<Metrics>

    /** The profile screen is only ever reached holding a stored, well-shaped
        token and a username. */
    ghost predicate Valid()
      reads this
    {
      screen == ProfileScreen ==>
        JwtKey in store && UsernameKey in store && Token.WellFormed(store[JwtKey])
    }

    /** The page as loaded: whatever localStorage kept, the screen the markup
        shows first, an empty error message and nothing rendered. */
    constructor(persisted: map<string, string>, initial: Screen)
      ensures store == persisted && screen == initial
      ensures errorText == "" && shown == None
      ensures initial == LoginScreen ==> Valid()
    {
      store := persisted;
      screen := initial;
      errorText := "";
      shown := None;
    }

    /** The DOMContentLoaded handler: clear storage and show the login screen. */
    method PageStart()
      modifies this
      ensures store == map[] && screen == LoginScreen
      ensures errorText == old(errorText) && shown == old(shown)
      ensures Valid()
    {
      store := map[];
      screen := LoginScreen;
    }

    /** logout: clear storage and show the login screen, whatever came before. */
    method Logout()
      modifies this
      ensures store == map[] && screen == LoginScreen
      ensures errorText == old(errorText) && shown == old(shown)
      ensures Valid()
    {
      store := map[];
      screen := LoginScreen;
    }

    /** login after the sign-in request: a well-shaped token is stored with the
        typed username and the profile screen opens; anything else leaves
        storage and screen alone and shows the credentials error. */
    method Login(username: string, reply: AuthReply)
      modifies this
      ensures Accepts(reply) ==>
        store == old(store)[JwtKey := reply.body][UsernameKey := username] &&
        screen == ProfileScreen && errorText == old(errorText)
      ensures !Accepts(reply) ==>
        store == old(store) && screen == old(screen) && errorText == LoginError
      ensures shown == old(shown)
      ensures old(Valid()) ==> Valid()
    {
      if Accepts(reply) {
        store := store[JwtKey := reply.body];
        store := store[UsernameKey := username];
        screen := ProfileScreen;
      } else {
        errorText := LoginError;
      }
    }

    /** The end of fetchProfileData: a fetched user overwrites the stored
        username with its login and is rendered; a missing one shows the fetch
        error. The screen is not touched either way. */
    method ReceiveProfile(user: Option<UserProfile>)
      modifies this
      ensures user.Some? ==>
        store == old(store)[UsernameKey := user.value.login] &&
        shown == Some(MetricsOf(user.value)) && errorText == old(errorText)
      ensures user.None? ==>
        store == old(store) && shown == old(shown) && errorText == FetchError
      ensures screen == old(screen)
      ensures old(Valid()) ==> Valid()
    {
      match user {
        case Some(u) =>
          store := store[UsernameKey := u.login];
          shown := Some(MetricsOf(u));
        case None =>
          errorText := FetchError;
      }
    }
  }

  /** Page start and a good login: the profile screen shows, holding exactly
      the token and the typed username, and the session invariant holds. */
  method SignIn(persisted: map<string, string>, initial: Screen, username: string, token: string)
    returns (page: Page)
    requires Token.WellFormed(token)
    ensures fresh(page) && page.screen == ProfileScreen && page.Valid()
    ensures page.store == map[JwtKey := token, UsernameKey := username]
    ensures page.errorText == "" && page.shown == None
  {
    page := new Page(persisted, initial);
    page.PageStart();
    page.Login(username, Accepted(token));
  }

  /** A full visit: page start, a good login and a fetched profile, then logout,
      leaves storage empty on the login screen; the session invariant holds
      throughout. */
  method Visit(persisted: map<string, string>, username: string, token: string, user: UserProfile)
    returns (page: Page)
    requires Token.WellFormed(token)
    ensures fresh(page) && page.store == map[] && page.screen == LoginScreen
    ensures page.shown == Some(MetricsOf(user)) && page.Valid()
  {
    page := SignIn(persisted, ProfileScreen, username, token);
    page.ReceiveProfile(Some(user));
    assert page.screen == ProfileScreen && page.Valid();
    page.Logout();
  }
}
