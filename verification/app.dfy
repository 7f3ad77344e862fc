/** The decisions the route handlers make around the store and the
    authentication layer: where to redirect, what to flash, which form value
    becomes the admin flag, and the option list of the map-location page. */
module App {
  import opened Results
  import opened Models
  import opened Auth
  import opened Sorting
  import opened Occurrences

  /** A handler's answer: a redirect to an endpoint, a rendered template,
      or an exception the handler does not catch, which the framework turns
      into an internal server error. */
  datatype Response = Redirect(endpoint: string) | Render(template: string) | ServerError

  datatype Method = Get | Post

  /** A handler's answer together with the session after it and the
      messages it flashed. */
  datatype Page = Page(response: Response, session: Session, flashes: seq<string>)

  const HomeEndpoint := "home"
  const LoginEndpoint := "login"
  const LoginTemplate := "login.html"
  const ErrorPrefix := "Error: "

  /** The web root sends a logged-in user home and anyone else to login. */
  function Index(session: Session): (r: Response)
    ensures r.Redirect?
    ensures r.endpoint == HomeEndpoint <==> session.currentUser.Some?
    ensures r.endpoint == LoginEndpoint <==> session.currentUser.None?
  {
    if session.currentUser.Some? then Redirect(HomeEndpoint) else Redirect(LoginEndpoint)
  }

  /** The login page. A GET renders the form. A POST tries to log in: on
      success it redirects to the endpoint named by the `next` argument, or
      home without one; on failure it flashes the error and renders the
      form again. `endpoints` are the names `url_for` can build a URL for:
      a `next` outside them makes `url_for` raise, which the handler does
      not catch, after the user has already been logged in. */
  function Login(
    verb: Method, username: string, password: string, next: Option<string>, endpoints: set<string>,
    users: seq<User>, checkHash: (string, string) -> bool, session: Session): (r: Page)
    ensures verb == Get ==> r == Page(Render(LoginTemplate), session, [])
    ensures verb == Post ==> r.session == Authenticate(users, username, password, checkHash, session).session
    ensures r.response.Redirect? <==>
      verb == Post && Authenticate(users, username, password, checkHash, session).result.Success?
      && (next.None? || next.value in endpoints)
    ensures r.response.Redirect? ==>
      r.response.endpoint == (if next.None? then HomeEndpoint else next.value)
      && r.session.currentUser.Some? && r.flashes == []
    ensures r.response.ServerError? <==>
      verb == Post && Authenticate(users, username, password, checkHash, session).result.Success?
      && next.Some? && next.value !in endpoints
    ensures r.response.ServerError? ==> r.session.currentUser.Some? && r.flashes == []
    ensures r.response.Render? ==> r.response.template == LoginTemplate && r.session == session
    ensures verb == Post && r.response.Render? ==>
      r.flashes == [ErrorPrefix + UnknownUserMessage] || r.flashes == [ErrorPrefix + WrongPasswordMessage]
    ensures verb == Post && FindUser(users, username).None? ==>
      r.flashes == [ErrorPrefix + UnknownUserMessage]
    ensures verb == Post && FindUser(users, username).Some? && r.response.Render? ==>
      r.flashes == [ErrorPrefix + WrongPasswordMessage]
  {
    match verb
    case Get => Page(Render(LoginTemplate), session, [])
    case Post =>
      var outcome := Authenticate(users, username, password, checkHash, session);
      match outcome.result
      case Success(_) =>
        if next.None? then Page(Redirect(HomeEndpoint), outcome.session, [])
        else if next.value in endpoints then Page(Redirect(next.value), outcome.session, [])
        else Page(ServerError, outcome.session, [])
      case Failure(e) =>
        Page(Render(LoginTemplate), outcome.session, [ErrorPrefix + ErrorText(e)])
  }

  /** After a login that succeeds, whether its redirect is built or not,
      the web root sends the user home. */
  lemma LoginThenIndexGoesHome(
    username: string, password: string, next: Option<string>, endpoints: set<string>,
    users: seq<User>, checkHash: (string, string) -> bool, session: Session)
    requires !Login(Post, username, password, next, endpoints, users, checkHash, session).response.Render?
    ensures Index(Login(Post, username, password, next, endpoints, users, checkHash, session).session)
      == Redirect(HomeEndpoint)
  {
  }

  /** `request.form.get(key)`. */
  function FormGet(form: map<string, string>, key: string): Option<string>
  {
    if key in form then Some(form[key]) else None
  }

  /** The admin flag of a new user: the checkbox value is "on" when ticked
      and the field is absent when not. */
  function AdminFlag(form: map<string, string>): (admin: bool)
    ensures admin <==> "admin-state" in form && form["admin-state"] == "on"
    ensures "admin-state" !in form ==> !admin
  {
    FormGet(form, "admin-state") == Some("on")
  }

  /** The option list of the map-location page: the location history,
      sorted, and a single empty label when there is nothing to list, so
      that the page always has an option to show. */
  function MapLocationOptions(s: Store): (r: seq<string>)
    ensures Sorted(r)
    ensures |r| > 0
    ensures |s.locations| == 0 ==> r == [""]
    ensures |s.locations| > 0 ==> multiset(r) == multiset(LocationOptions(s))
    ensures Valid(s) && |s.locations| > 0 ==> multiset(r) == multiset(Labels(s))
  {
    var sorted := Sort(LocationOptions(s));
    OptionsFacts(s);
    if |sorted| == 0 then [""] else sorted
  }

  lemma OptionsFacts(s: Store)
    ensures |s.locations| > 0 ==> |LocationOptions(s)| > 0
    ensures Valid(s) ==> LocationOptions(s) == Labels(s)
  {
    if |s.locations| > 0 {
      assert s.locations[0].name in LocationOptions(s);
    }
    if Valid(s) {
      LocationOptionsOfValid(s);
    }
  }
}
