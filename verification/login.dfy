/**
 * The login half of the portal client (`login` in scraper_requests.py). The
 * login page is abstracted to the list of its form inputs, and the portal's
 * answer to the login POST is a function parameter: the URL the session lands
 * on, or None when the request raised.
 */
module Login {
  import opened Wrappers

  const LoginUrl := "https://siasisten.cs.ui.ac.id/login/"
  const CsrfField := "csrfmiddlewaretoken"

  /** An `<input>` of the login form. */
  datatype Input = Input(name: string, value: Option<string>)

  /** BeautifulSoup's `find("input", {"name": name})`: the first input with that name. */
  function FindInput(inputs: seq<Input>, name: string): (r: Option<Input>)
    ensures r.None? <==> forall i :: 0 <= i < |inputs| ==> inputs[i].name != name
    ensures r.Some? ==> r.value in inputs && r.value.name == name
    ensures inputs != [] && inputs[0].name == name ==> r == Some(inputs[0])
    ensures r.Some? ==> exists j :: 0 <= j < |inputs| && r == Some(inputs[j]) && forall k :: 0 <= k < j ==> inputs[k].name != name
  {
    if inputs == [] then None
    else if inputs[0].name == name then Some(inputs[0])
    else
      var r := FindInput(inputs[1..], name);
      assert r.Some? ==> exists j :: 0 <= j < |inputs| && r == Some(inputs[j]) && forall k :: 0 <= k < j ==> inputs[k].name != name by {
        if r.Some? {
          var j :| 0 <= j < |inputs[1..]| && r == Some(inputs[1..][j]) && forall k :: 0 <= k < j ==> inputs[1..][k].name != name;
          assert r == Some(inputs[j + 1]);
          forall k | 0 <= k < j + 1 ensures inputs[k].name != name {
            if k > 0 { assert inputs[k] == inputs[1..][k - 1]; }
          }
        }
      }
      r
  }

  /**
   * `login`: `loginPage` is None when fetching the login page raised, else
   * the page's inputs; `landedAt` is the URL the session lands on after
   * posting the credentials with the CSRF token found, or None when that
   * request raised. The POST is only made when the token input exists.
   */
  function Login(loginPage: Option<seq<Input>>, landedAt: Option<string>): (ok: bool)
    ensures loginPage.None? ==> !ok
    ensures loginPage.Some? && (forall i :: 0 <= i < |loginPage.value| ==> loginPage.value[i].name != CsrfField) ==> !ok
    ensures landedAt.None? || landedAt == Some(LoginUrl) ==> !ok
    ensures loginPage.Some? && FindInput(loginPage.value, CsrfField).Some? && landedAt.Some? && landedAt.value != LoginUrl ==> ok
  {
    match loginPage
    case None => false
    case Some(inputs) =>
      match FindInput(inputs, CsrfField)
      case None => false
      case Some(_) =>
        match landedAt
        case None => false
        case Some(url) => url != LoginUrl
  }
}
